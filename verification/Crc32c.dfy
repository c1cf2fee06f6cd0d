/**
 CRC-32C as used for cells, blocks and spans.

 A 32-bit register is a polynomial over GF(2) modulo the Castagnoli polynomial: coefficient i is bit
 31 - i of the machine word (the reflected order of section 12.1 of RFC 3720), so a machine shift
 to the right moves every coefficient up by one.  The reference definition feeds the message one
 bit at a time.  The fast forms (the carry-less product, powers by repeated squaring, appending and
 zero-extending checksums without looking at the data) are proved equal to it.
 */
module Crc32c {
  import opened Bytes
  import opened Common

  type Poly = s: seq<bool> | |s| == 32 witness seq(32, i => false)

  /** Exponents below 32 of the Castagnoli polynomial (0x82F63B78 with coefficient i in bit 31 - i). */
  predicate Tap(i: int) {
    i in {0, 6, 8, 9, 10, 11, 13, 14, 18, 19, 20, 22, 23, 25, 26, 27, 28}
  }

  function Zero(): Poly { seq(32, i => false) }
  function One(): Poly { seq(32, i => i == 0) }
  function Ones(): Poly { seq(32, i => true) }

  function Add(a: Poly, b: Poly): Poly {
    seq(32, i requires 0 <= i < 32 => a[i] != b[i])
  }

  /** Bitwise complement of the machine word. */
  function Not(a: Poly): Poly {
    seq(32, i requires 0 <= i < 32 => !a[i])
  }

  lemma AddLaws(a: Poly, b: Poly, c: Poly)
    ensures Add(Add(a, b), c) == Add(a, Add(b, c))
    ensures Add(a, b) == Add(b, a)
    ensures Add(a, Zero()) == a
    ensures Add(a, a) == Zero()
  {}

  lemma NotAdd(a: Poly, b: Poly)
    ensures Not(a) == Add(a, Ones())
    ensures Not(Not(a)) == a
    ensures Add(Not(a), b) == Not(Add(a, b))
  {}

  // ---------------------------------------------------------------- multiplication by x

  /** Multiplies by x: one step of the bit-serial CRC register. */
  function X(a: Poly): Poly {
    seq(32, i requires 0 <= i < 32 => (i > 0 && a[i - 1]) != (a[31] && Tap(i)))
  }

  /** Divides by x. */
  function XInv(a: Poly): Poly {
    seq(32, i requires 0 <= i < 32 => if i == 31 then a[0] else a[i + 1] != (a[0] && Tap(i + 1)))
  }

  function XPow(n: nat, a: Poly): Poly {
    if n == 0 then a else X(XPow(n - 1, a))
  }

  function XInvPow(n: nat, a: Poly): Poly {
    if n == 0 then a else XInv(XInvPow(n - 1, a))
  }

  /** Multiplication by x is linear and invertible. */
  lemma XLaws(a: Poly, b: Poly)
    ensures X(Add(a, b)) == Add(X(a), X(b))
    ensures X(Zero()) == Zero()
    ensures X(XInv(a)) == a
    ensures XInv(X(a)) == a
  {
    var y := XInv(a);
    forall i | 0 <= i < 32 ensures X(y)[i] == a[i] {
      if i > 0 {
        assert y[i - 1] == (a[i] != (a[0] && Tap(i)));
      }
    }
    var z := X(a);
    forall i | 0 <= i < 32 ensures XInv(z)[i] == a[i] {
      assert z[0] == a[31];
      if i < 31 {
        assert z[i + 1] == (a[i] != (a[31] && Tap(i + 1)));
      }
    }
  }

  lemma {:induction false} XPowLinear(n: nat, a: Poly, b: Poly)
    ensures XPow(n, Add(a, b)) == Add(XPow(n, a), XPow(n, b))
    ensures XPow(n, Zero()) == Zero()
  {
    hide X, Add;
    if n != 0 {
      XPowLinear(n - 1, a, b);
      XLaws(XPow(n - 1, a), XPow(n - 1, b));
    }
  }

  lemma {:induction false} XPowAdd(m: nat, n: nat, a: Poly)
    ensures XPow(m + n, a) == XPow(m, XPow(n, a))
  {
    if m != 0 {
      XPowAdd(m - 1, n, a);
    }
  }

  lemma {:induction false} XInvPowAdd(m: nat, n: nat, a: Poly)
    ensures XInvPow(m + n, a) == XInvPow(m, XInvPow(n, a))
  {
    if m != 0 {
      XInvPowAdd(m - 1, n, a);
    }
  }

  lemma {:induction false} XInvPowUndoes(n: nat, a: Poly)
    ensures XInvPow(n, XPow(n, a)) == a
  {
    hide X, XInv;
    if n != 0 {
      XInvPowAdd(n - 1, 1, XPow(n, a));
      XLaws(XPow(n - 1, a), Zero());
      assert XInvPow(1, XPow(n, a)) == XInv(XInvPow(0, XPow(n, a)));
      XInvPowUndoes(n - 1, a);
    }
  }

  // ---------------------------------------------------------------- multiplication modulo the polynomial

  /** The sum of x^i * b over the coefficients i < k of a. */
  function MulTo(k: nat, a: Poly, b: Poly): Poly
    requires k <= 32
  {
    if k == 0 then Zero()
    else if a[k - 1] then Add(MulTo(k - 1, a, b), XPow(k - 1, b))
    else MulTo(k - 1, a, b)
  }

  /** The product of two polynomials modulo the Castagnoli polynomial. */
  function Mul(a: Poly, b: Poly): Poly {
    MulTo(32, a, b)
  }

  /** Multiplying commutes with multiplying by x. */
  lemma {:induction false} MulToX(k: nat, a: Poly, b: Poly)
    requires k <= 32
    ensures MulTo(k, a, X(b)) == X(MulTo(k, a, b))
  {
    hide X, XInv, Add;
    XLaws(Zero(), Zero());
    if k != 0 {
      MulToX(k - 1, a, b);
      XLaws(MulTo(k - 1, a, b), XPow(k - 1, b));
      XPowAdd(k - 1, 1, b);
      assert XPow(1, b) == X(XPow(0, b));
    }
  }

  lemma {:induction false} MulXPow(a: Poly, n: nat, b: Poly)
    ensures Mul(a, XPow(n, b)) == XPow(n, Mul(a, b))
  {
    hide X, MulTo;
    if n != 0 {
      MulXPow(a, n - 1, b);
      MulToX(32, a, XPow(n - 1, b));
    }
  }

  lemma {:induction false} MulXInvPow(a: Poly, n: nat, b: Poly)
    ensures Mul(a, XInvPow(n, b)) == XInvPow(n, Mul(a, b))
  {
    hide X, XInv, MulTo;
    if n != 0 {
      MulXInvPow(a, n - 1, b);
      var c := XInvPow(n - 1, b);
      MulToX(32, a, XInv(c));
      XLaws(c, Zero());
      XLaws(Mul(a, XInv(c)), Zero());
    }
  }

  lemma {:induction false} XPowOne(k: nat)
    requires k < 32
    ensures XPow(k, One()) == seq(32, i => i == k)
  {
    if k != 0 {
      XPowOne(k - 1);
    }
  }

  lemma {:induction false} MulToOne(k: nat, a: Poly)
    requires k <= 32
    ensures MulTo(k, a, One()) == seq(32, i requires 0 <= i < 32 => i < k && a[i])
  {
    if k != 0 {
      MulToOne(k - 1, a);
      XPowOne(k - 1);
    }
  }

  /** 1 is the unit, multiplying by x^n is n steps of the register, and by x^-n undoes n steps. */
  lemma {:induction false} MulByPower(a: Poly, n: nat)
    ensures Mul(a, XPow(n, One())) == XPow(n, a)
    ensures Mul(a, XInvPow(n, One())) == XInvPow(n, a)
  {
    MulXPow(a, n, One());
    MulXInvPow(a, n, One());
    MulToOne(32, a);
    assert Mul(a, One()) == a;
  }

  // ---------------------------------------------------------------- the product as the code computes it

  type Poly64 = s: seq<bool> | |s| == 64 witness seq(64, i => false)

  function Xor64(c: Poly64, d: Poly64): Poly64 {
    seq(64, i requires 0 <= i < 64 => c[i] != d[i])
  }

  /** Reduces a 64-bit product: 32 register steps on the low word, folded into the high word. */
  function ModP(c: Poly64): Poly {
    Add(XPow(32, c[32..]), c[..32])
  }

  lemma ModPXor(c: Poly64, d: Poly64)
    ensures ModP(Xor64(c, d)) == Add(ModP(c), ModP(d))
  {
    assert Xor64(c, d)[32..] == Add(c[32..], d[32..]);
    assert Xor64(c, d)[..32] == Add(c[..32], d[..32]);
    XPowLinear(32, c[32..], d[32..]);
  }

  function Taps(): Poly {
    seq(32, i => Tap(i))
  }

  lemma XPow32One()
    ensures XPow(32, One()) == Taps()
  {
    XPowOne(31);
    assert XPow(32, One()) == X(XPow(31, One()));
    assert X(XPow(31, One())) == Taps();
  }

  function Shifted64(b: Poly64): Poly64 {
    [false] + b[..63]
  }

  /** Shifting the double word moves the top coefficient of the high word into the low word. */
  lemma ShiftWords(b: Poly64, hi: Poly, lo: Poly)
    requires hi == b[..32] && lo == b[32..] && !lo[31]
    ensures Shifted64(b)[32..] == Add(X(lo), if hi[31] then One() else Zero())
    ensures X(hi) == Add(Shifted64(b)[..32], if hi[31] then Taps() else Zero())
  {}

  lemma {:induction false} XPowX(n: nat, a: Poly)
    ensures XPow(n, X(a)) == X(XPow(n, a))
  {
    hide X;
    if n != 0 {
      XPowX(n - 1, a);
    }
  }

  lemma ShiftAlgebra(l: Poly, h: Poly, p: Poly)
    ensures Add(Add(l, p), h) == Add(l, Add(h, p))
  {}

  /** Multiplying the double word by x multiplies its residue by x. */
  lemma ModPShift(b: Poly64)
    requires !b[63]
    ensures ModP(Shifted64(b)) == X(ModP(b))
  {
    var hi: Poly, lo: Poly := b[..32], b[32..];
    var hi': Poly := Shifted64(b)[..32];
    ShiftWords(b, hi, lo);
    XPow32One();
    XPowLinear(32, X(lo), if hi[31] then One() else Zero());
    XPowX(32, lo);
    XLaws(XPow(32, lo), hi);
    ShiftAlgebra(X(XPow(32, lo)), hi', if hi[31] then Taps() else Zero());
  }

  lemma ModPHigh(b0: Poly)
    ensures ModP(b0 + Zero()) == b0
  {
    assert (b0 + Zero())[32..] == Zero() && (b0 + Zero())[..32] == b0;
    XPowLinear(32, Zero(), Zero());
    AddLaws(Zero(), b0, Zero());
    AddLaws(b0, Zero(), Zero());
  }

  /** The 32-step carry-less product loop; reduced, it is the product modulo the polynomial. */
  method CarrylessMul(a0: Poly, b0: Poly) returns (c: Poly64)
    ensures ModP(c) == Mul(a0, b0)
  {
    hide X, Add, ModP, Xor64;
    var a := a0;
    var b: Poly64 := b0 + Zero();
    c := Zero() + Zero();
    ModPHigh(b0);
    ModPHigh(Zero());
    for i := 0 to 32
      invariant forall j :: 0 <= j < 32 - i ==> a[j] == a0[i + j]
      invariant forall j :: 32 + i <= j < 64 ==> !b[j]
      invariant ModP(b) == XPow(i, b0)
      invariant ModP(c) == MulTo(i, a0, b0)
    {
      if a[0] {
        ModPXor(c, b);
        c := Xor64(c, b);
      }
      ModPShift(b);
      a := a[1..] + [false];
      b := Shifted64(b);
    }
  }

  method MulModP(a: Poly, b: Poly) returns (r: Poly)
    ensures r == Mul(a, b)
  {
    var c := CarrylessMul(a, b);
    r := ModP(c);
  }

  // ---------------------------------------------------------------- powers of x

  function Pow2(k: nat): (p: nat)
    ensures p > 0
  {
    if k == 0 then 1 else 2 * Pow2(k - 1)
  }

  lemma HalfStep(n: nat, done: nat, p: nat, m: nat)
    requires n == done + p * m
    ensures n == done + (if m % 2 == 1 then p else 0) + 2 * p * (m / 2)
  {
    var h := m / 2;
    if m % 2 == 1 {
      assert p * (2 * h + 1) == 2 * p * h + p;
    } else {
      assert p * (2 * h) == 2 * p * h;
    }
  }

  lemma {:induction false} PowerStep(m: nat, n: nat)
    ensures Mul(XPow(8 * m, One()), XPow(8 * n, One())) == XPow(8 * (m + n), One())
  {
    hide X, Mul;
    MulByPower(XPow(8 * m, One()), 8 * n);
    XPowAdd(8 * n, 8 * m, One());
    assert 8 * n + 8 * m == 8 * (m + n);
  }

  lemma {:induction false} InversePowerStep(m: nat, n: nat)
    ensures Mul(XInvPow(8 * m, One()), XInvPow(8 * n, One())) == XInvPow(8 * (m + n), One())
  {
    hide XInv, Mul;
    MulByPower(XInvPow(8 * m, One()), 8 * n);
    XInvPowAdd(8 * n, 8 * m, One());
    assert 8 * n + 8 * m == 8 * (m + n);
  }

  // ---------------------------------------------------------------- machine words and the tables

  predicate Odd(w: bv32) {
    w & 1 != 0
  }

  function Half(w: bv32): bv32 {
    w >> 1
  }

  function Xor(v: bv32, w: bv32): bv32 {
    v ^ w
  }

  /** The coefficients of a word's lowest n bits; the lowest bit is the highest coefficient. */
  function Low(w: bv32, n: nat): (s: seq<bool>)
    ensures |s| == n
  {
    if n == 0 then [] else Low(Half(w), n - 1) + [Odd(w)]
  }

  /** The polynomial that a machine word stands for. */
  function OfWord(w: bv32): Poly {
    Low(w, 32)
  }

  /** One step of the register on a machine word. */
  function WordX(w: bv32): bv32 {
    if w & 1 != 0 then (w >> 1) ^ 0x82F63B78 else w >> 1
  }

  lemma WordXParts(w: bv32)
    ensures WordX(w) == if Odd(w) then Xor(Half(w), 0x82F63B78) else Half(w)
  {
  }

  lemma XorParts(v: bv32, w: bv32)
    ensures Half(Xor(v, w)) == Xor(Half(v), Half(w)) && (Odd(Xor(v, w)) <==> Odd(v) != Odd(w))
  {
  }

  lemma {:induction false} LowXor(v: bv32, w: bv32, n: nat)
    ensures forall i | 0 <= i < n :: Low(Xor(v, w), n)[i] == (Low(v, n)[i] != Low(w, n)[i])
    decreases n
  {
    hide Odd, Half, Xor;
    if n > 0 {
      XorParts(v, w);
      LowXor(Half(v), Half(w), n - 1);
    }
  }

  lemma WordXor(v: bv32, w: bv32)
    ensures OfWord(Xor(v, w)) == Add(OfWord(v), OfWord(w))
  {
    hide Low, Xor;
    LowXor(v, w, 32);
  }

  /** The word shifted right n times. */
  function Halves(w: bv32, n: nat): bv32 {
    if n == 0 then w else Halves(Half(w), n - 1)
  }

  lemma {:induction false} HalvesAdd(w: bv32, m: nat, n: nat)
    ensures Halves(w, m + n) == Halves(Halves(w, m), n)
    decreases m
  {
    hide Half;
    if m > 0 {
      HalvesAdd(Half(w), m - 1, n);
    }
  }

  lemma {:induction false} LowSplit(w: bv32, m: nat, n: nat)
    ensures Low(w, m + n) == Low(Halves(w, n), m) + Low(w, n)
    decreases n
  {
    hide Half, Odd;
    if n == 0 {
      assert Low(w, m) + [] == Low(w, m);
    } else {
      LowSplit(Half(w), m, n - 1);
      assert Low(w, m + n) == Low(Half(w), m + n - 1) + [Odd(w)];
    }
  }

  lemma {:induction false} Halves8(w: bv32)
    ensures Halves(w, 8) == (w >> 4) >> 4
  {
    hide Half, Halves;
    Halves4(w);
    Halves4(w >> 4);
    Half4(w);
    Half4(w >> 4);
    HalvesAdd(w, 4, 4);
  }

  lemma {:induction false} Halves4(w: bv32)
    ensures Halves(w, 4) == Half(Half(Half(Half(w))))
  {
    hide Half;
    var a, b, c := Half(w), Half(Half(w)), Half(Half(Half(w)));
    assert Halves(c, 1) == Halves(Half(c), 0);
    assert Halves(b, 2) == Halves(c, 1);
    assert Halves(a, 3) == Halves(b, 2);
  }

  lemma Half4(w: bv32)
    ensures Half(Half(Half(Half(w)))) == w >> 4
  {
  }

  lemma {:induction false} Halves32(w: bv32)
    ensures Halves(w, 32) == 0
  {
    hide Half, Halves;
    var a := Halves(w, 8);
    var b := Halves(a, 8);
    var c := Halves(b, 8);
    Halves8(w);
    Halves8(a);
    Halves8(b);
    Halves8(c);
    HalvesAdd(w, 8, 24);
    HalvesAdd(a, 8, 16);
    HalvesAdd(b, 8, 8);
    ShiftedOut(w);
  }

  lemma ShiftedOut(w: bv32)
    ensures (((((((w >> 4) >> 4) >> 4) >> 4) >> 4) >> 4) >> 4) >> 4 == 0
  {
  }

  lemma {:induction false} ShiftedWord(w: bv32)
    ensures OfWord(Half(w)) == [false] + OfWord(w)[..31] && OfWord(w)[31] == Odd(w)
  {
    assert !Odd(0);
    hide Half, Odd;
    Halves32(w);
    LowSplit(Half(w), 1, 31);
    assert Low(0, 1) == Low(Half(0), 0) + [Odd(0)];
  }

  function Low4(w: bv32): seq<bool> {
    [Odd(Half(Half(Half(w)))), Odd(Half(Half(w))), Odd(Half(w)), Odd(w)]
  }

  lemma {:induction false} Low4Is(w: bv32)
    ensures Low(w, 4) == Low4(w)
  {
    hide Half, Odd;
    var a, b, c := Half(w), Half(Half(w)), Half(Half(Half(w)));
    assert Low(c, 1) == Low(Half(c), 0) + [Odd(c)];
    assert Low(b, 2) == Low(c, 1) + [Odd(b)];
    assert Low(a, 3) == Low(b, 2) + [Odd(a)];
  }

  lemma {:induction false} Low8Is(w: bv32)
    ensures Low(w, 8) == Low4(w >> 4) + Low4(w)
  {
    hide Half, Odd, Low, Low4, Halves;
    Halves4(w);
    Half4(w);
    LowSplit(w, 4, 4);
    Low4Is(w);
    Low4Is(w >> 4);
  }

  lemma TapsWord()
    ensures OfWord(0x82F63B78) == Taps()
  {
    assert Low4(0x82F63B78) == [true, false, false, false] && Low4(0x82F63B78 >> 4) == [false, true, true, true];
    assert Low4(0x82F63B) == [true, false, true, true] && Low4(0x82F63B >> 4) == [false, false, true, true];
    assert Low4(0x82F6) == [false, true, true, false] && Low4(0x82F6 >> 4) == [true, true, true, true];
    assert Low4(0x82) == [false, false, true, false] && Low4(0x82 >> 4) == [true, false, false, false];
    hide Low, Low4;
    Low8Is(0x82F63B78);
    Low8Is(0x82F63B);
    Low8Is(0x82F6);
    Low8Is(0x82);
    Bytewise(0x82F63B78, 0x82F63B, 0x82F6, 0x82);
  }

  /** Each word is the one before shifted by a byte. */
  lemma {:induction false} Bytewise(w: bv32, x: bv32, y: bv32, z: bv32)
    requires x == (w >> 4) >> 4 && y == (x >> 4) >> 4 && z == (y >> 4) >> 4
    ensures OfWord(w) == Low(z, 8) + Low(y, 8) + Low(x, 8) + Low(w, 8)
  {
    hide Half, Odd, Low, Halves;
    Halves8(w);
    Halves8(x);
    Halves8(y);
    LowSplit(w, 24, 8);
    LowSplit(x, 16, 8);
    LowSplit(y, 8, 8);
  }

  /** The word step multiplies by x. */
  lemma WordXIsX(w: bv32)
    ensures OfWord(WordX(w)) == X(OfWord(w))
  {
    hide Low, Half, Odd, Xor, WordX;
    WordXParts(w);
    ShiftedWord(w);
    TapsWord();
    WordXor(Half(w), 0x82F63B78);
    var p := OfWord(w);
    var q: Poly := [false] + p[..31];
    assert X(p) == if p[31] then Add(q, Taps()) else q;
  }

  /** A product in progress: the coefficients of `a` are taken from the highest down. */
  datatype Product = Product(r: bv32, a: bv32)

  /** `b`, if the highest coefficient of `a` is set. */
  function Pick(a: bv32, b: bv32): bv32 {
    if a & 1 != 0 then b else 0
  }

  lemma PickParts(a: bv32, b: bv32)
    ensures Pick(a, b) == if Odd(a) then b else 0
  {
  }

  function Times1(p: Product, b: bv32): Product {
    Product(Xor(WordX(p.r), Pick(p.a, b)), Half(p.a))
  }

  function Times2(p: Product, b: bv32): Product { Times1(Times1(p, b), b) }
  function Times4(p: Product, b: bv32): Product { Times2(Times2(p, b), b) }
  function Times8(p: Product, b: bv32): Product { Times4(Times4(p, b), b) }
  function Times16(p: Product, b: bv32): Product { Times8(Times8(p, b), b) }

  /** The product of two words, as 32 steps that do not recurse. */
  function WordMul(a: bv32, b: bv32): bv32 {
    Times16(Times16(Product(0, a), b), b).r
  }

  /** The same steps, any number of them. */
  function Times(n: nat, p: Product, b: bv32): Product {
    if n == 0 then p else Times(n - 1, Times1(p, b), b)
  }

  lemma {:induction false} TimesAdd(m: nat, n: nat, p: Product, b: bv32)
    ensures Times(m + n, p, b) == Times(n, Times(m, p, b), b)
    decreases m
  {
    hide Times1;
    if m > 0 {
      TimesAdd(m - 1, n, Times1(p, b), b);
    }
  }

  lemma {:induction false} Times4Is(p: Product, b: bv32)
    ensures Times4(p, b) == Times(4, p, b)
  {
    hide Times1;
    var q := Times1(Times1(p, b), b);
    assert Times(1, Times1(q, b), b) == Times(0, Times1(Times1(q, b), b), b);
    assert Times(2, q, b) == Times(1, Times1(q, b), b);
    assert Times(3, Times1(p, b), b) == Times(2, q, b);
  }

  lemma {:induction false} Times8Is(p: Product, b: bv32)
    ensures Times8(p, b) == Times(8, p, b)
  {
    hide Times, Times4;
    Times4Is(p, b);
    Times4Is(Times4(p, b), b);
    TimesAdd(4, 4, p, b);
  }

  lemma {:induction false} Times32Is(p: Product, b: bv32)
    ensures Times16(Times16(p, b), b) == Times(32, p, b)
  {
    hide Times, Times8;
    var q := Times16(p, b);
    Times8Is(p, b);
    Times8Is(Times8(p, b), b);
    Times8Is(q, b);
    Times8Is(Times8(q, b), b);
    TimesAdd(8, 24, p, b);
    TimesAdd(8, 16, Times8(p, b), b);
    TimesAdd(8, 8, q, b);
  }

  /** n steps add the products of the lowest n coefficients and move what was there up. */
  lemma {:induction false} TimesIsMul(n: nat, p: Product, b: bv32, a: Poly)
    requires n <= 32 && Low(p.a, n) == a[..n]
    ensures OfWord(Times(n, p, b).r) == Add(MulTo(n, a, OfWord(b)), XPow(n, OfWord(p.r)))
    decreases n
  {
    hide X, Add, WordX, OfWord, Odd, Half, Xor, Pick;
    if n == 0 {
      AddLaws(Zero(), OfWord(p.r), Zero());
      AddLaws(OfWord(p.r), Zero(), Zero());
    } else {
      var p1, ob := Times1(p, b), OfWord(b);
      TopCoefficient(p.a, n, a);
      TimesIsMul(n - 1, p1, b, a);
      TimesStep(p, b, n - 1, a[n - 1]);
      TimesAlgebra(MulTo(n - 1, a, ob), XPow(n, OfWord(p.r)), XPow(n - 1, ob));
    }
  }

  lemma {:induction false} TopCoefficient(w: bv32, n: nat, a: Poly)
    requires 0 < n <= 32 && Low(w, n) == a[..n]
    ensures Low(Half(w), n - 1) == a[..n - 1] && Odd(w) == a[n - 1]
  {
    hide Odd, Half;
    assert a[..n][..n - 1] == a[..n - 1] && a[..n][n - 1] == a[n - 1];
    assert Low(w, n)[..n - 1] == Low(Half(w), n - 1);
  }

  /** What one step contributes when n more follow. */
  lemma {:induction false} TimesStep(p: Product, b: bv32, n: nat, c: bool)
    requires Odd(p.a) == c
    ensures XPow(n, OfWord(Times1(p, b).r))
      == Add(XPow(n + 1, OfWord(p.r)), if c then XPow(n, OfWord(b)) else Zero())
  {
    hide X, Add, WordX, OfWord, Odd, Half, Xor, Pick;
    var xr := X(OfWord(p.r));
    PickParts(p.a, b);
    WordXIsX(p.r);
    WordXor(WordX(p.r), if c then b else 0);
    WordZero();
    XPowLinear(n, xr, if c then OfWord(b) else Zero());
    XPowX(n, OfWord(p.r));
  }

  lemma {:induction false} WordZero()
    ensures OfWord(0) == Zero()
  {
    assert Xor(0, 0) == 0;
    hide Xor, OfWord;
    WordXor(0, 0);
    AddLaws(OfWord(0), Zero(), Zero());
  }

  lemma TimesAlgebra(m: Poly, r: Poly, t: Poly)
    ensures Add(m, Add(r, t)) == Add(Add(m, t), r) && Add(m, Add(r, Zero())) == Add(m, r)
  {
  }

  /** The word product is the product of the polynomials. */
  lemma {:induction false} WordMulIsMul(a: bv32, b: bv32)
    ensures OfWord(WordMul(a, b)) == Mul(OfWord(a), OfWord(b))
  {
    hide Times16, Times, X, Add, Low, MulTo;
    var p := Product(0, a);
    Times32Is(p, b);
    var pa: Poly := OfWord(a);
    assert pa[..32] == Low(a, 32);
    TimesIsMul(32, p, b, pa);
    WordZero();
    XPowLinear(32, Zero(), Zero());
    AddLaws(Mul(pa, OfWord(b)), Zero(), Zero());
  }

  /** Entry k of the power table; squaring entry 30 gives entry 0 again, and the table of the code goes on so. */
  function Power(k: nat): bv32 {
    match k % 31
    case 0 => 0x00800000 case 1 => 0x00008000 case 2 => 0x82f63b78 case 3 => 0x6ea2d55c
    case 4 => 0x18b8ea18 case 5 => 0x510ac59a case 6 => 0xb82be955 case 7 => 0xb8fdb1e7
    case 8 => 0x88e56f72 case 9 => 0x74c360a4 case 10 => 0xe4172b16 case 11 => 0x0d65762a
    case 12 => 0x35d73a62 case 13 => 0x28461564 case 14 => 0xbf455269 case 15 => 0xe2ea32dc
    case 16 => 0xfe7740e6 case 17 => 0xf946610b case 18 => 0x3c204f8f case 19 => 0x538586e3
    case 20 => 0x59726915 case 21 => 0x734d5309 case 22 => 0xbc1ac763 case 23 => 0x7d0722cc
    case 24 => 0xd289cabe case 25 => 0xe94ca9bc case 26 => 0x05b74f3f case 27 => 0xa51e1f42
    case 28 => 0x40000000 case 29 => 0x20000000 case _ => 0x08000000
  }

  function InversePower(k: nat): bv32 {
    match k % 31
    case 0 => 0xfde39562 case 1 => 0xbef0965e case 2 => 0xd610d67e case 3 => 0xe67cce65
    case 4 => 0xa268b79e case 5 => 0x134fb088 case 6 => 0x32998d96 case 7 => 0xcedac2cc
    case 8 => 0x70118575 case 9 => 0x0e004a40 case 10 => 0xa7864c8b case 11 => 0xbc7be916
    case 12 => 0x10ba2894 case 13 => 0x6077197b case 14 => 0x98448e4e case 15 => 0x8baf845d
    case 16 => 0xe93e07fc case 17 => 0xf58027d7 case 18 => 0x5e2b422d case 19 => 0x9db2851c
    case 20 => 0x9270ed25 case 21 => 0x5984e7b3 case 22 => 0x7af026f1 case 23 => 0xe0f4116b
    case 24 => 0xace8a6b0 case 25 => 0x9e09f006 case 26 => 0x6a60ea71 case 27 => 0x4fd04875
    case 28 => 0x05ec76f1 case 29 => 0x0bd8ede2 case _ => 0x2f63b788
  }

  predicate Squared(v: bv32, w: bv32) {
    WordMul(v, v) == w
  }

  lemma PowersSquare0()
    ensures WordMul(0x00800000, 0x00800000) == 0x00008000
    ensures WordMul(0x00008000, 0x00008000) == 0x82f63b78
    ensures WordMul(0x82f63b78, 0x82f63b78) == 0x6ea2d55c
  {
  }

  lemma PowersSquare1()
    ensures WordMul(0x6ea2d55c, 0x6ea2d55c) == 0x18b8ea18
    ensures WordMul(0x18b8ea18, 0x18b8ea18) == 0x510ac59a
    ensures WordMul(0x510ac59a, 0x510ac59a) == 0xb82be955
  {
  }

  lemma PowersSquare2()
    ensures WordMul(0xb82be955, 0xb82be955) == 0xb8fdb1e7
    ensures WordMul(0xb8fdb1e7, 0xb8fdb1e7) == 0x88e56f72
    ensures WordMul(0x88e56f72, 0x88e56f72) == 0x74c360a4
  {
  }

  lemma PowersSquare3()
    ensures WordMul(0x74c360a4, 0x74c360a4) == 0xe4172b16
    ensures WordMul(0xe4172b16, 0xe4172b16) == 0x0d65762a
    ensures WordMul(0x0d65762a, 0x0d65762a) == 0x35d73a62
  {
  }

  lemma PowersSquare4()
    ensures WordMul(0x35d73a62, 0x35d73a62) == 0x28461564
    ensures WordMul(0x28461564, 0x28461564) == 0xbf455269
    ensures WordMul(0xbf455269, 0xbf455269) == 0xe2ea32dc
  {
  }

  lemma PowersSquare5()
    ensures WordMul(0xe2ea32dc, 0xe2ea32dc) == 0xfe7740e6
    ensures WordMul(0xfe7740e6, 0xfe7740e6) == 0xf946610b
    ensures WordMul(0xf946610b, 0xf946610b) == 0x3c204f8f
  {
  }

  lemma PowersSquare6()
    ensures WordMul(0x3c204f8f, 0x3c204f8f) == 0x538586e3
    ensures WordMul(0x538586e3, 0x538586e3) == 0x59726915
    ensures WordMul(0x59726915, 0x59726915) == 0x734d5309
  {
  }

  lemma PowersSquare7()
    ensures WordMul(0x734d5309, 0x734d5309) == 0xbc1ac763
    ensures WordMul(0xbc1ac763, 0xbc1ac763) == 0x7d0722cc
    ensures WordMul(0x7d0722cc, 0x7d0722cc) == 0xd289cabe
  {
  }

  lemma PowersSquare8()
    ensures WordMul(0xd289cabe, 0xd289cabe) == 0xe94ca9bc
    ensures WordMul(0xe94ca9bc, 0xe94ca9bc) == 0x05b74f3f
    ensures WordMul(0x05b74f3f, 0x05b74f3f) == 0xa51e1f42
  {
  }

  lemma PowersSquare9()
    ensures WordMul(0xa51e1f42, 0xa51e1f42) == 0x40000000
    ensures WordMul(0x40000000, 0x40000000) == 0x20000000
    ensures WordMul(0x20000000, 0x20000000) == 0x08000000
  {
  }

  lemma PowersSquare10()
    ensures WordMul(0x08000000, 0x08000000) == 0x00800000
  {
  }

  lemma PowersSquare(k: nat)
    ensures Squared(Power(k), Power(k + 1))
  {
    hide WordMul;
    var i := k % 31;
    if i < 3 {
      PowersSquare0();
    } else if i < 6 {
      PowersSquare1();
    } else if i < 9 {
      PowersSquare2();
    } else if i < 12 {
      PowersSquare3();
    } else if i < 15 {
      PowersSquare4();
    } else if i < 18 {
      PowersSquare5();
    } else if i < 21 {
      PowersSquare6();
    } else if i < 24 {
      PowersSquare7();
    } else if i < 27 {
      PowersSquare8();
    } else if i < 30 {
      PowersSquare9();
    } else if i < 33 {
      PowersSquare10();
    }
  }

  lemma InversesSquare0()
    ensures WordMul(0xfde39562, 0xfde39562) == 0xbef0965e
    ensures WordMul(0xbef0965e, 0xbef0965e) == 0xd610d67e
    ensures WordMul(0xd610d67e, 0xd610d67e) == 0xe67cce65
  {
  }

  lemma InversesSquare1()
    ensures WordMul(0xe67cce65, 0xe67cce65) == 0xa268b79e
    ensures WordMul(0xa268b79e, 0xa268b79e) == 0x134fb088
    ensures WordMul(0x134fb088, 0x134fb088) == 0x32998d96
  {
  }

  lemma InversesSquare2()
    ensures WordMul(0x32998d96, 0x32998d96) == 0xcedac2cc
    ensures WordMul(0xcedac2cc, 0xcedac2cc) == 0x70118575
    ensures WordMul(0x70118575, 0x70118575) == 0x0e004a40
  {
  }

  lemma InversesSquare3()
    ensures WordMul(0x0e004a40, 0x0e004a40) == 0xa7864c8b
    ensures WordMul(0xa7864c8b, 0xa7864c8b) == 0xbc7be916
    ensures WordMul(0xbc7be916, 0xbc7be916) == 0x10ba2894
  {
  }

  lemma InversesSquare4()
    ensures WordMul(0x10ba2894, 0x10ba2894) == 0x6077197b
    ensures WordMul(0x6077197b, 0x6077197b) == 0x98448e4e
    ensures WordMul(0x98448e4e, 0x98448e4e) == 0x8baf845d
  {
  }

  lemma InversesSquare5()
    ensures WordMul(0x8baf845d, 0x8baf845d) == 0xe93e07fc
    ensures WordMul(0xe93e07fc, 0xe93e07fc) == 0xf58027d7
    ensures WordMul(0xf58027d7, 0xf58027d7) == 0x5e2b422d
  {
  }

  lemma InversesSquare6()
    ensures WordMul(0x5e2b422d, 0x5e2b422d) == 0x9db2851c
    ensures WordMul(0x9db2851c, 0x9db2851c) == 0x9270ed25
    ensures WordMul(0x9270ed25, 0x9270ed25) == 0x5984e7b3
  {
  }

  lemma InversesSquare7()
    ensures WordMul(0x5984e7b3, 0x5984e7b3) == 0x7af026f1
    ensures WordMul(0x7af026f1, 0x7af026f1) == 0xe0f4116b
    ensures WordMul(0xe0f4116b, 0xe0f4116b) == 0xace8a6b0
  {
  }

  lemma InversesSquare8()
    ensures WordMul(0xace8a6b0, 0xace8a6b0) == 0x9e09f006
    ensures WordMul(0x9e09f006, 0x9e09f006) == 0x6a60ea71
    ensures WordMul(0x6a60ea71, 0x6a60ea71) == 0x4fd04875
  {
  }

  lemma InversesSquare9()
    ensures WordMul(0x4fd04875, 0x4fd04875) == 0x05ec76f1
    ensures WordMul(0x05ec76f1, 0x05ec76f1) == 0x0bd8ede2
    ensures WordMul(0x0bd8ede2, 0x0bd8ede2) == 0x2f63b788
  {
  }

  lemma InversesSquare10()
    ensures WordMul(0x2f63b788, 0x2f63b788) == 0xfde39562
  {
  }

  lemma InversesSquare(k: nat)
    ensures Squared(InversePower(k), InversePower(k + 1))
  {
    hide WordMul;
    var i := k % 31;
    if i < 3 {
      InversesSquare0();
    } else if i < 6 {
      InversesSquare1();
    } else if i < 9 {
      InversesSquare2();
    } else if i < 12 {
      InversesSquare3();
    } else if i < 15 {
      InversesSquare4();
    } else if i < 18 {
      InversesSquare5();
    } else if i < 21 {
      InversesSquare6();
    } else if i < 24 {
      InversesSquare7();
    } else if i < 27 {
      InversesSquare8();
    } else if i < 30 {
      InversesSquare9();
    } else if i < 33 {
      InversesSquare10();
    }
  }

  lemma {:induction false} SquaredIsSquare(v: bv32, w: bv32)
    requires Squared(v, w)
    ensures OfWord(w) == Mul(OfWord(v), OfWord(v))
  {
    hide WordMul, Mul, OfWord;
    WordMulIsMul(v, v);
  }

  function WordX4(w: bv32): bv32 {
    WordX(WordX(WordX(WordX(w))))
  }

  lemma {:induction false} WordXPow4(w: bv32)
    ensures XPow(4, OfWord(w)) == OfWord(WordX4(w))
  {
    hide X, OfWord, WordX;
    var a, b, c := WordX(w), WordX(WordX(w)), WordX(WordX(WordX(w)));
    WordXIsX(w);
    WordXIsX(a);
    WordXIsX(b);
    WordXIsX(c);
    assert XPow(1, OfWord(w)) == OfWord(a);
    assert XPow(2, OfWord(w)) == OfWord(b);
    assert XPow(3, OfWord(w)) == OfWord(c);
  }

  lemma {:induction false} WordXPow8(w: bv32)
    ensures XPow(8, OfWord(w)) == OfWord(WordX4(WordX4(w)))
  {
    hide XPow, OfWord, WordX4;
    WordXPow4(w);
    WordXPow4(WordX4(w));
    XPowAdd(4, 4, OfWord(w));
  }

  lemma FirstPower()
    ensures WordX4(WordX4(0x8000_0000)) == 0x0080_0000
  {
  }

  lemma FirstInverse()
    ensures WordX4(WordX4(0xfde39562)) == 0x8000_0000
  {
  }

  lemma WordOne()
    ensures OfWord(0x8000_0000) == One()
  {
    assert Low4(0x8000_0000) == Low4(0x8000_0000 >> 4) == [false, false, false, false];
    assert Low4(0x80_0000) == Low4(0x80_0000 >> 4) == [false, false, false, false];
    assert Low4(0x8000) == Low4(0x8000 >> 4) == [false, false, false, false];
    assert Low4(0x80) == [false, false, false, false] && Low4(0x80 >> 4) == [true, false, false, false];
    hide Low, Low4;
    Low8Is(0x8000_0000);
    Low8Is(0x80_0000);
    Low8Is(0x8000);
    Low8Is(0x80);
    Bytewise(0x8000_0000, 0x80_0000, 0x8000, 0x80);
  }

  /** Entry k of the power table is x^(8 * 2^k). */
  lemma {:induction false} PowerTable(k: nat)
    ensures OfWord(Power(k)) == XPow(8 * Pow2(k), One())
    decreases k
  {
    hide X, XPow, Mul, OfWord, WordMul, WordX4, Squared;
    if k == 0 {
      FirstPower();
      WordOne();
      WordXPow8(0x8000_0000);
    } else {
      hide Power;
      PowerTable(k - 1);
      PowersSquare(k - 1);
      SquaredIsSquare(Power(k - 1), Power(k));
      PowerStep(Pow2(k - 1), Pow2(k - 1));
    }
  }

  /** Entry k of the inverse table is x^-(8 * 2^k). */
  lemma {:induction false} InversePowerTable(k: nat)
    ensures OfWord(InversePower(k)) == XInvPow(8 * Pow2(k), One())
    decreases k
  {
    hide X, XInv, XPow, XInvPow, Mul, OfWord, WordMul, WordX4, Squared;
    if k == 0 {
      FirstInverse();
      WordOne();
      WordXPow8(0xfde39562);
      XInvPowUndoes(8, OfWord(0xfde39562));
    } else {
      hide InversePower;
      InversePowerTable(k - 1);
      InversesSquare(k - 1);
      SquaredIsSquare(InversePower(k - 1), InversePower(k));
      InversePowerStep(Pow2(k - 1), Pow2(k - 1));
    }
  }

  // ---------------------------------------------------------------- powers by squaring

  /** x^(8n) by multiplying the table entries selected by the bits of n. */
  method XPowBytes(n: nat) returns (r: Poly)
    ensures r == XPow(8 * n, One())
  {
    hide X, Mul;
    r := One();
    var m, k := n, 0;
    ghost var done: nat := 0;
    while m != 0
      invariant n == done + Pow2(k) * m
      invariant r == XPow(8 * done, One())
      decreases m
    {
      HalfStep(n, done, Pow2(k), m);
      if m % 2 == 1 {
        PowerStep(done, Pow2(k));
        PowerTable(k);
        r := MulModP(r, OfWord(Power(k)));
        done := done + Pow2(k);
      }
      k, m := k + 1, m / 2;
    }
  }

  method XInvPowBytes(n: nat) returns (r: Poly)
    ensures r == XInvPow(8 * n, One())
  {
    hide X, XInv, Mul;
    r := One();
    var m, k := n, 0;
    ghost var done: nat := 0;
    while m != 0
      invariant n == done + Pow2(k) * m
      invariant r == XInvPow(8 * done, One())
      decreases m
    {
      HalfStep(n, done, Pow2(k), m);
      if m % 2 == 1 {
        InversePowerStep(done, Pow2(k));
        InversePowerTable(k);
        r := MulModP(r, OfWord(InversePower(k)));
        done := done + Pow2(k);
      }
      k, m := k + 1, m / 2;
    }
  }

  // ---------------------------------------------------------------- checksums

  /** A byte as the register sees it: bit j of the byte is coefficient 31 - j. */
  function Inject(b: byte): Poly {
    seq(32, i requires 0 <= i < 32 => i >= 24 && ((b as int) / Pow2(31 - i)) % 2 == 1)
  }

  /** The bit-serial register after feeding the message. */
  function Reg(s: Poly, buf: seq<byte>): Poly {
    if buf == [] then s
    else XPow(8, Add(Reg(s, buf[..|buf| - 1]), Inject(buf[|buf| - 1])))
  }

  /** The checksum of a message that follows data with checksum crc. */
  function CrcFrom(crc: Poly, buf: seq<byte>): Poly {
    Not(Reg(Not(crc), buf))
  }

  function Crc(buf: seq<byte>): Poly {
    CrcFrom(Zero(), buf)
  }

  lemma {:induction false} RegConcat(s: Poly, a: seq<byte>, b: seq<byte>)
    ensures Reg(s, a + b) == Reg(Reg(s, a), b)
  {
    if b == [] {
      assert a + b == a;
    } else {
      assert (a + b)[..|a + b| - 1] == a + b[..|b| - 1];
      RegConcat(s, a, b[..|b| - 1]);
    }
  }

  lemma {:induction false} RegLinear(s: Poly, buf: seq<byte>)
    ensures Reg(s, buf) == Add(XPow(8 * |buf|, s), Reg(Zero(), buf))
  {
    hide X, Add, Inject;
    if buf == [] {
      AddLaws(s, Zero(), Zero());
    } else {
      var pre, x := buf[..|buf| - 1], Inject(buf[|buf| - 1]);
      RegLinear(s, pre);
      var u, v := XPow(8 * |pre|, s), Reg(Zero(), pre);
      AddLaws(u, v, x);
      XPowLinear(8, u, Add(v, x));
      XPowAdd(8, 8 * |pre|, s);
      assert 8 * |buf| == 8 + 8 * |pre|;
    }
  }

  lemma InjectZero()
    ensures Inject(0) == Zero()
  {}

  lemma {:induction false} RegZeros(s: Poly, n: nat)
    ensures Reg(s, Zeros(n)) == XPow(8 * n, s)
  {
    hide X, Add, Inject;
    if n != 0 {
      assert Zeros(n)[..n - 1] == Zeros(n - 1);
      RegZeros(s, n - 1);
      InjectZero();
      AddLaws(XPow(8 * (n - 1), s), Zero(), Zero());
      XPowAdd(8, 8 * (n - 1), s);
      assert 8 * n == 8 + 8 * (n - 1);
    }
  }

  lemma CrcFromConcat(crc: Poly, a: seq<byte>, b: seq<byte>)
    ensures CrcFrom(CrcFrom(crc, a), b) == CrcFrom(crc, a + b)
    ensures CrcFrom(crc, []) == crc
  {
    RegConcat(Not(crc), a, b);
    NotAdd(Reg(Not(crc), a), Zero());
    NotAdd(crc, Zero());
  }

  /** Appending checksums: the checksum of a + b from those of a and b and the length of b. */
  lemma {:induction false} AppendIsConcat(crc: Poly, a: seq<byte>, b: seq<byte>)
    ensures Add(XPow(8 * |b|, CrcFrom(crc, a)), Crc(b)) == CrcFrom(crc, a + b)
  {
    var n := 8 * |b|;
    var ra, r0 := Reg(Not(crc), a), Reg(Zero(), b);
    RegConcat(Not(crc), a, b);
    RegLinear(ra, b);
    assert Not(Zero()) == Ones();
    RegLinear(Ones(), b);
    NotAdd(ra, Zero());
    XPowLinear(n, ra, Ones());
    var xa, x1 := XPow(n, ra), XPow(n, Ones());
    assert Reg(Not(crc), a + b) == Add(xa, r0);
    assert Crc(b) == Not(Add(x1, r0));
    AppendAlgebra(xa, x1, r0);
  }

  lemma AppendAlgebra(xa: Poly, x1: Poly, r0: Poly)
    ensures Add(Add(xa, x1), Not(Add(x1, r0))) == Not(Add(xa, r0))
  {}

  /** Zero-extending by a negative length removes trailing zeros. */
  lemma {:induction false} ExtendRemovesZeros(crc: Poly, a: seq<byte>, n: nat)
    ensures Not(XPow(8 * n, Not(CrcFrom(crc, a)))) == CrcFrom(crc, a + Zeros(n))
    ensures Not(XInvPow(8 * n, Not(CrcFrom(crc, a + Zeros(n))))) == CrcFrom(crc, a)
  {
    var ra := Reg(Not(crc), a);
    RegConcat(Not(crc), a, Zeros(n));
    RegZeros(ra, n);
    NotAdd(ra, Zero());
    NotAdd(XPow(8 * n, ra), Zero());
    XInvPowUndoes(8 * n, ra);
  }

  // ---------------------------------------------------------------- bytes and machine words

  /** A small number as a machine word. */
  function AsWord(v: nat): bv32
    requires v < 256
  {
    v as bv32
  }

  lemma ByteParts(v: nat)
    requires v < 256
    ensures Odd(AsWord(v)) == (v % 2 == 1) && Half(AsWord(v)) == AsWord(v / 2)
  {
  }

  lemma DivTwice(v: nat, p: nat)
    requires p > 0
    ensures (v / 2) / p == v / (2 * p)
  {
    var q, s := v / (2 * p), v % (2 * p);
    assert v == (2 * p) * q + s == 2 * (p * q) + s;
    assert v / 2 == q * p + s / 2;
    QuotientIs(v / 2, q, s / 2, p);
  }

  lemma {:induction false} LowOfByte(v: nat, n: nat, i: nat)
    requires v < 256 && i < n
    ensures Low(AsWord(v), n)[i] == ((v / Pow2(n - 1 - i)) % 2 == 1)
    decreases n
  {
    hide Odd, Half, AsWord;
    ByteParts(v);
    if i < n - 1 {
      LowOfByte(v / 2, n - 1, i);
      DivTwice(v, Pow2(n - 2 - i));
    }
  }

  lemma {:induction false} Pow2Grows(k: nat)
    requires k >= 8
    ensures Pow2(k) >= 256
  {
    if k > 8 {
      Pow2Grows(k - 1);
    } else {
      assert Pow2(4) == 16;
    }
  }

  /** Feeding a byte is adding it to the lowest byte of the machine word. */
  lemma {:induction false} InjectIsWord(b: byte)
    ensures Inject(b) == OfWord(AsWord(b as nat))
  {
    hide Low, AsWord, Pow2;
    forall i | 0 <= i < 32 ensures Inject(b)[i] == OfWord(AsWord(b as nat))[i] {
      LowOfByte(b as nat, 32, i);
      if i < 24 {
        Pow2Grows(31 - i);
        QuotientIs(b as nat, 0, b as nat, Pow2(31 - i));
      }
    }
  }

  /** One byte on a machine word: add it to the lowest byte and make eight steps. */
  function WordByte(w: bv32, v: bv32): bv32 {
    WordX4(WordX4(Xor(w, v)))
  }

  lemma {:induction false} RegByte(s: Poly, w: bv32, buf: seq<byte>, b: byte)
    requires Reg(s, buf) == OfWord(w)
    ensures Reg(s, buf + [b]) == OfWord(WordByte(w, AsWord(b as nat)))
  {
    hide OfWord, XPow, WordX4, Xor, Inject, AsWord;
    assert (buf + [b])[..|buf|] == buf;
    InjectIsWord(b);
    WordXor(w, AsWord(b as nat));
    WordXPow8(Xor(w, AsWord(b as nat)));
  }

  /** The register of a machine that is fed byte by byte. */
  function WordReg(w: bv32, buf: seq<byte>): bv32 {
    if buf == [] then w else WordByte(WordReg(w, buf[..|buf| - 1]), AsWord(buf[|buf| - 1] as nat))
  }

  /** The register as polynomials is the register as machine words. */
  lemma {:induction false} RegIsWords(w: bv32, buf: seq<byte>)
    ensures Reg(OfWord(w), buf) == OfWord(WordReg(w, buf))
    decreases |buf|
  {
    hide OfWord, WordByte;
    if buf != [] {
      var n := |buf| - 1;
      RegIsWords(w, buf[..n]);
      RegByte(OfWord(w), WordReg(w, buf[..n]), buf[..n], buf[n]);
      assert buf == buf[..n] + [buf[n]];
    }
  }

  lemma WordOnes()
    ensures OfWord(0xFFFF_FFFF) == Ones()
  {
    assert Low4(0xFFFF_FFFF) == Low4(0xFFFF_FFFF >> 4) == [true, true, true, true];
    assert Low4(0xFF_FFFF) == Low4(0xFF_FFFF >> 4) == [true, true, true, true];
    assert Low4(0xFFFF) == Low4(0xFFFF >> 4) == [true, true, true, true];
    assert Low4(0xFF) == Low4(0xFF >> 4) == [true, true, true, true];
    hide Low, Low4;
    Low8Is(0xFFFF_FFFF);
    Low8Is(0xFF_FFFF);
    Low8Is(0xFFFF);
    Low8Is(0xFF);
    Bytewise(0xFFFF_FFFF, 0xFF_FFFF, 0xFFFF, 0xFF);
  }

  /** The checksum of a message on a machine: start from all ones, feed the bytes, complement. */
  lemma {:induction false} CrcIsWords(buf: seq<byte>)
    ensures Crc(buf) == OfWord(Xor(WordReg(0xFFFF_FFFF, buf), 0xFFFF_FFFF))
  {
    hide OfWord, Xor, WordReg, Reg, Add;
    WordOnes();
    assert Not(Zero()) == Ones();
    RegIsWords(0xFFFF_FFFF, buf);
    NotAdd(Reg(Ones(), buf), Zero());
    WordXor(WordReg(0xFFFF_FFFF, buf), 0xFFFF_FFFF);
  }

  function CheckString(): seq<byte> {
    [0x31, 0x32, 0x33, 0x34, 0x35, 0x36, 0x37, 0x38, 0x39]
  }

  lemma CheckSteps0()
    ensures WordByte(0xffffffff, 0x31) == 0x6f0a661c
    ensures WordByte(0x6f0a661c, 0x32) == 0x8caa3b9f
    ensures WordByte(0x8caa3b9f, 0x33) == 0xef84d04d
  {
  }

  lemma CheckSteps1()
    ensures WordByte(0xef84d04d, 0x34) == 0x09c50b11
    ensures WordByte(0x09c50b11, 0x35) == 0xe72edcca
    ensures WordByte(0xe72edcca, 0x36) == 0xbeca8e79
  {
  }

  lemma CheckSteps2()
    ensures WordByte(0xbeca8e79, 0x37) == 0xedbd6815
    ensures WordByte(0xedbd6815, 0x38) == 0x9f787f65
    ensures WordByte(0x9f787f65, 0x39) == 0x1cf96d7c
  {
  }

  lemma {:induction false} NextByte(w: bv32, buf: seq<byte>, n: nat, before: bv32, v: bv32, after: bv32)
    requires n < |buf| && WordReg(w, buf[..n]) == before && v == AsWord(buf[n] as nat) && WordByte(before, v) == after
    ensures WordReg(w, buf[..n + 1]) == after
  {
    hide WordByte;
    assert buf[..n + 1][..n] == buf[..n];
  }

  /** The check value of CRC-32C: the checksum of the digits 1 to 9. */
  lemma {:induction false} KnownAnswer()
    ensures Crc(CheckString()) == OfWord(0xE3069283)
  {
    hide WordByte, WordReg, OfWord;
    var w, s := 0xFFFF_FFFF as bv32, CheckString();
    CheckSteps0();
    CheckSteps1();
    CheckSteps2();
    NoBytes(w, s);
    NextByte(w, s, 0, 0xffffffff, 0x31, 0x6f0a661c);
    NextByte(w, s, 1, 0x6f0a661c, 0x32, 0x8caa3b9f);
    NextByte(w, s, 2, 0x8caa3b9f, 0x33, 0xef84d04d);
    NextByte(w, s, 3, 0xef84d04d, 0x34, 0x09c50b11);
    NextByte(w, s, 4, 0x09c50b11, 0x35, 0xe72edcca);
    NextByte(w, s, 5, 0xe72edcca, 0x36, 0xbeca8e79);
    NextByte(w, s, 6, 0xbeca8e79, 0x37, 0xedbd6815);
    NextByte(w, s, 7, 0xedbd6815, 0x38, 0x9f787f65);
    NextByte(w, s, 8, 0x9f787f65, 0x39, 0x1cf96d7c);
    assert s[..9] == s;
    CrcIsWords(s);
  }

  lemma {:induction false} NoBytes(w: bv32, buf: seq<byte>)
    ensures WordReg(w, buf[..0]) == w
  {
  }

  // ---------------------------------------------------------------- the checksum operations

  /** One 64-bit CRC instruction: eight byte steps, least significant byte first. */
  function Word(s: Poly, buf: seq<byte>): Poly
    requires |buf| == 8
  {
    Reg(s, buf)
  }

  /** The checksum loop: whole 64-bit words, then the remaining bytes. */
  method Crc32cUpdate(crc: Poly, buf: seq<byte>) returns (r: Poly)
    ensures r == CrcFrom(crc, buf)
  {
    var s := Not(crc);
    var i := 0;
    while |buf| - i >= 8
      invariant 0 <= i <= |buf|
      invariant s == Reg(Not(crc), buf[..i])
    {
      assert buf[..i + 8] == buf[..i] + buf[i..i + 8];
      RegConcat(Not(crc), buf[..i], buf[i..i + 8]);
      s := Word(s, buf[i..i + 8]);
      i := i + 8;
    }
    while i < |buf|
      invariant 0 <= i <= |buf|
      invariant s == Reg(Not(crc), buf[..i])
    {
      assert buf[..i + 1][..i] == buf[..i];
      s := XPow(8, Add(s, Inject(buf[i])));
      i := i + 1;
    }
    assert buf[..i] == buf;
    r := Not(s);
  }

  method Crc32cAppend(crcA: Poly, crcB: Poly, lenB: nat) returns (r: Poly)
    ensures r == Add(XPow(8 * lenB, crcA), crcB)
    ensures forall crc, a, b :: |b| == lenB && crcA == CrcFrom(crc, a) && crcB == Crc(b) ==> r == CrcFrom(crc, a + b)
  {
    var p := XPowBytes(lenB);
    MulByPower(crcA, 8 * lenB);
    var m := MulModP(crcA, p);
    r := Add(m, crcB);
    forall crc, a, b | |b| == lenB && crcA == CrcFrom(crc, a) && crcB == Crc(b)
      ensures r == CrcFrom(crc, a + b)
    {
      AppendIsConcat(crc, a, b);
    }
  }

  method Crc32cZeroExtend(crc: Poly, zeros: int) returns (r: Poly)
    ensures r == if zeros > 0 then Not(XPow(8 * zeros, Not(crc))) else Not(XInvPow(8 * -zeros, Not(crc)))
  {
    hide X, XInv, Mul, Not;
    if zeros > 0 {
      var p := XPowBytes(zeros);
      MulByPower(Not(crc), 8 * zeros);
      var m := MulModP(Not(crc), p);
      r := Not(m);
    } else {
      var p := XInvPowBytes(-zeros);
      MulByPower(Not(crc), 8 * -zeros);
      var m := MulModP(Not(crc), p);
      r := Not(m);
    }
  }
}
