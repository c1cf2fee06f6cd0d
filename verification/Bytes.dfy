/** Bytes and the little-endian numbers made of them. */
module Bytes {
  import opened Common

  newtype byte = n: int | 0 <= n < 256

  /** The `n` low bytes of `v`, least significant first. */
  function LeBytes(v: nat, n: nat): (bs: seq<byte>)
    ensures |bs| == n
  {
    if n == 0 then [] else [(v % 256) as byte] + LeBytes(v / 256, n - 1)
  }

  function LeValue(bs: seq<byte>): nat {
    if bs == [] then 0 else bs[0] as nat + 256 * LeValue(bs[1..])
  }

  function Pow256(n: nat): (p: nat)
    ensures p > 0
  {
    if n == 0 then 1 else 256 * Pow256(n - 1)
  }

  lemma {:induction false} LeRoundTrip(v: nat, n: nat)
    requires v < Pow256(n)
    ensures LeValue(LeBytes(v, n)) == v
    decreases n
  {
    if n > 0 {
      LeRoundTrip(v / 256, n - 1);
      assert LeBytes(v, n)[1..] == LeBytes(v / 256, n - 1);
    }
  }

  /** The other way around: bytes are those of their value. */
  lemma {:induction false} LeInverse(bs: seq<byte>)
    ensures LeValue(bs) < Pow256(|bs|) && LeBytes(LeValue(bs), |bs|) == bs
    decreases |bs|
  {
    if bs != [] {
      LeInverse(bs[1..]);
      assert bs == [bs[0]] + bs[1..];
    }
  }

  lemma Powers()
    ensures Pow256(1) == 256 && Pow256(2) == 65536 && Pow256(4) == 0x1_0000_0000 && Pow256(8) == U64
  {
    assert Pow256(2) == 256 * Pow256(1);
    assert Pow256(4) == 256 * (256 * Pow256(2));
    assert Pow256(6) == 256 * (256 * Pow256(4));
    assert Pow256(8) == 256 * (256 * Pow256(6));
  }

  /** The `n` low bytes of `v`, most significant first. */
  function BeBytes(v: nat, n: nat): (bs: seq<byte>)
    ensures |bs| == n
  {
    if n == 0 then [] else BeBytes(v / 256, n - 1) + [(v % 256) as byte]
  }

  function BeValue(bs: seq<byte>): nat {
    if bs == [] then 0 else 256 * BeValue(bs[..|bs| - 1]) + bs[|bs| - 1] as nat
  }

  lemma {:induction false} BeRoundTrip(v: nat, n: nat)
    requires v < Pow256(n)
    ensures BeValue(BeBytes(v, n)) == v
    decreases n
  {
    if n > 0 {
      BeRoundTrip(v / 256, n - 1);
      assert BeBytes(v, n)[..n - 1] == BeBytes(v / 256, n - 1);
    }
  }

  lemma {:induction false} BeInverse(bs: seq<byte>)
    ensures BeValue(bs) < Pow256(|bs|) && BeBytes(BeValue(bs), |bs|) == bs
    decreases |bs|
  {
    if bs != [] {
      var n := |bs| - 1;
      BeInverse(bs[..n]);
      assert bs == bs[..n] + [bs[n]];
    }
  }

  // ---------------------------------------------------------------- numbers of fixed width, byte by byte

  function Short(data: seq<byte>, at: nat): nat
    requires at + 2 <= |data|
  {
    data[at] as nat + 0x100 * data[at + 1] as nat
  }

  function Word(data: seq<byte>, at: nat): nat
    requires at + 4 <= |data|
  {
    Short(data, at) + 0x1_0000 * Short(data, at + 2)
  }

  function Long(data: seq<byte>, at: nat): nat
    requires at + 8 <= |data|
  {
    Word(data, at) + 0x1_0000_0000 * Word(data, at + 4)
  }

  /** Four bytes, the most significant one first. */
  function Network(data: seq<byte>, at: nat): nat
    requires at + 4 <= |data|
  {
    0x100_0000 * data[at] as nat + 0x1_0000 * data[at + 1] as nat + 0x100 * data[at + 2] as nat + data[at + 3] as nat
  }

  lemma ByteIs(data: seq<byte>, at: nat)
    requires at + 1 <= |data|
    ensures LeValue(data[at..at + 1]) == data[at] as nat
  {
    assert data[at..at + 1][1..] == [];
  }

  /** Two bytes more in front. */
  lemma TwoMore(data: seq<byte>, at: nat, n: nat)
    requires at + 2 + n <= |data|
    ensures LeValue(data[at..at + 2 + n]) == Short(data, at) + 0x1_0000 * LeValue(data[at + 2..at + 2 + n])
  {
    var a, b := data[at..at + 2 + n], data[at + 1..at + 2 + n];
    assert a[1..] == b && b[1..] == data[at + 2..at + 2 + n];
  }

  lemma ShortIs(data: seq<byte>, at: nat)
    requires at + 2 <= |data|
    ensures LeValue(data[at..at + 2]) == Short(data, at)
  {
    TwoMore(data, at, 0);
  }

  lemma WordIs(data: seq<byte>, at: nat)
    requires at + 4 <= |data|
    ensures LeValue(data[at..at + 4]) == Word(data, at)
  {
    TwoMore(data, at, 2);
    ShortIs(data, at + 2);
  }

  lemma LongIs(data: seq<byte>, at: nat)
    requires at + 8 <= |data|
    ensures LeValue(data[at..at + 8]) == Long(data, at)
  {
    hide LeValue;
    TwoMore(data, at, 6);
    TwoMore(data, at + 2, 4);
    WordIs(data, at + 4);
  }

  lemma NetworkIs(data: seq<byte>, at: nat)
    requires at + 4 <= |data|
    ensures BeValue(data[at..at + 4]) == Network(data, at)
  {
    var w := data[at..at + 4];
    assert w[..3][..2] == w[..2] && w[..2][..1] == w[..1];
    assert BeValue(w[..1]) == data[at] as nat;
    assert BeValue(w[..2]) == 0x100 * BeValue(w[..1]) + data[at + 1] as nat;
    assert BeValue(w[..3]) == 0x100 * BeValue(w[..2]) + data[at + 2] as nat;
  }

  function Zeros(n: nat): (z: seq<byte>)
    ensures |z| == n
  {
    seq(n, _ => 0)
  }
}
