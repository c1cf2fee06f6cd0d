/** What several parts of the client share: constants, error numbers and small helpers. */
module Common {

  datatype Option<T> = None | Some(value: T)

  type Tid = nat

  const PAGE_SIZE: nat := 4096
  const U64: nat := 0x1_0000_0000_0000_0000
  const S63: nat := 0x8000_0000_0000_0000

  const EIO: int := -5
  const EAGAIN: int := -11
  const ENOMEM: int := -12
  const EINVAL: int := -22
  const EROFS: int := -30
  const ENAMETOOLONG: int := -36
  const ENOSYS: int := -38

  const EMPTY_STORAGE: nat := 0
  const INLINE_STORAGE: nat := 1
  const MAX_DATA: nat := 10
  const MAX_PARITY: nat := 6

  /** The low half of a parity byte counts the data blocks, the high half the parity blocks. */
  function DataBlocks(parity: nat): nat {
    parity % 16
  }

  function ParityBlocks(parity: nat): nat {
    parity / 16
  }

  function Bit(b: bool): int {
    if b then 1 else 0
  }

  function Min(a: nat, b: nat): nat {
    if a < b then a else b
  }

  /** How the sizes of two sets of threads differ when at most one thread tells them apart. */
  lemma SameButOne(a: set<Tid>, b: set<Tid>, t: Tid)
    requires forall u | u != t :: u in a <==> u in b
    ensures |b| == |a| - Bit(t in a) + Bit(t in b)
  {
    assert a - {t} == b - {t};
    assert a == if t in a then (a - {t}) + {t} else a - {t};
    assert b == if t in b then (b - {t}) + {t} else b - {t};
  }

  lemma SubsetSize(a: set<Tid>, b: set<Tid>)
    requires a <= b
    ensures |a| <= |b|
  {
    assert b == a + (b - a);
  }

  lemma {:induction false} Scale(a: int, n: nat)
    requires a >= 1
    ensures a * n >= n
  {
    if a > 1 {
      assert a * n == (a - 1) * n + n;
      Scale(a - 1, n);
    }
  }

  /** Quotient and remainder are what they are written as. */
  lemma QuotientIs(x: nat, d: int, m: nat, n: nat)
    requires m < n && x == d * n + m
    ensures x / n == d && x % n == m
  {
    var q := x / n;
    assert x == q * n + x % n;
    assert (d - q) * n == d * n - q * n;
    if d > q {
      Scale(d - q, n);
    } else if d < q {
      assert (q - d) * n == q * n - d * n;
      Scale(q - d, n);
    }
  }

  lemma Unused(used: set<nat>) returns (u: nat)
    ensures u !in used
  {
    u := 0;
    var seen := {};
    while u in used
      invariant seen <= used && forall v | v in seen :: v < u
      decreases |used - seen|
    {
      assert used - (seen + {u}) == (used - seen) - {u};
      seen := seen + {u};
      u := u + 1;
    }
  }
}
