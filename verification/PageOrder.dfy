/**
 Page lists are consumed by rotating them, and a transfer that stops early leaves them rotated.
 Before the pages go back to the caller, the fetch path turns the list until the page indices are in
 order and the write path turns it until the page marked as the first one is in front.
 */
module PageOrder {
  import opened Bytes

  /** `s` after `k` rotations to the left. */
  function Rotated<T>(s: seq<T>, k: nat): (r: seq<T>)
    requires k <= |s|
    ensures |r| == |s|
    ensures forall i | 0 <= i < |s| :: r[i] == if i + k < |s| then s[i + k] else s[i + k - |s|]
  {
    s[k..] + s[..k]
  }

  function RotateLeft<T>(s: seq<T>): (r: seq<T>)
    requires s != []
    ensures r == Rotated(s, 1)
  {
    s[1..] + [s[0]]
  }

  lemma RotatedNext<T>(s: seq<T>, k: nat)
    requires k < |s|
    ensures RotateLeft(Rotated(s, k)) == Rotated(s, k + 1)
  {
  }

  lemma RotatedFull<T>(s: seq<T>)
    ensures Rotated(s, |s|) == s && Rotated(s, 0) == s
  {
  }

  // ---------------------------------------------------------------- the fetch path

  /** An unsigned long index of -1: a page outside the block. */
  const NO_INDEX: nat := 0xFFFF_FFFF_FFFF_FFFF

  /** `id` stands for the identity of the page; `crc` is what the receiver stores in its private field. */
  datatype FetchPage = FetchPage(id: nat, index: nat, data: seq<byte>, crc: seq<byte>)

  /** The same pages in the same order, whatever they contain. */
  predicate SamePages(a: seq<FetchPage>, b: seq<FetchPage>) {
    |a| == |b| && forall i | 0 <= i < |a| :: a[i].id == b[i].id && a[i].index == b[i].index
  }

  lemma SameOrder(a: seq<FetchPage>, b: seq<FetchPage>)
    requires SamePages(a, b)
    ensures InOrder(a) == InOrder(b) && HasReal(a) == HasReal(b)
  {
    if HasReal(a) {
      var i :| 0 <= i < |a| && a[i].index != NO_INDEX;
      assert b[i].index != NO_INDEX;
    }
    if HasReal(b) {
      var i :| 0 <= i < |b| && b[i].index != NO_INDEX;
      assert a[i].index != NO_INDEX;
    }
  }

  /** The order in which the pages were handed over: increasing indices, then pages outside the block. */
  predicate InOrder(base: seq<FetchPage>) {
    && base != []
    && (forall i, j | 0 <= i < j < |base| :: base[i].id != base[j].id)
    && (forall i | 0 <= i < |base| :: base[i].index <= NO_INDEX)
    && (forall i, j | 0 <= i < j < |base| :: base[i].index < base[j].index || base[j].index == NO_INDEX)
  }

  predicate HasReal(base: seq<FetchPage>) {
    exists i | 0 <= i < |base| :: base[i].index != NO_INDEX
  }

  predicate OutOfOrder(pages: seq<FetchPage>)
    requires pages != []
  {
    pages[|pages| - 1].index < pages[0].index || pages[0].index == NO_INDEX
  }

  /** The loop's test recognises the original order among all rotations. */
  lemma OutOfOrderIff(base: seq<FetchPage>, k: nat)
    requires InOrder(base) && k < |base|
    ensures OutOfOrder(Rotated(base, k)) <==> !(HasReal(base) && k == 0)
  {
    var r := Rotated(base, k);
    assert r[0] == base[k];
    assert r[|base| - 1] == if k == 0 then base[|base| - 1] else base[k - 1];
  }

  /**
   The loop of fetch_complete on the `k`-th rotation of `base`.  The caller gets its own order back if
   and only if there is a real index or nothing was rotated.
   */
  method RestoreFetched(list: seq<FetchPage>, ghost base: seq<FetchPage>, ghost k: nat)
    returns (pages: seq<FetchPage>, turns: nat)
    requires InOrder(base) && k < |base| && list == Rotated(base, k)
    ensures pages == if HasReal(base) then base else list
    ensures pages == base <==> HasReal(base) || k == 0
    ensures turns == if HasReal(base) then (if k == 0 then 0 else |base| - k) else |base|
  {
    hide HasReal, OutOfOrder, InOrder, Rotated, RotateLeft;
    pages, turns := list, 0;
    var firstSeen := list[0].id;
    ghost var at: int := k;
    RotatedFull(base);
    OutOfOrderIff(base, k);
    DistinctRotations(base, k, 0);
    while OutOfOrder(pages)
      invariant 0 <= at < |base| && turns < |base| && pages == Rotated(base, at)
      invariant k + turns == at || k + turns == at + |base|
      invariant HasReal(base) ==> turns <= |base| - k && (k == 0 ==> turns == 0)
      invariant OutOfOrder(pages) <==> !(HasReal(base) && at == 0)
      decreases |base| - turns
    {
      RotatedNext(base, at);
      pages := RotateLeft(pages);
      turns := turns + 1;
      at := if at + 1 == |base| then 0 else at + 1;
      OutOfOrderIff(base, at);
      DistinctRotations(base, at, k);
      if pages[0].id == firstSeen {
        break;
      }
    }
  }

  lemma DistinctRotations(base: seq<FetchPage>, j: nat, k: nat)
    requires InOrder(base) && j < |base| && k < |base|
    ensures Rotated(base, j)[0].id == Rotated(base, k)[0].id <==> j == k
    ensures Rotated(base, j) == Rotated(base, k) <==> j == k
  {
    assert Rotated(base, j)[0].id == base[j].id && Rotated(base, k)[0].id == base[k].id;
  }
}
