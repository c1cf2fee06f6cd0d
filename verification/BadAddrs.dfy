/**
 The table of block service addresses to which connecting has failed lately.  It is a hash table with expiry
 times, swept now and then, and capped; it is proved to answer like a plain map from each address to the time
 its last mark runs out.
 */
module BadAddrs {
  import opened Common

  const BUCKETS: nat := 64
  const MAX_ENTRIES: nat := 256

  datatype Addr = Addr(ip: nat, port: nat)

  datatype Entry = Entry(addr: Addr, expiry: nat)

  /** The kernel's multiplicative hash of the address key, 6 bits of it.  Nothing below depends on which hash it is. */
  function Bucket(a: Addr): (b: nat)
    ensures b < BUCKETS
  {
    (((a.ip * 65536 + a.port) * 0x61C8_8646_80B5_83EB) % U64) / 0x400_0000_0000_0000
  }

  /** time_after64: the signed difference is negative. */
  predicate TimeAfter(a: nat, b: nat) {
    (b - a) % U64 >= S63
  }

  lemma TimeAfterIs(a: nat, b: nat)
    requires a < S63 && b < S63
    ensures TimeAfter(a, b) <==> a > b
  {
  }

  // ---------------------------------------------------------------- one bucket

  function Find(list: seq<Entry>, a: Addr): Option<nat> {
    if list == [] then None else if list[0].addr == a then Some(list[0].expiry) else Find(list[1..], a)
  }

  predicate Avoids(list: seq<Entry>, a: Addr) {
    forall i | 0 <= i < |list| :: list[i].addr != a
  }

  /** One entry per address, all of them addresses of bucket `b`. */
  predicate BucketOk(list: seq<Entry>, b: nat) {
    list == [] ||
    (Bucket(list[0].addr) == b && list[0].expiry < S63 && Avoids(list[1..], list[0].addr) && BucketOk(list[1..], b))
  }

  /** What marking `a` makes of its bucket: its entry is renewed and stale entries go. */
  function Sweep(list: seq<Entry>, a: Addr, now: nat, expiry: nat): seq<Entry> {
    if list == [] then []
    else if list[0].addr == a then [Entry(a, expiry)] + Sweep(list[1..], a, now, expiry)
    else if TimeAfter(now, list[0].expiry) then Sweep(list[1..], a, now, expiry)
    else [list[0]] + Sweep(list[1..], a, now, expiry)
  }

  /** What reaping leaves of a bucket. */
  function Fresh(list: seq<Entry>, now: nat): seq<Entry> {
    if list == [] then []
    else if TimeAfter(now, list[0].expiry) then Fresh(list[1..], now)
    else [list[0]] + Fresh(list[1..], now)
  }

  function Unexpired(e: Option<nat>, now: nat): Option<nat> {
    if e.Some? && TimeAfter(now, e.value) then None else e
  }

  lemma {:induction false} FindNone(list: seq<Entry>, a: Addr)
    ensures Avoids(list, a) <==> Find(list, a).None?
    decreases |list|
  {
    if list != [] {
      FindNone(list[1..], a);
      assert forall i | 0 < i < |list| :: list[i] == list[1..][i - 1];
    }
  }

  lemma {:induction false} FindOk(list: seq<Entry>, a: Addr, b: nat)
    requires BucketOk(list, b) && Find(list, a).Some?
    ensures Bucket(a) == b && Find(list, a).value < S63
    decreases |list|
  {
    hide Bucket;
    if list[0].addr != a {
      FindOk(list[1..], a, b);
    }
  }

  lemma {:induction false} SweepFind(list: seq<Entry>, a: Addr, now: nat, expiry: nat, b: nat, x: Addr)
    requires BucketOk(list, b)
    ensures Find(Sweep(list, a, now, expiry), x) ==
      if x == a then (if Find(list, a).Some? then Some(expiry) else None) else Unexpired(Find(list, x), now)
    decreases |list|
  {
    hide Bucket, TimeAfter, Avoids;
    if list != [] {
      var rest := list[1..];
      SweepFind(rest, a, now, expiry, b, x);
      FindNone(rest, list[0].addr);
      var swept := Sweep(rest, a, now, expiry);
      assert ([Entry(a, expiry)] + swept)[1..] == swept && ([list[0]] + swept)[1..] == swept;
    }
  }

  /** No entry of the list has run out. */
  predicate NoneOld(list: seq<Entry>, now: nat) {
    forall i | 0 <= i < |list| :: !TimeAfter(now, list[i].expiry)
  }

  /** Where `a` has no entry, sweeping drops something unless nothing has run out. */
  lemma {:induction false} SweepShrinks(list: seq<Entry>, a: Addr, now: nat, expiry: nat)
    ensures |Sweep(list, a, now, expiry)| <= |list|
    ensures Find(list, a).None? ==> (|Sweep(list, a, now, expiry)| == |list| <==> NoneOld(list, now))
    ensures Find(list, a).None? && NoneOld(list, now) ==> Sweep(list, a, now, expiry) == list
  {
    hide TimeAfter;
    if list != [] {
      SweepShrinks(list[1..], a, now, expiry);
      NoneOldStep(list, now);
    }
  }

  lemma NoneOldStep(list: seq<Entry>, now: nat)
    requires list != []
    ensures NoneOld(list, now) <==> !TimeAfter(now, list[0].expiry) && NoneOld(list[1..], now)
  {
    hide TimeAfter;
    assert forall i | 0 < i < |list| :: list[i] == list[1..][i - 1];
    assert forall i | 0 <= i < |list[1..]| :: list[1..][i] == list[i + 1];
  }

  lemma {:induction false} SweepOk(list: seq<Entry>, a: Addr, now: nat, expiry: nat, b: nat)
    requires BucketOk(list, b) && expiry < S63
    ensures BucketOk(Sweep(list, a, now, expiry), b) && |Sweep(list, a, now, expiry)| <= |list|
    decreases |list|
  {
    hide Bucket, TimeAfter, Avoids;
    if list != [] {
      var rest := list[1..];
      SweepOk(rest, a, now, expiry, b);
      var swept := Sweep(rest, a, now, expiry);
      assert ([Entry(a, expiry)] + swept)[1..] == swept && ([list[0]] + swept)[1..] == swept;
      FindNone(rest, list[0].addr);
      SweepFind(rest, a, now, expiry, b, list[0].addr);
      FindNone(swept, list[0].addr);
    }
  }

  lemma {:induction false} FreshFind(list: seq<Entry>, now: nat, b: nat, x: Addr)
    requires BucketOk(list, b)
    ensures Find(Fresh(list, now), x) == Unexpired(Find(list, x), now)
    decreases |list|
  {
    hide Bucket, TimeAfter, Avoids;
    if list != [] {
      var rest := list[1..];
      FreshFind(rest, now, b, x);
      FindNone(rest, list[0].addr);
      assert ([list[0]] + Fresh(rest, now))[1..] == Fresh(rest, now);
    }
  }

  lemma {:induction false} FreshOk(list: seq<Entry>, now: nat, b: nat)
    requires BucketOk(list, b)
    ensures BucketOk(Fresh(list, now), b) && |Fresh(list, now)| <= |list|
    decreases |list|
  {
    hide Bucket, TimeAfter, Avoids;
    if list != [] {
      var rest := list[1..];
      FreshOk(rest, now, b);
      assert ([list[0]] + Fresh(rest, now))[1..] == Fresh(rest, now);
      FindNone(rest, list[0].addr);
      FreshFind(rest, now, b, list[0].addr);
      FindNone(Fresh(rest, now), list[0].addr);
    }
  }

  lemma {:induction false} StepAt(list: seq<Entry>, i: nat, a: Addr, now: nat, expiry: nat)
    requires i < |list|
    ensures Fresh(list[i..], now) ==
      (if TimeAfter(now, list[i].expiry) then [] else [list[i]]) + Fresh(list[i + 1..], now)
    ensures Sweep(list[i..], a, now, expiry) ==
      (if list[i].addr == a then [Entry(a, expiry)] else if TimeAfter(now, list[i].expiry) then [] else [list[i]])
      + Sweep(list[i + 1..], a, now, expiry)
    ensures Find(list[i..], a) == if list[i].addr == a then Some(list[i].expiry) else Find(list[i + 1..], a)
  {
    assert list[i..][1..] == list[i + 1..];
  }

  lemma {:induction false} StepEnds(list: seq<Entry>, a: Addr, now: nat, expiry: nat)
    ensures list[0..] == list && list[|list|..] == []
    ensures Fresh([], now) == [] && Sweep([], a, now, expiry) == [] && Find([], a) == None
  {
  }

  // ---------------------------------------------------------------- the table

  predicate TableOk(buckets: seq<seq<Entry>>) {
    |buckets| == BUCKETS && forall b | 0 <= b < BUCKETS :: BucketOk(buckets[b], b)
  }

  function Lookup(buckets: seq<seq<Entry>>, a: Addr): Option<nat>
    requires |buckets| == BUCKETS
  {
    Find(buckets[Bucket(a)], a)
  }

  function Size(buckets: seq<seq<Entry>>): nat {
    if buckets == [] then 0 else |buckets[0]| + Size(buckets[1..])
  }

  lemma {:induction false} SizeUpdate(buckets: seq<seq<Entry>>, b: nat, list: seq<Entry>)
    requires b < |buckets|
    ensures Size(buckets[b := list]) == Size(buckets) - |buckets[b]| + |list|
    ensures |buckets[b]| <= Size(buckets)
    decreases b
  {
    var updated := buckets[b := list];
    if b == 0 {
      assert updated[1..] == buckets[1..];
    } else {
      assert updated[1..] == buckets[1..][b - 1 := list];
      SizeUpdate(buckets[1..], b - 1, list);
    }
  }

  lemma {:induction false} SizeZero(buckets: seq<seq<Entry>>)
    ensures Size(buckets) == 0 <==> forall b | 0 <= b < |buckets| :: buckets[b] == []
    decreases |buckets|
  {
    if buckets != [] {
      SizeZero(buckets[1..]);
      assert forall b | 0 < b < |buckets| :: buckets[b] == buckets[1..][b - 1];
    }
  }

  /** The table answers like the plain map: what it lacks of the map has run out. */
  ghost predicate Agrees(buckets: seq<seq<Entry>>, marks: map<Addr, nat>, clock: nat)
    requires |buckets| == BUCKETS
  {
    forall a :: AgreesAt(buckets, marks, clock, a)
  }

  predicate AgreesAt(buckets: seq<seq<Entry>>, marks: map<Addr, nat>, clock: nat, a: Addr)
    requires |buckets| == BUCKETS
  {
    var e := Lookup(buckets, a);
    && (e.Some? ==> a in marks && marks[a] == e.value)
    && (a in marks && e.None? ==> marks[a] < clock)
  }

  lemma {:induction false} SweepAgrees(buckets: seq<seq<Entry>>, a: Addr, now: nat, expiry: nat, marks: map<Addr, nat>,
    clock: nat)
    requires TableOk(buckets) && Agrees(buckets, marks, clock) && clock <= now < S63
    ensures var swept := buckets[Bucket(a) := Sweep(buckets[Bucket(a)], a, now, expiry)];
      && Lookup(swept, a) == (if Lookup(buckets, a).Some? then Some(expiry) else None)
      && forall x | x != a :: AgreesAt(swept, marks, now, x)
  {
    hide Bucket, TimeAfter;
    var b := Bucket(a);
    var swept := buckets[b := Sweep(buckets[b], a, now, expiry)];
    SweepFind(buckets[b], a, now, expiry, b, a);
    forall x | x != a ensures AgreesAt(swept, marks, now, x) {
      assert AgreesAt(buckets, marks, clock, x);
      if Bucket(x) == b {
        SweepFind(buckets[b], a, now, expiry, b, x);
        if Lookup(buckets, x).Some? {
          FindOk(buckets[b], x, b);
          TimeAfterIs(now, Lookup(buckets, x).value);
        }
      }
    }
  }

  lemma {:induction false} ReapAgrees(buckets: seq<seq<Entry>>, now: nat, marks: map<Addr, nat>, clock: nat,
    reaped: seq<seq<Entry>>)
    requires TableOk(buckets) && Agrees(buckets, marks, clock) && clock <= now < S63
    requires |reaped| == BUCKETS && forall b | 0 <= b < BUCKETS :: reaped[b] == Fresh(buckets[b], now)
    ensures TableOk(reaped) && Agrees(reaped, marks, now)
  {
    hide Bucket, TimeAfter, BucketOk;
    forall b | 0 <= b < BUCKETS ensures BucketOk(reaped[b], b) {
      FreshOk(buckets[b], now, b);
    }
    forall x ensures AgreesAt(reaped, marks, now, x) {
      var b := Bucket(x);
      assert AgreesAt(buckets, marks, clock, x);
      FreshFind(buckets[b], now, b, x);
      if Lookup(buckets, x).Some? {
        FindOk(buckets[b], x, b);
        TimeAfterIs(now, Lookup(buckets, x).value);
      }
    }
  }

  /** The table and the map after marking `a`, with the entry that had to go for it. */
  lemma MarkedAgrees(swept: seq<seq<Entry>>, marks: map<Addr, nat>, now: nat, a: Addr, expiry: nat,
    evicted: Option<Addr>, after: seq<seq<Entry>>)
    requires |swept| == BUCKETS == |after| && forall x | x != a :: AgreesAt(swept, marks, now, x)
    requires forall x ::
      Lookup(after, x) == if x == a then Some(expiry) else if evicted == Some(x) then None else Lookup(swept, x)
    ensures Agrees(after, (if evicted.Some? then marks - {evicted.value} else marks)[a := expiry], now)
  {
    hide Lookup;
    var marked := (if evicted.Some? then marks - {evicted.value} else marks)[a := expiry];
    forall x ensures AgreesAt(after, marked, now, x) {
      assert x != a ==> AgreesAt(swept, marks, now, x);
    }
  }

  lemma InsertOk(buckets: seq<seq<Entry>>, a: Addr, expiry: nat)
    requires TableOk(buckets) && Lookup(buckets, a).None? && expiry < S63
    ensures var b := Bucket(a);
      var inserted := buckets[b := [Entry(a, expiry)] + buckets[b]];
      && TableOk(inserted) && Size(inserted) == Size(buckets) + 1
      && forall x :: Lookup(inserted, x) == if x == a then Some(expiry) else Lookup(buckets, x)
  {
    hide Bucket;
    var b := Bucket(a);
    var list := [Entry(a, expiry)] + buckets[b];
    assert list[1..] == buckets[b];
    FindNone(buckets[b], a);
    SizeUpdate(buckets, b, list);
  }

  class Table {
    var buckets: seq<seq<Entry>>
    var count: nat               // bad_addrs_count
    var live: nat                // bad_addrs_live
    const cooldown: int
    ghost var marks: map<Addr, nat>
    ghost var clock: nat         // the latest time at which the table was changed

    ghost predicate Valid()
      reads this
    {
      && TableOk(buckets) && count == live == Size(buckets) <= MAX_ENTRIES
      && Agrees(buckets, marks, clock)
    }

    constructor (cooldown: int)
      ensures Valid() && marks == map[] && this.cooldown == cooldown && clock == 0
    {
      this.cooldown := cooldown;
      buckets := seq(BUCKETS, _ => []);
      count, live := 0, 0;
      marks, clock := map[], 0;
      new;
      SizeZero(buckets);
    }

    /** is_bad_addr */
    method IsBad(a: Addr, now: nat) returns (bad: bool)
      requires Valid() && clock <= now < S63
      ensures bad <==> cooldown > 0 && a in marks && now <= marks[a]
    {
      hide Bucket, TimeAfter, Find;
      assert AgreesAt(buckets, marks, clock, a);
      if live == 0 {
        NoneStale(buckets, now);
        return false;
      }
      if cooldown <= 0 {
        return false;
      }
      bad := false;
      var list := buckets[Bucket(a)];
      var i := 0;
      StepEnds(list, a, now, 0);
      while i < |list|
        invariant 0 <= i <= |list| && !bad && Find(list[i..], a) == Lookup(buckets, a)
      {
        StepAt(list, i, a, now, 0);
        if list[i].addr == a {
          FindOk(list, a, Bucket(a));
          TimeAfterIs(now, list[i].expiry);
          if !TimeAfter(now, list[i].expiry) {
            bad := true;
          }
          break;
        }
        i := i + 1;
      }
    }

    /** bad_addr_remove_locked for an entry that has left its list. */
    method Removed()
      requires count > 0 && live > 0
      modifies this`count, this`live
      ensures count == old(count) - 1 && live == old(live) - 1
    {
      count, live := count - 1, live - 1;
    }

    /** The loop of mark_bad_addr over the bucket of `a`. */
    method SweepBucket(a: Addr, now: nat, expiry: nat) returns (updated: bool)
      requires TableOk(buckets) && count == live == Size(buckets) && expiry < S63
      modifies this`buckets, this`count, this`live
      ensures TableOk(buckets) && count == live == Size(buckets) <= old(Size(buckets))
      ensures buckets == old(buckets)[Bucket(a) := Sweep(old(buckets)[Bucket(a)], a, now, expiry)]
      ensures updated <==> old(Lookup(buckets, a)).Some?
      ensures count == old(count) - |old(buckets)[Bucket(a)]| + |buckets[Bucket(a)]|
    {
      hide Bucket, TimeAfter, BucketOk, Sweep, Find, Size;
      updated := false;
      var b := Bucket(a);
      var list, kept, i := buckets[b], [], 0;
      ghost var all := Sweep(list, a, now, expiry);
      StepEnds(list, a, now, expiry);
      SizeUpdate(buckets, b, list);
      while i < |list|
        invariant 0 <= i <= |list| && buckets == old(buckets)
        invariant all == kept + Sweep(list[i..], a, now, expiry)
        invariant count == live == Size(buckets) - (i - |kept|) && |kept| <= i
        invariant (updated || Find(list[i..], a).Some?) <==> Find(list, a).Some?
      {
        StepAt(list, i, a, now, expiry);
        if list[i].addr == a {
          kept := kept + [Entry(a, expiry)];
          updated := true;
        } else if TimeAfter(now, list[i].expiry) {
          Removed();
        } else {
          kept := kept + [list[i]];
        }
        i := i + 1;
      }
      assert kept == all;
      SweepOk(list, a, now, expiry, b);
      SizeUpdate(buckets, b, kept);
      buckets := buckets[b := kept];
    }

    /** Evicts the first entry of the first bucket that has one. */
    method Evict() returns (victim: Addr)
      requires TableOk(buckets) && count == live == Size(buckets) > 0
      modifies this`buckets, this`count, this`live
      ensures TableOk(buckets) && count == live == Size(buckets) == old(Size(buckets)) - 1
      ensures old(Lookup(buckets, victim)).Some?
      ensures forall x :: Lookup(buckets, x) == if x == victim then None else old(Lookup(buckets, x))
    {
      hide Bucket;
      SizeZero(buckets);
      var b := 0;
      while buckets[b] == []
        invariant 0 <= b < BUCKETS && forall k | 0 <= k < b :: buckets[k] == []
        decreases BUCKETS - b
      {
        b := b + 1;
      }
      var list := buckets[b];
      victim := list[0].addr;
      SizeUpdate(buckets, b, list[1..]);
      FindNone(list[1..], victim);
      buckets := buckets[b := list[1..]];
      Removed();
      forall x ensures Lookup(buckets, x) == if x == victim then None else old(Lookup(buckets, x)) {
      }
    }

    /** Puts a new entry in front of its bucket, after making room for it if the table is full. */
    method Insert(a: Addr, expiry: nat) returns (evicted: Option<Addr>)
      requires TableOk(buckets) && count == live == Size(buckets) <= MAX_ENTRIES
      requires Lookup(buckets, a).None? && expiry < S63
      modifies this`buckets, this`count, this`live
      ensures TableOk(buckets) && count == live == Size(buckets) <= MAX_ENTRIES
      ensures evicted.Some? <==> old(count) == MAX_ENTRIES
      ensures evicted.Some? ==> old(Lookup(buckets, evicted.value)).Some? && evicted.value != a
      ensures forall x ::
        Lookup(buckets, x)
        == if x == a then Some(expiry) else if evicted == Some(x) then None else old(Lookup(buckets, x))
    {
      hide Bucket, BucketOk, Lookup, Size;
      evicted := None;
      if count >= MAX_ENTRIES {
        var victim := Evict();
        evicted := Some(victim);
      }
      var b := Bucket(a);
      InsertOk(buckets, a, expiry);
      buckets := buckets[b := [Entry(a, expiry)] + buckets[b]];
      count, live := count + 1, live + 1;
    }

    /** mark_bad_addr; `granted` if there is memory for an entry. */
    method Mark(a: Addr, now: nat, granted: bool) returns (evicted: Option<Addr>)
      requires Valid() && clock <= now && now + cooldown < S63
      modifies this
      ensures Valid() && (cooldown > 0 && granted ==> clock == now)
      ensures cooldown <= 0 || !granted ==> marks == old(marks) && clock == old(clock) && evicted.None?
      ensures cooldown > 0 && granted ==>
        marks == (if evicted.Some? then old(marks) - {evicted.value} else old(marks))[a := now + cooldown]
      ensures evicted.Some? <==>
        && cooldown > 0 && granted && old(count) == MAX_ENTRIES
        && old(Lookup(buckets, a)).None? && NoneOld(old(buckets)[Bucket(a)], now)
      ensures evicted.Some? ==> old(Lookup(buckets, evicted.value)).Some? && evicted.value != a
    {
      assert Lookup(buckets, a) == Find(buckets[Bucket(a)], a);
      hide Bucket, TimeAfter, TableOk, Lookup, Sweep, Size, NoneOld, Find, Agrees, AgreesAt;
      evicted := None;
      if cooldown <= 0 || !granted {
        return;
      }
      var expiry := now + cooldown;
      ghost var before := buckets;
      var updated := SweepBucket(a, now, expiry);
      SweepAgrees(before, a, now, expiry, marks, clock);
      SweepShrinks(before[Bucket(a)], a, now, expiry);
      ghost var swept := buckets;
      if !updated {
        evicted := Insert(a, expiry);
      }
      MarkedAgrees(swept, marks, now, a, expiry, evicted, buckets);
      marks, clock := (if evicted.Some? then marks - {evicted.value} else marks)[a := expiry], now;
    }

    /** do_reap_bad_addrs */
    method Reap(now: nat)
      requires Valid() && clock <= now < S63
      modifies this
      ensures Valid() && marks == old(marks) && clock == (if old(live) > 0 then now else old(clock))
      ensures forall x | Lookup(buckets, x).Some? :: now <= Lookup(buckets, x).value
    {
      hide Bucket, TimeAfter, Lookup, BucketOk;
      NoneStale(buckets, now);
      if live == 0 {
        return;
      }
      ghost var before := buckets;
      var b := 0;
      while b < BUCKETS
        invariant 0 <= b <= BUCKETS && |buckets| == BUCKETS
        invariant forall k | 0 <= k < b :: buckets[k] == Fresh(before[k], now)
        invariant forall k | b <= k < BUCKETS :: buckets[k] == before[k]
        invariant count == live == Size(buckets) <= Size(before)
        invariant marks == old(marks) && clock == old(clock)
      {
        ReapBucket(b, now);
        b := b + 1;
      }
      ReapAgrees(before, now, marks, clock, buckets);
      clock := now;
      NoneStale(before, now);
      NoneLeft(before, now, buckets);
    }

    method ReapBucket(b: nat, now: nat)
      requires b < |buckets| && count == live == Size(buckets)
      modifies this`buckets, this`count, this`live
      ensures buckets == old(buckets)[b := Fresh(old(buckets)[b], now)]
      ensures count == live == Size(buckets) <= old(Size(buckets))
    {
      hide TimeAfter, Fresh, Size;
      var list, kept, i := buckets[b], [], 0;
      StepEnds(list, Addr(0, 0), now, 0);
      SizeUpdate(buckets, b, list);
      while i < |list|
        invariant 0 <= i <= |list| && buckets == old(buckets) && |kept| <= i
        invariant Fresh(list, now) == kept + Fresh(list[i..], now)
        invariant count == live == Size(buckets) - (i - |kept|)
      {
        StepAt(list, i, Addr(0, 0), now, 0);
        if TimeAfter(now, list[i].expiry) {
          Removed();
        } else {
          kept := kept + [list[i]];
        }
        i := i + 1;
      }
      assert kept == Fresh(list, now);
      SizeUpdate(buckets, b, kept);
      buckets := buckets[b := kept];
    }

    /** bad_addrs_clear */
    method Clear()
      requires Valid()
      modifies this
      ensures Valid() && marks == map[] && count == live == 0 && clock == old(clock)
    {
      hide BucketOk, Lookup;
      var b := 0;
      while b < BUCKETS
        invariant 0 <= b <= BUCKETS && |buckets| == BUCKETS && count == live == Size(buckets)
        invariant forall k | 0 <= k < b :: buckets[k] == []
        invariant clock == old(clock)
      {
        ClearBucket(b);
        b := b + 1;
      }
      SizeZero(buckets);
      EmptyTable(buckets);
      marks := map[];
    }

    method ClearBucket(b: nat)
      requires b < |buckets| && count == live == Size(buckets)
      modifies this`buckets, this`count, this`live
      ensures buckets == old(buckets)[b := []] && count == live == Size(buckets)
    {
      while buckets[b] != []
        invariant |buckets| == |old(buckets)| && buckets == old(buckets)[b := buckets[b]]
        invariant count == live == Size(buckets)
        decreases |buckets[b]|
      {
        SizeUpdate(buckets, b, buckets[b][1..]);
        buckets := buckets[b := buckets[b][1..]];
        Removed();
      }
    }
  }

  lemma {:induction false} NoneStale(buckets: seq<seq<Entry>>, now: nat)
    requires TableOk(buckets)
    ensures Size(buckets) == 0 ==> forall x :: Lookup(buckets, x).None?
  {
    SizeZero(buckets);
  }

  lemma NoneLeft(buckets: seq<seq<Entry>>, now: nat, reaped: seq<seq<Entry>>)
    requires TableOk(buckets) && now < S63
    requires |reaped| == BUCKETS && forall b | 0 <= b < BUCKETS :: reaped[b] == Fresh(buckets[b], now)
    ensures forall x | Lookup(reaped, x).Some? :: now <= Lookup(reaped, x).value
  {
    hide Bucket, TimeAfter;
    forall x | Lookup(reaped, x).Some? ensures now <= Lookup(reaped, x).value {
      var b := Bucket(x);
      FreshFind(buckets[b], now, b, x);
      FindOk(buckets[b], x, b);
      TimeAfterIs(now, Lookup(buckets, x).value);
    }
  }

  lemma EmptyTable(buckets: seq<seq<Entry>>)
    requires |buckets| == BUCKETS && forall b | 0 <= b < BUCKETS :: buckets[b] == []
    ensures TableOk(buckets) && Agrees(buckets, map[], 0) && forall clock :: Agrees(buckets, map[], clock)
  {
  }
}
