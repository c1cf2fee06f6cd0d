/**
 The cached listing of a directory.  Readers find it under RCU and take a reference, droppers take it out of the
 directory and give its reference back after a grace period, and whoever holds the latch of the directory may
 publish a new one.  Every step is one atomic operation; any number of threads takes part.
 */
module DirCache {
  import opened Common

  type Listing = nat

  datatype Pc =
    | Ready
    | InRcu(seen: Option<Listing>)      // in the read section, with what ->dir.dirents was
    | Holding(d: Listing)               // owns a reference
    | Dropping(d: Listing)              // took the listing out of the directory, about to ask for a grace period
    | Freeing(d: Listing)               // dropped the last reference, about to free the listing

  /** `latched`: holds dirents_latch.  `clear`: since then it has seen the directory without a listing. */
  datatype Thread = Thread(pc: Pc, latched: bool, clear: bool)

  datatype Object = Object(refs: int, frees: nat)

  datatype State = State(
    current: Option<Listing>,           // ->dir.dirents
    latch: Option<Tid>,
    retired: set<Listing>,              // waiting for a grace period
    objects: map<Listing, Object>,      // every listing ever made
    threads: map<Tid, Thread>)

  const IDLE := Thread(Ready, false, false)

  function ThreadOf(s: State, t: Tid): Thread {
    if t in s.threads then s.threads[t] else IDLE
  }

  datatype Step =
    | Enter(t: Tid)                     // rcu_read_lock and rcu_dereference
    | Take(t: Tid)                      // atomic_inc and rcu_read_unlock
    | Put(t: Tid)                       // atomic_dec_return
    | Free(t: Tid)
    | Drop(t: Tid)                      // atomic64_xchg
    | CallRcu(t: Tid)
    | GraceEnd(t: Tid, d: Listing)      // the callback's atomic_dec_return
    | Acquire(t: Tid)                   // of dirents_latch
    | Publish(t: Tid, d: Listing)       // a listing that the directory and its reader refer to
    | Keep(t: Tid, d: Listing)          // one that only its reader refers to
    | Release(t: Tid)

  predicate Enabled(s: State, st: Step) {
    var th := ThreadOf(s, st.t);
    match st
    case Enter(_) => th.pc.Ready?
    case Take(_) => th.pc.InRcu?
    case Put(_) => th.pc.Holding?
    case Free(_) => th.pc.Freeing?
    case Drop(_) => th.pc.Ready?
    case CallRcu(_) => th.pc.Dropping?
    case GraceEnd(_, d) =>
      th.pc.Ready? && d in s.retired && forall u | u in s.threads :: s.threads[u].pc != InRcu(Some(d))
    case Acquire(_) => th == IDLE && s.latch.None?
    case Publish(_, d) => th.pc.Ready? && th.latched && th.clear && d !in s.objects
    case Keep(_, d) => th.pc.Ready? && th.latched && th.clear && d !in s.objects
    case Release(_) => th.latched && (th.pc.Ready? || th.pc.Holding?)
  }

  /** The listing that a step reads or writes. */
  function Touched(s: State, st: Step): Option<Listing> {
    var pc := ThreadOf(s, st.t).pc;
    match st
    case Take(_) => if pc.InRcu? then pc.seen else None
    case Put(_) => if pc.Holding? then Some(pc.d) else None
    case Free(_) => if pc.Freeing? then Some(pc.d) else None
    case CallRcu(_) => if pc.Dropping? then Some(pc.d) else None
    case GraceEnd(_, d) => Some(d)
    case _ => None
  }

  /** A listing is used that is gone, a count goes below zero, or publishing loses the listing that is there. */
  predicate Fails(s: State, st: Step) {
    || (Touched(s, st).Some? && (Touched(s, st).value !in s.objects || s.objects[Touched(s, st).value].frees > 0))
    || (Touched(s, st).Some? && (st.Put? || st.GraceEnd?) && s.objects[Touched(s, st).value].refs <= 0)
    || (Touched(s, st).Some? && st.Take? && s.objects[Touched(s, st).value].refs <= 0)
    || (st.Publish? && s.current.Some?)
  }

  function Count(s: State, d: Listing, n: int): map<Listing, Object>
    requires d in s.objects
  {
    s.objects[d := s.objects[d].(refs := s.objects[d].refs + n)]
  }

  function SetPc(s: State, t: Tid, pc: Pc): map<Tid, Thread> {
    s.threads[t := ThreadOf(s, t).(pc := pc)]
  }

  function AfterPut(s: State, d: Listing): Pc
    requires d in s.objects
  {
    if s.objects[d].refs == 1 then Freeing(d) else Ready
  }

  function AfterDrop(s: State): Pc {
    if s.current.Some? then Dropping(s.current.value) else Ready
  }

  function Apply(s: State, st: Step): State
    requires Enabled(s, st) && !Fails(s, st)
  {
    var th := ThreadOf(s, st.t);
    match st
    case Enter(t) => s.(threads := SetPc(s, t, InRcu(s.current)))
    case Take(t) =>
      if th.pc.seen.None? then s.(threads := s.threads[t := th.(pc := Ready, clear := th.latched)])
      else s.(objects := Count(s, th.pc.seen.value, 1), threads := SetPc(s, t, Holding(th.pc.seen.value)))
    case Put(t) => s.(objects := Count(s, th.pc.d, -1), threads := SetPc(s, t, AfterPut(s, th.pc.d)))
    case Free(t) =>
      s.(objects := s.objects[th.pc.d := s.objects[th.pc.d].(frees := s.objects[th.pc.d].frees + 1)],
         threads := SetPc(s, t, Ready))
    case Drop(t) =>
      s.(current := None,
         threads := s.threads[t := Thread(AfterDrop(s), th.latched, th.latched)])
    case CallRcu(t) => s.(retired := s.retired + {th.pc.d}, threads := SetPc(s, t, Ready))
    case GraceEnd(t, d) =>
      s.(retired := s.retired - {d}, objects := Count(s, d, -1), threads := SetPc(s, t, AfterPut(s, d)))
    case Acquire(t) => s.(latch := Some(t), threads := s.threads[t := Thread(Ready, true, false)])
    case Publish(t, d) =>
      s.(current := Some(d), objects := s.objects[d := Object(2, 0)],
         threads := s.threads[t := Thread(Holding(d), true, false)])
    case Keep(t, d) => s.(objects := s.objects[d := Object(1, 0)], threads := SetPc(s, t, Holding(d)))
    case Release(t) => s.(latch := None, threads := s.threads[t := Thread(th.pc, false, false)])
  }

  predicate Init(s: State) {
    s == State(None, None, {}, map[], map[])
  }

  // ---------------------------------------------------------------- the invariant

  function With(m: map<Tid, Thread>, pc: Pc): set<Tid> {
    set t | t in m && m[t].pc == pc
  }

  /** The reference of the directory: in the directory, with a dropper, or waiting for the grace period. */
  function TableRefs(s: State, d: Listing): int {
    Bit(s.current == Some(d)) + Bit(d in s.retired) + |With(s.threads, Dropping(d))|
  }

  /** The count is that of the references, and what has none left is being freed or has been. */
  ghost predicate ObjectInv(s: State, d: Listing)
    requires d in s.objects
  {
    && s.objects[d].refs == TableRefs(s, d) + |With(s.threads, Holding(d))|
    && TableRefs(s, d) <= 1
    && |With(s.threads, Freeing(d))| + s.objects[d].frees == Bit(s.objects[d].refs == 0)
  }

  ghost predicate ThreadInv(s: State, t: Tid) {
    var th := ThreadOf(s, t);
    && (th.pc.Holding? || th.pc.Dropping? || th.pc.Freeing? ==> th.pc.d in s.objects)
    && (th.pc.InRcu? && th.pc.seen.Some? ==> th.pc.seen.value in s.objects && TableRefs(s, th.pc.seen.value) == 1)
    && (th.latched <==> s.latch == Some(t))
    && (th.clear ==> th.latched && s.current.None?)
    && (th.latched && th.pc == InRcu(None) ==> s.current.None?)
  }

  ghost predicate Inv(s: State) {
    && (forall d | d in s.objects :: ObjectInv(s, d))
    && (forall t :: ThreadInv(s, t))
    && (s.current.Some? ==> s.current.value in s.objects)
    && s.retired <= s.objects.Keys
  }

  lemma WithUpdate(m: map<Tid, Thread>, t: Tid, th: Thread, pc: Pc)
    requires !pc.Ready?
    ensures |With(m[t := th], pc)| == |With(m, pc)| - Bit(t in m && m[t].pc == pc) + Bit(th.pc == pc)
  {
    var a, b := With(m, pc), With(m[t := th], pc);
    assert t in a <==> t in m && m[t].pc == pc;
    assert t in b <==> th.pc == pc;
    forall u | u != t ensures u in a <==> u in b {
    }
    SameButOne(a, b, t);
  }

  /** Someone who is counted is counted. */
  lemma WithSome(s: State, t: Tid)
    ensures t in s.threads ==> |With(s.threads, s.threads[t].pc)| >= 1
  {
    if t in s.threads {
      var w := With(s.threads, s.threads[t].pc);
      assert t in w;
      assert w == (w - {t}) + {t};
    }
  }

  /** A listing that was never made has no references. */
  lemma FreshListing(s: State, d: Listing)
    requires Inv(s) && d !in s.objects
    ensures TableRefs(s, d) == 0 && With(s.threads, Holding(d)) == {} && With(s.threads, Freeing(d)) == {}
  {
    forall t | t in s.threads ensures s.threads[t].pc !in {Holding(d), Dropping(d), Freeing(d)} {
      assert ThreadInv(s, t);
    }
    assert With(s.threads, Dropping(d)) == {};
  }

  /** What the step does to the three counts of a listing. */
  lemma CountsMove(s: State, st: Step, d: Listing)
    requires Enabled(s, st) && !Fails(s, st)
    ensures var m, m', pc := s.threads, Apply(s, st).threads, ThreadOf(s, st.t).pc;
      var pc' := ThreadOf(Apply(s, st), st.t).pc;
      && |With(m', Holding(d))| == |With(m, Holding(d))| - Bit(pc == Holding(d)) + Bit(pc' == Holding(d))
      && |With(m', Dropping(d))| == |With(m, Dropping(d))| - Bit(pc == Dropping(d)) + Bit(pc' == Dropping(d))
      && |With(m', Freeing(d))| == |With(m, Freeing(d))| - Bit(pc == Freeing(d)) + Bit(pc' == Freeing(d))
  {
    var m, th' := s.threads, ThreadOf(Apply(s, st), st.t);
    assert Apply(s, st).threads == m[st.t := th'];
    hide With, Apply;
    WithUpdate(m, st.t, th', Holding(d));
    WithUpdate(m, st.t, th', Dropping(d));
    WithUpdate(m, st.t, th', Freeing(d));
  }

  lemma InvNeverFails(s: State, st: Step)
    requires Inv(s) && Enabled(s, st)
    ensures !Fails(s, st)
  {
    hide With;
    assert ThreadInv(s, st.t);
    WithSome(s, st.t);
    if Touched(s, st).Some? {
      assert ObjectInv(s, Touched(s, st).value);
    }
  }

  lemma ObjectKept(s: State, st: Step, d: Listing)
    requires Inv(s) && Enabled(s, st) && !Fails(s, st) && d in Apply(s, st).objects
    ensures ObjectInv(Apply(s, st), d)
  {
    hide With;
    assert ThreadInv(s, st.t);
    CountsMove(s, st, d);
    WithSome(s, st.t);
    if d in s.objects {
      assert ObjectInv(s, d);
    } else {
      FreshListing(s, d);
    }
  }

  /** Where the directory's reference of a listing goes does not matter to who found it there. */
  lemma TableKept(s: State, st: Step, d: Listing)
    requires Inv(s) && Enabled(s, st) && !Fails(s, st) && d in s.objects && TableRefs(s, d) == 1
    requires st.GraceEnd? ==> st.d != d
    ensures TableRefs(Apply(s, st), d) == 1
  {
    hide With;
    CountsMove(s, st, d);
    WithSome(s, st.t);
    assert ThreadInv(s, st.t) && ObjectInv(s, d);
  }

  lemma CurrentTable(s: State)
    requires Inv(s) && s.current.Some?
    ensures TableRefs(s, s.current.value) == 1
  {
    assert ObjectInv(s, s.current.value);
  }

  lemma ThreadKept(s: State, st: Step, t: Tid)
    requires Inv(s) && Enabled(s, st) && !Fails(s, st)
    ensures ThreadInv(Apply(s, st), t)
  {
    hide With, TableRefs;
    assert ThreadInv(s, t) && ThreadInv(s, st.t);
    var s' := Apply(s, st);
    var pc := ThreadOf(s, t).pc;
    if t == st.t && st.Enter? && s.current.Some? {
      CurrentTable(s);
      TableKept(s, st, s.current.value);
    }
    if pc.InRcu? && pc.seen.Some? && t != st.t {
      TableKept(s, st, pc.seen.value);
    }
  }

  lemma StepKeepsInv(s: State, st: Step)
    requires Inv(s) && Enabled(s, st)
    ensures !Fails(s, st) && Inv(Apply(s, st))
  {
    InvNeverFails(s, st);
    var s' := Apply(s, st);
    forall d | d in s'.objects ensures ObjectInv(s', d) {
      ObjectKept(s, st, d);
    }
    forall t ensures ThreadInv(s', t) {
      ThreadKept(s, st, t);
    }
    hide ObjectInv, With;
    assert ThreadInv(s, st.t);
  }

  // ---------------------------------------------------------------- every run

  ghost predicate Next(s: State, s': State) {
    exists st :: Enabled(s, st) && !Fails(s, st) && s' == Apply(s, st)
  }

  ghost predicate IsRun(run: seq<State>) {
    && run != [] && Init(run[0])
    && forall i | 0 <= i < |run| - 1 :: Next(run[i], run[i + 1])
  }

  lemma {:induction false} RunHasInv(run: seq<State>, i: nat)
    requires IsRun(run) && i < |run|
    ensures Inv(run[i])
    decreases i
  {
    hide Inv, Apply, Enabled, Fails;
    if i == 0 {
      InitHasInv(run[0]);
    } else {
      RunHasInv(run, i - 1);
      assert Next(run[i - 1], run[i]);
      var st :| Enabled(run[i - 1], st) && !Fails(run[i - 1], st) && run[i] == Apply(run[i - 1], st);
      StepKeepsInv(run[i - 1], st);
    }
  }

  lemma InitHasInv(s: State)
    requires Init(s)
    ensures Inv(s)
  {
  }

  /** No step uses a listing that is gone, takes a count below zero, or overwrites a published listing. */
  lemma NothingFails(run: seq<State>, i: nat, st: Step)
    requires IsRun(run) && i < |run| && Enabled(run[i], st)
    ensures !Fails(run[i], st)
  {
    RunHasInv(run, i);
    InvNeverFails(run[i], st);
  }

  /** A listing is freed at most once, and then no one refers to it or can still find it. */
  lemma FreedOnce(run: seq<State>, i: nat, d: Listing)
    requires IsRun(run) && i < |run| && d in run[i].objects
    ensures run[i].objects[d].frees <= 1
    ensures run[i].objects[d].frees == 1 ==>
      && run[i].current != Some(d) && d !in run[i].retired
      && forall t | t in run[i].threads ::
           run[i].threads[t].pc !in {InRcu(Some(d)), Holding(d), Dropping(d), Freeing(d)}
  {
    RunHasInv(run, i);
    var s := run[i];
    assert ObjectInv(s, d);
    if s.objects[d].frees == 1 {
      forall t | t in s.threads ensures s.threads[t].pc !in {InRcu(Some(d)), Holding(d), Dropping(d), Freeing(d)} {
        assert ThreadInv(s, t);
        WithSome(s, t);
      }
    }
  }

  /** When no one is at work and no listing is published or waiting, every listing ever made has been freed. */
  lemma NothingLeaks(run: seq<State>, i: nat, d: Listing)
    requires IsRun(run) && i < |run| && d in run[i].objects
    requires run[i].current.None? && run[i].retired == {} && forall t | t in run[i].threads ::
      run[i].threads[t].pc.Ready?
    ensures run[i].objects[d].frees == 1
  {
    RunHasInv(run, i);
    var m := run[i].threads;
    assert ObjectInv(run[i], d);
    assert With(m, Holding(d)) == {} && With(m, Dropping(d)) == {} && With(m, Freeing(d)) == {};
  }

  // ---------------------------------------------------------------- readers find what is published

  ghost predicate Leads(s: State, st: Step, s': State) {
    Enabled(s, st) && !Fails(s, st) && s' == Apply(s, st)
  }

  /** Whoever looks gets a reference to the listing that the directory has, if it has one. */
  lemma ReaderFinds(run: seq<State>, i: nat, u: Tid) returns (s1: State, s2: State)
    requires IsRun(run) && i < |run| && ThreadOf(run[i], u).pc.Ready?
    ensures Leads(run[i], Enter(u), s1) && Leads(s1, Take(u), s2) && s2.current == run[i].current
    ensures ThreadOf(s2, u).pc == if run[i].current.Some? then Holding(run[i].current.value) else Ready
    ensures run[i].current.None? && ThreadOf(run[i], u).latched ==> ThreadOf(s2, u).clear
  {
    hide With;
    RunHasInv(run, i);
    StepKeepsInv(run[i], Enter(u));
    s1 := Apply(run[i], Enter(u));
    InvNeverFails(s1, Take(u));
    s2 := Apply(s1, Take(u));
  }

  /** The holder of the latch that has found no listing can publish its own, and holds a reference to it as well. */
  lemma Publishes(run: seq<State>, i: nat, t: Tid, d: Listing) returns (s: State)
    requires IsRun(run) && i < |run| && ThreadOf(run[i], t) == Thread(Ready, true, true) && d !in run[i].objects
    ensures Leads(run[i], Publish(t, d), s)
    ensures s.current == Some(d) && s.objects == run[i].objects[d := Object(2, 0)] && ThreadOf(s, t).pc == Holding(d)
  {
    NothingFails(run, i, Publish(t, d));
    s := Apply(run[i], Publish(t, d));
  }

  /** A dropper leaves the directory without a listing, and what was there is retired. */
  lemma DropperRetires(run: seq<State>, i: nat, t: Tid) returns (s1: State, s2: State)
    requires IsRun(run) && i < |run| && ThreadOf(run[i], t).pc.Ready? && run[i].current.Some?
    ensures Leads(run[i], Drop(t), s1) && Leads(s1, CallRcu(t), s2)
    ensures s2.current.None? && s2.retired == run[i].retired + {run[i].current.value} && ThreadOf(s2, t).pc.Ready?
    ensures s2.objects == run[i].objects
  {
    hide With;
    RunHasInv(run, i);
    StepKeepsInv(run[i], Drop(t));
    s1 := Apply(run[i], Drop(t));
    InvNeverFails(s1, CallRcu(t));
    s2 := Apply(s1, CallRcu(t));
  }

  /** A listing that only its reader knows goes with its reader. */
  lemma KeptGoesWithReader(run: seq<State>, i: nat, t: Tid, d: Listing)
    returns (s1: State, s2: State, s3: State, s4: State)
    requires IsRun(run) && i < |run| && ThreadOf(run[i], t) == Thread(Ready, true, true) && d !in run[i].objects
    ensures Leads(run[i], Keep(t, d), s1) && Leads(s1, Release(t), s2)
    ensures Leads(s2, Put(t), s3) && Leads(s3, Free(t), s4)
    ensures s4.objects == run[i].objects[d := Object(0, 1)] && s4.current == run[i].current && s4.latch.None?
    ensures ThreadOf(s4, t) == IDLE
  {
    hide With, Inv;
    RunHasInv(run, i);
    StepKeepsInv(run[i], Keep(t, d));
    s1 := Apply(run[i], Keep(t, d));
    StepKeepsInv(s1, Release(t));
    s2 := Apply(s1, Release(t));
    StepKeepsInv(s2, Put(t));
    s3 := Apply(s2, Put(t));
    StepKeepsInv(s3, Free(t));
    s4 := Apply(s3, Free(t));
  }

  /** A published one stays for the next reader, with the reference of the directory. */
  lemma PublishedStays(run: seq<State>, i: nat, t: Tid, d: Listing) returns (s1: State, s2: State, s3: State)
    requires IsRun(run) && i < |run| && ThreadOf(run[i], t) == Thread(Ready, true, true) && d !in run[i].objects
    ensures Leads(run[i], Publish(t, d), s1) && Leads(s1, Release(t), s2) && Leads(s2, Put(t), s3)
    ensures s3.objects == run[i].objects[d := Object(1, 0)] && s3.current == Some(d) && s3.latch.None?
    ensures ThreadOf(s3, t) == IDLE
  {
    hide With, Inv;
    RunHasInv(run, i);
    StepKeepsInv(run[i], Publish(t, d));
    s1 := Apply(run[i], Publish(t, d));
    StepKeepsInv(s1, Release(t));
    s2 := Apply(s1, Release(t));
    StepKeepsInv(s2, Put(t));
    s3 := Apply(s2, Put(t));
  }

  /** A retired listing that no reader has found or holds goes with its grace period. */
  lemma RetiredGoes(run: seq<State>, i: nat, t: Tid, d: Listing) returns (s1: State, s2: State)
    requires IsRun(run) && i < |run| && ThreadOf(run[i], t).pc.Ready? && d in run[i].retired
    requires forall u :: ThreadOf(run[i], u).pc != InRcu(Some(d)) && ThreadOf(run[i], u).pc != Holding(d)
    ensures Leads(run[i], GraceEnd(t, d), s1) && Leads(s1, Free(t), s2)
    ensures d in s2.objects && s2.objects[d] == Object(0, 1) && s2.retired == run[i].retired - {d}
  {
    var s := run[i];
    RunHasInv(run, i);
    forall u | u in s.threads ensures s.threads[u].pc != InRcu(Some(d)) && s.threads[u].pc != Holding(d) {
      assert ThreadOf(s, u).pc != InRcu(Some(d)) && ThreadOf(s, u).pc != Holding(d);
    }
    assert With(s.threads, Holding(d)) == {};
    assert ObjectInv(s, d);
    hide With, Inv;
    StepKeepsInv(s, GraceEnd(t, d));
    s1 := Apply(s, GraceEnd(t, d));
    StepKeepsInv(s1, Free(t));
    s2 := Apply(s1, Free(t));
  }

  /** Whoever is in the middle of something can go on; a retired listing goes once no reader is left that found it. */
  lemma NeverStuck(run: seq<State>, i: nat, t: Tid) returns (st: Step)
    requires IsRun(run) && i < |run| && (!ThreadOf(run[i], t).pc.Ready? || ThreadOf(run[i], t).latched)
    ensures st.t == t && Enabled(run[i], st) && !Fails(run[i], st)
  {
    var s := run[i];
    match ThreadOf(s, t).pc {
      case Ready => st := Release(t);
      case InRcu(_) => st := Take(t);
      case Holding(_) => st := Put(t);
      case Dropping(_) => st := CallRcu(t);
      case Freeing(_) => st := Free(t);
    }
    NothingFails(run, i, st);
  }
}
