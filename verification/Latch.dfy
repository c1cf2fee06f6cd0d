/**
 The sequence-number latch: an even counter is free, an odd one is held.  Acquiring is one atomic
 fetch-or; releasing stores the acquired value plus two.  The lemmas are over every run of any
 number of threads that try, release and wait.
 */
module Latch {
  import opened Common

  /** counter | 1 */
  function OrOne(c: nat): nat {
    if c % 2 == 0 then c + 1 else c
  }

  /** A waiter that saw `seqno` goes on once the counter passes seqno | 1. */
  predicate WaitOver(c: nat, seqno: nat) {
    c > OrOne(seqno)
  }

  // ---------------------------------------------------------------- runs of many threads

  /** `held`: who holds the latch and with which number.  `over`: the numbers released so far. */
  datatype State = State(counter: nat, held: map<Tid, nat>, seen: map<Tid, nat>, over: set<nat>)

  datatype Step =
    | Try(t: Tid)            // ternfs_latch_try_acquire
    | Release(t: Tid)        // ternfs_latch_release by a holder

  predicate Enabled(s: State, st: Step) {
    match st
    case Try(t) => t !in s.held
    case Release(t) => t in s.held
  }

  function Apply(s: State, st: Step): State
    requires Enabled(s, st)
  {
    match st
    case Try(t) =>
      if s.counter % 2 == 0 then State(OrOne(s.counter), s.held[t := s.counter], s.seen - {t}, s.over)
      else s.(seen := s.seen[t := s.counter])
    case Release(t) => State(s.held[t] + 2, s.held - {t}, s.seen, s.over + {s.held[t]})
  }

  predicate Init(s: State) {
    s == State(0, map[], map[], {})
  }

  ghost predicate Next(s: State, s': State) {
    exists st :: Enabled(s, st) && s' == Apply(s, st)
  }

  ghost predicate IsRun(run: seq<State>) {
    && run != [] && Init(run[0])
    && forall i | 0 <= i < |run| - 1 :: Next(run[i], run[i + 1])
  }

  /** The holder's number is one below the counter; smaller even numbers are exactly the released ones. */
  ghost predicate Inv(s: State) {
    && (forall t | t in s.held :: s.held[t] % 2 == 0 && s.counter == s.held[t] + 1)
    && (forall t, u | t in s.held && u in s.held :: t == u)
    && (s.counter % 2 == 1 ==> exists t :: t in s.held)
    && (forall q | q in s.over :: q % 2 == 0)
    && (forall q: nat | q % 2 == 0 :: q in s.over <==> q + 2 <= s.counter)
    && (forall t | t in s.seen :: s.seen[t] % 2 == 1 && s.seen[t] <= s.counter)
  }

  lemma StepKeepsInv(s: State, st: Step)
    requires Inv(s) && Enabled(s, st)
    ensures Inv(Apply(s, st)) && s.counter <= Apply(s, st).counter && s.over <= Apply(s, st).over
  {
    var s' := Apply(s, st);
    if st.Try? && s.counter % 2 == 0 {
      assert s'.held[st.t] == s.counter;
      assert forall t :: t !in s.held;
    }
  }

  lemma {:induction false} RunHasInv(run: seq<State>, i: nat, j: nat)
    requires IsRun(run) && i <= j < |run|
    ensures Inv(run[i]) && Inv(run[j])
    ensures run[i].counter <= run[j].counter && run[i].over <= run[j].over
    decreases j
  {
    if j > 0 {
      RunHasInv(run, if i < j then i else j - 1, j - 1);
      assert Next(run[j - 1], run[j]);
      var st :| Enabled(run[j - 1], st) && run[j] == Apply(run[j - 1], st);
      StepKeepsInv(run[j - 1], st);
    }
  }

  /** At most one thread holds the latch, and the counter is odd exactly while one does. */
  lemma MutualExclusion(run: seq<State>, i: nat)
    requires IsRun(run) && i < |run|
    ensures forall t, u | t in run[i].held && u in run[i].held :: t == u
    ensures run[i].counter % 2 == 1 <==> exists t :: t in run[i].held
  {
    RunHasInv(run, i, i);
  }

  /**
   A thread that lost to a holder at state i observed the holder's number plus one.  At any later
   state its wait is over exactly when that holder has released, and then stays over.
   */
  lemma WaiterWakesOnRelease(run: seq<State>, i: nat, j: nat, holder: Tid)
    requires IsRun(run) && i <= j < |run| && holder in run[i].held
    ensures var seqno := run[i].counter;
      && (WaitOver(run[j].counter, seqno) <==> run[i].held[holder] in run[j].over)
      && !WaitOver(run[i].counter, seqno)
  {
    RunHasInv(run, i, j);
    var q := run[i].held[holder];
    assert q in run[j].over <==> q + 2 <= run[j].counter;
  }

  lemma WaitStaysOver(run: seq<State>, i: nat, j: nat, seqno: nat)
    requires IsRun(run) && i <= j < |run| && WaitOver(run[i].counter, seqno)
    ensures WaitOver(run[j].counter, seqno)
  {
    RunHasInv(run, i, j);
  }

  /**
   Who tries while the latch is held sees the holder's number plus one and changes nothing else; once the holder
   releases, that wait is over and the next one who tries has the latch.
   */
  lemma HandOver(run: seq<State>, i: nat, t: Tid, u: Tid) returns (s1: State, s2: State, s3: State)
    requires IsRun(run) && i < |run| && t in run[i].held && u != t
    ensures Enabled(run[i], Try(u)) && s1 == Apply(run[i], Try(u)) && s1.held == run[i].held
    ensures u in s1.seen && s1.seen[u] == run[i].held[t] + 1 == s1.counter && !WaitOver(s1.counter, s1.seen[u])
    ensures Enabled(s1, Release(t)) && s2 == Apply(s1, Release(t)) && s2.held == map[]
    ensures WaitOver(s2.counter, s1.seen[u])
    ensures Enabled(s2, Try(u)) && s3 == Apply(s2, Try(u)) && s3.held == map[u := run[i].held[t] + 2]
  {
    RunHasInv(run, i, i);
    s1 := Apply(run[i], Try(u));
    s2 := Apply(s1, Release(t));
    s3 := Apply(s2, Try(u));
  }

  // ---------------------------------------------------------------- the counter

  /** The atomic counter; `s` is the state of all threads and `t` the one that calls. */
  class Counter {
    var counter: nat

    constructor ()
      ensures counter == 0 && forall s | Init(s) :: s.counter == counter
    {
      counter := 0;
    }

    /** Returns the value seen; the latch is ours exactly when that value was even. */
    method TryAcquire(ghost s: State, ghost t: Tid) returns (seqno: nat, ours: bool)
      requires s.counter == counter && Enabled(s, Try(t))
      modifies this
      ensures seqno == old(counter) && (ours <==> old(counter) % 2 == 0)
      ensures counter % 2 == 1 && (!ours ==> counter == old(counter))
      ensures var s' := Apply(s, Try(t));
        && counter == s'.counter && (ours <==> t in s'.held)
        && (if ours then s'.held[t] == seqno else t in s'.seen && s'.seen[t] == seqno)
    {
      seqno := counter;
      counter := OrOne(counter);
      ours := seqno % 2 == 0;
    }

    /** A holder gives the latch back with the number it acquired; whoever saw the latch taken can go on. */
    method Release(seqno: nat, ghost s: State, ghost t: Tid)
      requires Inv(s) && s.counter == counter && t in s.held && s.held[t] == seqno
      modifies this
      ensures counter == Apply(s, Step.Release(t)).counter && counter % 2 == 0
      ensures WaitOver(counter, seqno) && WaitOver(counter, seqno + 1)
      ensures !old(WaitOver(counter, seqno + 1))
    {
      counter := seqno + 2;
    }
  }
}
