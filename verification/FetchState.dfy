/**
 The reference count of a span fetch.  The caller starts callbacks, callbacks start further ones for
 retries, and the caller frees the state once it sees that only its own reference is left.  A put decrements
 inside a lock-held region and wakes the caller there, and the state must not go away while a callback is still
 in that region.
 */
module FetchState {
  import opened Common

  datatype CallbackPc =
    | Running                  // holds a reference
    | Locked                   // in ternfs_put_fetch_span_pages, with the lock, before the decrement
    | Dropped(remaining: int)  // after it, still with the lock, before the wakeup
    | Woken(remaining: int)    // after the wakeup, still with the lock
    | Gone

  datatype CallerPc =
    | Working
    | Waiting                  // on the wait queue, about to look whether the count is 1
    | Asleep                   // it was not; waits for a wakeup
    | Seen                     // it was
    | CallerLocked
    | CallerDropped(remaining: int)
    | Unlocked(remaining: int)
    | Over

  datatype Holder = Caller | Callback(t: Tid)

  datatype State = State(refs: int, lock: Option<Holder>, caller: CallerPc, callbacks: map<Tid, CallbackPc>, frees: nat)

  datatype Step =
    | Start(t: Tid)              // the caller holds for a new callback
    | Retry(t: Tid, u: Tid)      // a callback holds for another one
    | Lock(t: Tid)
    | Drop(t: Tid)               // the decrement
    | Wake(t: Tid)               // the wakeup if one reference is left
    | Unlock(t: Tid)             // and, should nothing be left, the free
    | Finish
    | See
    | Sleep
    | CallerLock
    | CallerDrop
    | CallerUnlock
    | CallerFree

  predicate Is(s: State, t: Tid, pc: CallbackPc) {
    t in s.callbacks && s.callbacks[t] == pc
  }

  predicate Enabled(s: State, st: Step) {
    match st
    case Start(t) => s.caller.Working? && t !in s.callbacks
    case Retry(t, u) => Is(s, t, Running) && u !in s.callbacks
    case Lock(t) => Is(s, t, Running) && s.lock.None?
    case Drop(t) => Is(s, t, Locked)
    case Wake(t) => t in s.callbacks && s.callbacks[t].Dropped?
    case Unlock(t) => t in s.callbacks && s.callbacks[t].Woken?
    case Finish => s.caller.Working?
    case See => s.caller.Waiting? && s.refs == 1
    case Sleep => s.caller.Waiting? && s.refs != 1
    case CallerLock => s.caller.Seen? && s.lock.None?
    case CallerDrop => s.caller.CallerLocked?
    case CallerUnlock => s.caller.CallerDropped?
    case CallerFree => s.caller.Unlocked? && s.caller.remaining == 0
  }

  function Apply(s: State, st: Step): State
    requires Enabled(s, st)
  {
    match st
    case Start(t) => s.(refs := s.refs + 1, callbacks := s.callbacks[t := Running])
    case Retry(t, u) => s.(refs := s.refs + 1, callbacks := s.callbacks[u := Running])
    case Lock(t) => s.(lock := Some(Callback(t)), callbacks := s.callbacks[t := Locked])
    case Drop(t) => s.(refs := s.refs - 1, callbacks := s.callbacks[t := Dropped(s.refs - 1)])
    case Wake(t) =>
      var remaining := s.callbacks[t].remaining;
      s.(callbacks := s.callbacks[t := Woken(remaining)],
         caller := if remaining == 1 && s.caller.Asleep? then Waiting else s.caller)
    case Unlock(t) =>
      s.(lock := None, callbacks := s.callbacks[t := Gone],
         frees := if s.callbacks[t].remaining == 0 then s.frees + 1 else s.frees)
    case Finish => s.(caller := Waiting)
    case See => s.(caller := Seen)
    case Sleep => s.(caller := Asleep)
    case CallerLock => s.(lock := Some(Caller), caller := CallerLocked)
    case CallerDrop => s.(refs := s.refs - 1, caller := CallerDropped(s.refs - 1))
    case CallerUnlock => s.(lock := None, caller := Unlocked(s.caller.remaining))
    case CallerFree => s.(frees := s.frees + 1, caller := Over)
  }

  predicate Init(s: State) {
    s == State(1, None, Working, map[], 0)
  }

  /** The reference count must not go below zero. */
  predicate Fails(s: State) {
    || (s.caller.CallerDropped? && s.caller.remaining < 0)
    || exists t | t in s.callbacks :: s.callbacks[t].Dropped? && s.callbacks[t].remaining < 0
  }

  // ---------------------------------------------------------------- the invariant

  predicate HoldsRef(pc: CallbackPc) {
    pc.Running? || pc.Locked?
  }

  function Holders(m: map<Tid, CallbackPc>): set<Tid> {
    set t | t in m && HoldsRef(m[t])
  }

  /** The caller still has its reference. */
  predicate CallerHolds(pc: CallerPc) {
    pc.Working? || pc.Waiting? || pc.Asleep? || pc.Seen? || pc.CallerLocked?
  }

  /** The caller has seen a count of 1. */
  predicate Closing(pc: CallerPc) {
    !pc.Working? && !pc.Waiting? && !pc.Asleep?
  }

  predicate HasDropped(pc: CallbackPc) {
    pc.Dropped? || pc.Woken?
  }

  predicate CallbackInv(s: State, t: Tid)
    requires t in s.callbacks
  {
    && (s.callbacks[t].Locked? || HasDropped(s.callbacks[t]) <==> s.lock == Some(Callback(t)))
    && (HasDropped(s.callbacks[t]) ==> 1 <= s.callbacks[t].remaining <= s.refs && CallerHolds(s.caller))
  }

  /** The callback in the locked region is about to wake the caller. */
  predicate WakeupDue(s: State) {
    s.lock.Some? && s.lock.value.Callback? && Is(s, s.lock.value.t, Dropped(1))
  }

  ghost predicate Inv(s: State) {
    && s.refs == Bit(CallerHolds(s.caller)) + |Holders(s.callbacks)|
    && (forall t | t in s.callbacks :: CallbackInv(s, t))
    && (s.lock.Some? && s.lock.value.Callback? ==> s.lock.value.t in s.callbacks)
    && (s.caller.CallerLocked? || s.caller.CallerDropped? <==> s.lock == Some(Caller))
    && (Closing(s.caller) ==> Holders(s.callbacks) == {})
    && (s.caller.Asleep? && s.refs == 1 ==> WakeupDue(s))
    && (s.caller.CallerDropped? || s.caller.Unlocked? ==> s.caller.remaining == 0)
    && (s.caller.Unlocked? || s.caller.Over? ==> s.lock.None?)
    && s.frees == Bit(s.caller.Over?)
  }

  lemma HoldersUpdate(m: map<Tid, CallbackPc>, t: Tid, pc: CallbackPc)
    ensures |Holders(m[t := pc])| == |Holders(m)| - Bit(t in m && HoldsRef(m[t])) + Bit(HoldsRef(pc))
    ensures HoldsRef(pc) ==> Holders(m[t := pc]) != {}
    ensures t in m && HoldsRef(m[t]) ==> Holders(m) != {}
    ensures !HoldsRef(pc) && Holders(m) == {} ==> Holders(m[t := pc]) == {}
  {
    var a, b := Holders(m), Holders(m[t := pc]);
    assert t in a <==> t in m && HoldsRef(m[t]);
    assert t in b <==> HoldsRef(pc);
    forall u | u != t ensures u in a <==> u in b {
    }
    SameButOne(a, b, t);
  }

  /** Who has the lock is who is in the locked region. */
  lemma LockOwner(s: State, t: Tid)
    requires Inv(s) && t in s.callbacks
    ensures CallbackInv(s, t)
  {
  }

  lemma StepKeepsInv(s: State, st: Step)
    requires Inv(s) && Enabled(s, st)
    ensures Inv(Apply(s, st))
  {
    var s' := Apply(s, st);
    match st {
      case Start(t) => HoldersUpdate(s.callbacks, t, Running);
      case Retry(t, u) =>
        HoldersUpdate(s.callbacks, u, Running);
        HoldersUpdate(s.callbacks, t, Running);
      case Lock(t) => HoldersUpdate(s.callbacks, t, Locked);
      case Drop(t) => HoldersUpdate(s.callbacks, t, Dropped(s.refs - 1));
      case Wake(t) => HoldersUpdate(s.callbacks, t, Woken(s.callbacks[t].remaining));
      case Unlock(t) => HoldersUpdate(s.callbacks, t, Gone);
      case _ =>
    }
    CallbacksKept(s, st);
    hide CallbackInv, Holders;
  }

  lemma CallbacksKept(s: State, st: Step)
    requires Inv(s) && Enabled(s, st)
    ensures forall t | t in Apply(s, st).callbacks :: CallbackInv(Apply(s, st), t)
  {
    var s' := Apply(s, st);
    if st.Drop? {
      HoldersUpdate(s.callbacks, st.t, Dropped(s.refs - 1));
    }
    forall t | t in s'.callbacks ensures CallbackInv(s', t) {
      if t in s.callbacks {
        LockOwner(s, t);
      }
    }
  }

  // ---------------------------------------------------------------- every run

  ghost predicate Next(s: State, s': State) {
    exists st :: Enabled(s, st) && s' == Apply(s, st)
  }

  ghost predicate IsRun(run: seq<State>) {
    && run != [] && Init(run[0])
    && forall i | 0 <= i < |run| - 1 :: Next(run[i], run[i + 1])
  }

  lemma {:induction false} RunHasInv(run: seq<State>, i: nat)
    requires IsRun(run) && i < |run|
    ensures Inv(run[i])
    decreases i
  {
    hide Inv, Apply, Enabled;
    if i == 0 {
      InitHasInv(run[0]);
    } else {
      RunHasInv(run, i - 1);
      assert Next(run[i - 1], run[i]);
      var st :| Enabled(run[i - 1], st) && run[i] == Apply(run[i - 1], st);
      StepKeepsInv(run[i - 1], st);
    }
  }

  lemma InitHasInv(s: State)
    requires Init(s)
    ensures Inv(s)
  {
    assert Holders(s.callbacks) == {};
  }

  /** The count is that of the references held, and a decrement never takes it below zero. */
  lemma ReferencesAreCounted(run: seq<State>, i: nat)
    requires IsRun(run) && i < |run|
    ensures run[i].refs == Bit(CallerHolds(run[i].caller)) + |Holders(run[i].callbacks)|
    ensures !Fails(run[i])
  {
    RunHasInv(run, i);
    forall t | t in run[i].callbacks ensures !(run[i].callbacks[t].Dropped? && run[i].callbacks[t].remaining < 0) {
      LockOwner(run[i], t);
    }
  }

  /**
   The state is freed at most once, by the caller, when every callback has left its locked region and can take no
   further step.
   */
  lemma FreedOnceByCaller(run: seq<State>, i: nat, st: Step)
    requires IsRun(run) && i < |run|
    ensures run[i].frees <= 1 && (run[i].frees == 1 <==> run[i].caller.Over?)
    ensures run[i].frees == 1 ==> run[i].lock.None? && forall t | t in run[i].callbacks :: run[i].callbacks[t].Gone?
    ensures run[i].frees == 1 ==> !Enabled(run[i], st)
  {
    RunHasInv(run, i);
    var s := run[i];
    if s.caller.Over? {
      forall t | t in s.callbacks ensures s.callbacks[t].Gone? {
        LockOwner(s, t);
        assert t in Holders(s.callbacks) <==> HoldsRef(s.callbacks[t]);
      }
    }
  }

  lemma ClosingStep(s: State, st: Step)
    requires Inv(s) && Closing(s.caller) && Enabled(s, st)
    ensures Closing(Apply(s, st).caller) && Apply(s, st).refs <= s.refs <= 1
  {
    forall t | t in s.callbacks ensures !HoldsRef(s.callbacks[t]) {
      assert t !in Holders(s.callbacks);
    }
  }

  lemma ClosingCount(s: State)
    requires Inv(s) && Closing(s.caller)
    ensures s.refs <= 1
  {
  }

  /** Once the caller has seen a count of 1, it never rises again, whatever the callbacks do. */
  lemma {:induction false} OneIsFinal(run: seq<State>, i: nat, j: nat)
    requires IsRun(run) && i <= j < |run| && Closing(run[i].caller)
    ensures Closing(run[j].caller) && run[j].refs <= run[i].refs <= 1
    decreases j
  {
    hide Inv, Apply, Enabled, Closing;
    RunHasInv(run, i);
    ClosingCount(run[i]);
    if i < j {
      OneIsFinal(run, i, j - 1);
      RunHasInv(run, j - 1);
      assert Next(run[j - 1], run[j]);
      var st :| Enabled(run[j - 1], st) && run[j] == Apply(run[j - 1], st);
      ClosingStep(run[j - 1], st);
    }
  }

  /** A caller that waits can go on once the count is 1: it sees it, or the wakeup is still to come. */
  lemma NoLostWakeup(run: seq<State>, i: nat)
    requires IsRun(run) && i < |run| && run[i].refs == 1
    ensures run[i].caller.Waiting? ==> Enabled(run[i], See)
    ensures run[i].caller.Asleep? ==>
      WakeupDue(run[i]) && Enabled(run[i], Wake(run[i].lock.value.t))
        && Apply(run[i], Wake(run[i].lock.value.t)).caller.Waiting?
  {
    RunHasInv(run, i);
  }

  /** Until the state is freed, someone can always take a step. */
  lemma NeverStuck(run: seq<State>, i: nat) returns (st: Step)
    requires IsRun(run) && i < |run|
    ensures run[i].frees == 0 ==> Enabled(run[i], st)
  {
    RunHasInv(run, i);
    var s := run[i];
    st := Finish;
    if s.lock.Some? {
      st := if s.lock.value.Caller? then (if s.caller.CallerLocked? then CallerDrop else CallerUnlock)
        else HolderStep(s);
    } else if s.caller.Waiting? {
      st := if s.refs == 1 then See else Sleep;
    } else if s.caller.Asleep? {
      assert |Holders(s.callbacks)| > 0;
      var t :| t in Holders(s.callbacks);
      LockOwner(s, t);
      st := Lock(t);
    } else if s.caller.Seen? {
      st := CallerLock;
    } else if s.caller.Unlocked? {
      st := CallerFree;
    }
  }

  /** What the callback in the locked region does next. */
  function HolderStep(s: State): Step
    requires s.lock.Some? && s.lock.value.Callback? && s.lock.value.t in s.callbacks
  {
    var t := s.lock.value.t;
    match s.callbacks[t]
    case Locked => Drop(t)
    case Dropped(_) => Wake(t)
    case _ => Unlock(t)
  }

  // ---------------------------------------------------------------- every fetch ends

  /** How many steps a callback has left. */
  function Stage(pc: CallbackPc): nat {
    match pc
    case Running => 4
    case Locked => 3
    case Dropped(_) => 2
    case Woken(_) => 1
    case Gone => 0
  }

  function Behind(m: map<Tid, CallbackPc>, k: nat): set<Tid> {
    set t | t in m && Stage(m[t]) >= k
  }

  /** How many steps all callbacks have left. */
  function Left(m: map<Tid, CallbackPc>): nat {
    |Behind(m, 1)| + |Behind(m, 2)| + |Behind(m, 3)| + |Behind(m, 4)|
  }

  lemma BehindUpdate(m: map<Tid, CallbackPc>, t: Tid, pc: CallbackPc, k: nat)
    ensures |Behind(m[t := pc], k)| == |Behind(m, k)| - Bit(t in m && Stage(m[t]) >= k) + Bit(Stage(pc) >= k)
  {
    var a, b := Behind(m, k), Behind(m[t := pc], k);
    assert t in a <==> t in m && Stage(m[t]) >= k;
    assert t in b <==> Stage(pc) >= k;
    forall u | u != t ensures u in a <==> u in b {
    }
    SameButOne(a, b, t);
  }

  lemma LeftUpdate(m: map<Tid, CallbackPc>, t: Tid, pc: CallbackPc)
    ensures Left(m[t := pc]) == Left(m) - (if t in m then Stage(m[t]) else 0) + Stage(pc)
  {
    hide Behind;
    BehindUpdate(m, t, pc, 1);
    BehindUpdate(m, t, pc, 2);
    BehindUpdate(m, t, pc, 3);
    BehindUpdate(m, t, pc, 4);
  }

  /** How many steps the caller has left if no one wakes it for nothing. */
  function CallerStage(pc: CallerPc): nat {
    match pc
    case Working => 6
    case Waiting => 5
    case Asleep => 4
    case Seen => 4
    case CallerLocked => 3
    case CallerDropped(_) => 2
    case Unlocked(_) => 1
    case Over => 0
  }

  /** A wakeup gives a step back to the caller, so steps of callbacks count twice. */
  function Rest(s: State): nat {
    CallerStage(s.caller) + 2 * Left(s.callbacks)
  }

  lemma StepAdvances(s: State, st: Step)
    requires Enabled(s, st)
    ensures Rest(Apply(s, st)) < Rest(s) + 9 * (|Apply(s, st).callbacks| - |s.callbacks|)
  {
    hide Left;
    match st {
      case Start(t) => Joins(s.callbacks, t);
      case Retry(_, u) => Joins(s.callbacks, u);
      case Lock(t) => Moves(s.callbacks, t, Locked);
      case Drop(t) => Moves(s.callbacks, t, Dropped(s.refs - 1));
      case Wake(t) => Moves(s.callbacks, t, Woken(s.callbacks[t].remaining));
      case Unlock(t) => Moves(s.callbacks, t, Gone);
      case _ =>
    }
  }

  lemma Joins(m: map<Tid, CallbackPc>, t: Tid)
    requires t !in m
    ensures Left(m[t := Running]) == Left(m) + 4 && |m[t := Running]| == |m| + 1
  {
    hide Left;
    LeftUpdate(m, t, Running);
  }

  lemma Moves(m: map<Tid, CallbackPc>, t: Tid, pc: CallbackPc)
    requires t in m && Stage(pc) < Stage(m[t])
    ensures Left(m[t := pc]) < Left(m) && |m[t := pc]| == |m|
  {
    hide Left;
    LeftUpdate(m, t, pc);
    assert m[t := pc].Keys == m.Keys;
  }

  /** A fetch with `n` callbacks, retries included, takes at most 9 * n + 6 steps. */
  lemma {:induction false} RunEnds(run: seq<State>, i: nat)
    requires IsRun(run) && i < |run|
    ensures i + Rest(run[i]) <= 9 * |run[i].callbacks| + 6
    decreases i
  {
    hide Apply, Enabled, Rest;
    if i == 0 {
      StartsWith(run[0]);
    } else {
      RunEnds(run, i - 1);
      assert Next(run[i - 1], run[i]);
      var st :| Enabled(run[i - 1], st) && run[i] == Apply(run[i - 1], st);
      StepAdvances(run[i - 1], st);
    }
  }

  lemma StartsWith(s: State)
    requires Init(s)
    ensures Rest(s) == 6 && |s.callbacks| == 0
  {
    assert forall k :: Behind(s.callbacks, k) == {};
  }
}
