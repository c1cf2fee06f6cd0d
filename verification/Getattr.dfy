/**
 Asynchronous getattr of one inode: two latches, one delayed work item, the reply callback and any
 number of starters race to release the update latch and to drop the inode reference.  Every
 action is one atomic operation or one lock-held region.

 A synchronous cancel is two steps: it claims the work, pending or idle, and it gives the claim up
 once no completion is running.  Meanwhile the work cannot be scheduled by anyone.

 The protocol is correct in every run in which each cancel takes over pending work with the init
 latch free, the request out of the request tree and no reply attached.  A cancel that finds the
 work idle, or that takes over the work of a later starter, violates this, and then the assertions
 of the code can fail; both directions are proved below.
 */
module Getattr {
  import opened Common
  import L = Latch

  datatype Pc =
    | Ready
    // ternfs_start_async_getattr; sn is the number of the update latch, iseq that of the init latch
    | Acquired(sn: nat)
    | Numbered(sn: nat)
    | InitHeld(sn: nat, iseq: nat)
    | Referenced(sn: nat, iseq: nat)
    | Deciding(sn: nat, iseq: nat)
    | Sending(sn: nat, iseq: nat)
    | Leaving(sn: nat, iseq: nat, sent: bool)
    | Cancelling(sn: nat)
    | CancelWait(won: bool)
    // ternfs_finish_async_getattr, called by the completion work or after a cancel
    | Finishing(byWork: bool)
    | Dropping(byWork: bool)
    // getattr_async_complete
    | Running
    | WaitingInit(saw: nat)
    | RetryInit
    | InitPassing(iseq: nat)
    | Removing
    | Collecting
    // the reply callback
    | Delivered
    | Rescheduling
    | CallbackDone
    // ternfs_do_getattr holding the update latch
    | SyncHeld(sn: nat)

  datatype Inode = Inode(
    upd: nat,              // getattr_update_latch
    init: nat,             // getattr_update_init_latch
    asyncSeq: nat,         // getattr_async_seqno
    asyncHeld: bool,       // the update latch is held on behalf of an asynchronous getattr
    pending: bool,         // getattr_async_work is queued or its timer is running
    claims: nat,           // synchronous cancels that keep the work from being scheduled
    running: bool,         // a worker executes getattr_async_work
    inTree: bool,          // getattr_async_req is in the request tree
    onWire: bool,          // and has been sent
    reply: bool,           // getattr_async_req.skb
    refs: int,             // inode references taken by the protocol
    acquired: nat,         // asynchronous acquisitions of the update latch so far
    released: nat,         // their releases so far
    puts: nat)             // and the references dropped for them

  datatype State = State(ino: Inode, threads: map<Tid, Pc>)

  function PcOf(s: State, t: Tid): Pc {
    if t in s.threads then s.threads[t] else Ready
  }

  // ---------------------------------------------------------------- actions

  datatype Action =
    | StartAsync | StoreSeq | TakeInit | Hold | Schedule | Skip | Link | SendOk | SendFail | FreeInit
    | Cancel | EndCancel
    | Release | Drop
    | Fire | TryInit | WaitInit | RetryTake | PassInit | Unlink | Collect
    | Receive | CancelTimer | Requeue | CallbackPut
    | StartSync | EndSync

  /** Scheduling the work has no effect: it is pending or claimed by a cancel. */
  predicate Busy(n: Inode) {
    n.pending || n.claims > 0
  }

  /** The assertions of the code, and what starting a request silently relies on. */
  predicate Fails(n: Inode, pc: Pc) {
    || (pc.Numbered? && n.init % 2 == 1)       // BUG_ON: the init latch is taken
    || (pc.Referenced? && Busy(n))             // BUG_ON: the work cannot be scheduled
    || (pc.Rescheduling? && Busy(n))           // the completion would be lost and the latch stay taken
    || (pc.RetryInit? && n.init % 2 == 1)      // BUG_ON: the init latch is taken again
    || (pc.Deciding? && n.inTree)              // the request would be linked into the tree twice
    || (pc.Deciding? && n.reply)               // the reply buffer of the request would be lost
    || (n.inTree && n.reply)                   // BUG_ON: a reply arrives for a request that has one
    || (pc.Finishing? && n.asyncSeq % 2 == 1)  // BUG_ON: releasing the update latch with a number that was not acquired
    || ((pc.Leaving? || pc.InitPassing?) && pc.iseq % 2 == 1)
  }

  predicate Guard(n: Inode, pc: Pc, a: Action) {
    match a
    case StartAsync => pc.Ready?
    case StoreSeq => pc.Acquired?
    case TakeInit => pc.Numbered? && n.init % 2 == 0
    case Hold => pc.InitHeld?
    case Schedule => pc.Referenced? && !Busy(n)
    case Skip => pc.Deciding?
    case Link => pc.Deciding? && !n.inTree
    case SendOk => pc.Sending?
    case SendFail => pc.Sending?
    case FreeInit => pc.Leaving?
    case Cancel => pc.Cancelling?
    case EndCancel => pc.CancelWait? && n.claims > 0 && !n.running
    case Release => pc.Finishing?
    case Drop => pc.Dropping?
    case Fire => pc.Ready? && n.pending && !n.running
    case TryInit => pc.Running?
    case WaitInit => pc.WaitingInit? && L.WaitOver(n.init, pc.saw)
    case RetryTake => pc.RetryInit? && n.init % 2 == 0
    case PassInit => pc.InitPassing?
    case Unlink => pc.Removing?
    case Collect => pc.Collecting?
    case Receive => pc.Ready? && n.inTree && n.onWire && !n.reply
    case CancelTimer => pc.Delivered?
    case Requeue => pc.Rescheduling? && !Busy(n)
    case CallbackPut => pc.CallbackDone?
    case StartSync => pc.Ready?
    case EndSync => pc.SyncHeld?
  }

  function PcAfter(n: Inode, pc: Pc, a: Action): Pc
    requires Guard(n, pc, a)
  {
    match a
    case StartAsync => if n.upd % 2 == 0 then Acquired(n.upd) else Ready
    case StoreSeq => Numbered(pc.sn)
    case TakeInit => InitHeld(pc.sn, n.init)
    case Hold => Referenced(pc.sn, pc.iseq)
    case Schedule => Deciding(pc.sn, pc.iseq)
    case Skip => Leaving(pc.sn, pc.iseq, false)
    case Link => Sending(pc.sn, pc.iseq)
    case SendOk => Leaving(pc.sn, pc.iseq, true)
    case SendFail => Leaving(pc.sn, pc.iseq, false)
    case FreeInit => if pc.sent then Ready else Cancelling(pc.sn)
    case Cancel => CancelWait(n.pending)
    case EndCancel => if pc.won then Finishing(false) else Ready
    case Release => Dropping(pc.byWork)
    case Drop => Ready
    case Fire => Running
    case TryInit => if n.init % 2 == 0 then InitPassing(n.init) else WaitingInit(n.init)
    case WaitInit => RetryInit
    case RetryTake => InitPassing(n.init)
    case PassInit => Removing
    case Unlink => Collecting
    case Collect => Finishing(true)
    case Receive => Delivered
    case CancelTimer => if n.pending then Rescheduling else CallbackDone
    case Requeue => CallbackDone
    case CallbackPut => Ready
    case StartSync => if n.upd % 2 == 0 then SyncHeld(n.upd) else Ready
    case EndSync => Ready
  }

  function InodeAfter(n: Inode, pc: Pc, a: Action): Inode
    requires Guard(n, pc, a)
  {
    match a
    case StartAsync =>
      if n.upd % 2 == 0 then n.(upd := L.OrOne(n.upd), asyncHeld := true, acquired := n.acquired + 1) else n
    case StoreSeq => n.(asyncSeq := pc.sn)
    case TakeInit => n.(init := L.OrOne(n.init))
    case Hold => n.(refs := n.refs + 1)
    case Schedule => n.(pending := true)
    case Link => n.(inTree := true, onWire := false, reply := false)
    case SendOk => n.(onWire := true)
    case SendFail => n.(inTree := false)
    case FreeInit => n.(init := pc.iseq + 2)
    case Cancel => n.(pending := false, claims := n.claims + 1)
    case EndCancel => n.(claims := n.claims - 1)
    case Release => n.(upd := n.asyncSeq + 2, asyncHeld := false, released := n.released + 1)
    case Drop => n.(refs := n.refs - 1, puts := n.puts + 1, running := n.running && !pc.byWork)
    case Fire => n.(pending := false, running := true)
    case TryInit => n.(init := L.OrOne(n.init))
    case RetryTake => n.(init := L.OrOne(n.init))
    case PassInit => n.(init := pc.iseq + 2)
    case Unlink => n.(inTree := false)
    case Collect => n.(reply := false)
    case Receive => n.(reply := true, inTree := false, refs := n.refs + 1)
    case CancelTimer => n.(pending := false)
    case Requeue => n.(pending := true)
    case CallbackPut => n.(refs := n.refs - 1)
    case StartSync => n.(upd := L.OrOne(n.upd))
    case EndSync => n.(upd := pc.sn + 2)
    case _ => n
  }

  datatype Step = Step(t: Tid, a: Action)

  predicate Enabled(s: State, st: Step) {
    Guard(s.ino, PcOf(s, st.t), st.a)
  }

  function Apply(s: State, st: Step): State
    requires Enabled(s, st)
  {
    State(InodeAfter(s.ino, PcOf(s, st.t), st.a), s.threads[st.t := PcAfter(s.ino, PcOf(s, st.t), st.a)])
  }

  const FRESH := Inode(0, 0, 0, false, false, 0, false, false, false, false, 0, 0, 0, 0)

  predicate Init(s: State) {
    s == State(FRESH, map[])
  }

  /** Nothing of a getattr but its work is in flight. */
  predicate Quiet(n: Inode) {
    n.init % 2 == 0 && !n.inTree && !n.reply
  }

  /** A cancel is clean when it takes over pending work and nothing else of that getattr is in flight. */
  predicate CleanCancel(n: Inode) {
    n.pending && Quiet(n)
  }

  predicate Clean(s: State, st: Step) {
    st.a.Cancel? ==> CleanCancel(s.ino)
  }

  ghost predicate CleanNext(s: State, s': State) {
    exists st :: Enabled(s, st) && Clean(s, st) && s' == Apply(s, st)
  }

  ghost predicate IsCleanPath(path: seq<State>) {
    path != [] && forall i | 0 <= i < |path| - 1 :: CleanNext(path[i], path[i + 1])
  }

  /** A run in which every cancel is clean. */
  ghost predicate IsCleanRun(run: seq<State>) {
    IsCleanPath(run) && Init(run[0])
  }

  // ---------------------------------------------------------------- the inductive invariant

  /** The thread must see to it that the update latch is released and the reference dropped. */
  predicate OwnsDuty(pc: Pc) {
    pc.Acquired? || pc.Numbered? || pc.InitHeld? || pc.Referenced? || pc.Rescheduling? || CompletionDuty(pc)
  }

  predicate CompletionDuty(pc: Pc) {
    pc.Running? || pc.WaitingInit? || pc.RetryInit? || pc.InitPassing? || pc.Removing? || pc.Collecting?
    || Settled(pc)
  }

  /** The completion has been taken over: only the latch and the reference are left to give back. */
  predicate Settled(pc: Pc) {
    pc.Finishing? || (pc.CancelWait? && pc.won)
  }

  /** The thread is the worker inside getattr_async_complete. */
  predicate Executing(pc: Pc) {
    || pc.Running? || pc.WaitingInit? || pc.RetryInit? || pc.InitPassing? || pc.Removing? || pc.Collecting?
    || ((pc.Finishing? || pc.Dropping?) && pc.byWork)
  }

  predicate IsClaiming(pc: Pc) {
    pc.CancelWait?
  }

  predicate HoldsSync(pc: Pc) {
    pc.SyncHeld?
  }

  predicate HoldsInit(pc: Pc) {
    pc.InitHeld? || pc.Referenced? || pc.Deciding? || pc.Sending? || pc.Leaving? || pc.InitPassing?
  }

  predicate HoldsGetattrRef(pc: Pc) {
    pc.Referenced? || pc.Rescheduling? || CompletionDuty(pc) || pc.Dropping?
  }

  predicate HoldsCallbackRef(pc: Pc) {
    pc.Delivered? || pc.Rescheduling? || pc.CallbackDone?
  }

  predicate IsDropping(pc: Pc) {
    pc.Dropping?
  }

  function Who(m: map<Tid, Pc>, f: Pc -> bool): set<Tid> {
    set t | t in m && f(m[t])
  }

  /** Who holds what: one duty per asynchronous acquisition, one init holder, one reference each. */
  ghost predicate CountInv(s: State) {
    && |Who(s.threads, OwnsDuty)| + Bit(s.ino.pending) == Bit(s.ino.asyncHeld)
    && |Who(s.threads, HoldsInit)| == s.ino.init % 2
    && |Who(s.threads, HoldsGetattrRef)| + |Who(s.threads, HoldsCallbackRef)| + Bit(s.ino.pending) == s.ino.refs
    && |Who(s.threads, IsDropping)| + s.ino.puts == s.ino.released
    && |Who(s.threads, IsClaiming)| == s.ino.claims
    && |Who(s.threads, Executing)| == Bit(s.ino.running)
    && |Who(s.threads, HoldsSync)| + Bit(s.ino.asyncHeld) == s.ino.upd % 2
  }

  ghost predicate InodeInv(n: Inode) {
    && (n.asyncHeld ==> n.upd % 2 == 1)
    && (n.pending ==> n.asyncSeq % 2 == 0 && n.upd == n.asyncSeq + 1)
    && (n.inTree ==> !n.reply)
    && (!n.asyncHeld ==> Quiet(n))
    && (n.claims > 0 ==> !n.pending)
    && n.acquired == n.released + Bit(n.asyncHeld)
  }

  predicate IsStarter(pc: Pc) {
    pc.Acquired? || pc.Numbered? || pc.InitHeld? || pc.Referenced? || pc.Deciding? || pc.Sending? || pc.Leaving?
      || pc.Cancelling?
  }

  predicate NotLinkedYet(pc: Pc) {
    pc.Acquired? || pc.Numbered? || pc.InitHeld? || pc.Referenced? || pc.Deciding? || (pc.Leaving? && !pc.sent)
  }

  ghost predicate ThreadInv(n: Inode, pc: Pc) {
    StarterInv(n, pc) && FinisherInv(n, pc)
  }

  ghost predicate StarterInv(n: Inode, pc: Pc) {
    && (IsStarter(pc) ==> pc.sn % 2 == 0 && pc.sn < n.upd)
    && (IsStarter(pc) && !pc.Cancelling? ==> n.asyncHeld && n.upd == pc.sn + 1)
    && (IsStarter(pc) && !pc.Cancelling? && !pc.Acquired? ==> n.asyncSeq == pc.sn)
    && (NotLinkedYet(pc) ==> !n.inTree && !n.reply)
    && (pc.Sending? ==> n.inTree && !n.onWire)
    && (pc.SyncHeld? ==> pc.sn % 2 == 0 && n.upd == pc.sn + 1 && !n.asyncHeld)
    && (pc.Cancelling? && n.asyncHeld && n.upd == pc.sn + 1 ==> !n.inTree && !n.reply)
  }

  ghost predicate FinisherInv(n: Inode, pc: Pc) {
    && (HoldsInit(pc) ==> pc.iseq % 2 == 0 && n.init == pc.iseq + 1)
    && (CompletionDuty(pc) || pc.Rescheduling? ==> n.asyncSeq % 2 == 0 && n.upd == n.asyncSeq + 1)
    && (pc.WaitingInit? ==> pc.saw % 2 == 1 && (n.init == pc.saw || n.init == pc.saw + 1))
    && (pc.RetryInit? || pc.Removing? || pc.Collecting? || Settled(pc) ==> n.init % 2 == 0)
    && (pc.Collecting? ==> !n.inTree)
    && (Settled(pc) ==> !n.inTree && !n.reply)
  }

  ghost predicate PairInv(a: Pc, b: Pc) {
    Apart(a, b) && Distinct(a, b)
  }

  ghost predicate Apart(a: Pc, b: Pc) {
    && !(OwnsDuty(a) && OwnsDuty(b))
    && !(HoldsInit(a) && HoldsInit(b))
    && !((a.Acquired? || a.Numbered?) && HoldsInit(b))
    && !((b.Acquired? || b.Numbered?) && HoldsInit(a))
  }

  ghost predicate Distinct(a: Pc, b: Pc) {
    && !(IsStarter(a) && IsStarter(b) && a.sn == b.sn)
    && !(a.SyncHeld? && b.SyncHeld?)
  }

  /** Holds in every run whose cancels of pending work are clean. */
  ghost predicate CoreInv(s: State) {
    && CountInv(s) && InodeInv(s.ino)
    && (forall t :: ThreadInv(s.ino, PcOf(s, t)))
    && (forall t, u | t != u :: PairInv(PcOf(s, t), PcOf(s, u)))
  }

  ghost predicate Inv(s: State) {
    CoreInv(s) && forall t :: PcOf(s, t).CancelWait? ==> PcOf(s, t).won
  }

  // ---------------------------------------------------------------- one action, seen from one thread

  /** What the count says of one thread that owes the release. */
  predicate DutyHeld(n: Inode, pc: Pc) {
    OwnsDuty(pc) ==> n.asyncHeld && !n.pending
  }

  lemma ActorKept(n: Inode, pc: Pc, a: Action)
    requires Guard(n, pc, a) && InodeInv(n) && ThreadInv(n, pc) && DutyHeld(n, pc)
    requires n.pending ==> n.asyncHeld
    requires a.Cancel? && n.pending ==> Quiet(n)
    ensures ThreadInv(InodeAfter(n, pc, a), PcAfter(n, pc, a))
    ensures InodeInv(InodeAfter(n, pc, a))
  {
  }

  lemma OtherStarterKept(n: Inode, pc: Pc, a: Action, other: Pc)
    requires Guard(n, pc, a) && InodeInv(n) && ThreadInv(n, pc) && DutyHeld(n, pc)
    requires ThreadInv(n, other) && DutyHeld(n, other) && PairInv(pc, other)
    requires n.pending ==> n.asyncHeld
    ensures StarterInv(InodeAfter(n, pc, a), other)
  {
    match a {
      case StartAsync => case StoreSeq => case Link => case SendOk => case SendFail => case Release =>
      case Unlink => case Collect => case Receive => case StartSync => case EndSync =>
      case _ =>
    }
  }

  lemma OtherFinisherKept(n: Inode, pc: Pc, a: Action, other: Pc)
    requires Guard(n, pc, a) && InodeInv(n) && ThreadInv(n, pc) && DutyHeld(n, pc)
    requires ThreadInv(n, other) && DutyHeld(n, other) && PairInv(pc, other)
    requires n.pending ==> n.asyncHeld
    ensures FinisherInv(InodeAfter(n, pc, a), other)
  {
    match a {
      case StartAsync => case StoreSeq => case TakeInit => case Link => case SendFail => case FreeInit =>
      case Release => case TryInit => case RetryTake => case PassInit => case Unlink => case Collect =>
      case Receive => case StartSync => case EndSync =>
      case _ =>
    }
  }

  lemma OtherKept(n: Inode, pc: Pc, a: Action, other: Pc)
    requires Guard(n, pc, a) && InodeInv(n) && ThreadInv(n, pc) && DutyHeld(n, pc)
    requires ThreadInv(n, other) && DutyHeld(n, other) && PairInv(pc, other)
    requires n.pending ==> n.asyncHeld
    ensures ThreadInv(InodeAfter(n, pc, a), other)
  {
    hide Guard, InodeAfter, InodeInv, DutyHeld, PairInv, StarterInv, FinisherInv;
    OtherStarterKept(n, pc, a, other);
    OtherFinisherKept(n, pc, a, other);
  }

  lemma ApartKept(n: Inode, pc: Pc, a: Action, other: Pc)
    requires Guard(n, pc, a) && InodeInv(n) && ThreadInv(n, pc) && DutyHeld(n, pc)
    requires ThreadInv(n, other) && DutyHeld(n, other) && PairInv(pc, other)
    requires n.pending ==> n.asyncHeld
    requires a.Cancel? && n.pending ==> Quiet(n)
    ensures Apart(PcAfter(n, pc, a), other)
  {
  }

  lemma DistinctKept(n: Inode, pc: Pc, a: Action, other: Pc)
    requires Guard(n, pc, a) && InodeInv(n) && ThreadInv(n, pc) && DutyHeld(n, pc)
    requires ThreadInv(n, other) && DutyHeld(n, other) && PairInv(pc, other)
    requires n.pending ==> n.asyncHeld
    requires a.Cancel? && n.pending ==> Quiet(n)
    ensures Distinct(PcAfter(n, pc, a), other)
  {
    match a {
      case StartAsync => case StoreSeq => case TakeInit => case Hold => case Schedule => case Skip => case Link =>
      case SendOk => case SendFail => case FreeInit => case StartSync => case EndSync =>
      case _ =>
    }
  }

  lemma PairKept(n: Inode, pc: Pc, a: Action, other: Pc)
    requires Guard(n, pc, a) && InodeInv(n) && ThreadInv(n, pc) && DutyHeld(n, pc)
    requires ThreadInv(n, other) && DutyHeld(n, other) && PairInv(pc, other)
    requires n.pending ==> n.asyncHeld
    requires a.Cancel? && n.pending ==> Quiet(n)
    ensures PairInv(PcAfter(n, pc, a), other)
  {
    ApartKept(n, pc, a, other);
    DistinctKept(n, pc, a, other);
  }

  lemma PairSymmetric(a: Pc, b: Pc)
    ensures PairInv(a, b) == PairInv(b, a)
  {
  }

  /** What the action adds to each count, in the thread and in the inode. */
  lemma DutyBalance(n: Inode, pc: Pc, a: Action)
    requires Guard(n, pc, a) && InodeInv(n) && ThreadInv(n, pc) && DutyHeld(n, pc)
    requires n.pending ==> n.asyncHeld
    ensures var n', pc' := InodeAfter(n, pc, a), PcAfter(n, pc, a);
      Bit(OwnsDuty(pc')) + Bit(n'.pending) - Bit(n'.asyncHeld) == Bit(OwnsDuty(pc)) + Bit(n.pending) - Bit(n.asyncHeld)
  {
    match a {
      case StartAsync => case Schedule => case FreeInit => case Cancel => case EndCancel => case Release =>
      case Fire => case TryInit => case CancelTimer => case Requeue => case StartSync =>
      case _ =>
    }
  }

  lemma InitBalance(n: Inode, pc: Pc, a: Action)
    requires Guard(n, pc, a) && ThreadInv(n, pc)
    ensures Bit(HoldsInit(PcAfter(n, pc, a))) - InodeAfter(n, pc, a).init % 2 == Bit(HoldsInit(pc)) - n.init % 2
  {
    match a {
      case TakeInit => case FreeInit => case TryInit => case RetryTake => case PassInit => case StartAsync =>
      case EndCancel => case CancelTimer => case StartSync =>
      case _ =>
    }
  }

  lemma GetattrRefs(n: Inode, pc: Pc, a: Action)
    requires Guard(n, pc, a) && DutyHeld(n, pc)
    ensures Bit(HoldsGetattrRef(PcAfter(n, pc, a))) + Bit(InodeAfter(n, pc, a).pending)
      == Bit(HoldsGetattrRef(pc)) + Bit(n.pending) + Bit(a.Hold?) - Bit(a.Drop?)
  {
    match a {
      case Hold => case Schedule => case Cancel => case EndCancel => case Release => case Drop => case Fire =>
      case CancelTimer => case Requeue => case StartAsync => case StartSync => case TryInit => case FreeInit =>
      case _ =>
    }
  }

  lemma CallbackRefs(n: Inode, pc: Pc, a: Action)
    requires Guard(n, pc, a)
    ensures Bit(HoldsCallbackRef(PcAfter(n, pc, a)))
      == Bit(HoldsCallbackRef(pc)) + Bit(a.Receive?) - Bit(a.CallbackPut?)
  {
    match a {
      case Receive => case CancelTimer => case Requeue => case CallbackPut => case EndCancel =>
      case StartAsync => case StartSync => case TryInit => case FreeInit =>
      case _ =>
    }
  }

  lemma RefsChange(n: Inode, pc: Pc, a: Action)
    requires Guard(n, pc, a)
    ensures InodeAfter(n, pc, a).refs == n.refs + Bit(a.Hold?) - Bit(a.Drop?) + Bit(a.Receive?) - Bit(a.CallbackPut?)
  {
    match a {
      case Hold => case Drop => case Receive => case CallbackPut => case StartAsync => case StartSync =>
      case _ =>
    }
  }

  lemma DropBalance(n: Inode, pc: Pc, a: Action)
    requires Guard(n, pc, a)
    ensures var n', pc' := InodeAfter(n, pc, a), PcAfter(n, pc, a);
      Bit(IsDropping(pc')) + n'.puts - n'.released == Bit(IsDropping(pc)) + n.puts - n.released
  {
    match a {
      case Release => case Drop => case StartAsync => case Cancel =>
      case _ =>
    }
  }

  lemma ClaimBalance(n: Inode, pc: Pc, a: Action)
    requires Guard(n, pc, a)
    ensures var n', pc' := InodeAfter(n, pc, a), PcAfter(n, pc, a);
      Bit(IsClaiming(pc')) - n'.claims == Bit(IsClaiming(pc)) - n.claims
  {
    match a {
      case Cancel => case EndCancel => case StartAsync => case StartSync => case TryInit =>
      case FreeInit => case CancelTimer =>
      case _ =>
    }
  }

  lemma RunBalance(n: Inode, pc: Pc, a: Action)
    requires Guard(n, pc, a) && (Executing(pc) ==> n.running)
    ensures var n', pc' := InodeAfter(n, pc, a), PcAfter(n, pc, a);
      Bit(Executing(pc')) - Bit(n'.running) == Bit(Executing(pc)) - Bit(n.running)
  {
    match a {
      case Fire => case Release => case Drop => case Collect => case EndCancel => case StartAsync =>
      case StartSync => case TryInit => case FreeInit => case CancelTimer =>
      case _ =>
    }
  }

  lemma SyncBalance(n: Inode, pc: Pc, a: Action)
    requires Guard(n, pc, a) && InodeInv(n) && ThreadInv(n, pc) && DutyHeld(n, pc)
    ensures var n', pc' := InodeAfter(n, pc, a), PcAfter(n, pc, a);
      Bit(HoldsSync(pc')) + Bit(n'.asyncHeld) - n'.upd % 2 == Bit(HoldsSync(pc)) + Bit(n.asyncHeld) - n.upd % 2
  {
    match a {
      case StartAsync => case StartSync => case EndSync => case Release =>
      case TryInit => case FreeInit => case CancelTimer => case EndCancel =>
      case _ =>
    }
  }

  // ---------------------------------------------------------------- counting

  lemma WhoUpdate(s: State, t: Tid, pc: Pc, f: Pc -> bool)
    requires !f(Ready)
    ensures |Who(s.threads[t := pc], f)| == |Who(s.threads, f)| - Bit(f(PcOf(s, t))) + Bit(f(pc))
  {
    var w, w' := Who(s.threads, f), Who(s.threads[t := pc], f);
    assert t in w <==> f(PcOf(s, t));
    assert t in w' <==> f(pc);
    forall u | u != t ensures u in w <==> u in w' {
    }
    SameButOne(w, w', t);
  }

  /** One owner of the duty at most, and none while the work is pending. */
  lemma DutyOwner(s: State, t: Tid)
    requires CountInv(s)
    ensures DutyHeld(s.ino, PcOf(s, t))
    ensures s.ino.pending ==> s.ino.asyncHeld
  {
    if OwnsDuty(PcOf(s, t)) {
      assert {t} <= Who(s.threads, OwnsDuty);
      SubsetSize({t}, Who(s.threads, OwnsDuty));
    }
  }

  /** A running worker is counted. */
  lemma ExecutingRuns(s: State, t: Tid)
    requires CountInv(s)
    ensures Executing(PcOf(s, t)) ==> s.ino.running
  {
    if Executing(PcOf(s, t)) {
      assert {t} <= Who(s.threads, Executing);
      SubsetSize({t}, Who(s.threads, Executing));
    }
  }

  lemma NoInitHolder(s: State)
    requires CountInv(s) && forall t :: !HoldsInit(PcOf(s, t))
    ensures s.ino.init % 2 == 0
  {
    forall t | t in s.threads ensures !HoldsInit(s.threads[t]) {
      assert !HoldsInit(PcOf(s, t));
    }
    assert Who(s.threads, HoldsInit) == {};
  }

  lemma NoneReady()
    ensures !OwnsDuty(Ready) && !HoldsInit(Ready) && !HoldsGetattrRef(Ready) && !HoldsCallbackRef(Ready)
    ensures !IsDropping(Ready) && !IsClaiming(Ready) && !Executing(Ready) && !HoldsSync(Ready)
  {
  }

  /** The four counts of duties and references. */
  lemma HoldersKept(s: State, st: Step)
    requires CoreInv(s) && Enabled(s, st)
    ensures var s' := Apply(s, st);
      && |Who(s'.threads, OwnsDuty)| + Bit(s'.ino.pending) == Bit(s'.ino.asyncHeld)
      && |Who(s'.threads, HoldsInit)| == s'.ino.init % 2
      && |Who(s'.threads, HoldsGetattrRef)| + |Who(s'.threads, HoldsCallbackRef)| + Bit(s'.ino.pending) == s'.ino.refs
  {
    hide Guard, PcAfter, InodeAfter, ThreadInv, InodeInv, PairInv;
    hide OwnsDuty, HoldsInit, HoldsGetattrRef, HoldsCallbackRef, Who;
    var pc, pc' := PcOf(s, st.t), PcAfter(s.ino, PcOf(s, st.t), st.a);
    NoneReady();
    assert ThreadInv(s.ino, pc);
    DutyOwner(s, st.t);
    DutyBalance(s.ino, pc, st.a);
    InitBalance(s.ino, pc, st.a);
    GetattrRefs(s.ino, pc, st.a);
    CallbackRefs(s.ino, pc, st.a);
    RefsChange(s.ino, pc, st.a);
    WhoUpdate(s, st.t, pc', OwnsDuty);
    WhoUpdate(s, st.t, pc', HoldsInit);
    WhoUpdate(s, st.t, pc', HoldsGetattrRef);
    WhoUpdate(s, st.t, pc', HoldsCallbackRef);
  }

  lemma CountKept(s: State, st: Step)
    requires CoreInv(s) && Enabled(s, st)
    ensures CountInv(Apply(s, st))
  {
    hide Guard, PcAfter, InodeAfter, ThreadInv, InodeInv, PairInv;
    hide OwnsDuty, HoldsInit, HoldsGetattrRef, HoldsCallbackRef, IsDropping, IsClaiming, Executing, HoldsSync, Who;
    var pc, pc' := PcOf(s, st.t), PcAfter(s.ino, PcOf(s, st.t), st.a);
    NoneReady();
    assert ThreadInv(s.ino, pc);
    HoldersKept(s, st);
    DutyOwner(s, st.t);
    ExecutingRuns(s, st.t);
    DropBalance(s.ino, pc, st.a);
    ClaimBalance(s.ino, pc, st.a);
    RunBalance(s.ino, pc, st.a);
    SyncBalance(s.ino, pc, st.a);
    WhoUpdate(s, st.t, pc', IsDropping);
    WhoUpdate(s, st.t, pc', IsClaiming);
    WhoUpdate(s, st.t, pc', Executing);
    WhoUpdate(s, st.t, pc', HoldsSync);
  }

  // ---------------------------------------------------------------- every clean run

  lemma StepKeepsCore(s: State, st: Step)
    requires CoreInv(s) && Enabled(s, st)
    requires st.a.Cancel? && s.ino.pending ==> Quiet(s.ino)
    ensures CoreInv(Apply(s, st))
  {
    hide Guard, PcAfter, InodeAfter, ThreadInv, InodeInv, PairInv, CountInv, DutyHeld, Quiet;
    CountKept(s, st);
    var n, pc, s' := s.ino, PcOf(s, st.t), Apply(s, st);
    DutyOwner(s, st.t);
    ActorKept(n, pc, st.a);
    forall u ensures ThreadInv(s'.ino, PcOf(s', u)) {
      if u != st.t {
        DutyOwner(s, u);
        OtherKept(n, pc, st.a, PcOf(s, u));
      }
    }
    forall u, v | u != v ensures PairInv(PcOf(s', u), PcOf(s', v)) {
      DutyOwner(s, u);
      DutyOwner(s, v);
      if u == st.t {
        PairKept(n, pc, st.a, PcOf(s, v));
      } else if v == st.t {
        PairKept(n, pc, st.a, PcOf(s, u));
        PairSymmetric(PcOf(s', u), PcOf(s', v));
      }
    }
  }

  lemma StepKeepsInv(s: State, st: Step)
    requires Inv(s) && Enabled(s, st) && Clean(s, st)
    ensures Inv(Apply(s, st))
  {
    hide CoreInv, Guard, PcAfter, InodeAfter;
    StepKeepsCore(s, st);
    ClaimsAreWon(s.ino, PcOf(s, st.t), st.a);
    var s' := Apply(s, st);
    forall t ensures PcOf(s', t).CancelWait? ==> PcOf(s', t).won {
      assert t != st.t ==> PcOf(s', t) == PcOf(s, t);
    }
  }

  lemma ClaimsAreWon(n: Inode, pc: Pc, a: Action)
    requires Guard(n, pc, a) && (pc.CancelWait? ==> pc.won) && (a.Cancel? ==> n.pending)
    ensures PcAfter(n, pc, a).CancelWait? ==> PcAfter(n, pc, a).won
  {
  }

  lemma ReadyHasInv()
    ensures InodeInv(FRESH) && ThreadInv(FRESH, Ready) && PairInv(Ready, Ready)
  {
  }

  lemma InitHasInv(s: State)
    requires Init(s)
    ensures Inv(s)
  {
    hide InodeInv, ThreadInv, PairInv;
    ReadyHasInv();
    assert forall f :: Who(s.threads, f) == {};
  }

  lemma {:induction false} PathHasInv(path: seq<State>, i: nat)
    requires IsCleanPath(path) && Inv(path[0]) && i < |path|
    ensures Inv(path[i])
  {
    hide Inv, Apply, Enabled, Clean;
    if i > 0 {
      PathHasInv(path, i - 1);
      assert CleanNext(path[i - 1], path[i]);
      var st :| Enabled(path[i - 1], st) && Clean(path[i - 1], st) && path[i] == Apply(path[i - 1], st);
      StepKeepsInv(path[i - 1], st);
    }
  }

  lemma RunHasInv(run: seq<State>, i: nat)
    requires IsCleanRun(run) && i < |run|
    ensures Inv(run[i])
  {
    InitHasInv(run[0]);
    PathHasInv(run, i);
  }

  lemma CoreNeverFails(s: State, t: Tid)
    requires CoreInv(s)
    requires s.ino.claims > 0 ==> !PcOf(s, t).Referenced? && !PcOf(s, t).Rescheduling?
    ensures !Fails(s.ino, PcOf(s, t))
  {
    DutyOwner(s, t);
    assert ThreadInv(s.ino, PcOf(s, t));
    if PcOf(s, t).Numbered? {
      FreeInitForNumbered(s, t);
    }
  }

  lemma FreeInitForNumbered(s: State, t: Tid)
    requires CoreInv(s) && PcOf(s, t).Numbered?
    ensures s.ino.init % 2 == 0
  {
    forall h ensures !HoldsInit(PcOf(s, h)) {
      assert h != t ==> PairInv(PcOf(s, t), PcOf(s, h));
    }
    NoInitHolder(s);
  }

  /** A claim that took the work over owns the duty, so no one else can be about to schedule. */
  lemma InvNeverFails(s: State, t: Tid)
    requires Inv(s)
    ensures !Fails(s.ino, PcOf(s, t))
  {
    if s.ino.claims > 0 {
      var c := Someone(s, IsClaiming);
      assert c != t ==> PairInv(PcOf(s, c), PcOf(s, t));
    }
    CoreNeverFails(s, t);
  }

  lemma Someone(s: State, f: Pc -> bool) returns (t: Tid)
    requires |Who(s.threads, f)| > 0
    ensures t in s.threads && f(PcOf(s, t))
  {
    t :| t in Who(s.threads, f);
  }

  /** No assertion of the code fails in a clean run, and no linked request or attached reply is overwritten. */
  lemma NothingFails(run: seq<State>, i: nat, t: Tid)
    requires IsCleanRun(run) && i < |run|
    ensures !Fails(run[i].ino, PcOf(run[i], t))
  {
    RunHasInv(run, i);
    InvNeverFails(run[i], t);
  }

  /**
   Exactly one of a thread and the pending work owes the release while the latch is held for an
   asynchronous getattr, and no one does otherwise.
   */
  lemma ExactlyOneOwesRelease(run: seq<State>, i: nat)
    requires IsCleanRun(run) && i < |run|
    ensures |Who(run[i].threads, OwnsDuty)| + Bit(run[i].ino.pending) == Bit(run[i].ino.asyncHeld)
    ensures run[i].ino.acquired == run[i].ino.released + Bit(run[i].ino.asyncHeld)
    ensures run[i].ino.asyncHeld ==> run[i].ino.upd % 2 == 1
  {
    RunHasInv(run, i);
  }

  /** The inode references of the protocol, and what is left of them when nothing is in flight. */
  lemma ReferencesBalance(run: seq<State>, i: nat)
    requires IsCleanRun(run) && i < |run|
    ensures run[i].ino.refs ==
      |Who(run[i].threads, HoldsGetattrRef)| + |Who(run[i].threads, HoldsCallbackRef)| + Bit(run[i].ino.pending)
    ensures run[i].ino.puts <= run[i].ino.released <= run[i].ino.acquired <= run[i].ino.released + 1
    ensures (forall t :: PcOf(run[i], t).Ready?) && !run[i].ino.pending ==>
      run[i].ino.refs == 0 && run[i].ino.acquired == run[i].ino.released == run[i].ino.puts && !run[i].ino.asyncHeld
  {
    RunHasInv(run, i);
    var s := run[i];
    if (forall t :: PcOf(s, t).Ready?) && !s.ino.pending {
      forall t | t in s.threads ensures s.threads[t].Ready? {
        assert PcOf(s, t).Ready?;
      }
      assert Who(s.threads, OwnsDuty) == {} && Who(s.threads, HoldsGetattrRef) == {};
      assert Who(s.threads, HoldsCallbackRef) == {} && Who(s.threads, IsDropping) == {};
    }
  }

  /** A starter never starts on a dirty inode: no request linked, no reply kept, the init latch free. */
  lemma FreeLatchIsClean(run: seq<State>, i: nat)
    requires IsCleanRun(run) && i < |run|
    ensures !run[i].ino.asyncHeld ==> Quiet(run[i].ino)
    ensures forall t, u | t != u :: !(PcOf(run[i], t).SyncHeld? && PcOf(run[i], u).SyncHeld?)
    ensures forall t | PcOf(run[i], t).SyncHeld? :: !run[i].ino.asyncHeld
  {
    RunHasInv(run, i);
    var s := run[i];
    forall t, u | t != u ensures !(PcOf(s, t).SyncHeld? && PcOf(s, u).SyncHeld?) {
      assert PairInv(PcOf(s, t), PcOf(s, u));
    }
    forall t | PcOf(s, t).SyncHeld? ensures !s.ino.asyncHeld {
      assert ThreadInv(s.ino, PcOf(s, t));
    }
  }

  // ---------------------------------------------------------------- every getattr can go on

  /** While the init latch is taken its holder can go on. */
  lemma InitHolderMoves(s: State) returns (st: Step)
    requires Inv(s) && s.ino.init % 2 == 1
    ensures Enabled(s, st) && HoldsInit(PcOf(s, st.t))
  {
    hide CoreInv, Fails;
    assert CoreInv(s);
    var h := CoreSomeone(s);
    InvNeverFails(s, h);
    st := Step(h, HolderStep(PcOf(s, h)));
    HolderMoves(s.ino, PcOf(s, h));
  }

  lemma CoreSomeone(s: State) returns (h: Tid)
    requires CoreInv(s) && s.ino.init % 2 == 1
    ensures HoldsInit(PcOf(s, h))
  {
    h := Someone(s, HoldsInit);
  }

  function HolderStep(pc: Pc): Action
    requires HoldsInit(pc)
  {
    match pc
    case InitHeld(_, _) => Hold
    case Referenced(_, _) => Schedule
    case Deciding(_, _) => Skip
    case Sending(_, _) => SendOk
    case Leaving(_, _, _) => FreeInit
    case InitPassing(_) => PassInit
  }

  lemma HolderMoves(n: Inode, pc: Pc)
    requires HoldsInit(pc) && !Fails(n, pc)
    ensures Guard(n, pc, HolderStep(pc))
  {
  }

  /** The next step of who owes the release, unless it waits for the init latch or for a worker to leave. */
  function DutyStep(pc: Pc): Action {
    if Remaining(pc) > 0 then CompletionStep(pc)
    else if pc.Numbered? then TakeInit
    else if pc.InitHeld? then Hold
    else if pc.Referenced? then Schedule
    else if pc.Rescheduling? then Requeue
    else if pc.CancelWait? then EndCancel
    else StoreSeq
  }

  lemma DutyMoves(n: Inode, pc: Pc)
    requires OwnsDuty(pc) && ThreadInv(n, pc) && !Fails(n, pc)
    requires pc.WaitingInit? ==> n.init % 2 == 0
    requires pc.CancelWait? ==> n.claims > 0 && !n.running
    ensures Guard(n, pc, DutyStep(pc))
  {
  }

  /**
   In every clean run, while the update latch is held for an asynchronous getattr, its pending work can run or some
   thread that is inside the protocol can take its next step.
   */
  lemma NeverStuck(run: seq<State>, i: nat) returns (st: Step)
    requires IsCleanRun(run) && i < |run| && run[i].ino.asyncHeld
    ensures Enabled(run[i], st) && (PcOf(run[i], st.t) != Ready || st.a.Fire?)
  {
    hide ThreadInv, PairInv, InodeInv, Fails, IsCleanPath, IsCleanRun, Executing, OwnsDuty, DutyStep;
    RunHasInv(run, i);
    var s := run[i];
    if s.ino.running && (s.ino.pending || exists t :: PcOf(s, t) == CancelWait(true)) {
      st := WorkerLeaves(s);
    } else if s.ino.pending {
      var u := Unused(s.threads.Keys);
      st := Step(u, Fire);
    } else {
      var d := Someone(s, OwnsDuty);
      st := OwnerMoves(s, d);
    }
  }

  /** A worker that keeps work from running or a cancel from ending has only its reference to drop. */
  lemma WorkerLeaves(s: State) returns (st: Step)
    requires Inv(s) && s.ino.running && (s.ino.pending || exists t :: PcOf(s, t) == CancelWait(true))
    ensures Enabled(s, st) && PcOf(s, st.t) == Dropping(true)
  {
    hide ThreadInv, InodeInv;
    var e := Someone(s, Executing);
    if s.ino.pending {
      PendingAlone(s, e);
    } else {
      var d :| PcOf(s, d) == CancelWait(true);
      e := OtherExecuting(s, d);
    }
    st := Step(e, Drop);
  }

  lemma OwnerMoves(s: State, d: Tid) returns (st: Step)
    requires Inv(s) && OwnsDuty(PcOf(s, d))
    requires PcOf(s, d).CancelWait? ==> !s.ino.running
    ensures Enabled(s, st) && PcOf(s, st.t) != Ready
  {
    hide CoreInv, ThreadInv, Fails, DutyStep, OwnsDuty, Guard;
    NoneReady();
    InvNeverFails(s, d);
    CoreThread(s, d);
    if PcOf(s, d).WaitingInit? && s.ino.init % 2 == 1 {
      st := InitHolderMoves(s);
    } else {
      if PcOf(s, d).CancelWait? {
        CoreClaim(s, d);
      }
      DutyMoves(s.ino, PcOf(s, d));
      st := Step(d, DutyStep(PcOf(s, d)));
    }
  }

  // ---------------------------------------------------------------- the reply of a request that is sent

  /** A starter sends its request and gives up the init latch. */
  lemma SendIt(run: seq<State>, t: Tid, v: Tid) returns (path: seq<State>)
    requires run != [] && IsCleanRun(run) && PcOf(Last(run), t).Sending? && Last(run).ino.pending
    requires v !in Last(run).threads && v != t
    ensures path != [] && IsCleanPath(path) && path[0] == Last(run)
    ensures PcOf(Last(path), t) == Ready && PcOf(Last(path), v) == Ready
    ensures var n, n' := Last(run).ino, Last(path).ino;
      && n'.inTree && n'.onWire && !n'.reply && n'.pending && n'.claims == 0 && !n'.running && n'.init % 2 == 0
      && n'.upd == n.upd && n'.asyncSeq == n.asyncSeq && n'.refs == n.refs - Bit(n.running)
  {
    hide IsCleanPath, CountInv, PairInv;
    LastHasInv(run);
    var s := Last(run);
    assert ThreadInv(s.ino, PcOf(s, t));
    path := Singleton(s);
    if s.ino.running {
      var e := WorkerLeaves(s);
      path := Extend(path, e);
    }
    PendingAlone(s, t);
    path := Extend(path, Step(t, SendOk));
    path := Extend(path, Step(t, FreeInit));
  }

  /** The callback attaches the reply and takes the timer away. */
  lemma Deliver(path: seq<State>, v: Tid) returns (longer: seq<State>)
    requires path != [] && IsCleanPath(path) && PcOf(Last(path), v) == Ready
    requires var n := Last(path).ino; n.inTree && n.onWire && !n.reply && n.pending && n.claims == 0
    ensures longer != [] && IsCleanPath(longer) && longer[0] == path[0]
    ensures var n := Last(path).ino;
      Last(longer).ino == n.(reply := true, inTree := false, pending := false, refs := n.refs + 1)
    ensures forall u | u != v :: PcOf(Last(longer), u) == PcOf(Last(path), u)
    ensures PcOf(Last(longer), v) == Rescheduling
  {
    hide IsCleanPath;
    longer := Extend(path, Step(v, Receive));
    longer := Extend(longer, Step(v, CancelTimer));
  }

  /** It has the work run at once instead. */
  lemma RunNow(path: seq<State>, v: Tid) returns (longer: seq<State>)
    requires path != [] && IsCleanPath(path) && PcOf(Last(path), v) == Rescheduling && !Busy(Last(path).ino)
    ensures longer != [] && IsCleanPath(longer) && longer[0] == path[0]
    ensures Last(longer).ino == Last(path).ino.(pending := true, refs := Last(path).ino.refs - 1)
    ensures forall u | u != v :: PcOf(Last(longer), u) == PcOf(Last(path), u)
    ensures PcOf(Last(longer), v) == Ready
  {
    hide IsCleanPath;
    longer := Extend(path, Step(v, Requeue));
    longer := Extend(longer, Step(v, CallbackPut));
  }

  /** The work runs and finds the init latch free. */
  lemma WorkStarts(path: seq<State>, v: Tid) returns (longer: seq<State>)
    requires path != [] && IsCleanPath(path) && PcOf(Last(path), v) == Ready
    requires Last(path).ino.pending && !Last(path).ino.running && Last(path).ino.init % 2 == 0
    ensures longer != [] && IsCleanPath(longer) && longer[0] == path[0]
    ensures PcOf(Last(longer), v) == InitPassing(Last(path).ino.init)
    ensures var n := Last(path).ino; Last(longer).ino == n.(pending := false, running := true, init := n.init + 1)
    ensures forall u | u != v :: PcOf(Last(longer), u) == PcOf(Last(path), u)
  {
    hide IsCleanPath;
    longer := Extend(path, Step(v, Fire));
    longer := Extend(longer, Step(v, TryInit));
  }

  /** It gives the init latch back and takes the request out of the tree. */
  lemma WorkUnlinks(path: seq<State>, v: Tid) returns (longer: seq<State>)
    requires path != [] && IsCleanPath(path) && PcOf(Last(path), v).InitPassing?
    ensures longer != [] && IsCleanPath(longer) && longer[0] == path[0] && PcOf(Last(longer), v) == Collecting
    ensures Last(longer).ino == Last(path).ino.(init := PcOf(Last(path), v).iseq + 2, inTree := false)
    ensures forall u | u != v :: PcOf(Last(longer), u) == PcOf(Last(path), u)
  {
    hide IsCleanPath;
    longer := Extend(path, Step(v, PassInit));
    longer := Extend(longer, Step(v, Unlink));
  }

  /**
   Whatever else is going on, once a starter has sent its request and its reply arrives, the work can run at once
   and finds the reply.
   */
  lemma ReplyArrives(run: seq<State>, t: Tid, v: Tid) returns (path: seq<State>)
    requires run != [] && IsCleanRun(run) && PcOf(Last(run), t).Sending? && Last(run).ino.pending
    requires v !in Last(run).threads && v != t
    ensures path != [] && IsCleanPath(path) && path[0] == Last(run)
    ensures PcOf(Last(path), t) == Ready && PcOf(Last(path), v) == Collecting
    ensures Last(path).ino.reply && !Last(path).ino.inTree && Last(path).ino.init % 2 == 0
    ensures Last(path).ino.upd == Last(run).ino.upd && Last(path).ino.asyncSeq == Last(run).ino.asyncSeq
    ensures Last(path).ino.refs == Last(run).ino.refs - Bit(Last(run).ino.running)
  {
    hide IsCleanPath, IsCleanRun, Last, PcOf;
    path := SendIt(run, t, v);
    path := Deliver(path, v);
    path := RunNow(path, v);
    path := WorkStarts(path, v);
    path := WorkUnlinks(path, v);
  }

  /** The work takes the reply, frees the update latch with the number it was acquired with, and drops the reference. */
  lemma CollectedIsReleased(path: seq<State>, v: Tid) returns (longer: seq<State>)
    requires path != [] && IsCleanPath(path) && PcOf(Last(path), v) == Collecting
    ensures longer != [] && IsCleanPath(longer) && longer[0] == path[0] && PcOf(Last(longer), v) == Ready
    ensures var n := Last(path).ino;
      Last(longer).ino
        == n.(reply := false, upd := n.asyncSeq + 2, asyncHeld := false, released := n.released + 1,
              refs := n.refs - 1, puts := n.puts + 1, running := false)
  {
    hide IsCleanPath;
    longer := Extend(path, Step(v, Collect));
    longer := Extend(longer, Step(v, Release));
    longer := Extend(longer, Step(v, Drop));
  }

  /** A starter that has sent nothing cancels its work, frees the update latch and drops the reference. */
  lemma Undo(path: seq<State>, t: Tid) returns (longer: seq<State>)
    requires path != [] && IsCleanPath(path) && PcOf(Last(path), t).Leaving? && !PcOf(Last(path), t).sent
    requires PcOf(Last(path), t).iseq % 2 == 0
    requires var n := Last(path).ino; n.pending && !n.running && n.claims == 0 && !n.inTree && !n.reply
    ensures longer != [] && IsCleanPath(longer) && longer[0] == path[0] && PcOf(Last(longer), t) == Ready
    ensures var n := Last(path).ino;
      Last(longer).ino
        == n.(init := PcOf(Last(path), t).iseq + 2, pending := false, upd := n.asyncSeq + 2, asyncHeld := false,
              released := n.released + 1, refs := n.refs - 1, puts := n.puts + 1)
  {
    hide IsCleanPath;
    longer := Extend(path, Step(t, FreeInit));
    longer := ExtendClean(longer, Step(t, Cancel));
    longer := Extend(longer, Step(t, EndCancel));
    longer := GiveBack(longer, t);
  }

  lemma GiveBack(path: seq<State>, t: Tid) returns (longer: seq<State>)
    requires path != [] && IsCleanPath(path) && PcOf(Last(path), t) == Finishing(false)
    ensures longer != [] && IsCleanPath(longer) && longer[0] == path[0] && PcOf(Last(longer), t) == Ready
    ensures var n := Last(path).ino;
      Last(longer).ino
        == n.(upd := n.asyncSeq + 2, asyncHeld := false, released := n.released + 1, refs := n.refs - 1,
              puts := n.puts + 1)
  {
    hide IsCleanPath;
    longer := Extend(path, Step(t, Release));
    longer := Extend(longer, Step(t, Drop));
  }

  /**
   A starter whose work is still pending and whose request need not or cannot be sent leaves nothing behind: the
   latches are free, the request is unlinked, the work is idle, and one reference less is held.
   */
  lemma UnsentIsUndone(run: seq<State>, t: Tid) returns (path: seq<State>)
    requires run != [] && IsCleanRun(run) && Last(run).ino.pending && !Last(run).ino.running
    requires PcOf(Last(run), t).Deciding? || PcOf(Last(run), t).Sending?
    ensures path != [] && IsCleanPath(path) && path[0] == Last(run) && PcOf(Last(path), t) == Ready
    ensures var n := Last(path).ino;
      && Quiet(n) && !Busy(n) && !n.asyncHeld && n.upd == PcOf(Last(run), t).sn + 2
      && n.refs == Last(run).ino.refs - 1
  {
    hide IsCleanPath, CountInv, PairInv;
    LastHasInv(run);
    var s := Last(run);
    assert ThreadInv(s.ino, PcOf(s, t));
    PendingAlone(s, t);
    path := Singleton(s);
    path := Extend(path, Step(t, if PcOf(s, t).Deciding? then Skip else SendFail));
    path := Undo(path, t);
  }

  // ---------------------------------------------------------------- when a cancel is not clean

  /** A starter that cancels its own work always does so cleanly. */
  lemma OwnCancelIsClean(s: State, t: Tid)
    requires Inv(s) && PcOf(s, t).Cancelling? && s.ino.pending && s.ino.upd == PcOf(s, t).sn + 1
    ensures CleanCancel(s.ino)
  {
    assert ThreadInv(s.ino, PcOf(s, t));
    DutyOwner(s, t);
    forall h ensures !HoldsInit(PcOf(s, h)) {
      DutyOwner(s, h);
      assert ThreadInv(s.ino, PcOf(s, h));
      assert h != t ==> PairInv(PcOf(s, t), PcOf(s, h));
    }
    NoInitHolder(s);
  }

  predicate FailsAt(s: State, t: Tid) {
    Fails(s.ino, PcOf(s, t))
  }

  function Last(path: seq<State>): State
    requires path != []
  {
    path[|path| - 1]
  }

  /** No continuation in which the later cancels are clean fails. */
  ghost predicate CancelSafe(s: State, t: Tid)
    requires Enabled(s, Step(t, Cancel))
  {
    forall path: seq<State>, u | IsCleanPath(path) && path[0] == Apply(s, Step(t, Cancel)) :: !FailsAt(Last(path), u)
  }

  /**
   A cancel keeps every continuation from failing if and only if it takes over pending work with
   nothing else of that getattr in flight.  A cancel that finds the work idle never does.
   */
  lemma CancelSafeIffClean(s: State, t: Tid)
    requires Inv(s) && Enabled(s, Step(t, Cancel))
    ensures CancelSafe(s, t) <==> CleanCancel(s.ino)
  {
    var u := Unused(s.threads.Keys + {t});
    if CleanCancel(s.ino) {
      StepKeepsInv(s, Step(t, Cancel));
      forall path: seq<State>, v | IsCleanPath(path) && path[0] == Apply(s, Step(t, Cancel))
        ensures !FailsAt(Last(path), v)
      {
        PathHasInv(path, |path| - 1);
        InvNeverFails(Last(path), v);
      }
    } else if s.ino.pending {
      var path := UncleanCancelFails(s, t, u);
      assert FailsAt(Last(path), u);
    } else {
      var path, v := IdleCancelFails(s, t, u);
      assert FailsAt(Last(path), v);
    }
  }

  lemma Singleton(s: State) returns (path: seq<State>)
    ensures path != [] && IsCleanPath(path) && path[0] == Last(path) == s
  {
    path := [s];
  }

  lemma Extend(path: seq<State>, st: Step) returns (longer: seq<State>)
    requires IsCleanPath(path) && Enabled(Last(path), st) && !st.a.Cancel?
    ensures longer != [] && IsCleanPath(longer) && longer[0] == path[0] && Last(longer) == Apply(Last(path), st)
  {
    hide Apply, Enabled;
    longer := ExtendClean(path, st);
  }

  lemma ExtendClean(path: seq<State>, st: Step) returns (longer: seq<State>)
    requires IsCleanPath(path) && Enabled(Last(path), st) && Clean(Last(path), st)
    ensures longer != [] && IsCleanPath(longer) && longer[0] == path[0] && Last(longer) == Apply(Last(path), st)
  {
    hide Apply, Enabled, Clean;
    longer := path + [Apply(Last(path), st)];
    forall i | 0 <= i < |longer| - 1 ensures CleanNext(longer[i], longer[i + 1]) {
      if i < |path| - 1 {
        assert CleanNext(path[i], path[i + 1]);
      }
    }
  }

  /** While work is pending no one claims it, and a worker can only be on its way out. */
  lemma PendingAlone(s: State, t: Tid)
    requires Inv(s) && s.ino.pending
    ensures s.ino.claims == 0 && !OwnsDuty(PcOf(s, t))
    ensures Executing(PcOf(s, t)) ==> PcOf(s, t) == Dropping(true)
  {
    DutyOwner(s, t);
    if s.ino.claims > 0 {
      var c := Someone(s, IsClaiming);
      DutyOwner(s, c);
    }
  }

  /** After an unclean cancel of pending work, the canceller's release and the next starter are enough to fail. */
  lemma UncleanCancelFails(s: State, t: Tid, u: Tid) returns (path: seq<State>)
    requires Inv(s) && Enabled(s, Step(t, Cancel)) && s.ino.pending && !Quiet(s.ino)
    requires u !in s.threads && u != t
    ensures IsCleanPath(path) && path[0] == Apply(s, Step(t, Cancel))
    ensures FailsAt(Last(path), u)
  {
    hide IsCleanPath, CountInv, ThreadInv, PairInv;
    DutyOwner(s, t);
    PendingAlone(s, t);
    path := LetWorkerLeave(s, t, u);
    path := Extend(path, Step(t, EndCancel));
    path := Extend(path, Step(t, Release));
    path := Extend(path, Step(u, StartAsync));
    path := Extend(path, Step(u, StoreSeq));
    if s.ino.init % 2 == 0 {
      path := Extend(path, Step(u, TakeInit));
      path := Extend(path, Step(u, Hold));
      path := Extend(path, Step(u, Schedule));
    }
  }

  /** The cancel waits for a worker that still runs; it has only its reference to drop. */
  lemma LetWorkerLeave(s: State, t: Tid, u: Tid) returns (path: seq<State>)
    requires Inv(s) && Enabled(s, Step(t, Cancel)) && s.ino.pending && u !in s.threads && u != t
    ensures path != [] && IsCleanPath(path) && path[0] == Apply(s, Step(t, Cancel))
    ensures PcOf(Last(path), t) == CancelWait(true) && PcOf(Last(path), u) == Ready
    ensures Last(path).ino ==
      Apply(s, Step(t, Cancel)).ino.(running := false, refs := Last(path).ino.refs, puts := Last(path).ino.puts)
  {
    hide IsCleanPath, ThreadInv, PairInv;
    path := Singleton(Apply(s, Step(t, Cancel)));
    if s.ino.running {
      var e := Someone(s, Executing);
      PendingAlone(s, e);
      path := Extend(path, Step(e, Drop));
    }
  }

  // ---------------------------------------------------------------- when a cancel finds the work idle

  /** Thread `c` claims the work without having taken it over, and `u` has not started. */
  ghost predicate Doomed(s: State, c: Tid, u: Tid) {
    CoreInv(s) && PcOf(s, c) == CancelWait(false) && u !in s.threads
  }

  /** One more step of a thread that is neither `c` nor `u`. */
  lemma Onward(path: seq<State>, st: Step, c: Tid, u: Tid) returns (longer: seq<State>)
    requires path != [] && IsCleanPath(path) && Doomed(Last(path), c, u)
    requires Enabled(Last(path), st) && !st.a.Cancel? && st.t != c && st.t != u
    ensures longer != [] && IsCleanPath(longer) && longer[0] == path[0]
    ensures Last(longer) == Apply(Last(path), st) && Doomed(Last(longer), c, u)
  {
    hide IsCleanPath, CoreInv, Guard, PcAfter, InodeAfter;
    StepKeepsCore(Last(path), st);
    longer := Extend(path, st);
  }

  lemma ClaimCounts(s: State, c: Tid)
    requires CountInv(s) && PcOf(s, c).CancelWait?
    ensures s.ino.claims > 0
  {
    assert {c} <= Who(s.threads, IsClaiming);
    SubsetSize({c}, Who(s.threads, IsClaiming));
  }

  /** Once the update latch is free, the next starter runs into the claim. */
  lemma FreeLatchFails(path: seq<State>, c: Tid, u: Tid) returns (longer: seq<State>)
    requires path != [] && IsCleanPath(path) && Doomed(Last(path), c, u) && Last(path).ino.upd % 2 == 0
    ensures longer != [] && IsCleanPath(longer) && longer[0] == path[0] && FailsAt(Last(longer), u)
  {
    hide IsCleanPath, ThreadInv, PairInv;
    ClaimCounts(Last(path), c);
    longer := Extend(path, Step(u, StartAsync));
    longer := Extend(longer, Step(u, StoreSeq));
    longer := Extend(longer, Step(u, TakeInit));
    longer := Extend(longer, Step(u, Hold));
  }

  /** No asynchronous getattr is on its way: a synchronous one may have to end first. */
  lemma NoGetattrFails(path: seq<State>, c: Tid, u: Tid) returns (longer: seq<State>)
    requires path != [] && IsCleanPath(path) && Doomed(Last(path), c, u) && !Last(path).ino.asyncHeld
    ensures longer != [] && IsCleanPath(longer) && longer[0] == path[0] && FailsAt(Last(longer), u)
  {
    hide IsCleanPath, CoreInv;
    longer := path;
    if Last(path).ino.upd % 2 == 1 {
      var h := SyncHolder(Last(path));
      longer := Onward(path, Step(h, EndSync), c, u);
    }
    longer := FreeLatchFails(longer, c, u);
  }

  lemma SyncHolder(s: State) returns (h: Tid)
    requires CoreInv(s) && s.ino.upd % 2 == 1 && !s.ino.asyncHeld
    ensures h in s.threads && PcOf(s, h).SyncHeld? && PcOf(s, h).sn % 2 == 0
  {
    hide PairInv;
    h := Someone(s, HoldsSync);
    assert ThreadInv(s.ino, PcOf(s, h));
  }

  /** How far a completion is from releasing the update latch. */
  function Remaining(pc: Pc): nat {
    match pc
    case Running => 7
    case WaitingInit(_) => 6
    case RetryInit => 5
    case InitPassing(_) => 4
    case Removing => 3
    case Collecting => 2
    case Finishing(_) => 1
    case _ => 0
  }

  function CompletionStep(pc: Pc): Action
    requires Remaining(pc) > 0
  {
    match pc
    case Running => TryInit
    case WaitingInit(_) => WaitInit
    case RetryInit => RetryTake
    case InitPassing(_) => PassInit
    case Removing => Unlink
    case Collecting => Collect
    case Finishing(_) => Release
  }

  lemma CompletionMoves(n: Inode, pc: Pc)
    requires ThreadInv(n, pc) && Remaining(pc) > 0 && (pc.WaitingInit? ==> n.init % 2 == 0)
    ensures Guard(n, pc, CompletionStep(pc))
    ensures Remaining(PcAfter(n, pc, CompletionStep(pc))) < Remaining(pc)
    ensures Remaining(pc) > 1 ==> Remaining(PcAfter(n, pc, CompletionStep(pc))) > 0
    ensures pc.Finishing? ==> !InodeAfter(n, pc, CompletionStep(pc)).asyncHeld
  {
  }

  /** A completion runs on to its release, letting the starter it waits for leave first. */
  lemma CompletionFails(path: seq<State>, c: Tid, u: Tid, d: Tid) returns (longer: seq<State>)
    requires path != [] && IsCleanPath(path) && Doomed(Last(path), c, u) && Remaining(PcOf(Last(path), d)) > 0
    ensures longer != [] && IsCleanPath(longer) && longer[0] == path[0] && FailsAt(Last(longer), u)
    decreases Remaining(PcOf(Last(path), d))
  {
    hide IsCleanPath, CoreInv, Guard, PcAfter, InodeAfter, ThreadInv, CompletionStep;
    longer := FreeUpInit(path, c, u, d);
    var s := Last(longer);
    assert ThreadInv(s.ino, PcOf(s, d)) by { CoreThread(s, d); }
    CompletionMoves(s.ino, PcOf(s, d));
    longer := Onward(longer, Step(d, CompletionStep(PcOf(s, d))), c, u);
    if PcOf(s, d).Finishing? {
      longer := NoGetattrFails(longer, c, u);
    } else {
      longer := CompletionFails(longer, c, u, d);
    }
  }

  lemma CoreThread(s: State, t: Tid)
    requires CoreInv(s)
    ensures ThreadInv(s.ino, PcOf(s, t))
  {
  }

  /** The starter that holds the init latch gives it up. */
  lemma FreeUpInit(path: seq<State>, c: Tid, u: Tid, d: Tid) returns (longer: seq<State>)
    requires path != [] && IsCleanPath(path) && Doomed(Last(path), c, u) && Remaining(PcOf(Last(path), d)) > 0
    ensures longer != [] && IsCleanPath(longer) && longer[0] == path[0] && Doomed(Last(longer), c, u)
    ensures PcOf(Last(longer), d) == PcOf(Last(path), d)
    ensures PcOf(Last(longer), d).WaitingInit? ==> Last(longer).ino.init % 2 == 0
  {
    hide IsCleanPath, InodeInv;
    longer := path;
    var s := Last(path);
    if PcOf(s, d).WaitingInit? && s.ino.init % 2 == 1 {
      var h := Someone(s, HoldsInit);
      assert PairInv(PcOf(s, d), PcOf(s, h));
      assert ThreadInv(s.ino, PcOf(s, h));
      longer := StarterLeaves(path, c, u, h);
    }
  }

  lemma StarterLeaves(path: seq<State>, c: Tid, u: Tid, h: Tid) returns (longer: seq<State>)
    requires path != [] && IsCleanPath(path) && Doomed(Last(path), c, u)
    requires var pc := PcOf(Last(path), h); (pc.Deciding? || pc.Sending? || pc.Leaving?) && pc.iseq % 2 == 0
    ensures longer != [] && IsCleanPath(longer) && longer[0] == path[0] && Doomed(Last(longer), c, u)
    ensures Last(longer).ino.init % 2 == 0
    ensures forall v | v != h :: PcOf(Last(longer), v) == PcOf(Last(path), v)
  {
    hide IsCleanPath, CoreInv;
    longer := path;
    if PcOf(Last(path), h).Deciding? {
      longer := Onward(longer, Step(h, Skip), c, u);
    } else if PcOf(Last(path), h).Sending? {
      longer := Onward(longer, Step(h, SendFail), c, u);
    }
    longer := Onward(longer, Step(h, FreeInit), c, u);
  }

  /** A starter goes on until its work cannot be scheduled. */
  lemma StarterFails(path: seq<State>, c: Tid, u: Tid, d: Tid) returns (longer: seq<State>)
    requires path != [] && IsCleanPath(path) && Doomed(Last(path), c, u)
    requires var pc := PcOf(Last(path), d); pc.Acquired? || pc.Numbered? || pc.InitHeld? || pc.Referenced?
    ensures longer != [] && IsCleanPath(longer) && longer[0] == path[0] && FailsAt(Last(longer), d)
  {
    hide IsCleanPath, CoreInv;
    longer := path;
    if PcOf(Last(longer), d).Acquired? {
      longer := Onward(longer, Step(d, StoreSeq), c, u);
    }
    if PcOf(Last(longer), d).Numbered? {
      FreeInitForNumbered(Last(longer), d);
      longer := Onward(longer, Step(d, TakeInit), c, u);
    }
    if PcOf(Last(longer), d).InitHeld? {
      longer := Onward(longer, Step(d, Hold), c, u);
    }
    CoreClaim(Last(longer), c);
  }

  lemma CoreClaim(s: State, c: Tid)
    requires CoreInv(s) && PcOf(s, c).CancelWait?
    ensures s.ino.claims > 0 && !s.ino.pending
  {
    ClaimCounts(s, c);
  }

  /** Another cancel that did take the work over ends and finishes the getattr. */
  lemma OtherCancelFails(path: seq<State>, c: Tid, u: Tid, d: Tid) returns (longer: seq<State>)
    requires path != [] && IsCleanPath(path) && Doomed(Last(path), c, u) && PcOf(Last(path), d) == CancelWait(true)
    ensures longer != [] && IsCleanPath(longer) && longer[0] == path[0] && FailsAt(Last(longer), u)
  {
    hide IsCleanPath, CoreInv;
    longer := path;
    if Last(path).ino.running {
      var e := OtherExecuting(Last(path), d);
      longer := Onward(longer, Step(e, Drop), c, u);
    }
    CoreClaim(Last(longer), d);
    longer := Onward(longer, Step(d, EndCancel), c, u);
    longer := CompletionFails(longer, c, u, d);
  }

  /** Beside the owner of the duty a worker has only its reference to drop. */
  lemma OtherExecuting(s: State, d: Tid) returns (e: Tid)
    requires CoreInv(s) && s.ino.running && OwnsDuty(PcOf(s, d)) && !Executing(PcOf(s, d))
    ensures e in s.threads && e != d && PcOf(s, e) == Dropping(true)
  {
    hide InodeInv, ThreadInv;
    e := Someone(s, Executing);
    assert PairInv(PcOf(s, d), PcOf(s, e));
  }

  /** Whoever owes the release, the claim on the work makes someone fail. */
  lemma DoomedFails(path: seq<State>, c: Tid, u: Tid) returns (longer: seq<State>, v: Tid)
    requires path != [] && IsCleanPath(path) && Doomed(Last(path), c, u)
    ensures longer != [] && IsCleanPath(longer) && longer[0] == path[0] && FailsAt(Last(longer), v)
  {
    hide IsCleanPath, ThreadInv, PairInv;
    longer, v := path, u;
    CoreClaim(Last(path), c);
    if !Last(path).ino.asyncHeld {
      longer := NoGetattrFails(path, c, u);
    } else {
      var d := Someone(Last(path), OwnsDuty);
      match PcOf(Last(path), d) {
        case Rescheduling => v := d;
        case Acquired(_) => longer := StarterFails(path, c, u, d); v := d;
        case Numbered(_) => longer := StarterFails(path, c, u, d); v := d;
        case InitHeld(_, _) => longer := StarterFails(path, c, u, d); v := d;
        case Referenced(_, _) => longer := StarterFails(path, c, u, d); v := d;
        case CancelWait(_) => longer := OtherCancelFails(path, c, u, d);
        case _ => longer := CompletionFails(path, c, u, d);
      }
    }
  }

  /** A cancel that finds the work idle can always be followed by a failure. */
  lemma IdleCancelFails(s: State, t: Tid, u: Tid) returns (path: seq<State>, v: Tid)
    requires CoreInv(s) && Enabled(s, Step(t, Cancel)) && !s.ino.pending && u !in s.threads && u != t
    ensures path != [] && IsCleanPath(path) && path[0] == Apply(s, Step(t, Cancel)) && FailsAt(Last(path), v)
  {
    hide IsCleanPath, CoreInv;
    StepKeepsCore(s, Step(t, Cancel));
    path := Singleton(Apply(s, Step(t, Cancel)));
    path, v := DoomedFails(path, t, u);
  }

  // A run that reaches an unclean cancel: starter 0 sends nothing and is delayed before its cancel, worker 1
  // runs its work, and starter 2 begins the next getattr.

  lemma FirstStarter() returns (run: seq<State>)
    ensures run != [] && IsCleanRun(run)
    ensures Last(run) ==
      State(Inode(1, 2, 0, true, true, 0, false, false, false, false, 1, 1, 0, 0), map[0 := Cancelling(0)])
  {
    hide IsCleanPath;
    run := Singleton(State(FRESH, map[]));
    run := Extend(run, Step(0, StartAsync));
    run := Extend(run, Step(0, StoreSeq));
    run := Extend(run, Step(0, TakeInit));
    run := Extend(run, Step(0, Hold));
    run := Extend(run, Step(0, Schedule));
    run := Extend(run, Step(0, Skip));
    run := Extend(run, Step(0, FreeInit));
    assert Last(run).threads == map[0 := Cancelling(0)];
  }

  lemma WorkerStarts() returns (run: seq<State>)
    ensures run != [] && IsCleanRun(run)
    ensures Last(run).ino == Inode(1, 4, 0, true, false, 0, true, false, false, false, 1, 1, 0, 0)
    ensures PcOf(Last(run), 0) == Cancelling(0) && PcOf(Last(run), 1) == Removing && PcOf(Last(run), 2) == Ready
  {
    hide IsCleanPath;
    run := FirstStarter();
    run := Extend(run, Step(1, Fire));
    run := Extend(run, Step(1, TryInit));
    run := Extend(run, Step(1, PassInit));
  }

  lemma WorkerCollects() returns (run: seq<State>)
    ensures run != [] && IsCleanRun(run)
    ensures Last(run).ino == Inode(1, 4, 0, true, false, 0, true, false, false, false, 1, 1, 0, 0)
    ensures PcOf(Last(run), 0) == Cancelling(0) && PcOf(Last(run), 1) == Finishing(true) && PcOf(Last(run), 2) == Ready
  {
    hide IsCleanPath;
    run := WorkerStarts();
    run := Extend(run, Step(1, Unlink));
    run := Extend(run, Step(1, Collect));
  }

  lemma WorkerRuns() returns (run: seq<State>)
    ensures run != [] && IsCleanRun(run)
    ensures Last(run).ino == Inode(2, 4, 0, false, false, 0, false, false, false, false, 0, 1, 1, 1)
    ensures PcOf(Last(run), 0) == Cancelling(0) && PcOf(Last(run), 2) == Ready
  {
    hide IsCleanPath;
    run := WorkerCollects();
    run := Extend(run, Step(1, Release));
    run := Extend(run, Step(1, Drop));
  }

  /** The cancel of starter 0 finds the work of starter 2, which still holds the init latch: it is not safe. */
  lemma UnsafeCancelReachable() returns (run: seq<State>)
    ensures run != [] && IsCleanRun(run)
    ensures Enabled(Last(run), Step(0, Cancel)) && Last(run).ino.pending
    ensures PcOf(Last(run), 0) == Cancelling(0) && PcOf(Last(run), 2) == Deciding(2, 4)
    ensures !CancelSafe(Last(run), 0)
  {
    hide IsCleanPath, Inv, CancelSafe;
    run := WorkerRuns();
    run := Extend(run, Step(2, StartAsync));
    run := Extend(run, Step(2, StoreSeq));
    run := Extend(run, Step(2, TakeInit));
    run := Extend(run, Step(2, Hold));
    run := Extend(run, Step(2, Schedule));
    LastHasInv(run);
    CancelSafeIffClean(Last(run), 0);
  }

  /** The cancel of starter 0 comes when worker 1 has released the latch and is about to leave. */
  lemma WorkerLeaving() returns (run: seq<State>)
    ensures run != [] && IsCleanRun(run)
    ensures Last(run).ino == Inode(2, 4, 0, false, false, 0, true, false, false, false, 1, 1, 1, 0)
    ensures PcOf(Last(run), 0) == Cancelling(0) && PcOf(Last(run), 2) == Ready
  {
    hide IsCleanPath;
    run := WorkerCollects();
    run := Extend(run, Step(1, Release));
  }

  /** It finds the work idle; starter 2 then takes the latches and its reference and cannot schedule its work. */
  lemma IdleCancelReachable() returns (run: seq<State>, path: seq<State>)
    ensures run != [] && IsCleanRun(run) && Enabled(Last(run), Step(0, Cancel)) && !Last(run).ino.pending
    ensures path != [] && IsCleanPath(path) && path[0] == Apply(Last(run), Step(0, Cancel))
    ensures PcOf(Last(path), 2) == Referenced(2, 4) && FailsAt(Last(path), 2) && !CancelSafe(Last(run), 0)
  {
    hide IsCleanPath, Inv, CancelSafe;
    run := WorkerLeaving();
    LastHasInv(run);
    CancelSafeIffClean(Last(run), 0);
    path := Singleton(Apply(Last(run), Step(0, Cancel)));
    path := Extend(path, Step(2, StartAsync));
    path := Extend(path, Step(2, StoreSeq));
    path := Extend(path, Step(2, TakeInit));
    path := Extend(path, Step(2, Hold));
  }

  lemma LastHasInv(run: seq<State>)
    requires IsCleanRun(run)
    ensures Inv(Last(run))
  {
    RunHasInv(run, |run| - 1);
  }
}
