/**
 One block-service socket shared by submitters, the write worker, socket callbacks, timeouts and
 teardown.  Every action is one atomic operation or one lock-held region.  Work queues, RCU grace
 periods, the network and the scheduler choose the next action freely, and any number of threads
 takes part.  A thread counts in `refcount` exactly while its program counter says that it owns a
 reference.
 */
module BlockSocket {
  import opened Common

  type Req = nat

  /** Where the reference of the hash table is: given up only after the grace period, by release work. */
  datatype HashState = NotInserted | Hashed | Unhashed | GracePending | ReleaseQueued | Released

  datatype Pc =
    | Ready
    | Creating                                   // owns the initial reference of a socket nobody else knows
    | RcuFound                                   // found the socket in the table, has no reference
    | RcuTimedOut                                // saw it time out, about to take a reference for its cleanup
    | HeldSubmit                                 // got the socket, about to look at its error
    | SubmitOk                                   // saw no error, about to enqueue its request
    | QueueOrPut                                 // about to pass its reference to the work queue
    | ErrorOut(code: int)                        // about to mark the socket as failed
    | Put                                        // about to drop its reference
    | Teardown                                   // dropped the last reference, about to finish off the socket
    | Work                                       // write work started
    | WorkActive                                 // won write_work_active, about to look at the error
    | CleanupDetach                              // set terminal, waiting for the callback lock
    | CleanupUnhash                              // callbacks gone, about to leave the hash table
    | CleanupRcu                                 // out of the table, about to ask for a grace period
    | CleanupEnd                                 // about to clear write_work_active
    | WriteHead                                  // about to look at the head of the write list
    | Writing(req: Option<Req>)                  // writing this request
    | Written(done: Req, next: Option<Req>)      // took `done` off its last list, about to schedule completion
    | Reading(req: Option<Req>)                  // receiving the response of this request
    | Received(done: Req, next: Option<Req>)     // took `done` off its last list, about to schedule completion

  /**
   `callback`: the thread is inside a socket callback, under the callback lock.  `rcu`: it is in an RCU read
   section with a pointer from the table, which it follows to the next socket before it leaves the section.
   */
  datatype Thread = Thread(pc: Pc, callback: bool, rcu: bool)

  datatype Socket = Socket(
    refcount: int,
    err: int,
    terminal: bool,
    active: bool,            // write_work_active
    pending: bool,           // write_work is queued and owns a reference
    full: bool,              // the last write found no room, and the write-space callback has not come since
    hash: HashState,
    attached: bool,          // socket callbacks installed
    read: seq<Req>,
    write: seq<Req>,
    started: set<Req>,       // requests ever put on the lists
    completed: seq<Req>,     // completions scheduled, in order
    freed: bool)

  datatype State = State(sock: Socket, threads: map<Tid, Thread>)

  const IDLE := Thread(Ready, false, false)

  function ThreadOf(s: State, t: Tid): Thread {
    if t in s.threads then s.threads[t] else IDLE
  }

  predicate OwnsReference(pc: Pc) {
    !(pc.Ready? || pc.RcuFound? || pc.RcuTimedOut? || pc.Teardown? || pc.Reading? || pc.Received?)
  }

  /** The thread is inside the region guarded by write_work_active. */
  predicate IsActive(pc: Pc) {
    pc.WorkActive? || pc.CleanupDetach? || pc.CleanupUnhash? || pc.CleanupRcu? || pc.CleanupEnd?
    || pc.WriteHead? || pc.Writing? || pc.Written?
  }

  predicate IsReceiver(pc: Pc) {
    pc.Reading? || pc.Received?
  }

  predicate TableReference(h: HashState) {
    h.Hashed? || h.Unhashed? || h.GracePending? || h.ReleaseQueued?
  }

  function Owners(m: map<Tid, Thread>): set<Tid> {
    set t | t in m && OwnsReference(m[t].pc)
  }

  function Head(q: seq<Req>): Option<Req> {
    if q == [] then None else Some(q[0])
  }

  /** Requests the thread's next action may dereference. */
  function Touches(k: Socket, pc: Pc): set<Req> {
    match pc
    case Writing(Some(r)) => {r}
    case Written(c, _) => {c}
    case Reading(Some(r)) => {r}
    case Received(c, _) => {c}
    case Teardown => (set r | r in k.read) + (set r | r in k.write)
    case _ => {}
  }

  // ---------------------------------------------------------------- list operations

  /** The list without the elements of another one (list_del of linked entries). */
  function Minus(q: seq<Req>, p: seq<Req>): seq<Req> {
    if q == [] then []
    else if q[0] in p then Minus(q[1..], p)
    else [q[0]] + Minus(q[1..], p)
  }

  function Reversed(q: seq<Req>): seq<Req> {
    if q == [] then [] else Reversed(q[1..]) + [q[0]]
  }

  /** The order in which the last put schedules the requests that are still on the lists. */
  function Leftovers(read: seq<Req>, write: seq<Req>): seq<Req> {
    Reversed(Minus(write, read)) + Reversed(read)
  }

  // ---------------------------------------------------------------- actions

  datatype Action =
    | Insert                       // the creator wins the race for the hash table
    | Abandon                      // the creator loses it, or cannot connect
    | RcuFind
    | RcuLeave                     // reads the link to the next socket and goes on
    | RcuTimeout(code: int)        // no activity for too long
    | RcuHold(goal: Pc)
    | EnterCallback
    | LeaveCallback
    | CallbackHold(goal: Pc)
    | CheckErr
    | Enqueue(r: Req)
    | QueueWork
    | SetErr
    | DropRef
    | Finish
    | StartWork
    | TryActivate
    | CheckCleanup
    | Detach
    | Unhash
    | CallRcu
    | RunRelease
    | PickWrite
    | Sent                         // the whole request went out
    | ScheduleWritten
    | Deactivate(goal: Pc)         // leave the write work: yield, send error, no room, or nothing more to write
    | StartReceive
    | Answered                     // the whole response came in
    | ScheduleReceived
    | ReceiveFail(code: int)
    | StopReceive

  /** Whether a thread in this state may take the action, as far as the socket and the thread say. */
  predicate Guard(k: Socket, th: Thread, a: Action) {
    match a
    case Insert => th.pc.Creating?
    case Abandon => th.pc.Creating?
    case RcuFind => th == IDLE && k.hash.Hashed?
    case RcuLeave => th.pc.RcuFound? || (th.pc.Ready? && th.rcu)
    case RcuTimeout(code) => th.pc.RcuFound? && code != 0
    case RcuHold(goal) =>
      || (th.pc.RcuFound? && (goal.HeldSubmit? || (goal.ErrorOut? && goal.code != 0)))
      || (th.pc.RcuTimedOut? && goal.QueueOrPut?)
    case EnterCallback => th == IDLE && k.attached
    case LeaveCallback => th == Thread(Ready, true, false)
    case CallbackHold(goal) =>
      th == Thread(Ready, true, false) && (goal.QueueOrPut? || (goal.ErrorOut? && goal.code != 0))
    case CheckErr => th.pc.HeldSubmit?
    case Enqueue(r) => th.pc.SubmitOk? && r !in k.started
    case QueueWork => th.pc.QueueOrPut?
    case SetErr => th.pc.ErrorOut?
    case DropRef => th.pc.Put?
    case Finish => th.pc.Teardown?
    case StartWork => th == IDLE && k.pending
    case TryActivate => th.pc.Work?
    case CheckCleanup => th.pc.WorkActive?
    case Detach => th.pc.CleanupDetach?
    case Unhash => th.pc.CleanupUnhash?
    case CallRcu => th.pc.CleanupRcu?
    case RunRelease => th == IDLE && k.hash.ReleaseQueued?
    case PickWrite => th.pc.WriteHead?
    case Sent => th.pc.Writing? && th.pc.req.Some?
    case ScheduleWritten => th.pc.Written?
    case Deactivate(goal) =>
      || (th.pc.Writing? && th.pc.req.Some? && (goal.QueueOrPut? || goal.Put? || (goal.ErrorOut? && goal.code != 0)))
      || (th.pc.Writing? && th.pc.req.None? && goal.Put?)
      || (th.pc.CleanupEnd? && goal.Put?)
    case StartReceive => th == Thread(Ready, true, false) && k.err == 0
    // the server answers no more requests than it was sent
    case Answered => th.pc.Reading? && th.pc.req.Some?
    case ScheduleReceived => th.pc.Received?
    case ReceiveFail(code) => th.pc.Reading? && code != 0
    case StopReceive => th.pc.Reading?
  }

  /** The program counter after the action. */
  function PcAfter(k: Socket, th: Thread, a: Action): Pc
    requires Guard(k, th, a)
  {
    match a
    case Insert => HeldSubmit
    case Abandon => Put
    case RcuFind => RcuFound
    case RcuLeave => Ready
    case RcuTimeout(_) => RcuTimedOut
    case RcuHold(goal) => goal
    case EnterCallback => Ready
    case LeaveCallback => Ready
    case CallbackHold(goal) => goal
    case CheckErr => if k.err == 0 then SubmitOk else Put
    case Enqueue(_) => QueueOrPut
    case QueueWork => if k.pending then Put else Ready
    case SetErr => if k.err == 0 then QueueOrPut else Put
    case DropRef => if k.refcount - 1 == 0 then Teardown else Ready
    case Finish => Ready
    case StartWork => Work
    case TryActivate => if k.active then QueueOrPut else WorkActive
    case CheckCleanup => if k.err == 0 then WriteHead else if k.terminal then CleanupEnd else CleanupDetach
    case Detach => CleanupUnhash
    case Unhash => CleanupRcu
    case CallRcu => CleanupEnd
    case RunRelease => Put
    case PickWrite => Writing(Head(k.write))
    case Sent =>
      var r, rest := th.pc.req.value, Minus(k.write, [th.pc.req.value]);
      if r in k.read then Writing(Head(rest)) else Written(r, Head(rest))
    case ScheduleWritten => Writing(th.pc.next)
    case Deactivate(goal) => goal
    case StartReceive => Reading(Head(k.read))
    case Answered =>
      var r, rest := th.pc.req.value, Minus(k.read, [th.pc.req.value]);
      if r in k.write then Reading(Head(rest)) else Received(r, Head(rest))
    case ScheduleReceived => Reading(th.pc.next)
    case ReceiveFail(code) => ErrorOut(code)
    case StopReceive => Ready
  }

  /** A lookup for a submission leaves the read section with its reference; the walks over the table stay in it. */
  predicate RcuAfter(th: Thread, a: Action) {
    if a.RcuFind? then true else if a.RcuLeave? || (a.RcuHold? && a.goal.HeldSubmit?) then false else th.rcu
  }

  function ThreadAfter(k: Socket, th: Thread, a: Action): Thread
    requires Guard(k, th, a)
  {
    Thread(PcAfter(k, th, a), if a.EnterCallback? then true else if a.LeaveCallback? then false else th.callback,
           RcuAfter(th, a))
  }

  /** The socket after the action. */
  function SockAfter(k: Socket, th: Thread, a: Action): Socket
    requires Guard(k, th, a)
  {
    match a
    case Insert => k.(hash := Hashed, attached := true, refcount := k.refcount + 1)
    case RcuTimeout(code) => if k.err == 0 then k.(err := code) else k
    case RcuHold(_) => k.(refcount := k.refcount + 1)
    case CallbackHold(goal) => k.(refcount := k.refcount + 1, full := k.full && !goal.QueueOrPut?)
    case Enqueue(r) => k.(read := k.read + [r], write := k.write + [r], started := k.started + {r})
    case QueueWork => k.(pending := true)
    case SetErr => if k.err == 0 then k.(err := th.pc.code) else k
    case DropRef => k.(refcount := k.refcount - 1)
    case Finish => k.(completed := k.completed + Leftovers(k.read, k.write), read := [], write := [], freed := true)
    case StartWork => k.(pending := false)
    case TryActivate => k.(active := true)
    case CheckCleanup => if k.err == 0 then k else k.(terminal := true)
    case Detach => k.(attached := false)
    case Unhash => k.(hash := Unhashed)
    case CallRcu => k.(hash := GracePending)
    case RunRelease => k.(hash := Released)
    case Sent => k.(write := Minus(k.write, [th.pc.req.value]))
    case ScheduleWritten => k.(completed := k.completed + [th.pc.done])
    case Deactivate(goal) =>
      k.(active := false, full := k.full || (th.pc.Writing? && th.pc.req.Some? && goal.Put?))
    case Answered => k.(read := Minus(k.read, [th.pc.req.value]))
    case ScheduleReceived => k.(completed := k.completed + [th.pc.done])
    case ReceiveFail(_) => k.(refcount := k.refcount + 1)
    case _ => k
  }

  /** What an action demands of the other threads: the callback lock, and one receive callback at a time. */
  predicate Excludes(a: Action, other: Thread) {
    (a.Detach? && other.callback) || (a.StartReceive? && IsReceiver(other.pc))
  }

  datatype Step = Act(t: Tid, a: Action) | GraceEnd

  predicate Enabled(s: State, st: Step) {
    match st
    case Act(t, a) =>
      Guard(s.sock, ThreadOf(s, t), a) && forall u | u in s.threads && u != t :: !Excludes(a, s.threads[u])
    case GraceEnd => s.sock.hash.GracePending? && forall u | u in s.threads :: !s.threads[u].rcu
  }

  function Apply(s: State, st: Step): State
    requires Enabled(s, st)
  {
    match st
    case Act(t, a) =>
      State(SockAfter(s.sock, ThreadOf(s, t), a), s.threads[t := ThreadAfter(s.sock, ThreadOf(s, t), a)])
    case GraceEnd => s.(sock := s.sock.(hash := ReleaseQueued))
  }

  /** A freshly allocated socket: one thread owns its only reference. */
  ghost predicate Init(s: State) {
    && s.sock == Socket(1, 0, false, false, false, false, NotInserted, false, [], [], {}, [], false)
    && exists t :: s.threads == map[t := Thread(Creating, false, false)]
  }

  ghost predicate Next(s: State, s': State) {
    exists st :: Enabled(s, st) && s' == Apply(s, st)
  }

  ghost predicate IsRun(run: seq<State>) {
    && run != [] && Init(run[0])
    && forall i | 0 <= i < |run| - 1 :: Next(run[i], run[i + 1])
  }

  // ---------------------------------------------------------------- the inductive invariant

  ghost predicate NoDup(q: seq<Req>) {
    forall i, j | 0 <= i < j < |q| :: q[i] != q[j]
  }

  /** The reference count is the number of references that somebody owns. */
  ghost predicate CountInv(s: State) {
    s.sock.refcount == |Owners(s.threads)| + Bit(TableReference(s.sock.hash)) + Bit(s.sock.pending)
  }

  /** Callbacks are installed exactly while the socket is in service. */
  ghost predicate ServiceInv(k: Socket) {
    && (k.attached ==> k.hash.Hashed?)
    && (!k.terminal ==> (k.hash.NotInserted? && !k.attached) || (k.hash.Hashed? && k.attached))
    && (k.freed ==> k.refcount == 0 && k.read == [] && k.write == [])
    && (TableReference(k.hash) || k.pending ==> k.refcount > 0)
    && (k.hash.NotInserted? ==> !k.pending)
  }

  function Finishing(pc: Pc): Option<Req> {
    if pc.Written? then Some(pc.done) else if pc.Received? then Some(pc.done) else None
  }

  /** The request a writer or receiver goes on with. */
  function Current(pc: Pc): Option<Req> {
    match pc
    case Writing(r) => r
    case Written(_, n) => n
    case Reading(r) => r
    case Received(_, n) => n
    case _ => None
  }

  /** How a thread may reach the socket and its requests. */
  ghost predicate ThreadInv(k: Socket, th: Thread) {
    var pc := th.pc;
    && (th.callback ==> k.attached && (pc.Ready? || pc.QueueOrPut? || pc.ErrorOut? || pc.Put? || IsReceiver(pc)))
    && (IsReceiver(pc) ==> th.callback)
    && (th.rcu ==> !th.callback && (k.hash.Hashed? || k.hash.Unhashed? || k.hash.GracePending?))
    && (th.rcu ==> pc.Ready? || pc.RcuFound? || pc.RcuTimedOut? || pc.QueueOrPut? || pc.ErrorOut? || pc.Put?)
    && (pc.RcuFound? || pc.RcuTimedOut? ==> th.rcu)
    && (pc.Creating? ==> k.hash.NotInserted? && !k.terminal)
    && (OwnsReference(pc) ==> k.refcount > 0)
    && (IsActive(pc) ==> k.active)
    && (k.hash.NotInserted? ==> pc.Ready? || pc.Creating? || pc.Put? || pc.Teardown?)
    && (pc.CleanupDetach? ==> k.attached && k.terminal)
    && (pc.CleanupUnhash? ==> k.hash.Hashed? && !k.attached && k.terminal)
    && (pc.CleanupRcu? ==> k.hash.Unhashed? && k.terminal)
    && (pc.ErrorOut? ==> pc.code != 0)
    && (pc.Teardown? ==> k.refcount == 0 && !k.freed)
  }

  /** The writer and the receiver work on the heads of their lists; a request being finished is on none. */
  ghost predicate RequestInv(k: Socket, pc: Pc) {
    && ((pc.Writing? || pc.Written?) && Current(pc).Some? ==> Head(k.write) == Current(pc))
    && (IsReceiver(pc) && Current(pc).Some? ==> Head(k.read) == Current(pc))
    && (Finishing(pc).Some? ==> var r := Finishing(pc).value;
      r in k.started && r !in k.read && r !in k.write && r !in k.completed)
  }

  /** What no two different threads do at the same time. */
  ghost predicate PairInv(a: Thread, b: Thread) {
    && !(a.pc.Creating? && (b.pc.Creating? || OwnsReference(b.pc)))
    && !(IsActive(a.pc) && IsActive(b.pc))
    && !(IsReceiver(a.pc) && IsReceiver(b.pc))
    && !(Finishing(a.pc).Some? && Finishing(a.pc) == Finishing(b.pc))
    && !(a.pc.Teardown? && b != IDLE)
  }

  /** Lists hold started requests that are not completed, each once. */
  ghost predicate ListInv(k: Socket) {
    && NoDup(k.read) && NoDup(k.write) && NoDup(k.completed)
    && (forall r | r in k.read :: r in k.started && r !in k.completed)
    && (forall r | r in k.write :: r in k.started && r !in k.completed)
    && (forall r | r in k.completed :: r in k.started)
  }

  /** No started request is lost. */
  ghost predicate Accounted(s: State, r: Req) {
    || r in s.sock.read || r in s.sock.write || r in s.sock.completed
    || exists t :: Finishing(ThreadOf(s, t).pc) == Some(r)
  }

  ghost predicate Inv(s: State) {
    && CountInv(s) && ServiceInv(s.sock) && ListInv(s.sock)
    && (forall t :: ThreadInv(s.sock, ThreadOf(s, t)) && RequestInv(s.sock, ThreadOf(s, t).pc))
    && (forall t, u | t != u :: PairInv(ThreadOf(s, t), ThreadOf(s, u)))
    && (forall r | r in s.sock.started :: Accounted(s, r))
  }

  // ---------------------------------------------------------------- one action, seen from one thread

  /** Actions of the write work, and of the cleanup it does. */
  predicate WorkAction(a: Action) {
    a.StartWork? || a.TryActivate? || a.CheckCleanup? || a.Detach? || a.Unhash? || a.CallRcu?
    || a.PickWrite? || a.Sent? || a.ScheduleWritten? || a.Deactivate?
  }

  predicate CleanupAction(a: Action) {
    a.StartWork? || a.TryActivate? || a.CheckCleanup? || a.Detach? || a.Unhash? || a.CallRcu?
  }

  lemma ActorKeptCleanup(k: Socket, th: Thread, a: Action)
    requires CleanupAction(a)
    requires Guard(k, th, a) && ServiceInv(k) && ThreadInv(k, th)
    requires OwnsReference(PcAfter(k, th, a)) ==> SockAfter(k, th, a).refcount > 0
    ensures ThreadInv(SockAfter(k, th, a), ThreadAfter(k, th, a))
  {
    hide Leftovers, Minus, Head;
    match a {
      case StartWork =>
      case TryActivate =>
      case CheckCleanup =>
      case Detach =>
      case Unhash =>
      case CallRcu =>
    }
  }

  lemma ActorKeptWork(k: Socket, th: Thread, a: Action)
    requires WorkAction(a)
    requires Guard(k, th, a) && ServiceInv(k) && ThreadInv(k, th)
    requires OwnsReference(PcAfter(k, th, a)) ==> SockAfter(k, th, a).refcount > 0
    ensures ThreadInv(SockAfter(k, th, a), ThreadAfter(k, th, a))
  {
    if CleanupAction(a) {
      hide *;
      ActorKeptCleanup(k, th, a);
    } else {
      hide Leftovers, Minus, Head;
      match a {
        case PickWrite =>
        case Sent =>
        case ScheduleWritten =>
        case Deactivate(_) =>
      }
    }
  }

  /** The acting thread keeps its invariant, given that its count is right. */
  lemma ActorKept(k: Socket, th: Thread, a: Action)
    requires Guard(k, th, a) && ServiceInv(k) && ThreadInv(k, th)
    requires a.DropRef? && k.refcount == 1 ==> !th.callback && !th.rcu
    requires OwnsReference(PcAfter(k, th, a)) ==> SockAfter(k, th, a).refcount > 0
    ensures ThreadInv(SockAfter(k, th, a), ThreadAfter(k, th, a))
  {
    if WorkAction(a) {
      hide *;
      ActorKeptWork(k, th, a);
    } else {
      hide Leftovers, Minus, Head;
    }
  }

  lemma OtherKeptWork(k: Socket, th: Thread, a: Action, other: Thread)
    requires WorkAction(a)
    requires Guard(k, th, a) && ServiceInv(k) && ThreadInv(k, th) && ThreadInv(k, other)
    requires PairInv(th, other) && PairInv(other, th) && !Excludes(a, other)
    requires OwnsReference(other.pc) ==> SockAfter(k, th, a).refcount > 0
    ensures ThreadInv(SockAfter(k, th, a), other)
  {
    hide Leftovers, Minus, Head;
  }

  lemma OtherKept(k: Socket, th: Thread, a: Action, other: Thread)
    requires Guard(k, th, a) && ServiceInv(k) && ThreadInv(k, th) && ThreadInv(k, other)
    requires PairInv(th, other) && PairInv(other, th) && !Excludes(a, other)
    requires OwnsReference(other.pc) ==> SockAfter(k, th, a).refcount > 0
    ensures ThreadInv(SockAfter(k, th, a), other)
  {
    if WorkAction(a) {
      hide *;
      OtherKeptWork(k, th, a, other);
    } else {
      hide Leftovers, Minus, Head;
    }
  }

  lemma ServiceKept(k: Socket, th: Thread, a: Action)
    requires Guard(k, th, a) && ServiceInv(k) && ThreadInv(k, th)
    requires TableReference(SockAfter(k, th, a).hash) || SockAfter(k, th, a).pending ==>
      SockAfter(k, th, a).refcount > 0
    ensures ServiceInv(SockAfter(k, th, a))
  {
    hide Leftovers, Minus, Head;
    match a {
      case Insert =>
      case RcuTimeout(_) =>
      case Enqueue(_) =>
      case SetErr =>
      case DropRef =>
      case Finish =>
      case CheckCleanup =>
      case Detach =>
      case Unhash =>
      case CallRcu =>
      case RunRelease =>
      case _ =>
    }
  }

  lemma {:induction false} MinusAbsent(q: seq<Req>, r: Req)
    requires r !in q
    ensures Minus(q, [r]) == q
  {
    if q != [] {
      MinusAbsent(q[1..], r);
    }
  }

  /** Taking the head off a list without duplicates leaves its tail. */
  lemma {:induction false} MinusHead(q: seq<Req>)
    requires NoDup(q) && q != []
    ensures Minus(q, [q[0]]) == q[1..]
  {
    assert q[0] !in q[1..];
    MinusAbsent(q[1..], q[0]);
  }

  lemma {:induction false} MinusElements(q: seq<Req>, p: seq<Req>)
    requires NoDup(q)
    ensures NoDup(Minus(q, p))
    ensures forall r :: r in Minus(q, p) <==> r in q && r !in p
  {
    if q != [] {
      assert NoDup(q[1..]);
      MinusElements(q[1..], p);
      assert forall r :: r in q <==> r == q[0] || r in q[1..];
    }
  }

  lemma {:induction false} ReversedElements(q: seq<Req>)
    requires NoDup(q)
    ensures NoDup(Reversed(q))
    ensures forall r :: r in Reversed(q) <==> r in q
  {
    if q != [] {
      assert NoDup(q[1..]);
      ReversedElements(q[1..]);
      assert forall r :: r in q <==> r == q[0] || r in q[1..];
      NoDupConcat(Reversed(q[1..]), [q[0]]);
    }
  }

  lemma NoDupConcat(p: seq<Req>, q: seq<Req>)
    requires NoDup(p) && NoDup(q) && forall r | r in p :: r !in q
    ensures NoDup(p + q)
  {
    forall i, j | 0 <= i < j < |p + q| ensures (p + q)[i] != (p + q)[j] {
      if i < |p| <= j {
        assert (p + q)[i] in p && (p + q)[j] in q;
      }
    }
  }

  /** The last put schedules every request left on either list, once. */
  lemma LeftoversElements(read: seq<Req>, write: seq<Req>)
    requires NoDup(read) && NoDup(write)
    ensures NoDup(Leftovers(read, write))
    ensures forall r :: r in Leftovers(read, write) <==> r in read || r in write
  {
    MinusElements(write, read);
    ReversedElements(Minus(write, read));
    ReversedElements(read);
    NoDupConcat(Reversed(Minus(write, read)), Reversed(read));
  }

  /** What an action does to the lists. */
  lemma ListEffect(k: Socket, th: Thread, a: Action)
    requires Guard(k, th, a) && ListInv(k) && RequestInv(k, th.pc)
    ensures a.Sent? ==>
      k.write != [] && th.pc.req == Some(k.write[0]) && SockAfter(k, th, a) == k.(write := k.write[1..])
    ensures a.Answered? ==>
      k.read != [] && th.pc.req == Some(k.read[0]) && SockAfter(k, th, a) == k.(read := k.read[1..])
  {
    if a.Sent? {
      MinusHead(k.write);
    }
    if a.Answered? {
      MinusHead(k.read);
    }
  }

  lemma ListKept(k: Socket, th: Thread, a: Action)
    requires Guard(k, th, a) && ListInv(k) && RequestInv(k, th.pc)
    ensures ListInv(SockAfter(k, th, a))
  {
    ListEffect(k, th, a);
    hide Leftovers, Minus;
    match a {
      case Enqueue(r) =>
        NoDupConcat(k.read, [r]);
        NoDupConcat(k.write, [r]);
      case Finish =>
        LeftoversElements(k.read, k.write);
        NoDupConcat(k.completed, Leftovers(k.read, k.write));
      case ScheduleWritten => NoDupConcat(k.completed, [th.pc.done]);
      case ScheduleReceived => NoDupConcat(k.completed, [th.pc.done]);
      case _ =>
    }
  }

  lemma ActorRequestKept(k: Socket, th: Thread, a: Action)
    requires Guard(k, th, a) && ListInv(k) && RequestInv(k, th.pc)
    ensures RequestInv(SockAfter(k, th, a), PcAfter(k, th, a))
  {
    ListEffect(k, th, a);
    hide Leftovers, Minus;
  }

  lemma OtherRequestKept(k: Socket, th: Thread, a: Action, other: Thread)
    requires Guard(k, th, a) && ListInv(k) && RequestInv(k, th.pc) && RequestInv(k, other.pc)
    requires PairInv(th, other)
    ensures RequestInv(SockAfter(k, th, a), other.pc)
  {
    ListEffect(k, th, a);
    hide Leftovers, Minus;
  }

  lemma PairKeptWork(k: Socket, th: Thread, a: Action, other: Thread)
    requires WorkAction(a)
    requires Guard(k, th, a) && ServiceInv(k) && ListInv(k)
    requires ThreadInv(k, th) && ThreadInv(k, other) && RequestInv(k, th.pc) && RequestInv(k, other.pc)
    requires PairInv(th, other) && PairInv(other, th) && !Excludes(a, other)
    requires a.DropRef? && k.refcount == 1 ==> other == IDLE
    ensures PairInv(ThreadAfter(k, th, a), other) && PairInv(other, ThreadAfter(k, th, a))
  {
    ListEffect(k, th, a);
    hide Leftovers, Minus;
  }

  lemma PairKept(k: Socket, th: Thread, a: Action, other: Thread)
    requires Guard(k, th, a) && ServiceInv(k) && ListInv(k)
    requires ThreadInv(k, th) && ThreadInv(k, other) && RequestInv(k, th.pc) && RequestInv(k, other.pc)
    requires PairInv(th, other) && PairInv(other, th) && !Excludes(a, other)
    requires a.DropRef? && k.refcount == 1 ==> other == IDLE
    ensures PairInv(ThreadAfter(k, th, a), other) && PairInv(other, ThreadAfter(k, th, a))
  {
    if WorkAction(a) {
      hide *;
      PairKeptWork(k, th, a, other);
    } else {
      ListEffect(k, th, a);
      hide Leftovers, Minus;
    }
  }

  // ---------------------------------------------------------------- one step of the whole socket

  lemma OwnersUpdate(m: map<Tid, Thread>, t: Tid, th: Thread)
    ensures |Owners(m[t := th])| == |Owners(m)| - Bit(t in m && OwnsReference(m[t].pc)) + Bit(OwnsReference(th.pc))
  {
    if OwnsReference(th.pc) {
      assert Owners(m[t := th]) == Owners(m) + {t};
    } else {
      assert Owners(m[t := th]) == Owners(m) - {t};
    }
  }

  /** References owned by two different threads are two references. */
  lemma OwnersCount(s: State, t: Tid, u: Tid)
    ensures |Owners(s.threads)| >= Bit(OwnsReference(ThreadOf(s, t).pc))
      + Bit(t != u && OwnsReference(ThreadOf(s, u).pc))
  {
    var a := if OwnsReference(ThreadOf(s, t).pc) then {t} else {};
    var b := if t != u && OwnsReference(ThreadOf(s, u).pc) then {u} else {};
    assert a + b <= Owners(s.threads);
    SubsetSize(a + b, Owners(s.threads));
  }

  /** How an action moves references: into the count, to the table, to the work queue and to the thread. */
  function CountDelta(a: Action): int {
    match a
    case Insert => 1
    case RcuHold(_) => 1
    case CallbackHold(_) => 1
    case ReceiveFail(_) => 1
    case DropRef => -1
    case _ => 0
  }

  function TableDelta(a: Action): int {
    if a.Insert? then 1 else if a.RunRelease? then -1 else 0
  }

  function QueueDelta(k: Socket, a: Action): int {
    if a.QueueWork? && !k.pending then 1 else if a.StartWork? then -1 else 0
  }

  lemma TableEffect(k: Socket, th: Thread, a: Action)
    requires Guard(k, th, a)
    requires (a.Insert? ==> k.hash.NotInserted?) && (a.Unhash? ==> k.hash.Hashed?) && (a.CallRcu? ==> k.hash.Unhashed?)
    ensures Bit(TableReference(SockAfter(k, th, a).hash)) == Bit(TableReference(k.hash)) + TableDelta(a)
  {
    hide Leftovers, Minus, Head;
    match a {
      case Insert =>
      case Unhash =>
      case CallRcu =>
      case RunRelease =>
      case RcuTimeout(_) =>
      case SetErr =>
      case CheckCleanup =>
      case _ =>
    }
  }

  lemma QueueEffect(k: Socket, th: Thread, a: Action)
    requires Guard(k, th, a)
    ensures Bit(SockAfter(k, th, a).pending) == Bit(k.pending) + QueueDelta(k, a)
  {
    hide Leftovers, Minus, Head;
    match a {
      case QueueWork =>
      case StartWork =>
      case RcuTimeout(_) =>
      case SetErr =>
      case CheckCleanup =>
      case _ =>
    }
  }

  lemma CountEffect(k: Socket, th: Thread, a: Action)
    requires Guard(k, th, a)
    ensures SockAfter(k, th, a).refcount == k.refcount + CountDelta(a)
  {
    hide Leftovers, Minus, Head;
    match a {
      case Insert =>
      case RcuHold(_) =>
      case CallbackHold(_) =>
      case ReceiveFail(_) =>
      case DropRef =>
      case RcuTimeout(_) =>
      case SetErr =>
      case CheckCleanup =>
      case _ =>
    }
  }

  lemma OwnerEffect(k: Socket, th: Thread, a: Action)
    requires Guard(k, th, a)
    ensures Bit(OwnsReference(PcAfter(k, th, a))) ==
      Bit(OwnsReference(th.pc)) + CountDelta(a) - TableDelta(a) - QueueDelta(k, a)
  {
    hide Leftovers, Minus, Head;
  }

  lemma CountKept(s: State, st: Step)
    requires Inv(s) && Enabled(s, st)
    ensures CountInv(Apply(s, st))
  {
    match st {
      case Act(t, a) =>
        var k, th := s.sock, ThreadOf(s, t);
        assert ThreadInv(k, th);
        TableEffect(k, th, a);
        QueueEffect(k, th, a);
        CountEffect(k, th, a);
        OwnerEffect(k, th, a);
        hide SockAfter, PcAfter, Guard, ThreadInv;
        OwnersUpdate(s.threads, t, ThreadAfter(k, th, a));
      case GraceEnd =>
    }
  }

  /** Whoever drops the last reference is the only one left. */
  lemma LastOneOut(s: State, t: Tid, u: Tid)
    requires Inv(s) && ThreadOf(s, t).pc.Put? && s.sock.refcount == 1
    ensures !ThreadOf(s, t).callback && !ThreadOf(s, t).rcu
    ensures u != t ==> ThreadOf(s, u) == IDLE
  {
    OwnersCount(s, t, u);
    assert ThreadInv(s.sock, ThreadOf(s, t)) && ThreadInv(s.sock, ThreadOf(s, u));
  }

  lemma ThreadsKept(s: State, t: Tid, a: Action, u: Tid)
    requires Inv(s) && Enabled(s, Act(t, a)) && CountInv(Apply(s, Act(t, a)))
    ensures ThreadInv(Apply(s, Act(t, a)).sock, ThreadOf(Apply(s, Act(t, a)), u))
    ensures RequestInv(Apply(s, Act(t, a)).sock, ThreadOf(Apply(s, Act(t, a)), u).pc)
  {
    hide SockAfter, PcAfter, Guard;
    var k, th, s' := s.sock, ThreadOf(s, t), Apply(s, Act(t, a));
    OwnersCount(s', t, u);
    assert ThreadInv(k, th) && RequestInv(k, th.pc);
    if u == t {
      if a.DropRef? && k.refcount == 1 {
        DropRefMeans(k, th);
        LastOneOut(s, t, t);
      }
      ActorKept(k, th, a);
      ActorRequestKept(k, th, a);
    } else {
      var other := ThreadOf(s, u);
      assert ThreadInv(k, other) && RequestInv(k, other.pc) && PairInv(th, other) && PairInv(other, th);
      ExcludesNone(s, t, a, u);
      OtherKept(k, th, a, other);
      OtherRequestKept(k, th, a, other);
    }
  }

  lemma DropRefMeans(k: Socket, th: Thread)
    requires Guard(k, th, DropRef)
    ensures th.pc.Put?
  {}

  lemma ExcludesNone(s: State, t: Tid, a: Action, u: Tid)
    requires Enabled(s, Act(t, a)) && u != t
    ensures !Excludes(a, ThreadOf(s, u))
  {}

  lemma PairsKept(s: State, t: Tid, a: Action, u: Tid, v: Tid)
    requires Inv(s) && Enabled(s, Act(t, a)) && u != v
    ensures PairInv(ThreadOf(Apply(s, Act(t, a)), u), ThreadOf(Apply(s, Act(t, a)), v))
  {
    hide SockAfter, PcAfter, Guard;
    var k, th := s.sock, ThreadOf(s, t);
    if u == t || v == t {
      var w := if u == t then v else u;
      var other := ThreadOf(s, w);
      assert ThreadInv(k, th) && RequestInv(k, th.pc) && ThreadInv(k, other) && RequestInv(k, other.pc);
      assert PairInv(th, other) && PairInv(other, th);
      if a.DropRef? && k.refcount == 1 {
        DropRefMeans(k, th);
        LastOneOut(s, t, w);
      }
      ExcludesNone(s, t, a, w);
      PairKept(k, th, a, other);
    } else {
      assert PairInv(ThreadOf(s, u), ThreadOf(s, v));
    }
  }

  /** A request on a list stays on a list, is being finished by the actor, or is completed. */
  lemma ListedKept(k: Socket, th: Thread, a: Action, r: Req)
    requires Guard(k, th, a) && ListInv(k) && RequestInv(k, th.pc)
    requires r in k.read || r in k.write || r in k.completed || Finishing(th.pc) == Some(r)
    ensures var k' := SockAfter(k, th, a);
      r in k'.read || r in k'.write || r in k'.completed || Finishing(PcAfter(k, th, a)) == Some(r)
  {
    ListEffect(k, th, a);
    LeftoversElements(k.read, k.write);
    hide Leftovers, Minus, Head;
  }

  lemma StartedEffect(k: Socket, th: Thread, a: Action, r: Req)
    requires Guard(k, th, a) && r in SockAfter(k, th, a).started
    ensures r in k.started || r in SockAfter(k, th, a).read
  {
    hide Guard, Leftovers, Minus, Head;
    match a {
      case Insert => case RcuTimeout(_) => case RcuHold(_) => case CallbackHold(_) => case Enqueue(_) =>
      case QueueWork => case SetErr => case DropRef => case Finish => case StartWork => case TryActivate =>
      case CheckCleanup => case Detach => case Unhash => case CallRcu => case RunRelease => case Sent =>
      case ScheduleWritten => case Deactivate(_) => case Answered => case ScheduleReceived => case ReceiveFail(_) =>
      case _ =>
    }
  }

  lemma AccountedKept(s: State, t: Tid, a: Action, r: Req)
    requires Inv(s) && Enabled(s, Act(t, a)) && r in Apply(s, Act(t, a)).sock.started
    ensures Accounted(Apply(s, Act(t, a)), r)
  {
    hide SockAfter, PcAfter, Guard;
    var k, th, s' := s.sock, ThreadOf(s, t), Apply(s, Act(t, a));
    assert RequestInv(k, th.pc);
    StartedEffect(k, th, a, r);
    if r in k.started {
      assert Accounted(s, r);
      if u: Tid :| u != t && Finishing(ThreadOf(s, u).pc) == Some(r) {
        assert Finishing(ThreadOf(s', u).pc) == Some(r);
      } else {
        ListedKept(k, th, a, r);
        assert ThreadOf(s', t).pc == PcAfter(k, th, a);
      }
    }
  }

  lemma StepKeepsInv(s: State, st: Step)
    requires Inv(s) && Enabled(s, st)
    ensures Inv(Apply(s, st))
  {
    CountKept(s, st);
    hide SockAfter, PcAfter, Guard;
    match st {
      case Act(t, a) =>
        var k, th, s' := s.sock, ThreadOf(s, t), Apply(s, st);
        assert ThreadInv(k, th) && RequestInv(k, th.pc);
        OwnersCount(s', t, t);
        ServiceKept(k, th, a);
        ListKept(k, th, a);
        forall u ensures ThreadInv(s'.sock, ThreadOf(s', u)) && RequestInv(s'.sock, ThreadOf(s', u).pc) {
          ThreadsKept(s, t, a, u);
        }
        forall u, v | u != v ensures PairInv(ThreadOf(s', u), ThreadOf(s', v)) {
          PairsKept(s, t, a, u, v);
        }
        forall r | r in s'.sock.started ensures Accounted(s', r) {
          AccountedKept(s, t, a, r);
        }
      case GraceEnd =>
        var s' := Apply(s, st);
        forall u ensures ThreadInv(s'.sock, ThreadOf(s', u)) && RequestInv(s'.sock, ThreadOf(s', u).pc) {
          assert ThreadInv(s.sock, ThreadOf(s, u)) && RequestInv(s.sock, ThreadOf(s, u).pc);
          assert ThreadOf(s', u) == ThreadOf(s, u);
        }
        forall u, v | u != v ensures PairInv(ThreadOf(s', u), ThreadOf(s', v)) {
          assert PairInv(ThreadOf(s, u), ThreadOf(s, v));
        }
        forall r | r in s'.sock.started ensures Accounted(s', r) {
          assert Accounted(s, r);
          if u: Tid :| Finishing(ThreadOf(s, u).pc) == Some(r) {
            assert Finishing(ThreadOf(s', u).pc) == Some(r);
          }
        }
    }
  }

  lemma InitHasInv(s: State)
    requires Init(s)
    ensures Inv(s)
  {
    var t :| s.threads == map[t := Thread(Creating, false, false)];
    assert Owners(s.threads) == {t};
  }

  lemma {:induction false} RunHasInv(run: seq<State>, i: nat)
    requires IsRun(run) && i < |run|
    ensures Inv(run[i])
  {
    if i == 0 {
      InitHasInv(run[0]);
    } else {
      RunHasInv(run, i - 1);
      assert Next(run[i - 1], run[i]);
      var st :| Enabled(run[i - 1], st) && run[i] == Apply(run[i - 1], st);
      StepKeepsInv(run[i - 1], st);
    }
  }

  // ---------------------------------------------------------------- what every run guarantees

  /** In every state of every run the reference count is exactly the references that somebody owns. */
  lemma ReferencesAreCounted(run: seq<State>, i: nat)
    requires IsRun(run) && i < |run|
    ensures var s := run[i];
      s.sock.refcount == |Owners(s.threads)| + Bit(TableReference(s.sock.hash)) + Bit(s.sock.pending)
    ensures var s := run[i];
      s.sock.refcount == 0 ==> !s.sock.hash.Hashed? && !s.sock.attached && !s.sock.pending
  {
    RunHasInv(run, i);
  }

  /**
   A thread that is doing anything, following the link of a socket it has given up included, finds the socket
   allocated, and its requests not completed.
   */
  lemma NoUseAfterFree(run: seq<State>, i: nat, t: Tid)
    requires IsRun(run) && i < |run|
    ensures var s := run[i]; var th := ThreadOf(s, t);
      && (th != IDLE ==> !s.sock.freed)
      && (forall r | r in Touches(s.sock, th.pc) :: r !in s.sock.completed)
  {
    RunHasInv(run, i);
    var s, th := run[i], ThreadOf(run[i], t);
    OwnersCount(s, t, t);
    assert ThreadInv(s.sock, th) && RequestInv(s.sock, th.pc);
  }

  /** Holding a socket never revives it: the BUG_ON of block_socket_hold and block_socket_put cannot fire. */
  lemma CountChecksHold(run: seq<State>, i: nat, t: Tid, a: Action)
    requires IsRun(run) && i < |run| && Enabled(run[i], Act(t, a))
    ensures a.RcuHold? || a.CallbackHold? || a.ReceiveFail? || a.Insert? ==> Apply(run[i], Act(t, a)).sock.refcount > 1
    ensures a.DropRef? ==> Apply(run[i], Act(t, a)).sock.refcount >= 0
  {
    RunHasInv(run, i);
    assert ThreadInv(run[i].sock, ThreadOf(run[i], t));
    OwnersCount(run[i], t, t);
  }

  /** Every completion is scheduled at most once, and only when the request is on neither list. */
  lemma CompletedOnce(run: seq<State>, i: nat)
    requires IsRun(run) && i < |run|
    ensures NoDup(run[i].sock.completed)
    ensures forall r | r in run[i].sock.completed ::
      r in run[i].sock.started && r !in run[i].sock.read && r !in run[i].sock.write
    ensures run[i].sock.freed ==> forall r :: r in run[i].sock.started <==> r in run[i].sock.completed
  {
    RunHasInv(run, i);
    var s := run[i];
    if s.sock.freed {
      forall r | r in s.sock.started ensures r in s.sock.completed {
        assert Accounted(s, r);
        if u: Tid :| Finishing(ThreadOf(s, u).pc) == Some(r) {
          NoUseAfterFree(run, i, u);
        }
      }
    }
  }

  /** Completions are never taken back, and once freed the socket stays untouched. */
  lemma {:induction false} History(run: seq<State>, i: nat, j: nat)
    requires IsRun(run) && i <= j < |run|
    ensures run[i].sock.completed <= run[j].sock.completed
    ensures run[i].sock.started <= run[j].sock.started
    ensures run[i].sock.freed ==> run[j].sock == run[i].sock
  {
    if i < j {
      History(run, i, j - 1);
      RunHasInv(run, j - 1);
      var s := run[j - 1];
      assert Next(s, run[j]);
      var st :| Enabled(s, st) && run[j] == Apply(s, st);
      if st.Act? {
        assert ThreadInv(s.sock, ThreadOf(s, st.t));
        OwnersCount(s, st.t, st.t);
        ActionHistory(s.sock, ThreadOf(s, st.t), st.a);
        if s.sock.freed {
          NoUseAfterFree(run, j - 1, st.t);
        }
      }
    }
  }

  lemma ActionHistory(k: Socket, th: Thread, a: Action)
    requires Guard(k, th, a) && ServiceInv(k)
    ensures k.completed <= SockAfter(k, th, a).completed
    ensures k.started <= SockAfter(k, th, a).started
    ensures k.freed && th == IDLE ==> SockAfter(k, th, a) == k
  {
    hide Leftovers, Minus, Head;
    match a {
      case Enqueue(_) =>
      case Finish =>
      case ScheduleWritten =>
      case ScheduleReceived =>
      case RcuTimeout(_) =>
      case SetErr =>
      case CheckCleanup =>
      case RcuFind =>
      case EnterCallback =>
      case StartWork =>
      case RunRelease =>
      case _ =>
    }
  }

  // ---------------------------------------------------------------- what became of a request

  ghost predicate StepAt(run: seq<State>, j: nat, t: Tid, a: Action)
    requires j + 1 < |run|
  {
    Enabled(run[j], Act(t, a)) && run[j + 1] == Apply(run[j], Act(t, a))
  }

  /** Before state `i` the whole of request `r` went out. */
  ghost predicate WasSent(run: seq<State>, i: nat, r: Req)
    requires i < |run|
  {
    exists j: nat, t :: j < i && StepAt(run, j, t, Sent) && ThreadOf(run[j], t).pc == Writing(Some(r))
  }

  /** Before state `i` the whole response to request `r` came in. */
  ghost predicate WasAnswered(run: seq<State>, i: nat, r: Req)
    requires i < |run|
  {
    exists j: nat, t :: j < i && StepAt(run, j, t, Answered) && ThreadOf(run[j], t).pc == Reading(Some(r))
  }

  lemma ListStep(k: Socket, th: Thread, a: Action, r: Req)
    requires Guard(k, th, a) && ListInv(k) && RequestInv(k, th.pc)
    requires r in SockAfter(k, th, a).started && !SockAfter(k, th, a).freed
    ensures r !in SockAfter(k, th, a).write ==> (r in k.started && r !in k.write) || (a.Sent? && th.pc.req == Some(r))
    ensures r !in SockAfter(k, th, a).read ==> (r in k.started && r !in k.read) || (a.Answered? && th.pc.req == Some(r))
    ensures !k.freed
  {
    ListEffect(k, th, a);
    hide Leftovers, Minus, Head;
    match a {
      case Enqueue(_) => case Sent => case Answered => case Finish =>
      case RcuTimeout(_) => case SetErr => case CheckCleanup =>
      case _ =>
    }
  }

  /** Until the socket is freed a request leaves the write list only when sent, and the read list only when answered. */
  lemma {:induction false} LeavesByItsStep(run: seq<State>, i: nat, r: Req)
    requires IsRun(run) && i < |run| && r in run[i].sock.started && !run[i].sock.freed
    ensures r !in run[i].sock.write ==> WasSent(run, i, r)
    ensures r !in run[i].sock.read ==> WasAnswered(run, i, r)
    decreases i
  {
    hide SockAfter, PcAfter, Guard, ThreadInv, PairInv, CountInv, ServiceInv, ListInv, RequestInv;
    if i > 0 {
      var s, s' := run[i - 1], run[i];
      RunHasInv(run, i - 1);
      assert Next(s, s');
      var st :| Enabled(s, st) && s' == Apply(s, st);
      if st.Act? {
        assert StepAt(run, i - 1, st.t, st.a);
        assert RequestInv(s.sock, ThreadOf(s, st.t).pc);
        ListStep(s.sock, ThreadOf(s, st.t), st.a, r);
        SentPc(s.sock, ThreadOf(s, st.t), st.a);
      }
      if r in s.sock.started {
        LeavesByItsStep(run, i - 1, r);
      }
    }
  }

  lemma SentPc(k: Socket, th: Thread, a: Action)
    requires Guard(k, th, a)
    ensures a.Sent? ==> th.pc.Writing?
    ensures a.Answered? ==> th.pc.Reading?
  {
  }

  /** A completion before the final put comes after the request was sent and its response came in. */
  lemma CompletedAfterBoth(run: seq<State>, i: nat, r: Req)
    requires IsRun(run) && i < |run| && r in run[i].sock.completed && !run[i].sock.freed
    ensures WasSent(run, i, r) && WasAnswered(run, i, r)
  {
    hide WasSent, WasAnswered;
    CompletedOnce(run, i);
    LeavesByItsStep(run, i, r);
  }

  lemma ErrStep(k: Socket, th: Thread, a: Action)
    requires Guard(k, th, a) && ThreadInv(k, th)
    ensures k.err != 0 ==> SockAfter(k, th, a).err == k.err
    ensures k.err == 0 && SockAfter(k, th, a).err != 0 ==>
      (a == RcuTimeout(SockAfter(k, th, a).err) && th.pc.RcuFound?)
      || (a.SetErr? && th.pc == ErrorOut(SockAfter(k, th, a).err))
  {
    hide Leftovers, Minus, Head, ThreadInv;
    match a {
      case Insert => case RcuTimeout(_) => case RcuHold(_) => case CallbackHold(_) => case Enqueue(_) =>
      case QueueWork => case SetErr => case DropRef => case Finish => case StartWork => case TryActivate =>
      case CheckCleanup => case Detach => case Unhash => case CallRcu => case RunRelease => case Sent =>
      case ScheduleWritten => case Deactivate(_) => case Answered => case ScheduleReceived => case ReceiveFail(_) =>
      case _ =>
    }
  }

  /** The first error of a socket stays. */
  lemma {:induction false} FirstErrorStays(run: seq<State>, i: nat, j: nat)
    requires IsRun(run) && i <= j < |run| && run[i].sock.err != 0
    ensures run[j].sock.err == run[i].sock.err
    decreases j
  {
    hide SockAfter, PcAfter, Guard, ThreadInv, PairInv, CountInv, ServiceInv, ListInv, RequestInv;
    if i < j {
      FirstErrorStays(run, i, j - 1);
      RunHasInv(run, j - 1);
      var s := run[j - 1];
      assert Next(s, run[j]);
      var st :| Enabled(s, st) && run[j] == Apply(s, st);
      if st.Act? {
        assert ThreadInv(s.sock, ThreadOf(s, st.t));
        ErrStep(s.sock, ThreadOf(s, st.t), st.a);
      }
    }
  }

  /** A request is submitted only by a thread that found the socket without an error. */
  lemma {:induction false} SubmitsToHealthy(run: seq<State>, i: nat, t: Tid)
    requires IsRun(run) && i < |run| && ThreadOf(run[i], t).pc.SubmitOk?
    ensures exists j: nat :: j < i && ThreadOf(run[j], t).pc.HeldSubmit? && run[j].sock.err == 0
    decreases i
  {
    hide SockAfter, Guard, PcAfter;
    if i > 0 {
      var s, s' := run[i - 1], run[i];
      assert Next(s, s');
      var st :| Enabled(s, st) && s' == Apply(s, st);
      if st.Act? && st.t == t {
        SubmitPc(s.sock, ThreadOf(s, t), st.a);
      } else {
        assert ThreadOf(s', t) == ThreadOf(s, t);
        SubmitsToHealthy(run, i - 1, t);
      }
    }
  }

  lemma SubmitPc(k: Socket, th: Thread, a: Action)
    requires Guard(k, th, a) && PcAfter(k, th, a).SubmitOk?
    ensures th.pc.HeldSubmit? && k.err == 0
  {
    hide Minus, Head;
  }

  // ---------------------------------------------------------------- nothing is forgotten

  /** The thread will see to it that the write list is worked on. */
  predicate CarriesWrite(pc: Pc) {
    || pc.QueueOrPut? || pc.ErrorOut? || pc.Work? || pc.WorkActive? || pc.WriteHead?
    || (pc.Writing? && pc.req.Some?) || (pc.Written? && pc.next.Some?)
  }

  /** The thread will see to it that a failed socket is taken down. */
  predicate CarriesCleanup(pc: Pc) {
    pc.QueueOrPut? || pc.RcuTimedOut? || pc.Work? || pc.WorkActive?
  }

  predicate Dismantles(pc: Pc) {
    pc.CleanupDetach? || pc.CleanupUnhash? || pc.CleanupRcu?
  }

  predicate IsTeardown(pc: Pc) {
    pc.Teardown?
  }

  predicate ToWrite(k: Socket) {
    k.err == 0 && k.write != []
  }

  predicate ToClean(k: Socket) {
    k.err != 0 && !k.terminal
  }

  predicate ToDismantle(k: Socket) {
    k.terminal && (k.hash.Hashed? || k.hash.Unhashed?)
  }

  predicate ToFree(k: Socket) {
    k.refcount == 0 && !k.freed
  }

  predicate WriteDue(k: Socket, pc: Pc) {
    k.full || k.pending || CarriesWrite(pc)
  }

  predicate CleanupDue(k: Socket, pc: Pc) {
    k.pending || CarriesCleanup(pc)
  }

  /** What is to be done is being done by someone. */
  ghost predicate Carried(s: State) {
    && (ToWrite(s.sock) ==> exists t :: WriteDue(s.sock, ThreadOf(s, t).pc))
    && (ToClean(s.sock) ==> exists t :: CleanupDue(s.sock, ThreadOf(s, t).pc))
    && (ToDismantle(s.sock) ==> exists t :: Dismantles(ThreadOf(s, t).pc))
    && (ToFree(s.sock) ==> exists t :: IsTeardown(ThreadOf(s, t).pc))
    && (s.sock.active ==> exists t :: IsActive(ThreadOf(s, t).pc))
    && (s.sock.terminal ==> s.sock.err != 0)
  }

  lemma WriteCarry(k: Socket, th: Thread, a: Action)
    requires Guard(k, th, a) && ListInv(k) && RequestInv(k, th.pc) && ThreadInv(k, th) && ToWrite(SockAfter(k, th, a))
    ensures WriteDue(SockAfter(k, th, a), PcAfter(k, th, a)) || (ToWrite(k) && !WriteDue(k, th.pc))
  {
    ListEffect(k, th, a);
    hide Leftovers, Minus;
  }

  lemma CleanupCarry(k: Socket, th: Thread, a: Action)
    requires Guard(k, th, a) && ThreadInv(k, th) && ToClean(SockAfter(k, th, a))
    ensures CleanupDue(SockAfter(k, th, a), PcAfter(k, th, a)) || (ToClean(k) && !CleanupDue(k, th.pc))
  {
    hide Leftovers, Minus, Head;
  }

  lemma DismantleCarry(k: Socket, th: Thread, a: Action)
    requires Guard(k, th, a) && ThreadInv(k, th) && ServiceInv(k) && ToDismantle(SockAfter(k, th, a))
    ensures Dismantles(PcAfter(k, th, a)) || (ToDismantle(k) && !Dismantles(th.pc))
  {
    hide Leftovers, Minus, Head;
  }

  lemma FreeCarry(k: Socket, th: Thread, a: Action)
    requires Guard(k, th, a) && ThreadInv(k, th) && ToFree(SockAfter(k, th, a)) && k.refcount >= 0
    ensures IsTeardown(PcAfter(k, th, a)) || (ToFree(k) && !IsTeardown(th.pc))
  {
    CountEffect(k, th, a);
    hide Leftovers, Minus, Head;
  }

  lemma CountNotNegative(s: State)
    requires CountInv(s)
    ensures s.sock.refcount >= 0
  {
  }

  lemma ActiveCarry(k: Socket, th: Thread, a: Action)
    requires Guard(k, th, a) && ThreadInv(k, th)
    ensures SockAfter(k, th, a).active ==> IsActive(PcAfter(k, th, a)) || (k.active && !IsActive(th.pc))
  {
    hide Leftovers, Minus, Head;
    match a {
      case TryActivate => case Deactivate(_) => case CheckCleanup => case SetErr => case RcuTimeout(_) =>
      case Sent =>
      case _ =>
    }
  }

  lemma TerminalCarry(k: Socket, th: Thread, a: Action)
    requires Guard(k, th, a)
    ensures SockAfter(k, th, a).terminal && k.err == 0 ==> k.terminal
    ensures k.err != 0 ==> SockAfter(k, th, a).err != 0
  {
    hide Leftovers, Minus, Head;
    match a {
      case CheckCleanup => case SetErr => case RcuTimeout(_) =>
      case _ =>
    }
  }

  lemma CarriedKept(s: State, t: Tid, a: Action)
    requires Inv(s) && Carried(s) && Enabled(s, Act(t, a))
    ensures Carried(Apply(s, Act(t, a)))
  {
    hide SockAfter, PcAfter, Guard, ThreadInv, ListInv, RequestInv, CountInv, PairInv, ServiceInv;
    hide WriteDue, CleanupDue, Dismantles, IsTeardown, IsActive, ToWrite, ToClean, ToDismantle, ToFree;
    var k, th, s' := s.sock, ThreadOf(s, t), Apply(s, Act(t, a));
    assert ThreadInv(k, th) && RequestInv(k, th.pc);
    assert ThreadOf(s', t).pc == PcAfter(k, th, a);
    ActiveCarry(k, th, a);
    TerminalCarry(k, th, a);
    CountNotNegative(s);
    if ToWrite(s'.sock) {
      WriteCarry(k, th, a);
      StillDue(s, t, a);
    }
    if ToClean(s'.sock) {
      CleanupCarry(k, th, a);
      StillDue(s, t, a);
    }
    if ToDismantle(s'.sock) {
      DismantleCarry(k, th, a);
      StillDue(s, t, a);
    }
    if ToFree(s'.sock) {
      FreeCarry(k, th, a);
      StillDue(s, t, a);
    }
    if s'.sock.active {
      StillDue(s, t, a);
    }
  }

  /** A thread other than the actor goes on carrying what it carries. */
  lemma StillDue(s: State, t: Tid, a: Action)
    requires Enabled(s, Act(t, a))
    ensures var s', k, pc := Apply(s, Act(t, a)), s.sock, ThreadOf(s, t).pc;
      && (!WriteDue(k, pc) && (exists u :: WriteDue(k, ThreadOf(s, u).pc)) ==>
            exists u :: WriteDue(s'.sock, ThreadOf(s', u).pc))
      && (!CleanupDue(k, pc) && (exists u :: CleanupDue(k, ThreadOf(s, u).pc)) ==>
            exists u :: CleanupDue(s'.sock, ThreadOf(s', u).pc))
      && (!Dismantles(pc) && (exists u :: Dismantles(ThreadOf(s, u).pc)) ==> exists u :: Dismantles(ThreadOf(s', u).pc))
      && (!IsTeardown(pc) && (exists u :: IsTeardown(ThreadOf(s, u).pc)) ==> exists u :: IsTeardown(ThreadOf(s', u).pc))
      && (!IsActive(pc) && (exists u :: IsActive(ThreadOf(s, u).pc)) ==> exists u :: IsActive(ThreadOf(s', u).pc))
  {
    hide SockAfter, PcAfter, Guard, Dismantles, IsTeardown, IsActive, CarriesWrite, CarriesCleanup;
    var s', k, pc := Apply(s, Act(t, a)), s.sock, ThreadOf(s, t).pc;
    if !WriteDue(k, pc) {
      if u :| WriteDue(k, ThreadOf(s, u).pc) {
        assert ThreadOf(s', u) == ThreadOf(s, u) && WriteDue(s'.sock, ThreadOf(s', u).pc);
      }
    }
    if !CleanupDue(k, pc) {
      if u :| CleanupDue(k, ThreadOf(s, u).pc) {
        assert ThreadOf(s', u) == ThreadOf(s, u) && CleanupDue(s'.sock, ThreadOf(s', u).pc);
      }
    }
    if u :| !Dismantles(pc) && Dismantles(ThreadOf(s, u).pc) {
      assert ThreadOf(s', u) == ThreadOf(s, u);
    }
    if u :| !IsTeardown(pc) && IsTeardown(ThreadOf(s, u).pc) {
      assert ThreadOf(s', u) == ThreadOf(s, u);
    }
    if u :| !IsActive(pc) && IsActive(ThreadOf(s, u).pc) {
      assert ThreadOf(s', u) == ThreadOf(s, u);
    }
  }

  lemma GraceKeepsCarried(s: State)
    requires Carried(s) && Enabled(s, GraceEnd)
    ensures Carried(Apply(s, GraceEnd))
  {
    var s' := Apply(s, GraceEnd);
    forall t ensures ThreadOf(s', t) == ThreadOf(s, t) {
    }
    if ToWrite(s'.sock) {
      var t :| WriteDue(s.sock, ThreadOf(s, t).pc);
      assert WriteDue(s'.sock, ThreadOf(s', t).pc);
    }
    if ToClean(s'.sock) {
      var t :| CleanupDue(s.sock, ThreadOf(s, t).pc);
      assert CleanupDue(s'.sock, ThreadOf(s', t).pc);
    }
    if ToFree(s'.sock) {
      var t :| IsTeardown(ThreadOf(s, t).pc);
      assert IsTeardown(ThreadOf(s', t).pc);
    }
    if s'.sock.active {
      var t :| IsActive(ThreadOf(s, t).pc);
      assert IsActive(ThreadOf(s', t).pc);
    }
  }

  lemma {:induction false} RunIsCarried(run: seq<State>, i: nat)
    requires IsRun(run) && i < |run|
    ensures Carried(run[i])
    decreases i
  {
    hide Carried, Apply, Enabled, Inv;
    if i == 0 {
      InitIsCarried(run[0]);
    } else {
      RunIsCarried(run, i - 1);
      RunHasInv(run, i - 1);
      assert Next(run[i - 1], run[i]);
      var st :| Enabled(run[i - 1], st) && run[i] == Apply(run[i - 1], st);
      match st {
        case Act(t, a) => CarriedKept(run[i - 1], t, a);
        case GraceEnd => GraceKeepsCarried(run[i - 1]);
      }
    }
  }

  lemma InitIsCarried(s: State)
    requires Init(s)
    ensures Carried(s)
  {
  }

  /**
   No request is forgotten: while requests wait to be sent over a healthy socket, the write work is pending, some
   thread is at it or about to queue it, or the socket has no room and its callback is to come.
   */
  lemma WritesAreCarried(run: seq<State>, i: nat)
    requires IsRun(run) && i < |run| && run[i].sock.err == 0 && run[i].sock.write != []
    ensures run[i].sock.full || run[i].sock.pending || exists t :: CarriesWrite(ThreadOf(run[i], t).pc)
  {
    RunIsCarried(run, i);
    var t :| WriteDue(run[i].sock, ThreadOf(run[i], t).pc);
  }

  /** Nothing is going on: no thread, no queued work and no grace period. */
  ghost predicate Quiet(s: State) {
    (forall t :: ThreadOf(s, t) == IDLE) && !s.sock.pending && !s.sock.hash.GracePending? && !s.sock.hash.ReleaseQueued?
  }

  /** When nothing is going on, the socket is in service without an error and with nothing to send, or it is freed. */
  lemma QuietMeansDone(run: seq<State>, i: nat)
    requires IsRun(run) && i < |run| && Quiet(run[i])
    ensures var k := run[i].sock;
      k.freed || (k.err == 0 && k.hash.Hashed? && k.attached && !k.terminal && !k.active && (k.write == [] || k.full))
  {
    RunHasInv(run, i);
    RunIsCarried(run, i);
    var s := run[i];
    forall t | t in s.threads ensures !OwnsReference(s.threads[t].pc) {
      assert ThreadOf(s, t) == IDLE;
    }
    assert Owners(s.threads) == {};
  }

  /** A thread that is not idle can go on, unless it waits for callbacks to leave. */
  lemma ThreadCanStep(k: Socket, th: Thread) returns (a: Action)
    requires th != IDLE && ThreadInv(k, th)
    ensures Guard(k, th, a) && !a.StartReceive? && (th.callback ==> !a.Detach?)
  {
    a := LeaveCallback;
    match th.pc {
      case Ready => a := if th.rcu then RcuLeave else LeaveCallback;
      case Creating => a := Abandon;
      case RcuFound => a := RcuLeave;
      case RcuTimedOut => a := RcuHold(QueueOrPut);
      case HeldSubmit => a := CheckErr;
      case SubmitOk =>
        var r := Unused(k.started);
        a := Enqueue(r);
      case QueueOrPut => a := QueueWork;
      case ErrorOut(_) => a := SetErr;
      case Put => a := DropRef;
      case Teardown => a := Finish;
      case Work => a := TryActivate;
      case WorkActive => a := CheckCleanup;
      case CleanupDetach => a := Detach;
      case CleanupUnhash => a := Unhash;
      case CleanupRcu => a := CallRcu;
      case CleanupEnd => a := Deactivate(Put);
      case WriteHead => a := PickWrite;
      case Writing(_) => a := Deactivate(Put);
      case Written(_, _) => a := ScheduleWritten;
      case Reading(_) => a := StopReceive;
      case Received(_, _) => a := ScheduleReceived;
    }
  }

  /** As long as anything is going on, some step can be taken. */
  lemma NeverStuck(run: seq<State>, i: nat) returns (st: Step)
    requires IsRun(run) && i < |run| && !Quiet(run[i])
    ensures Enabled(run[i], st)
  {
    RunHasInv(run, i);
    var s := run[i];
    hide CountInv, ServiceInv, ListInv, RequestInv, PairInv, Accounted;
    if t :| ThreadOf(s, t).callback {
      assert ThreadInv(s.sock, ThreadOf(s, t));
      var a := ThreadCanStep(s.sock, ThreadOf(s, t));
      hide Guard, ThreadInv;
      st := Act(t, a);
    } else if t :| ThreadOf(s, t) != IDLE {
      assert ThreadInv(s.sock, ThreadOf(s, t));
      var a := ThreadCanStep(s.sock, ThreadOf(s, t));
      forall u | u in s.threads ensures !s.threads[u].callback {
        assert !ThreadOf(s, u).callback;
      }
      hide Guard, ThreadInv;
      st := Act(t, a);
    } else {
      forall u | u in s.threads ensures s.threads[u] == IDLE {
        assert ThreadOf(s, u) == IDLE;
      }
      st := if s.sock.pending then Act(0, StartWork)
            else if s.sock.hash.ReleaseQueued? then Act(0, RunRelease)
            else GraceEnd;
    }
  }

  // ---------------------------------------------------------------- the loops of the final put

  lemma {:induction false} MinusMinus(q: seq<Req>, p: seq<Req>, r: Req)
    ensures Minus(Minus(q, p), [r]) == Minus(q, p + [r])
  {
    if q != [] {
      MinusMinus(q[1..], p, r);
      if q[0] !in p {
        assert ([q[0]] + Minus(q[1..], p))[1..] == Minus(q[1..], p);
      }
    }
  }

  lemma {:induction false} MinusNothing(q: seq<Req>)
    ensures Minus(q, []) == q
  {
    if q != [] {
      MinusNothing(q[1..]);
    }
  }

  lemma {:induction false} ReversedSnoc(q: seq<Req>, r: Req)
    ensures Reversed(q + [r]) == [r] + Reversed(q)
  {
    if q == [] {
      assert Reversed([r]) == Reversed([]) + [r];
    } else {
      assert (q + [r])[1..] == q[1..] + [r];
      ReversedSnoc(q[1..], r);
    }
  }

  lemma ReversedNothing()
    ensures Reversed([]) == []
  {
  }

  /** Empties both lists onto one, pushing to its front, and schedules that list from the front. */
  method CompleteRest(read: seq<Req>, write: seq<Req>) returns (scheduled: seq<Req>)
    ensures scheduled == Leftovers(read, write)
  {
    hide Minus, Reversed;
    var all: seq<Req> := [];
    var left := write;
    MinusNothing(write);
    ReversedNothing();
    var i := 0;
    while i < |read|
      invariant 0 <= i <= |read|
      invariant all == Reversed(read[..i])
      invariant left == Minus(write, read[..i])
    {
      var req := read[i];
      MinusMinus(write, read[..i], req);
      ReversedSnoc(read[..i], req);
      assert read[..i + 1] == read[..i] + [req];
      left := Minus(left, [req]);
      all := [req] + all;
      i := i + 1;
    }
    assert read[..i] == read;
    assert left[..0] == [] && [] + Reversed(read) == Reversed(read);
    var j := 0;
    while j < |left|
      invariant 0 <= j <= |left|
      invariant all == Reversed(left[..j]) + Reversed(read)
    {
      ReversedSnoc(left[..j], left[j]);
      assert left[..j + 1] == left[..j] + [left[j]];
      assert [left[j]] + (Reversed(left[..j]) + Reversed(read)) == Reversed(left[..j + 1]) + Reversed(read);
      all := [left[j]] + all;
      j := j + 1;
    }
    assert left[..j] == left;
    assert all == Leftovers(read, write);
    scheduled := [];
    var k := 0;
    while k < |all|
      invariant 0 <= k <= |all|
      invariant scheduled == all[..k]
    {
      scheduled := scheduled + [all[k]];
      k := k + 1;
    }
  }
}
