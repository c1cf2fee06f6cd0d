/**
 Metadata requests over UDP: requesters insert, send, wait, retransmit and give up, while the socket
 callback hands replies to whoever is in the request tree.  Asynchronous getattr requests share the tree: they
 are sent once, and their work item takes the request out and collects the reply.  Every step is one lock-held
 region, one system call or one completion; there may be any number of calls at once.
 */
module Metadata {
  import opened Common

  const CPUS: nat := 1024
  const WINDOW: nat := 0x40_0000_0000_0000      // 2^54 ids per CPU

  // ---------------------------------------------------------------- request ids

  /** The `k`-th id that a CPU allocates: its counter starts at base + cpu and moves by 1024. */
  function RequestId(base: nat, cpu: nat, k: nat): nat {
    (base + cpu + CPUS * k) % U64
  }

  /** Two ids are the same exactly when one CPU allocated them a multiple of 2^54 allocations apart. */
  lemma RequestIdsCollide(base: nat, cpu: nat, k: nat, cpu': nat, k': nat)
    requires cpu < CPUS && cpu' < CPUS && k <= k'
    ensures RequestId(base, cpu, k) == RequestId(base, cpu', k') <==> cpu == cpu' && (k' - k) % WINDOW == 0
  {
    var x, y := base + cpu + CPUS * k, base + cpu' + CPUS * k';
    var d := y - x;
    assert U64 == CPUS * WINDOW;
    if x % U64 == y % U64 {
      var m := y / U64 - x / U64;
      assert d == m * U64;
      assert d == (cpu' - cpu) + CPUS * (k' - k);
      assert cpu' - cpu == CPUS * (m * WINDOW - (k' - k));
      SmallMultiple(cpu' - cpu, m * WINDOW - (k' - k));
      MultipleMod(m, k' - k);
    }
    if cpu == cpu' && (k' - k) % WINDOW == 0 {
      var m := (k' - k) / WINDOW;
      assert k' - k == m * WINDOW;
      assert y == x + m * U64;
      AddMultiple(x, m);
    }
  }

  /** The CPU can be read off the id, and one allocation moves it by 1024. */
  lemma IdsAreStriped(base: nat, cpu: nat, k: nat)
    ensures RequestId(base, cpu, k) % CPUS == (base + cpu) % CPUS
    ensures RequestId(base, cpu, k + 1) == (RequestId(base, cpu, k) + CPUS) % U64
  {
    var x, r := base + cpu + CPUS * k, (base + cpu) % CPUS;
    assert x == x / U64 * U64 + x % U64;
    assert base + cpu == (base + cpu) / CPUS * CPUS + r;
    QuotientIs(x % U64, (base + cpu) / CPUS + k - x / U64 * WINDOW, r, CPUS);
  }

  lemma SmallMultiple(a: int, q: int)
    requires -1024 < a < 1024 && a == CPUS * q
    ensures a == 0 && q == 0
  {
  }

  lemma MultipleMod(m: int, n: nat)
    requires m * WINDOW == n
    ensures n % WINDOW == 0
  {
  }

  lemma AddMultiple(x: nat, m: int)
    requires x + m * U64 >= 0
    ensures (x + m * U64) % U64 == x % U64
  {
  }

  // ---------------------------------------------------------------- the state machine

  type CallId = nat
  type Buffer = nat

  datatype Pc =
    | Allocated          // has a request id
    | Ready              // in the tree, about to send
    | Waiting            // for the completion or a timeout
    | Removing           // gave up, about to take the request out of the tree
    | Checking           // the request is out of the tree
    | Draining           // a reply came in between; waits for its completion
    | Returned(skb: Buffer)
    | Failed

  /**
   One call of ternfs_metadata_request with its request and completion on the stack, or one asynchronous getattr
   with its request in the inode.
   */
  datatype Call = Call(
    cpu: nat, k: nat,
    async: bool,         // TERNFS_METADATA_REQUEST_ASYNC_GETATTR
    sent: bool,          // some send has succeeded
    pc: Pc,
    skb: Option<Buffer>,
    comp: bool,
    completer: bool)     // a callback has attached the reply and has yet to signal the completion

  datatype Owner = Attached(c: CallId) | Handed(c: CallId) | Freed

  datatype State = State(
    base: nat,
    counters: map<nat, nat>,            // ids allocated per CPU
    tree: map<nat, CallId>,             // by request id
    calls: map<CallId, Call>,
    buffers: map<Buffer, Owner>)        // every buffer ever received

  datatype Step =
    | Alloc(c: CallId, cpu: nat, async: bool)
    | Insert(c: CallId)
    | Send(c: CallId, ok: bool)
    | Wake(c: CallId)                   // the completion was signalled
    | Timeout(c: CallId)
    | Expire(c: CallId)                 // the work of an asynchronous request runs
    | Remove(c: CallId)
    | Check(c: CallId)
    | Drain(c: CallId)
    | Receive(id: nat, b: Buffer)       // the callback's lock-held lookup
    | Drop(b: Buffer)                   // a runt, an overlong datagram or a bad checksum
    | Complete(c: CallId)

  predicate Live(call: Call) {
    !call.pc.Returned? && !call.pc.Failed?
  }

  function IdOf(s: State, call: Call): nat {
    RequestId(s.base, call.cpu, call.k)
  }

  function Count(s: State, cpu: nat): nat {
    if cpu in s.counters then s.counters[cpu] else 0
  }

  predicate Is(s: State, c: CallId, pc: Pc) {
    c in s.calls && s.calls[c].pc == pc
  }

  /** No call lives as long as it takes its CPU to allocate 2^54 ids. */
  ghost predicate InWindow(s: State, cpu: nat) {
    forall c | c in s.calls && Live(s.calls[c]) && s.calls[c].cpu == cpu :: Count(s, cpu) + 1 - s.calls[c].k < WINDOW
  }

  /**
   The assertions of the code (a duplicate id, a second reply, a completion without a reply, a reply to an
   asynchronous request that could not be sent), and a callback that uses a request after its call has returned.
   */
  predicate Fails(s: State, st: Step) {
    match st
    case Insert(c) => Is(s, c, Allocated) && IdOf(s, s.calls[c]) in s.tree
    case Receive(id, b) =>
      id in s.tree && s.tree[id] in s.calls && (s.calls[s.tree[id]].skb.Some? || !Live(s.calls[s.tree[id]]))
    case Complete(c) => c in s.calls && s.calls[c].completer && !Live(s.calls[c])
    case Wake(c) => Is(s, c, Waiting) && s.calls[c].comp && s.calls[c].skb.None?
    case Check(c) => Is(s, c, Checking) && s.calls[c].async && !s.calls[c].sent && s.calls[c].skb.Some?
    case _ => false
  }

  /** A reply to an asynchronous request, which is sent only once, comes after that send. */
  predicate Answerable(s: State, id: nat) {
    id in s.tree && s.tree[id] in s.calls && s.calls[s.tree[id]].async ==> s.calls[s.tree[id]].sent
  }

  ghost predicate Enabled(s: State, st: Step) {
    match st
    case Alloc(c, cpu, async) => c !in s.calls && cpu < CPUS && InWindow(s, cpu)
    case Insert(c) => Is(s, c, Allocated)
    case Send(c, ok) => Is(s, c, Ready)
    case Wake(c) => Is(s, c, Waiting) && s.calls[c].comp
    case Timeout(c) => Is(s, c, Waiting) && !s.calls[c].comp && !s.calls[c].async
    case Expire(c) => Is(s, c, Waiting) && s.calls[c].async
    case Remove(c) => Is(s, c, Removing)
    case Check(c) => Is(s, c, Checking)
    case Drain(c) => Is(s, c, Draining) && s.calls[c].comp
    case Receive(id, b) => b !in s.buffers && Answerable(s, id)
    case Drop(b) => b !in s.buffers
    case Complete(c) => c in s.calls && s.calls[c].completer
  }

  function SetPc(s: State, c: CallId, pc: Pc): State
    requires c in s.calls
  {
    s.(calls := s.calls[c := s.calls[c].(pc := pc)])
  }

  /** The call takes the reply it has. */
  function Hand(s: State, c: CallId): State
    requires c in s.calls && s.calls[c].skb.Some?
  {
    var b := s.calls[c].skb.value;
    s.(calls := s.calls[c := s.calls[c].(pc := Returned(b), skb := None)], buffers := s.buffers[b := Handed(c)])
  }

  function Apply(s: State, st: Step): State
    requires Enabled(s, st) && !Fails(s, st)
  {
    match st
    case Alloc(c, cpu, async) =>
      var k := Count(s, cpu) + 1;
      s.(counters := s.counters[cpu := k],
         calls := s.calls[c := Call(cpu, k, async, false, Allocated, None, false, false)])
    case Insert(c) => SetPc(s, c, Ready).(tree := s.tree[IdOf(s, s.calls[c]) := c])
    case Send(c, ok) =>
      s.(calls := s.calls[c := s.calls[c].(pc := if ok then Waiting else Removing, sent := s.calls[c].sent || ok)])
    case Wake(c) => Hand(s, c)
    case Timeout(c) => SetPc(s, c, Ready)
    case Expire(c) => SetPc(s, c, Removing)
    case Remove(c) => SetPc(s, c, Checking).(tree := s.tree - {IdOf(s, s.calls[c])})
    case Check(c) =>
      if s.calls[c].skb.None? then SetPc(s, c, Failed)
      else if s.calls[c].async then Hand(s, c)
      else SetPc(s, c, Draining)
    case Drain(c) =>
      if s.calls[c].skb.None? then SetPc(s, c, Failed)
      else
        var b := s.calls[c].skb.value;
        s.(calls := s.calls[c := s.calls[c].(pc := Failed, skb := None)], buffers := s.buffers[b := Freed])
    case Receive(id, b) =>
      if id in s.tree && s.tree[id] in s.calls then
        var c := s.tree[id];
        s.(tree := s.tree - {id}, calls := s.calls[c := s.calls[c].(skb := Some(b), completer := !s.calls[c].async)],
           buffers := s.buffers[b := Attached(c)])
      else s.(buffers := s.buffers[b := Freed])
    case Drop(b) => s.(buffers := s.buffers[b := Freed])
    case Complete(c) => s.(calls := s.calls[c := s.calls[c].(comp := true, completer := false)])
  }

  predicate Init(s: State) {
    s.counters == map[] && s.tree == map[] && s.calls == map[] && s.buffers == map[]
  }

  // ---------------------------------------------------------------- the invariant

  predicate InTree(s: State, c: CallId)
    requires c in s.calls
  {
    IdOf(s, s.calls[c]) in s.tree && s.tree[IdOf(s, s.calls[c])] == c
  }

  /** What a call may look like in each state. */
  predicate CallInv(s: State, c: CallId)
    requires c in s.calls
  {
    var call := s.calls[c];
    && call.cpu < CPUS && 1 <= call.k <= Count(s, call.cpu)
    && (call.skb.Some? ==> call.comp || call.completer || call.async) && !(call.comp && call.completer)
    && (call.async ==> !call.comp && !call.completer && (call.skb.Some? ==> call.sent))
    && (call.pc.Waiting? ==> call.sent)
    && (call.skb.None? && Live(call) ==> !call.comp) && (call.completer ==> call.skb.Some?)
    && (call.skb.Some? ==> call.skb.value in s.buffers && s.buffers[call.skb.value] == Attached(c))
    && match call.pc
       case Allocated => !InTree(s, c) && call.skb.None? && !call.sent
       case Ready => InTree(s, c) <==> call.skb.None?
       case Waiting => InTree(s, c) <==> call.skb.None?
       case Removing => InTree(s, c) <==> call.skb.None?
       case Checking => !InTree(s, c)
       case Draining => !InTree(s, c) && call.skb.Some? && !call.async
       case Returned(b) => !InTree(s, c) && call.skb.None? && b in s.buffers && s.buffers[b] == Handed(c)
       case Failed => !InTree(s, c) && call.skb.None?
  }

  /** Live calls of one CPU have different allocation numbers, less than the window behind. */
  predicate IdInv(s: State, c: CallId, d: CallId)
    requires c in s.calls && d in s.calls
  {
    s.calls[c].cpu == s.calls[d].cpu ==> s.calls[c].k != s.calls[d].k
  }

  predicate TreeInv(s: State, id: nat)
    requires id in s.tree
  {
    s.tree[id] in s.calls && IdOf(s, s.calls[s.tree[id]]) == id && Live(s.calls[s.tree[id]])
  }

  predicate BufferInv(s: State, b: Buffer)
    requires b in s.buffers
  {
    match s.buffers[b]
    case Attached(c) => c in s.calls && s.calls[c].skb == Some(b)
    case Handed(c) => c in s.calls && s.calls[c].pc == Returned(b)
    case Freed => true
  }

  ghost predicate Inv(s: State) {
    && (forall c | c in s.calls :: CallInv(s, c))
    && (forall c, d | c in s.calls && d in s.calls && c != d :: IdInv(s, c, d))
    && (forall id | id in s.tree :: TreeInv(s, id))
    && (forall b | b in s.buffers :: BufferInv(s, b))
    && (forall c | c in s.calls && Live(s.calls[c]) :: Count(s, s.calls[c].cpu) - s.calls[c].k < WINDOW)
  }

  /** Two live calls never have the same request id. */
  lemma LiveIdsDiffer(s: State, c: CallId, d: CallId)
    requires Inv(s) && c in s.calls && d in s.calls && c != d && Live(s.calls[c]) && Live(s.calls[d])
    ensures IdOf(s, s.calls[c]) != IdOf(s, s.calls[d])
  {
    var x, y := s.calls[c], s.calls[d];
    assert CallInv(s, c) && CallInv(s, d) && IdInv(s, c, d);
    if x.k <= y.k {
      RequestIdsCollide(s.base, x.cpu, x.k, y.cpu, y.k);
    } else {
      RequestIdsCollide(s.base, y.cpu, y.k, x.cpu, x.k);
    }
  }

  /** No assertion of the code fails. */
  lemma InvNeverFails(s: State, st: Step)
    requires Inv(s) && Enabled(s, st)
    ensures !Fails(s, st)
  {
    match st {
      case Insert(c) =>
        assert CallInv(s, c);
        var id := IdOf(s, s.calls[c]);
        if id in s.tree {
          assert TreeInv(s, id);
          var d := s.tree[id];
          if d != c {
            LiveIdsDiffer(s, c, d);
          }
        }
      case Receive(id, b) =>
        if id in s.tree {
          assert TreeInv(s, id) && CallInv(s, s.tree[id]);
        }
      case Wake(c) => assert CallInv(s, c);
      case Complete(c) => assert CallInv(s, c);
      case Check(c) => assert CallInv(s, c);
      case _ =>
    }
  }

  predicate OfCall(st: Step) {
    st.Insert? || st.Send? || st.Wake? || st.Timeout? || st.Expire? || st.Remove? || st.Check? || st.Drain?
    || st.Complete?
  }

  /** The step of call `c` leaves every other call alone. */
  lemma OtherKept(s: State, st: Step, c: CallId, d: CallId)
    requires OfCall(st) && c == st.c && Enabled(s, st) && !Fails(s, st)
    requires c in s.calls && d in s.calls && d != c && CallInv(s, c) && CallInv(s, d)
    requires Live(s.calls[c]) && Live(s.calls[d]) ==> IdOf(s, s.calls[c]) != IdOf(s, s.calls[d])
    ensures CallInv(Apply(s, st), d)
  {
    hide RequestId;
    match st {
      case Insert(_) => case Wake(_) => case Remove(_) => case Drain(_) => case Check(_) =>
      case _ =>
    }
  }

  lemma ActorKept(s: State, st: Step, c: CallId)
    requires OfCall(st) && c == st.c && Enabled(s, st) && !Fails(s, st)
    requires c in s.calls && CallInv(s, c)
    ensures CallInv(Apply(s, st), c)
  {
    hide RequestId;
  }

  lemma TreeKept(s: State, st: Step, id: nat)
    requires Enabled(s, st) && !Fails(s, st) && id in Apply(s, st).tree
    requires id in s.tree ==> TreeInv(s, id) && CallInv(s, s.tree[id])
    ensures TreeInv(Apply(s, st), id)
  {
    hide RequestId;
    match st {
      case Wake(c) => case Check(c) => case Drain(c) => case Receive(i, b) => case Insert(c) => case Remove(c) =>
      case _ =>
    }
  }

  lemma BuffersKept(s: State, st: Step)
    requires Inv(s) && Enabled(s, st) && !Fails(s, st)
    ensures forall b | b in Apply(s, st).buffers :: BufferInv(Apply(s, st), b)
  {
    var s' := Apply(s, st);
    forall b | b in s'.buffers ensures BufferInv(s', b) {
      if b in s.buffers {
        assert BufferInv(s, b);
      }
      if OfCall(st) {
        assert CallInv(s, st.c);
      }
    }
  }

  lemma ReceiveKept(s: State, id: nat, b: Buffer)
    requires Inv(s) && Enabled(s, Receive(id, b)) && !Fails(s, Receive(id, b))
    ensures forall d | d in Apply(s, Receive(id, b)).calls :: CallInv(Apply(s, Receive(id, b)), d)
  {
    var s' := Apply(s, Receive(id, b));
    forall d | d in s'.calls ensures CallInv(s', d) {
      assert CallInv(s, d);
      if id in s.tree {
        assert TreeInv(s, id);
        var c := s.tree[id];
        if d != c && Live(s.calls[d]) {
          LiveIdsDiffer(s, c, d);
        }
      }
    }
  }

  lemma AllocKept(s: State, c: CallId, cpu: nat, async: bool)
    requires Inv(s) && Enabled(s, Alloc(c, cpu, async))
    ensures forall d | d in Apply(s, Alloc(c, cpu, async)).calls :: CallInv(Apply(s, Alloc(c, cpu, async)), d)
    ensures forall d, e | d in Apply(s, Alloc(c, cpu, async)).calls && e in Apply(s, Alloc(c, cpu, async)).calls
      && d != e ::
      IdInv(Apply(s, Alloc(c, cpu, async)), d, e)
  {
    var s' := Apply(s, Alloc(c, cpu, async));
    forall d | d in s'.calls ensures CallInv(s', d) {
      if d in s.calls {
        assert CallInv(s, d);
      } else if IdOf(s', s'.calls[d]) in s.tree {
        assert TreeInv(s, IdOf(s', s'.calls[d]));
      }
    }
    forall d, e | d in s'.calls && e in s'.calls && d != e ensures IdInv(s', d, e) {
      if d in s.calls {
        assert CallInv(s, d);
      }
      if e in s.calls {
        assert CallInv(s, e);
      }
      assert d in s.calls && e in s.calls ==> IdInv(s, d, e);
    }
  }

  lemma DropKept(s: State, b: Buffer)
    requires Inv(s) && Enabled(s, Drop(b))
    ensures forall d | d in s.calls :: CallInv(Apply(s, Drop(b)), d)
  {
    forall d | d in s.calls ensures CallInv(Apply(s, Drop(b)), d) {
      assert CallInv(s, d);
    }
  }

  lemma CallKept(s: State, st: Step, c: CallId)
    requires Inv(s) && OfCall(st) && c == st.c && Enabled(s, st) && !Fails(s, st)
    ensures forall d | d in Apply(s, st).calls :: CallInv(Apply(s, st), d)
  {
    hide CallInv, TreeInv, BufferInv, IdInv;
    ActorKept(s, st, c);
    forall d | d in Apply(s, st).calls ensures CallInv(Apply(s, st), d) {
      if d != c {
        if Live(s.calls[c]) && Live(s.calls[d]) {
          LiveIdsDiffer(s, c, d);
        }
        OtherKept(s, st, c, d);
      }
    }
  }

  lemma StepKeepsCalls(s: State, st: Step)
    requires Inv(s) && Enabled(s, st) && !Fails(s, st)
    ensures forall d | d in Apply(s, st).calls :: CallInv(Apply(s, st), d)
  {
    hide CallInv, Inv;
    match st {
      case Alloc(c, cpu, async) => AllocKept(s, c, cpu, async);
      case Receive(id, b) => ReceiveKept(s, id, b);
      case Drop(b) => DropKept(s, b);
      case _ =>
        CallKept(s, st, st.c);
    }
  }

  lemma AllocWindow(s: State, c: CallId, cpu: nat, async: bool)
    requires Inv(s) && Enabled(s, Alloc(c, cpu, async))
    ensures var s' := Apply(s, Alloc(c, cpu, async));
      forall d | d in s'.calls && Live(s'.calls[d]) :: Count(s', s'.calls[d].cpu) - s'.calls[d].k < WINDOW
  {
    hide CallInv, TreeInv, BufferInv, IdInv, RequestId;
  }

  /** Allocation numbers never change, and the window is what Alloc checks. */
  lemma IdsKept(s: State, st: Step)
    requires Inv(s) && Enabled(s, st) && !Fails(s, st)
    ensures forall c, d | c in Apply(s, st).calls && d in Apply(s, st).calls && c != d :: IdInv(Apply(s, st), c, d)
    ensures forall c | c in Apply(s, st).calls && Live(Apply(s, st).calls[c]) ::
      Count(Apply(s, st), Apply(s, st).calls[c].cpu) - Apply(s, st).calls[c].k < WINDOW
  {
    hide CallInv, TreeInv, BufferInv, RequestId, InWindow;
    var s' := Apply(s, st);
    if st.Alloc? {
      AllocWindow(s, st.c, st.cpu, st.async);
      AllocKept(s, st.c, st.cpu, st.async);
    } else {
      forall c, d | c in s'.calls && d in s'.calls && c != d ensures IdInv(s', c, d) {
        assert IdInv(s, c, d);
      }
    }
  }

  lemma StepKeepsInv(s: State, st: Step)
    requires Inv(s) && Enabled(s, st)
    ensures !Fails(s, st) && Inv(Apply(s, st))
  {
    InvNeverFails(s, st);
    StepKeepsCalls(s, st);
    IdsKept(s, st);
    forall id | id in Apply(s, st).tree ensures TreeInv(Apply(s, st), id) {
      if id in s.tree {
        assert TreeInv(s, id) && CallInv(s, s.tree[id]);
      }
      TreeKept(s, st, id);
    }
    BuffersKept(s, st);
    hide Apply, CallInv, IdInv, TreeInv, BufferInv, Enabled, Fails;
  }

  // ---------------------------------------------------------------- every run

  ghost predicate Next(s: State, s': State) {
    exists st :: Enabled(s, st) && !Fails(s, st) && s' == Apply(s, st)
  }

  ghost predicate IsRun(run: seq<State>) {
    && run != [] && Init(run[0])
    && forall i | 0 <= i < |run| - 1 :: Next(run[i], run[i + 1])
  }

  lemma {:induction false} RunHasInv(run: seq<State>, i: nat)
    requires IsRun(run) && i < |run|
    ensures Inv(run[i])
    decreases i
  {
    hide Inv, Apply, Enabled, Fails;
    if i == 0 {
      InitHasInv(run[0]);
    } else {
      RunHasInv(run, i - 1);
      assert Next(run[i - 1], run[i]);
      var st :| Enabled(run[i - 1], st) && !Fails(run[i - 1], st) && run[i] == Apply(run[i - 1], st);
      StepKeepsInv(run[i - 1], st);
    }
  }

  lemma InitHasInv(s: State)
    requires Init(s)
    ensures Inv(s)
  {
  }

  /** In no run does an assertion of the code fail or a callback use a request that is gone. */
  lemma NothingFails(run: seq<State>, i: nat, st: Step)
    requires IsRun(run) && i < |run| && Enabled(run[i], st)
    ensures !Fails(run[i], st)
  {
    RunHasInv(run, i);
    InvNeverFails(run[i], st);
  }

  /**
   When a call has returned its request is out of the tree, nothing is attached to it, and a returned buffer is its
   own.
   */
  lemma ReturnsClean(run: seq<State>, i: nat, c: CallId)
    requires IsRun(run) && i < |run| && c in run[i].calls && !Live(run[i].calls[c])
    ensures var s, call := run[i], run[i].calls[c];
      && (forall id | id in s.tree :: s.tree[id] != c)
      && call.skb.None? && !call.completer
      && (forall b | b in s.buffers :: s.buffers[b] != Attached(c))
      && (call.pc.Returned? ==> call.pc.skb in s.buffers && s.buffers[call.pc.skb] == Handed(c))
  {
    RunHasInv(run, i);
    var s := run[i];
    assert CallInv(s, c);
    forall id | id in s.tree ensures s.tree[id] != c {
      assert TreeInv(s, id);
    }
    forall b | b in s.buffers ensures s.buffers[b] != Attached(c) {
      assert BufferInv(s, b);
    }
  }

  /** Every received buffer has one owner: the live call it is attached to, the call it was returned by, or none. */
  lemma BuffersOwned(run: seq<State>, i: nat, b: Buffer)
    requires IsRun(run) && i < |run| && b in run[i].buffers
    ensures match run[i].buffers[b]
      case Attached(c) => c in run[i].calls && Live(run[i].calls[c]) && run[i].calls[c].skb == Some(b)
      case Handed(c) => c in run[i].calls && run[i].calls[c].pc == Returned(b)
      case Freed => true
    ensures forall c | c in run[i].calls && run[i].calls[c].skb == Some(b) :: run[i].buffers[b] == Attached(c)
  {
    RunHasInv(run, i);
    var s := run[i];
    assert BufferInv(s, b);
    if s.buffers[b].Attached? {
      assert CallInv(s, s.buffers[b].c);
    }
    forall c | c in s.calls && s.calls[c].skb == Some(b) ensures s.buffers[b] == Attached(c) {
      assert CallInv(s, c);
    }
  }

  lemma BufferStep(s: State, st: Step, b: Buffer)
    requires Inv(s) && Enabled(s, st) && !Fails(s, st) && b in s.buffers
    ensures b in Apply(s, st).buffers
    ensures !s.buffers[b].Attached? ==> Apply(s, st).buffers[b] == s.buffers[b]
  {
    if st.Wake? || st.Drain? || st.Check? {
      assert CallInv(s, st.c);
    }
  }

  /** A buffer that was returned or freed stays so: it is never handed over or freed a second time. */
  lemma {:induction false} BufferSettles(run: seq<State>, i: nat, j: nat, b: Buffer)
    requires IsRun(run) && i <= j < |run| && b in run[i].buffers && !run[i].buffers[b].Attached?
    ensures b in run[j].buffers && run[j].buffers[b] == run[i].buffers[b]
    decreases j
  {
    hide Apply, Enabled, Fails, Inv;
    if i < j {
      BufferSettles(run, i, j - 1, b);
      RunHasInv(run, j - 1);
      assert Next(run[j - 1], run[j]);
      var st :| Enabled(run[j - 1], st) && !Fails(run[j - 1], st) && run[j] == Apply(run[j - 1], st);
      BufferStep(run[j - 1], st, b);
    }
  }

  // ---------------------------------------------------------------- replies arrive

  /** The step can be taken, does not fail, and leads to `s'`. */
  ghost predicate Leads(s: State, st: Step, s': State) {
    Enabled(s, st) && !Fails(s, st) && s' == Apply(s, st)
  }

  /** A call that has its id inserts its request, sends it and waits. */
  lemma SendsAndWaits(run: seq<State>, i: nat, c: CallId) returns (s1: State, s2: State)
    requires IsRun(run) && i < |run| && Is(run[i], c, Allocated)
    ensures Leads(run[i], Insert(c), s1) && Leads(s1, Send(c, true), s2)
    ensures Is(s2, c, Waiting) && InTree(s2, c) && s2.calls[c].sent && s2.calls[c].skb.None?
  {
    hide RequestId;
    RunHasInv(run, i);
    assert CallInv(run[i], c);
    NothingFails(run, i, Insert(c));
    s1 := Apply(run[i], Insert(c));
    s2 := Apply(s1, Send(c, true));
  }

  /** A call that cannot send takes its request out again and fails; no one else's request is affected. */
  lemma GivesUp(run: seq<State>, i: nat, c: CallId) returns (s1: State, s2: State, s3: State, s4: State)
    requires IsRun(run) && i < |run| && Is(run[i], c, Allocated)
    ensures Leads(run[i], Insert(c), s1) && Leads(s1, Send(c, false), s2)
    ensures Leads(s2, Remove(c), s3) && Leads(s3, Check(c), s4)
    ensures Is(s4, c, Failed) && s4.tree == run[i].tree && s4.buffers == run[i].buffers
  {
    hide RequestId;
    RunHasInv(run, i);
    assert CallInv(run[i], c);
    NothingFails(run, i, Insert(c));
    s1 := Apply(run[i], Insert(c));
    s2 := Apply(s1, Send(c, false));
    hide Enabled, Fails, Apply, CallInv;
    s3, s4 := TakesOut(s2, c);
  }

  lemma TakesOut(s: State, c: CallId) returns (s1: State, s2: State)
    requires Is(s, c, Removing) && s.calls[c].skb.None?
    ensures Leads(s, Remove(c), s1) && Leads(s1, Check(c), s2)
    ensures Is(s2, c, Failed) && s2.tree == s.tree - {IdOf(s, s.calls[c])} && s2.buffers == s.buffers
  {
    hide RequestId;
    s1 := Apply(s, Remove(c));
    s2 := Apply(s1, Check(c));
  }

  /** A reply to a call that waits is returned by that call, whatever else is going on. */
  lemma ReplyIsReturned(run: seq<State>, i: nat, c: CallId, b: Buffer) returns (s1: State, s2: State, s3: State)
    requires IsRun(run) && i < |run| && Is(run[i], c, Waiting) && !run[i].calls[c].async
    requires InTree(run[i], c) && b !in run[i].buffers
    ensures Leads(run[i], Receive(IdOf(run[i], run[i].calls[c]), b), s1)
    ensures Leads(s1, Complete(c), s2) && Leads(s2, Wake(c), s3)
    ensures Is(s3, c, Returned(b)) && b in s3.buffers && s3.buffers[b] == Handed(c) && !InTree(s3, c)
  {
    hide RequestId;
    var s := run[i];
    RunHasInv(run, i);
    assert CallInv(s, c);
    s1 := Apply(s, Receive(IdOf(s, s.calls[c]), b));
    s2 := Apply(s1, Complete(c));
    s3 := Apply(s2, Wake(c));
  }

  /** A reply to an asynchronous request is collected by its work. */
  lemma ReplyIsCollected(run: seq<State>, i: nat, c: CallId, b: Buffer)
    returns (s1: State, s2: State, s3: State, s4: State)
    requires IsRun(run) && i < |run| && Is(run[i], c, Waiting) && run[i].calls[c].async && run[i].calls[c].sent
    requires InTree(run[i], c) && b !in run[i].buffers
    ensures Leads(run[i], Receive(IdOf(run[i], run[i].calls[c]), b), s1) && Leads(s1, Expire(c), s2)
    ensures Leads(s2, Remove(c), s3) && Leads(s3, Check(c), s4)
    ensures Is(s4, c, Returned(b)) && b in s4.buffers && s4.buffers[b] == Handed(c) && !InTree(s4, c)
  {
    hide RequestId;
    var s := run[i];
    RunHasInv(run, i);
    assert CallInv(s, c);
    s1 := Apply(s, Receive(IdOf(s, s.calls[c]), b));
    s2 := Apply(s1, Expire(c));
    s3 := Apply(s2, Remove(c));
    s4 := Apply(s3, Check(c));
  }

  /** A request that is sent waits in the tree until its reply comes or it is taken out. */
  lemma WaitsInTree(run: seq<State>, i: nat, c: CallId)
    requires IsRun(run) && i < |run| && c in run[i].calls
    requires var pc := run[i].calls[c].pc; pc.Ready? || pc.Waiting? || pc.Removing?
    ensures InTree(run[i], c) <==> run[i].calls[c].skb.None?
    ensures run[i].calls[c].pc.Waiting? ==> run[i].calls[c].sent
  {
    RunHasInv(run, i);
    assert CallInv(run[i], c);
  }

  /**
   A buffer is freed exactly when its id is in no entry of the tree, when the datagram is dropped, or when the call
   it is attached to has given up.
   */
  lemma FreedExactlyWhen(run: seq<State>, i: nat, st: Step, b: Buffer)
    requires IsRun(run) && i < |run| && Enabled(run[i], st) && !Fails(run[i], st)
    requires b in run[i].buffers ==> run[i].buffers[b] != Freed
    ensures b in Apply(run[i], st).buffers && Apply(run[i], st).buffers[b] == Freed <==>
      || st == Drop(b)
      || (st.Receive? && st.b == b && st.id !in run[i].tree)
      || (st.Drain? && b in run[i].buffers && run[i].buffers[b] == Attached(st.c))
    ensures st.Drain? ==> Apply(run[i], st).calls[st.c].pc.Failed?
  {
    RunHasInv(run, i);
    var s := run[i];
    forall id | id in s.tree ensures s.tree[id] in s.calls {
      assert TreeInv(s, id);
    }
    if st.Drain? {
      assert CallInv(s, st.c);
    }
    if b in s.buffers {
      assert BufferInv(s, b);
    }
  }

  lemma SentStep(s: State, st: Step, c: CallId)
    requires Enabled(s, st) && !Fails(s, st) && c in Apply(s, st).calls && Apply(s, st).calls[c].sent
    ensures st == Send(c, true) || (c in s.calls && s.calls[c].sent)
  {
  }

  /** A request that counts as sent was sent by an earlier step. */
  lemma {:induction false} SentBySend(run: seq<State>, i: nat, c: CallId) returns (j: nat)
    requires IsRun(run) && i < |run| && c in run[i].calls && run[i].calls[c].sent
    ensures j < i && Leads(run[j], Send(c, true), run[j + 1])
    decreases i
  {
    hide Apply, Enabled, Fails;
    assert i > 0 by { if i == 0 { assert Init(run[0]); } }
    assert Next(run[i - 1], run[i]);
    var st :| Enabled(run[i - 1], st) && !Fails(run[i - 1], st) && run[i] == Apply(run[i - 1], st);
    SentStep(run[i - 1], st, c);
    if st == Send(c, true) {
      j := i - 1;
    } else {
      j := SentBySend(run, i - 1, c);
    }
  }

  /** A call that has not returned can go on, or its reply is about to be completed. */
  lemma NeverStuck(run: seq<State>, i: nat, c: CallId) returns (st: Step)
    requires IsRun(run) && i < |run| && c in run[i].calls && Live(run[i].calls[c])
    ensures OfCall(st) && st.c == c && Enabled(run[i], st)
  {
    RunHasInv(run, i);
    assert CallInv(run[i], c);
    var call := run[i].calls[c];
    match call.pc {
      case Allocated => st := Insert(c);
      case Ready => st := Send(c, true);
      case Waiting => st := if call.async then Expire(c) else if call.comp then Wake(c) else Timeout(c);
      case Removing => st := Remove(c);
      case Checking => st := Check(c);
      case Draining => st := if call.comp then Drain(c) else Complete(c);
    }
  }

  // ---------------------------------------------------------------- backoff

  /** next_timeout after one more send: half as much again, up to the maximum. */
  function NextTimeout(t: nat, initial: nat, max: nat): nat {
    if t == 0 then initial else Min(max, t * 3 / 2)
  }

  /** How long the `n`-th wait is. */
  function Wait(n: nat, initial: nat, max: nat): nat {
    if n == 0 then NextTimeout(0, initial, max) else NextTimeout(Wait(n - 1, initial, max), initial, max)
  }

  /** Waits never get shorter and stay between the initial and the maximal timeout; they grow until they reach it. */
  lemma {:induction false} WaitsGrow(n: nat, initial: nat, max: nat)
    requires 0 < initial <= max
    ensures initial <= Wait(n, initial, max) <= Wait(n + 1, initial, max) <= max
    ensures 2 <= initial && Wait(n, initial, max) < max ==> Wait(n, initial, max) < Wait(n + 1, initial, max)
    ensures Wait(n + 1, initial, max) == max
      || 3 * Wait(n, initial, max) - 1 <= 2 * Wait(n + 1, initial, max) <= 3 * Wait(n, initial, max)
    decreases n
  {
    if n > 0 {
      WaitsGrow(n - 1, initial, max);
    }
  }

  /**
   The times at which an unanswered request is sent, from its start: each send waits, and none comes after
   `overall`.
   */
  predicate Sends(times: seq<nat>, initial: nat, max: nat, overall: nat) {
    && (forall i | 0 <= i < |times| :: times[i] <= overall)
    && (forall i | 0 <= i < |times| - 1 :: times[i + 1] >= times[i] + Wait(i, initial, max))
  }

  /** Of two waits in a row one is not zero, unless the initial timeout is. */
  lemma {:induction false} WaitsOn(n: nat, initial: nat, max: nat)
    requires initial > 0
    ensures Wait(n, initial, max) + Wait(n + 1, initial, max) >= 1
  {
  }

  lemma {:induction false} SendTime(times: seq<nat>, initial: nat, max: nat, overall: nat, i: nat)
    requires initial > 0 && Sends(times, initial, max, overall) && 2 * i < |times|
    ensures times[2 * i] >= i
    decreases i
  {
    hide Wait;
    if i > 0 {
      SendTime(times, initial, max, overall, i - 1);
      var j := 2 * (i - 1);
      WaitsOn(j, initial, max);
      assert times[j + 1] >= times[j] + Wait(j, initial, max);
      assert times[j + 1 + 1] >= times[j + 1] + Wait(j + 1, initial, max);
    }
  }

  function Still(n: nat): seq<nat> {
    seq(n, _ => 0)
  }

  lemma {:induction false} ZeroWaits(n: nat, max: nat)
    ensures Wait(n, 0, max) == 0
    decreases n
  {
    if n > 0 {
      ZeroWaits(n - 1, max);
    }
  }

  ghost predicate AtMost(bound: nat, initial: nat, max: nat, overall: nat) {
    forall times | Sends(times, initial, max, overall) :: |times| <= bound
  }

  /** An unanswered request is sent a bounded number of times if and only if the initial timeout is not zero. */
  lemma SendsBoundedIff(initial: nat, max: nat, overall: nat)
    ensures initial > 0 <==> exists bound: nat :: AtMost(bound, initial, max, overall)
  {
    hide Wait;
    if initial > 0 {
      forall times | Sends(times, initial, max, overall) ensures |times| <= 2 * overall + 2 {
        if times != [] {
          SendTime(times, initial, max, overall, (|times| - 1) / 2);
        }
      }
      assert AtMost(2 * overall + 2, initial, max, overall);
    } else {
      forall bound: nat ensures !AtMost(bound, 0, max, overall) {
        var times := Still(bound + 1);
        forall i | 0 <= i < |times| - 1 ensures times[i + 1] >= times[i] + Wait(i, 0, max) {
          ZeroWaits(i, max);
        }
        assert Sends(times, 0, max, overall) && |times| > bound;
      }
    }
  }
}
