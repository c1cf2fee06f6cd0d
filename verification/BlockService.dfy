/**
 What an idle block-service socket is good for: a request submitted to it is written, answered and completed, and an
 error or a timeout takes it out of service and frees it with every request completed.  Each result gives the steps.
 */
module BlockService {
  import opened Common
  import opened BlockSocket

  ghost predicate IsPath(path: seq<State>) {
    path != [] && forall i | 0 <= i < |path| - 1 :: Next(path[i], path[i + 1])
  }

  function Last(path: seq<State>): State
    requires path != []
  {
    path[|path| - 1]
  }

  function Sock(path: seq<State>): Socket
    requires path != []
  {
    Last(path).sock
  }

  function At(path: seq<State>, t: Tid): Thread
    requires path != []
  {
    ThreadOf(Last(path), t)
  }

  /** All other threads are idle. */
  ghost predicate Alone(path: seq<State>, t: Tid)
    requires path != []
  {
    forall u | u != t :: At(path, u) == IDLE
  }

  lemma Extend(path: seq<State>, st: Step) returns (longer: seq<State>)
    requires IsPath(path) && Enabled(Last(path), st)
    ensures IsPath(longer) && longer[0] == path[0] && Last(longer) == Apply(Last(path), st)
  {
    hide Apply, Enabled;
    longer := path + [Apply(Last(path), st)];
    forall i | 0 <= i < |longer| - 1 ensures Next(longer[i], longer[i + 1]) {
      if i < |path| - 1 {
        assert Next(path[i], path[i + 1]);
      }
    }
  }

  /** The only thread that is not idle takes its next action. */
  lemma Do(path: seq<State>, t: Tid, a: Action) returns (longer: seq<State>)
    requires IsPath(path) && Alone(path, t) && Guard(Sock(path), At(path, t), a)
    ensures IsPath(longer) && Alone(longer, t) && longer[0] == path[0]
    ensures Sock(longer) == SockAfter(Sock(path), At(path, t), a)
    ensures At(longer, t) == ThreadAfter(Sock(path), At(path, t), a)
  {
    hide Guard, SockAfter, ThreadAfter;
    var s := Last(path);
    forall u | u in s.threads && u != t ensures !Excludes(a, s.threads[u]) {
      assert At(path, u) == IDLE;
    }
    longer := Extend(path, Act(t, a));
    forall u | u != t ensures At(longer, u) == IDLE {
      assert At(path, u) == IDLE;
    }
  }

  // ---------------------------------------------------------------- a request is served

  /** A submitter finds the socket, enqueues its request and hands its reference to the work. */
  lemma Submit(path: seq<State>, t: Tid, r: Req) returns (longer: seq<State>)
    requires IsPath(path) && Alone(path, t) && At(path, t) == IDLE
    requires var k := Sock(path); k.hash.Hashed? && k.err == 0 && !k.pending && r !in k.started
    ensures IsPath(longer) && Alone(longer, t) && At(longer, t) == IDLE && longer[0] == path[0]
    ensures var k := Sock(path);
      Sock(longer) == k.(refcount := k.refcount + 1, read := k.read + [r], write := k.write + [r],
                         started := k.started + {r}, pending := true)
  {
    hide IsPath, Alone, Sock, At;
    longer := Do(path, t, RcuFind);
    longer := Do(longer, t, RcuHold(HeldSubmit));
    longer := Do(longer, t, CheckErr);
    longer := Do(longer, t, Enqueue(r));
    longer := Do(longer, t, QueueWork);
  }

  /** The work writes the one request there is to write and drops its reference. */
  lemma WriteOne(path: seq<State>, t: Tid, r: Req) returns (longer: seq<State>)
    requires IsPath(path) && Alone(path, t) && At(path, t) == IDLE
    requires var k := Sock(path);
      k.pending && !k.active && k.err == 0 && k.write == [r] && r in k.read && k.refcount > 1
    ensures IsPath(longer) && Alone(longer, t) && At(longer, t) == IDLE && longer[0] == path[0]
    ensures Sock(longer) == Sock(path).(refcount := Sock(path).refcount - 1, pending := false, write := [])
  {
    hide IsPath, Alone, Sock, At;
    longer := Do(path, t, StartWork);
    longer := Do(longer, t, TryActivate);
    longer := Do(longer, t, CheckCleanup);
    longer := Do(longer, t, PickWrite);
    longer := WriteOut(longer, t, r);
  }

  lemma WriteOut(path: seq<State>, t: Tid, r: Req) returns (longer: seq<State>)
    requires IsPath(path) && Alone(path, t) && At(path, t) == Thread(Writing(Some(r)), false, false)
    requires var k := Sock(path); k.active && k.write == [r] && r in k.read && k.refcount > 1
    ensures IsPath(longer) && Alone(longer, t) && At(longer, t) == IDLE && longer[0] == path[0]
    ensures Sock(longer) == Sock(path).(refcount := Sock(path).refcount - 1, active := false, write := [])
  {
    hide IsPath, Alone, Sock, At;
    assert Minus([r], [r]) == [];
    longer := Do(path, t, Sent);
    longer := Do(longer, t, Deactivate(Put));
    longer := Do(longer, t, DropRef);
  }

  /** The response of the first request comes in. */
  lemma ReceiveOne(path: seq<State>, t: Tid) returns (longer: seq<State>)
    requires IsPath(path) && Alone(path, t) && Sock(path).read != [] && NoDup(Sock(path).read) && Sock(path).write == []
    requires At(path, t) == Thread(Reading(Some(Sock(path).read[0])), true, false)
    ensures IsPath(longer) && Alone(longer, t) && longer[0] == path[0]
    ensures At(longer, t) == Thread(Reading(Head(Sock(path).read[1..])), true, false)
    ensures var k := Sock(path); Sock(longer) == k.(read := k.read[1..], completed := k.completed + [k.read[0]])
  {
    var q := Sock(path).read;
    hide IsPath, Alone, Sock, At, Minus, Head, NoDup;
    MinusHead(q);
    longer := Do(path, t, Answered);
    longer := Do(longer, t, ScheduleReceived);
  }

  /** The receive callback takes every response there is to come, in order. */
  lemma {:induction false} ReceiveAll(path: seq<State>, t: Tid) returns (longer: seq<State>)
    requires IsPath(path) && Alone(path, t)
    requires At(path, t) == Thread(Reading(Head(Sock(path).read)), true, false)
    requires Sock(path).write == [] && NoDup(Sock(path).read)
    ensures IsPath(longer) && Alone(longer, t) && longer[0] == path[0]
    ensures At(longer, t) == Thread(Reading(None), true, false)
    ensures Sock(longer) == Sock(path).(read := [], completed := Sock(path).completed + Sock(path).read)
    decreases |Sock(path).read|
  {
    longer := path;
    var q, c := Sock(path).read, Sock(path).completed;
    hide IsPath, Alone, Sock, At;
    if q == [] {
      assert c + q == c;
    } else {
      longer := ReceiveOne(path, t);
      assert c + q == c + [q[0]] + q[1..];
      longer := ReceiveAll(longer, t);
    }
  }

  lemma Receive(path: seq<State>, t: Tid) returns (longer: seq<State>)
    requires IsPath(path) && Alone(path, t) && At(path, t) == IDLE
    requires var k := Sock(path); k.attached && k.err == 0 && k.write == [] && NoDup(k.read)
    ensures IsPath(longer) && Alone(longer, t) && At(longer, t) == IDLE && longer[0] == path[0]
    ensures Sock(longer) == Sock(path).(read := [], completed := Sock(path).completed + Sock(path).read)
  {
    hide IsPath, Alone, Sock, At;
    longer := Do(path, t, EnterCallback);
    longer := Do(longer, t, StartReceive);
    longer := ReceiveAll(longer, t);
    longer := Do(longer, t, StopReceive);
    longer := Do(longer, t, LeaveCallback);
  }

  /**
   A request submitted to an idle socket that is in service and has room is written and, when the server answers,
   completed after everything that was sent before it; the socket is then as it was.
   */
  lemma RequestIsServed(run: seq<State>, i: nat, t: Tid, r: Req) returns (path: seq<State>)
    requires IsRun(run) && i < |run| && Quiet(run[i])
    requires !run[i].sock.freed && !run[i].sock.full && r !in run[i].sock.started
    ensures IsPath(path) && path[0] == run[i] && Alone(path, t) && At(path, t) == IDLE
    ensures var k := run[i].sock;
      Sock(path) == k.(read := [], started := k.started + {r}, completed := k.completed + k.read + [r])
  {
    hide IsPath, Alone;
    QuietMeansDone(run, i);
    RunHasInv(run, i);
    var k := run[i].sock;
    path := Idle(run[i], t);
    path := Submit(path, t, r);
    assert k.write + [r] == [r];
    path := WriteOne(path, t, r);
    assert NoDup(k.read + [r]);
    path := Receive(path, t);
    assert k.completed + (k.read + [r]) == k.completed + k.read + [r];
  }

  /** When there is room again, the write-space callback queues the work of a socket that had run out of it. */
  lemma RoomResumes(run: seq<State>, i: nat, t: Tid) returns (path: seq<State>)
    requires IsRun(run) && i < |run| && Quiet(run[i]) && !run[i].sock.freed
    ensures IsPath(path) && path[0] == run[i] && Alone(path, t) && At(path, t) == IDLE
    ensures Sock(path) == run[i].sock.(refcount := run[i].sock.refcount + 1, pending := true, full := false)
  {
    hide IsPath, Alone;
    QuietMeansDone(run, i);
    path := Idle(run[i], t);
    hide Sock, At;
    path := Do(path, t, EnterCallback);
    path := Do(path, t, CallbackHold(QueueOrPut));
    path := Do(path, t, QueueWork);
    path := Do(path, t, LeaveCallback);
  }

  lemma Idle(s: State, t: Tid) returns (path: seq<State>)
    requires Quiet(s)
    ensures IsPath(path) && path[0] == s && Last(path) == s && Alone(path, t) && At(path, t) == IDLE
  {
    path := [s];
  }

  // ---------------------------------------------------------------- an error takes the socket out of service

  datatype Cause = StateChange | Walk | Timeout

  /** The state-change callback, a walk that gives sockets up, or the timeout walk marks the socket as failed. */
  lemma MarkFailed(path: seq<State>, t: Tid, cause: Cause, code: int) returns (longer: seq<State>)
    requires IsPath(path) && Alone(path, t) && At(path, t) == IDLE && code != 0
    requires var k := Sock(path); k.hash.Hashed? && k.attached && k.err == 0
    ensures IsPath(longer) && Alone(longer, t) && longer[0] == path[0]
    ensures At(longer, t) == Thread(QueueOrPut, cause.StateChange?, !cause.StateChange?)
    ensures Sock(longer) == Sock(path).(refcount := Sock(path).refcount + 1, err := code)
  {
    hide IsPath, Alone, Sock, At;
    match cause {
      case StateChange =>
        longer := Do(path, t, EnterCallback);
        longer := Do(longer, t, CallbackHold(ErrorOut(code)));
        longer := Do(longer, t, SetErr);
      case Walk =>
        longer := Do(path, t, RcuFind);
        longer := Do(longer, t, RcuHold(ErrorOut(code)));
        longer := Do(longer, t, SetErr);
      case Timeout =>
        longer := Do(path, t, RcuFind);
        longer := Do(longer, t, RcuTimeout(code));
        longer := Do(longer, t, RcuHold(QueueOrPut));
    }
  }

  lemma Fail(path: seq<State>, t: Tid, cause: Cause, code: int) returns (longer: seq<State>)
    requires IsPath(path) && Alone(path, t) && At(path, t) == IDLE && code != 0
    requires var k := Sock(path); k.hash.Hashed? && k.attached && k.err == 0 && !k.pending
    ensures IsPath(longer) && Alone(longer, t) && At(longer, t) == IDLE && longer[0] == path[0]
    ensures Sock(longer) == Sock(path).(refcount := Sock(path).refcount + 1, err := code, pending := true)
  {
    hide IsPath, Alone, Sock, At;
    longer := MarkFailed(path, t, cause, code);
    longer := Do(longer, t, QueueWork);
    longer := Do(longer, t, if cause.StateChange? then LeaveCallback else RcuLeave);
  }

  /** The work detaches the callbacks, takes the socket out of the table and drops its reference. */
  lemma CleanUp(path: seq<State>, t: Tid) returns (longer: seq<State>)
    requires IsPath(path) && Alone(path, t) && At(path, t) == IDLE
    requires var k := Sock(path); k.pending && !k.active && k.err != 0 && !k.terminal && k.refcount > 1
    ensures IsPath(longer) && Alone(longer, t) && At(longer, t) == IDLE && longer[0] == path[0]
    ensures Sock(longer) == Sock(path).(refcount := Sock(path).refcount - 1, pending := false, terminal := true,
                                        attached := false, hash := GracePending)
  {
    hide IsPath, Alone, Sock, At;
    longer := Do(path, t, StartWork);
    longer := Do(longer, t, TryActivate);
    longer := Do(longer, t, CheckCleanup);
    longer := Dismantle(longer, t);
  }

  lemma Dismantle(path: seq<State>, t: Tid) returns (longer: seq<State>)
    requires IsPath(path) && Alone(path, t) && At(path, t) == Thread(CleanupDetach, false, false)
    requires Sock(path).refcount > 1
    ensures IsPath(longer) && Alone(longer, t) && At(longer, t) == IDLE && longer[0] == path[0]
    ensures Sock(longer) == Sock(path).(refcount := Sock(path).refcount - 1, attached := false, hash := GracePending,
                                        active := false)
  {
    hide IsPath, Alone, Sock, At;
    longer := Do(path, t, Detach);
    longer := Do(longer, t, Unhash);
    longer := Do(longer, t, CallRcu);
    longer := Do(longer, t, Deactivate(Put));
    longer := Do(longer, t, DropRef);
  }

  /** After the grace period the table's reference, the last one, goes, and the leftovers are completed. */
  lemma PutLast(path: seq<State>, t: Tid) returns (longer: seq<State>)
    requires IsPath(path) && Alone(path, t) && At(path, t) == IDLE
    requires var k := Sock(path); k.hash.GracePending? && k.refcount == 1
    ensures IsPath(longer) && Alone(longer, t) && At(longer, t) == IDLE && longer[0] == path[0]
    ensures var k := Sock(path);
      Sock(longer) == k.(refcount := 0, hash := Released, read := [], write := [], freed := true,
                         completed := k.completed + Leftovers(k.read, k.write))
  {
    hide IsPath;
    longer := GraceOver(path, t);
    hide Alone, Sock, At, Leftovers;
    longer := Do(longer, t, RunRelease);
    longer := Do(longer, t, DropRef);
    longer := Do(longer, t, Finish);
  }

  lemma GraceOver(path: seq<State>, t: Tid) returns (longer: seq<State>)
    requires IsPath(path) && Alone(path, t) && At(path, t) == IDLE && Sock(path).hash.GracePending?
    ensures IsPath(longer) && Alone(longer, t) && At(longer, t) == IDLE && longer[0] == path[0]
    ensures Sock(longer) == Sock(path).(hash := ReleaseQueued)
  {
    var s := Last(path);
    forall u | u in s.threads ensures !s.threads[u].rcu {
      assert u != t ==> At(path, u) == IDLE;
    }
    longer := Extend(path, GraceEnd);
    forall u | u != t ensures At(longer, u) == IDLE {
      assert At(path, u) == IDLE;
    }
  }

  /** A socket in service without references but the table's and the work's. */
  lemma IdleCount(run: seq<State>, i: nat)
    requires IsRun(run) && i < |run| && Quiet(run[i]) && run[i].sock.hash.Hashed?
    ensures run[i].sock.refcount == 1
  {
    RunHasInv(run, i);
    var s := run[i];
    forall t | t in s.threads ensures !OwnsReference(s.threads[t].pc) {
      assert ThreadOf(s, t) == IDLE;
    }
    assert Owners(s.threads) == {};
  }

  /**
   Whatever it is that fails an idle socket, it is freed with that error, and every request ever started is completed,
   exactly once.
   */
  lemma FailureFreesSocket(run: seq<State>, i: nat, t: Tid, cause: Cause, code: int) returns (path: seq<State>)
    requires IsRun(run) && i < |run| && Quiet(run[i]) && !run[i].sock.freed && code != 0
    ensures IsPath(path) && path[0] == run[i]
    ensures Sock(path).freed && Sock(path).err == code && Sock(path).refcount == 0
    ensures NoDup(Sock(path).completed) && forall r :: r in Sock(path).completed <==> r in run[i].sock.started
  {
    hide IsPath, Alone, Leftovers;
    QuietMeansDone(run, i);
    IdleCount(run, i);
    path := Idle(run[i], t);
    path := Fail(path, t, cause, code);
    path := CleanUp(path, t);
    path := PutLast(path, t);
    AllCompleted(run, i);
  }

  lemma AllCompleted(run: seq<State>, i: nat)
    requires IsRun(run) && i < |run| && Quiet(run[i])
    ensures var k := run[i].sock; var c := k.completed + Leftovers(k.read, k.write);
      NoDup(c) && forall r :: r in c <==> r in k.started
  {
    RunHasInv(run, i);
    var s, k := run[i], run[i].sock;
    LeftoversElements(k.read, k.write);
    NoDupConcat(k.completed, Leftovers(k.read, k.write));
    forall r | r in k.started ensures r in k.completed || r in k.read || r in k.write {
      assert Accounted(s, r);
    }
  }
}
