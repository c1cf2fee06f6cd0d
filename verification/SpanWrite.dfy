/**
 Writing the blocks of one span, with retries.  The blocks of an attempt finish concurrently; the
 completion that finds all of them finished certifies the span or moves it aside and starts the next
 attempt.  Every step is one lock-held region, one metadata request or one reference drop.
 */
module SpanWrite {
  import opened Common

  const MAX_BLACKLIST: nat := 8

  type Domain = nat

  // ---------------------------------------------------------------- the loops

  /** The failure domains of the blocks that failed, in order. */
  function Errored(errs: seq<int>, domains: seq<Domain>): (r: seq<Domain>)
    requires |errs| == |domains|
    ensures |r| <= |errs|
  {
    if errs == [] then []
    else if errs[0] != 0 then [domains[0]] + Errored(errs[1..], domains[1..])
    else Errored(errs[1..], domains[1..])
  }

  /** The blocks that failed, in order: `at` lists exactly their numbers, and `r` their domains. */
  ghost predicate ListsFailed(errs: seq<int>, domains: seq<Domain>, at: seq<nat>, r: seq<Domain>)
    requires |errs| == |domains|
  {
    && |at| == |r| && (forall k | 0 <= k < |at| :: at[k] < |errs| && errs[at[k]] != 0 && r[k] == domains[at[k]])
    && (forall k, l | 0 <= k < l < |at| :: at[k] < at[l])
    && (forall i | 0 <= i < |errs| && errs[i] != 0 :: i in at)
  }

  lemma {:induction false} ErroredLists(errs: seq<int>, domains: seq<Domain>) returns (at: seq<nat>)
    requires |errs| == |domains|
    ensures ListsFailed(errs, domains, at, Errored(errs, domains))
  {
    at := ErroredFrom(errs, domains, 0);
    assert errs[0..] == errs && domains[0..] == domains;
  }

  lemma {:induction false} ErroredFrom(errs: seq<int>, domains: seq<Domain>, o: nat) returns (at: seq<nat>)
    requires o <= |errs| == |domains|
    ensures var r := Errored(errs[o..], domains[o..]);
      && |at| == |r|
      && (forall k | 0 <= k < |at| :: o <= at[k] < |errs| && errs[at[k]] != 0 && r[k] == domains[at[k]])
    ensures forall k, l | 0 <= k < l < |at| :: at[k] < at[l]
    ensures forall i | o <= i < |errs| && errs[i] != 0 :: i in at
    decreases |errs| - o
  {
    at := [];
    if o < |errs| {
      assert errs[o..][1..] == errs[o + 1..] && domains[o..][1..] == domains[o + 1..];
      at := ErroredFrom(errs, domains, o + 1);
      if errs[o] != 0 {
        at := [o] + at;
      }
    }
  }

  function FailedBlocks(errs: seq<int>): set<nat> {
    set i: nat | i < |errs| && errs[i] != 0
  }

  lemma {:induction false} RisingSize(at: seq<nat>, s: set<nat>)
    requires (forall k, l | 0 <= k < l < |at| :: at[k] < at[l]) && forall x :: x in s <==> x in at
    ensures |s| == |at|
    decreases |at|
  {
    if at == [] {
      assert s == {};
    } else {
      var n := |at| - 1;
      var x, init := at[n], at[..n];
      assert forall y :: y in at <==> y in init || y == x;
      assert x !in init;
      RisingSize(init, s - {x});
    }
  }

  /** There are as many as blocks that failed. */
  lemma {:induction false} ErroredSize(errs: seq<int>, domains: seq<Domain>)
    requires |errs| == |domains|
    ensures |Errored(errs, domains)| == |FailedBlocks(errs)|
  {
    hide Errored;
    var at := ErroredLists(errs, domains);
    RisingSize(at, FailedBlocks(errs));
  }

  function Capped(s: seq<Domain>): (r: seq<Domain>)
    ensures r <= s && |r| <= MAX_BLACKLIST && (|s| <= MAX_BLACKLIST ==> r == s)
  {
    if |s| <= MAX_BLACKLIST then s else s[..MAX_BLACKLIST]
  }

  /** The first loop of add_span_initiate. */
  method FillBlacklist(errs: seq<int>, domains: seq<Domain>, was: seq<Domain>) returns (blacklist: seq<Domain>)
    requires |errs| == |domains| && |was| <= MAX_BLACKLIST
    ensures blacklist == Capped(was + Errored(errs, domains))
  {
    blacklist := was;
    assert errs[0..] == errs && domains[0..] == domains;
    var i := 0;
    while i < |errs|
      invariant 0 <= i <= |errs| && |blacklist| <= MAX_BLACKLIST
      invariant Capped(was + Errored(errs, domains)) == Capped(blacklist + Errored(errs[i..], domains[i..]))
    {
      assert errs[i..][1..] == errs[i + 1..] && domains[i..][1..] == domains[i + 1..];
      if errs[i] != 0 {
        var rest := Errored(errs[i + 1..], domains[i + 1..]);
        assert blacklist + Errored(errs[i..], domains[i..]) == blacklist + [domains[i]] + rest;
        if |blacklist| == MAX_BLACKLIST {
          return;
        }
        blacklist := blacklist + [domains[i]];
      }
      i := i + 1;
    }
  }

  predicate BlockFinished(proofs: seq<int>, errs: seq<int>, i: nat)
    requires i < |proofs| == |errs|
  {
    proofs[i] != 0 || errs[i] != 0
  }

  predicate AllFinished(proofs: seq<int>, errs: seq<int>)
    requires |proofs| == |errs|
  {
    forall i | 0 <= i < |errs| :: BlockFinished(proofs, errs, i)
  }

  predicate AnyError(errs: seq<int>) {
    exists i | 0 <= i < |errs| :: errs[i] != 0
  }

  /** The locked loop of write_block_finalize; `s` is the span whose arrays these are. */
  method MarkBlock(proofs: array<int>, errs: array<int>, b: nat, proof: int, err: int, ghost s: Span)
    returns (finished: bool, anyErrs: bool)
    requires proofs[..] == s.proofs && errs[..] == s.errs
    requires proofs.Length == errs.Length && b < errs.Length && proofs != errs
    requires proofs[b] == 0 && errs[b] == 0 && (err == 0 ==> proof != 0)
    modifies proofs, errs
    ensures proofs[..] == if err == 0 then old(proofs[..])[b := proof] else old(proofs[..])
    ensures errs[..] == old(errs[..])[b := err]
    ensures finished <==> AllFinished(proofs[..], errs[..])
    ensures anyErrs <==> AnyError(errs[..])
    ensures var s' := Marked(s, b, proof, err);
      && s'.proofs == proofs[..] && s'.errs == errs[..] && s'.judged == s.judged + Bit(finished)
      && (finished ==> s'.phase == Judging(anyErrs)) && (!finished ==> s'.phase == s.phase)
  {
    ghost var p0, e0 := proofs[..], errs[..];
    ghost var p1, e1 := if err == 0 then p0[b := proof] else p0, e0[b := err];
    finished, anyErrs := true, false;
    var i := 0;
    while i < errs.Length
      invariant 0 <= i <= errs.Length
      invariant proofs[..] == if i <= b then p0 else p1
      invariant errs[..] == if i <= b then e0 else e1
      invariant finished <==> forall j | 0 <= j < i :: BlockFinished(p1, e1, j)
      invariant anyErrs <==> exists j | 0 <= j < i :: e1[j] != 0
    {
      assert i != b ==> proofs[..][i] == p1[i] && errs[..][i] == e1[i];
      if i == b {
        if err == 0 {
          proofs[i] := proof;
        } else {
          errs[i] := err;
        }
      } else if proofs[i] == 0 && errs[i] == 0 {
        finished := false;
      }
      assert errs[..][i] == e1[i] && proofs[..][i] == p1[i];
      assert BlockFinished(p1, e1, i) <==> proofs[i] != 0 || errs[i] != 0;
      anyErrs := anyErrs || errs[i] != 0;
      i := i + 1;
    }
  }

  // ---------------------------------------------------------------- the state machine

  datatype Phase =
    | Fresh                    // before the first add_span_initiate
    | Writing                  // the blocks of an attempt are being started and finished
    | Judging(errs: bool)      // one finalize found all blocks finished
    | Restarting               // and moves the span aside to try again
    | Finished(err: int)

  datatype Flusher = Driving | Returned | Gone

  datatype Config = Config(blocks: nat, maxAttempts: nat)

  datatype Span = Span(
    phase: Phase,
    proofs: seq<int>, errs: seq<int>, domains: seq<Domain>,
    next: nat,                 // the next block to start
    flight: set<nat>,          // blocks whose callback is outstanding
    finalizerDrives: bool,     // the blocks are being started by a finalize, which keeps its reference
    leaving: nat,              // finalize calls that have only their reference left to drop
    flusher: Flusher,
    attempts: nat,             // an 8-bit counter
    blacklist: seq<Domain>,
    refs: int,
    transientErr: int,
    initiates: nat,            // attempts started so far
    judged: nat,               // finalize calls that found all blocks finished, so far
    certified: seq<seq<int>>)  // the proofs of every certify request so far

  datatype Step =
    | Initiate(err: int, domains: seq<Domain>)   // add_span_initiate up to and including the metadata request
    | StartBlock                                 // a block request is on its way
    | StartFails(err: int)                       // it could not be started: finalized on the spot
    | BlockDone(b: nat, proof: int, err: int)    // write_block_done and the locked part of finalize
    | Certify(err: int)
    | Judge                                      // retry_after_block_error
    | MoveFails(err: int)
    | Put
    | FlusherPut

  function Zeros(n: nat): (z: seq<int>)
    ensures |z| == n && forall i | 0 <= i < n :: z[i] == 0
  {
    seq(n, i => 0)
  }

  predicate Enabled(c: Config, s: Span, st: Step) {
    match st
    case Initiate(err, domains) => (s.phase.Fresh? || s.phase.Restarting?) && |domains| == c.blocks
    case StartBlock => s.phase.Writing? && s.next < c.blocks
    case StartFails(err) => s.phase.Writing? && s.next < c.blocks && err != 0
    case BlockDone(b, proof, err) => s.phase.Writing? && b in s.flight
    case Certify(err) => s.phase == Judging(false)
    case Judge => s.phase == Judging(true)
    case MoveFails(err) => s.phase.Restarting? && err != 0
    case Put => s.leaving > 0
    case FlusherPut => s.flusher.Returned?
  }

  /** An atomic compare-and-exchange against 0. */
  function KeepFirst(was: int, err: int): int {
    if was == 0 then err else was
  }

  /** A finalize that is done but for its reference. */
  function Ended(s: Span, err: int): Span {
    s.(phase := Finished(err), leaving := s.leaving + 1, transientErr := KeepFirst(s.transientErr, err))
  }

  /** The driver of the attempt has started its last block. */
  function DriverLeaves(c: Config, s: Span): Span {
    if s.next < c.blocks then s
    else if s.finalizerDrives then s.(finalizerDrives := false, leaving := s.leaving + 1)
    else if s.flusher.Driving? then s.(flusher := Returned)
    else s
  }

  /** The locked part of finalize for block `b`, whose reference it holds. */
  function Marked(s: Span, b: nat, proof: int, err: int): Span
    requires b < |s.proofs| == |s.errs|
  {
    var s1 := if err == 0 then s.(proofs := s.proofs[b := proof]) else s.(errs := s.errs[b := err]);
    if AllFinished(s1.proofs, s1.errs) then s1.(phase := Judging(AnyError(s1.errs)), judged := s.judged + 1)
    else s1.(leaving := s1.leaving + 1)
  }

  function FirstError(errs: seq<int>): int {
    if errs == [] then 0 else if errs[0] != 0 then errs[0] else FirstError(errs[1..])
  }

  predicate Shaped(c: Config, s: Span) {
    && |s.proofs| == |s.errs| == |s.domains| == c.blocks
    && s.next <= c.blocks && (forall b | b in s.flight :: b < c.blocks)
  }

  function Apply(c: Config, s: Span, st: Step): Span
    requires Enabled(c, s, st) && Shaped(c, s)
  {
    match st
    case Initiate(err, domains) =>
      var s1 := s.(blacklist := Capped(s.blacklist + Errored(s.errs, s.domains)),
                   proofs := Zeros(c.blocks), errs := Zeros(c.blocks), domains := Zeros(c.blocks));
      if err != 0 then
        if s.phase.Fresh? then s1.(phase := Finished(err), flusher := Returned,
          transientErr := KeepFirst(s.transientErr, err))
        else Ended(s1, err)
      else
        s1.(phase := Writing, domains := domains, next := 0, flight := {}, finalizerDrives := s.phase.Restarting?,
            initiates := s.initiates + 1)
    case StartBlock =>
      DriverLeaves(c, s.(flight := s.flight + {s.next}, next := s.next + 1, refs := s.refs + 1))
    case StartFails(err) =>
      DriverLeaves(c, Marked(s.(next := s.next + 1, refs := s.refs + 1), s.next, 0, err))
    case BlockDone(b, proof, err) =>
      Marked(s.(flight := s.flight - {b}), b, proof, if err == 0 && proof == 0 then EIO else err)
    case Certify(err) =>
      Ended(s.(certified := s.certified + [s.proofs], attempts := (s.attempts + 1) % 256), err)
    case Judge =>
      var s1 := s.(attempts := (s.attempts + 1) % 256);
      if s1.attempts < c.maxAttempts then s1.(phase := Restarting) else Ended(s1, FirstError(s.errs))
    case MoveFails(err) => Ended(s, err)
    case Put => s.(leaving := s.leaving - 1, refs := s.refs - 1)
    case FlusherPut => s.(flusher := Gone, refs := s.refs - 1)
  }

  predicate Init(c: Config, s: Span) {
    s == Span(Fresh, Zeros(c.blocks), Zeros(c.blocks), Zeros(c.blocks), c.blocks, {}, false, 0, Driving, 0, [], 1, 0,
      0, 0, [])
  }

  // ---------------------------------------------------------------- the invariant

  /** The blocks of the attempt: not started, in flight, or finished in exactly one way. */
  predicate BlockInv(s: Span, b: nat)
    requires b < |s.proofs| == |s.errs|
  {
    && (b in s.flight ==> b < s.next)
    && (s.phase.Writing? ==> (BlockFinished(s.proofs, s.errs, b) <==> b < s.next && b !in s.flight))
    && !(s.proofs[b] != 0 && s.errs[b] != 0)
  }

  predicate PhaseInv(c: Config, s: Span)
    requires Shaped(c, s)
  {
    match s.phase
    case Fresh => s.flight == {} && s.next == c.blocks && s.initiates == s.judged == 0 && s.certified == []
    case Writing => !AllFinished(s.proofs, s.errs) && s.initiates == s.judged + 1 && s.certified == []
    case Judging(errs) => AllFinished(s.proofs, s.errs) && (errs <==> AnyError(s.errs)) && Settled(c, s)
      && s.certified == []
    case Restarting => AnyError(s.errs) && Settled(c, s) && s.certified == []
    case Finished(err) => Settled(c, s) && CertifiedOnce(s) && (err == 0 ==> s.certified != [])
  }

  /** No block is outstanding and every attempt has been judged. */
  predicate Settled(c: Config, s: Span) {
    s.flight == {} && s.next == c.blocks && s.initiates == s.judged
  }

  /** At most one certify request, with the proofs of all blocks, none of which failed. */
  predicate CertifiedOnce(s: Span)
    requires |s.proofs| == |s.errs|
  {
    s.certified == [] || (s.certified == [s.proofs] && !AnyError(s.errs) && AllFinished(s.proofs, s.errs))
  }

  /** Someone starts the blocks as long as some are not started, and no one does otherwise. */
  predicate DriverInv(c: Config, s: Span) {
    var starting := s.phase.Writing? && s.next < c.blocks;
    && (s.finalizerDrives ==> starting)
    && (s.flusher.Driving? ==> s.phase.Fresh? || starting)
    && (starting ==> (s.finalizerDrives <==> !s.flusher.Driving?))
    && (s.phase.Fresh? ==> s.flusher.Driving?)
  }

  /** The attempts that have been counted: all judged ones but the one being judged now. */
  function Counted(s: Span): int {
    s.judged - Bit(s.phase.Judging?)
  }

  /** One reference each: flusher, finalize calls past their lock, judge, driving finalize, callbacks. */
  function Holders(s: Span): int {
    Bit(!s.flusher.Gone?) + s.leaving + Bit(s.phase.Judging? || s.phase.Restarting?) + Bit(s.finalizerDrives)
      + |s.flight|
  }

  ghost predicate Core(c: Config, s: Span) {
    && c.blocks > 0 && Shaped(c, s)
    && (forall b | 0 <= b < c.blocks :: BlockInv(s, b))
    && PhaseInv(c, s)
    && |s.blacklist| <= MAX_BLACKLIST
    && s.transientErr == (if s.phase.Finished? then s.phase.err else 0)
    && s.attempts == Counted(s) % 256
    && s.refs == Holders(s)
  }

  ghost predicate Inv(c: Config, s: Span) {
    Core(c, s) && DriverInv(c, s)
  }

  lemma InitHasInv(c: Config, s: Span)
    requires c.blocks > 0 && Init(c, s)
    ensures Inv(c, s)
  {
  }

  /** Block `b` has just been taken out of flight, or could not be started. */
  ghost predicate Taken(c: Config, s: Span, b: nat) {
    && c.blocks > 0 && Shaped(c, s) && s.phase.Writing? && b < s.next && b !in s.flight
    && s.proofs[b] == 0 && s.errs[b] == 0
    && (forall i | 0 <= i < c.blocks && i != b :: BlockInv(s, i))
    && s.initiates == s.judged + 1 && s.certified == [] && s.transientErr == 0
    && |s.blacklist| <= MAX_BLACKLIST && s.attempts == s.judged % 256 && s.refs == Holders(s) + 1
  }

  lemma MarkedKeeps(c: Config, s: Span, b: nat, proof: int, err: int)
    requires Taken(c, s, b) && (err == 0 ==> proof != 0)
    ensures Core(c, Marked(s, b, proof, err))
  {
    var s' := Marked(s, b, proof, err);
    forall i | 0 <= i < c.blocks && i != b
      ensures BlockInv(s', i) && (BlockFinished(s'.proofs, s'.errs, i) <==> i < s.next && i !in s.flight)
    {
      assert BlockInv(s, i);
    }
    assert BlockFinished(s'.proofs, s'.errs, b);
    if AllFinished(s'.proofs, s'.errs) {
      forall i | 0 <= i < c.blocks ensures i !in s.flight {
        assert BlockFinished(s'.proofs, s'.errs, i);
      }
      assert s.flight == {};
      assert BlockFinished(s'.proofs, s'.errs, c.blocks - 1);
    }
  }

  /** The driver is still counted although the last block is started. */
  predicate LooseDriver(c: Config, s: Span) {
    && !s.phase.Fresh? && !(s.finalizerDrives && s.flusher.Driving?)
    && (s.next < c.blocks ==> s.phase.Writing? && (s.finalizerDrives || s.flusher.Driving?))
  }

  lemma DriverLeavesKeeps(c: Config, s: Span)
    requires Core(c, s) && LooseDriver(c, s)
    ensures Inv(c, DriverLeaves(c, s))
  {
    var s' := DriverLeaves(c, s);
    assert forall b | 0 <= b < c.blocks :: BlockInv(s, b) ==> BlockInv(s', b);
  }

  /** The error of the first block that failed. */
  lemma {:induction false} FirstErrorIs(errs: seq<int>) returns (k: nat)
    requires AnyError(errs)
    ensures k < |errs| && FirstError(errs) == errs[k] != 0 && forall j | 0 <= j < k :: errs[j] == 0
    decreases |errs|
  {
    k := 0;
    if errs[0] == 0 {
      var i :| 0 <= i < |errs| && errs[i] != 0;
      assert errs[1..][i - 1] != 0;
      var l := FirstErrorIs(errs[1..]);
      k := l + 1;
    }
  }

  lemma InitiateKeeps(c: Config, s: Span, err: int, domains: seq<Domain>)
    requires Inv(c, s) && Enabled(c, s, Initiate(err, domains))
    ensures Inv(c, Apply(c, s, Initiate(err, domains)))
  {
    hide Errored;
    var s' := Apply(c, s, Initiate(err, domains));
    assert !BlockFinished(Zeros(c.blocks), Zeros(c.blocks), 0);
    assert forall b | 0 <= b < c.blocks :: BlockInv(s', b);
  }

  lemma StartKeeps(c: Config, s: Span)
    requires Inv(c, s) && Enabled(c, s, StartBlock)
    ensures Inv(c, Apply(c, s, StartBlock))
  {
    var s1 := s.(flight := s.flight + {s.next}, next := s.next + 1, refs := s.refs + 1);
    assert BlockInv(s, s.next);
    assert forall b | 0 <= b < c.blocks :: BlockInv(s, b) ==> BlockInv(s1, b);
    DriverLeavesKeeps(c, s1);
  }

  lemma StartFailsKeeps(c: Config, s: Span, err: int)
    requires Inv(c, s) && Enabled(c, s, StartFails(err))
    ensures Inv(c, Apply(c, s, StartFails(err)))
  {
    var s1 := s.(next := s.next + 1, refs := s.refs + 1);
    assert BlockInv(s, s.next);
    assert forall b | 0 <= b < c.blocks && b != s.next :: BlockInv(s, b) ==> BlockInv(s1, b);
    MarkedKeeps(c, s1, s.next, 0, err);
    if s1.next < c.blocks {
      NotAllFinished(c, s1, s.next, 0, err);
    }
    DriverLeavesKeeps(c, Marked(s1, s.next, 0, err));
  }

  lemma NotAllFinished(c: Config, s: Span, b: nat, proof: int, err: int)
    requires Taken(c, s, b) && s.next < c.blocks
    ensures Marked(s, b, proof, err).phase.Writing?
  {
    assert BlockInv(s, s.next);
    assert !BlockFinished(Marked(s, b, proof, err).proofs, Marked(s, b, proof, err).errs, s.next);
  }

  lemma DoneKeeps(c: Config, s: Span, b: nat, proof: int, err: int)
    requires Inv(c, s) && Enabled(c, s, BlockDone(b, proof, err))
    ensures Inv(c, Apply(c, s, BlockDone(b, proof, err)))
  {
    var s1 := s.(flight := s.flight - {b});
    var e := if err == 0 && proof == 0 then EIO else err;
    assert BlockInv(s, b);
    assert forall i | 0 <= i < c.blocks && i != b :: BlockInv(s, i) ==> BlockInv(s1, i);
    MarkedKeeps(c, s1, b, proof, e);
    if s1.next < c.blocks {
      NotAllFinished(c, s1, b, proof, e);
    }
  }

  lemma StepKeepsInv(c: Config, s: Span, st: Step)
    requires Inv(c, s) && Enabled(c, s, st)
    ensures Inv(c, Apply(c, s, st))
  {
    match st {
      case Initiate(err, domains) => InitiateKeeps(c, s, err, domains);
      case StartBlock => StartKeeps(c, s);
      case StartFails(err) => StartFailsKeeps(c, s, err);
      case BlockDone(b, proof, err) => DoneKeeps(c, s, b, proof, err);
      case Judge =>
        var k := FirstErrorIs(s.errs);
        SameBlocks(c, s, Apply(c, s, st));
      case _ => SameBlocks(c, s, Apply(c, s, st));
    }
  }

  lemma SameBlocks(c: Config, s: Span, s': Span)
    requires Inv(c, s) && s'.proofs == s.proofs && s'.errs == s.errs && s'.flight == s.flight && s'.next == s.next
    requires s'.phase.Writing? ==> s.phase.Writing?
    ensures forall b | 0 <= b < c.blocks :: BlockInv(s', b)
  {
    assert forall b | 0 <= b < c.blocks :: BlockInv(s, b) ==> BlockInv(s', b);
  }

  // ---------------------------------------------------------------- every run

  ghost predicate Next(c: Config, s: Span, s': Span) {
    Shaped(c, s) && exists st :: Enabled(c, s, st) && s' == Apply(c, s, st)
  }

  ghost predicate IsRun(c: Config, run: seq<Span>) {
    && c.blocks > 0 && run != [] && Init(c, run[0])
    && forall i | 0 <= i < |run| - 1 :: Next(c, run[i], run[i + 1])
  }

  lemma {:induction false} RunHasInv(c: Config, run: seq<Span>, i: nat)
    requires IsRun(c, run) && i < |run|
    ensures Inv(c, run[i])
  {
    hide Inv, Apply, Enabled, Init;
    if i == 0 {
      InitHasInv(c, run[0]);
    } else {
      RunHasInv(c, run, i - 1);
      assert Next(c, run[i - 1], run[i]);
      var st :| Enabled(c, run[i - 1], st) && run[i] == Apply(c, run[i - 1], st);
      StepKeepsInv(c, run[i - 1], st);
    }
  }

  /** In each attempt exactly one finalize finds all blocks finished: none while it runs, one afterwards. */
  lemma OneJudgePerAttempt(c: Config, run: seq<Span>, i: nat)
    requires IsRun(c, run) && i < |run|
    ensures Shaped(c, run[i]) && run[i].initiates == run[i].judged + Bit(run[i].phase.Writing?)
    ensures run[i].phase.Judging? ==>
      run[i].flight == {} && AllFinished(run[i].proofs, run[i].errs) && (run[i].phase.errs <==> AnyError(run[i].errs))
  {
    RunHasInv(c, run, i);
  }

  /** A certify request is sent at most once, with a nonzero proof for every block, and success means it was sent. */
  lemma CertifiedOnlyWhenProved(c: Config, run: seq<Span>, i: nat)
    requires IsRun(c, run) && i < |run|
    ensures |run[i].certified| <= 1
    ensures forall ps | ps in run[i].certified :: |ps| == c.blocks && forall b | 0 <= b < c.blocks :: ps[b] != 0
    ensures run[i].phase == Finished(0) ==> |run[i].certified| == 1
    ensures run[i].phase.Finished? ==> run[i].transientErr == run[i].phase.err
  {
    RunHasInv(c, run, i);
    var s := run[i];
    if s.phase.Finished? && s.certified != [] {
      forall b | 0 <= b < c.blocks ensures s.proofs[b] != 0 {
        assert BlockFinished(s.proofs, s.errs, b);
      }
    }
  }

  /** Every step but a final put finds the span referenced, and the last reference goes when all is over. */
  lemma SpanStaysReferenced(c: Config, run: seq<Span>, i: nat, st: Step)
    requires IsRun(c, run) && i < |run|
    ensures run[i].refs == Holders(run[i]) >= 0
    ensures Enabled(c, run[i], st) ==> run[i].refs > 0
    ensures run[i].refs == 0 ==>
      run[i].phase.Finished? && run[i].flight == {} && run[i].leaving == 0 && run[i].flusher.Gone?
  {
    RunHasInv(c, run, i);
    var s := run[i];
    if s.phase.Writing? && s.flight == {} && !s.finalizerDrives && s.next == c.blocks {
      forall b | 0 <= b < c.blocks ensures BlockFinished(s.proofs, s.errs, b) {
        assert BlockInv(s, b);
      }
    }
  }

  lemma BlacklistStep(c: Config, s: Span, st: Step)
    requires Shaped(c, s) && Enabled(c, s, st)
    ensures s.blacklist <= Apply(c, s, st).blacklist || |s.blacklist| > MAX_BLACKLIST
  {
    hide Errored, AllFinished, AnyError;
  }

  /** The blacklist only grows and never exceeds its capacity. */
  lemma {:induction false} BlacklistGrows(c: Config, run: seq<Span>, i: nat, j: nat)
    requires IsRun(c, run) && i <= j < |run|
    ensures run[i].blacklist <= run[j].blacklist && |run[j].blacklist| <= MAX_BLACKLIST
    decreases j
  {
    hide Apply, Enabled, Init;
    RunHasInv(c, run, j);
    if i < j {
      BlacklistGrows(c, run, i, j - 1);
      assert Next(c, run[j - 1], run[j]);
      var st :| Enabled(c, run[j - 1], st) && run[j] == Apply(c, run[j - 1], st);
      BlacklistStep(c, run[j - 1], st);
    }
  }

  // ---------------------------------------------------------------- what a run records

  ghost predicate StepAt(c: Config, run: seq<Span>, j: nat, st: Step)
    requires j + 1 < |run|
  {
    Shaped(c, run[j]) && Enabled(c, run[j], st) && run[j + 1] == Apply(c, run[j], st)
  }

  /** Block `b` was proved with this proof in attempt number `n`. */
  ghost predicate Proved(c: Config, run: seq<Span>, i: nat, b: nat, proof: int, n: nat)
    requires i < |run|
  {
    exists j: nat :: j < i && StepAt(c, run, j, BlockDone(b, proof, 0)) && run[j].initiates == n
  }

  /** Block `b` failed with this error in attempt number `n`: it could not be started, or its write failed. */
  ghost predicate Failed(c: Config, run: seq<Span>, i: nat, b: nat, err: int, n: nat)
    requires i < |run|
  {
    || (exists j: nat :: j < i && StepAt(c, run, j, StartFails(err)) && run[j].next == b && run[j].initiates == n)
    || (exists j: nat, proof :: j < i && StepAt(c, run, j, BlockDone(b, proof, err)) && run[j].initiates == n)
    || (err == EIO && exists j: nat :: j < i && StepAt(c, run, j, BlockDone(b, 0, 0)) && run[j].initiates == n)
  }

  lemma Earlier(c: Config, run: seq<Span>, i: nat, b: nat, v: int, n: nat)
    requires i + 1 < |run|
    ensures Proved(c, run, i, b, v, n) ==> Proved(c, run, i + 1, b, v, n)
    ensures Failed(c, run, i, b, v, n) ==> Failed(c, run, i + 1, b, v, n)
  {
    hide StepAt;
  }

  /** What one step does to the record of one block. */
  lemma RecordStep(c: Config, s: Span, st: Step, b: nat)
    requires Inv(c, s) && Enabled(c, s, st) && b < c.blocks
    ensures var s' := Apply(c, s, st);
      && (s'.proofs[b] != 0 ==>
            || (s'.proofs[b] == s.proofs[b] && s'.initiates == s.initiates)
            || (st == BlockDone(b, s'.proofs[b], 0) && s'.initiates == s.initiates))
      && (s'.errs[b] != 0 ==>
            || (s'.errs[b] == s.errs[b] && s'.initiates == s.initiates)
            || (s'.initiates == s.initiates && st == StartFails(s'.errs[b]) && s.next == b)
            || (s'.initiates == s.initiates && st.BlockDone? && st.b == b && st.err == s'.errs[b])
            || (s'.initiates == s.initiates && st == BlockDone(b, 0, 0) && s'.errs[b] == EIO))
  {
    hide AllFinished, AnyError, Errored, BlockInv, PhaseInv, DriverInv, Capped, FirstError;
    match st {
      case Initiate(_, _) => case StartBlock => case StartFails(_) => case BlockDone(_, _, _) => case Judge =>
      case _ =>
    }
  }

  /** The proofs and errors of the blocks are those that their writes reported in this attempt. */
  lemma {:induction false} RecordsReported(c: Config, run: seq<Span>, i: nat, b: nat)
    requires IsRun(c, run) && i < |run| && b < c.blocks
    ensures Shaped(c, run[i])
    ensures run[i].proofs[b] != 0 ==> Proved(c, run, i, b, run[i].proofs[b], run[i].initiates)
    ensures run[i].errs[b] != 0 ==> Failed(c, run, i, b, run[i].errs[b], run[i].initiates)
    decreases i
  {
    hide Apply, Enabled, Inv;
    RunHasInv(c, run, i);
    InvShaped(c, run[i]);
    if i > 0 {
      var s, s' := run[i - 1], run[i];
      RecordsReported(c, run, i - 1, b);
      RunHasInv(c, run, i - 1);
      assert Next(c, s, s');
      var st :| Enabled(c, s, st) && s' == Apply(c, s, st);
      assert StepAt(c, run, i - 1, st);
      RecordStep(c, s, st, b);
      Earlier(c, run, i - 1, b, s'.proofs[b], s'.initiates);
      Earlier(c, run, i - 1, b, s'.errs[b], s'.initiates);
      hide StepAt;
    }
  }

  lemma InvShaped(c: Config, s: Span)
    requires Inv(c, s)
    ensures Shaped(c, s)
  {
  }

  /** The certify request carries for every block the proof that its write reported in the last attempt. */
  lemma CertifiesReported(c: Config, run: seq<Span>, i: nat, b: nat)
    requires IsRun(c, run) && i < |run| && run[i].certified != [] && b < c.blocks
    ensures |run[i].certified| == 1 && |run[i].certified[0]| == c.blocks
    ensures Proved(c, run, i, b, run[i].certified[0][b], run[i].initiates)
  {
    hide Proved;
    CertifiedOnlyWhenProved(c, run, i);
    RunHasInv(c, run, i);
    RecordsReported(c, run, i, b);
    assert run[i].certified == [run[i].proofs];
    assert run[i].proofs in run[i].certified;
  }

  /** What the step that ends a span says: the error of the request that failed, or of the first failed block. */
  lemma EndReported(c: Config, s: Span, st: Step)
    requires Inv(c, s) && Enabled(c, s, st) && !s.phase.Finished? && Apply(c, s, st).phase.Finished?
    ensures var err := Apply(c, s, st).phase.err;
      || st == Certify(err) || st == MoveFails(err) || (st.Initiate? && st.err == err)
      || (st.Judge?
          && exists k :: 0 <= k < |s.errs| && s.errs[k] == err != 0 && forall j | 0 <= j < k :: s.errs[j] == 0)
  {
    hide AllFinished, Errored, BlockInv, DriverInv;
    if st.Judge? {
      var k := FirstErrorIs(s.errs);
    }
  }

  /**
   A retry blacklists the domains of blocks that failed in the attempt before and no others, all of them if there
   is room.
   */
  lemma BlacklistsFailed(c: Config, run: seq<Span>, i: nat, err: int, domains: seq<Domain>)
    requires IsRun(c, run) && i + 1 < |run| && StepAt(c, run, i, Initiate(err, domains))
    ensures var s, s' := run[i], run[i + 1];
      && Shaped(c, s) && s.blacklist <= s'.blacklist
      && (forall k | |s.blacklist| <= k < |s'.blacklist| ::
            exists b: nat :: b < c.blocks && s.errs[b] != 0 && s.domains[b] == s'.blacklist[k]
                             && Failed(c, run, i, b, s.errs[b], s.initiates))
      && (|s.blacklist| + |FailedBlocks(s.errs)| <= MAX_BLACKLIST ==>
            forall b: nat | b < c.blocks && s.errs[b] != 0 :: s.domains[b] in s'.blacklist)
  {
    hide Failed;
    RunHasInv(c, run, i);
    var s, s' := run[i], run[i + 1];
    var at := ErroredLists(s.errs, s.domains);
    hide Errored;
    var all := s.blacklist + Errored(s.errs, s.domains);
    forall k | |s.blacklist| <= k < |s'.blacklist|
      ensures exists b: nat :: b < c.blocks && s.errs[b] != 0 && s.domains[b] == s'.blacklist[k]
                               && Failed(c, run, i, b, s.errs[b], s.initiates)
    {
      var b := at[k - |s.blacklist|];
      RecordsReported(c, run, i, b);
    }
    ErroredSize(s.errs, s.domains);
    if |s.blacklist| + |FailedBlocks(s.errs)| <= MAX_BLACKLIST {
      forall b: nat | b < c.blocks && s.errs[b] != 0 ensures s.domains[b] in s'.blacklist {
        var k :| 0 <= k < |at| && at[k] == b;
        assert all[|s.blacklist| + k] == s.domains[b];
      }
    }
  }

  /** The domains of an attempt are those that its initiate request returned. */
  lemma {:induction false} DomainsAreInitiated(c: Config, run: seq<Span>, i: nat)
    requires IsRun(c, run) && i < |run| && (run[i].phase.Writing? || run[i].phase.Judging? || run[i].phase.Restarting?)
    ensures exists j: nat :: j < i && StepAt(c, run, j, Initiate(0, run[i].domains))
                             && run[j + 1].initiates == run[i].initiates
    decreases i
  {
    if i > 0 {
      RunHasInv(c, run, i - 1);
      var s, s' := run[i - 1], run[i];
      assert Next(c, s, s');
      var st :| Enabled(c, s, st) && s' == Apply(c, s, st);
      assert StepAt(c, run, i - 1, st);
      DomainsStep(c, s, st);
      if !(st.Initiate? && st.err == 0) {
        DomainsAreInitiated(c, run, i - 1);
      }
    }
  }

  predicate Underway(s: Span) {
    s.phase.Writing? || s.phase.Judging? || s.phase.Restarting?
  }

  lemma DomainsStep(c: Config, s: Span, st: Step)
    requires Inv(c, s) && Enabled(c, s, st) && Underway(Apply(c, s, st))
    ensures var s' := Apply(c, s, st);
      if st.Initiate? then st.err == 0 && s'.domains == st.domains
      else Underway(s) && s'.domains == s.domains && s'.initiates == s.initiates
  {
    hide AllFinished, AnyError, Errored, BlockInv, DriverInv;
  }

  /** Until the last reference is dropped someone can take a step. */
  lemma NeverStuck(c: Config, run: seq<Span>, i: nat) returns (st: Step)
    requires IsRun(c, run) && i < |run|
    ensures run[i].refs > 0 ==> Enabled(c, run[i], st)
  {
    RunHasInv(c, run, i);
    var s := run[i];
    st := if s.leaving > 0 then Put else FlusherPut;
    match s.phase {
      case Fresh => st := Initiate(0, Zeros(c.blocks));
      case Writing =>
        if s.next < c.blocks {
          st := StartBlock;
        } else {
          if s.flight == {} {
            SomeLeft(c, s);
          }
          var b :| b in s.flight;
          st := BlockDone(b, 1, 0);
        }
      case Judging(errs) => st := if errs then Judge else Certify(0);
      case Restarting => st := Initiate(0, Zeros(c.blocks));
      case Finished(_) =>
    }
  }

  // ---------------------------------------------------------------- how many attempts

  function AttemptLimit(c: Config): nat {
    if c.maxAttempts == 0 then 1 else c.maxAttempts
  }

  predicate Bounded(c: Config, s: Span) {
    s.initiates <= AttemptLimit(c) && (s.phase.Restarting? ==> s.judged < c.maxAttempts)
  }

  lemma StepKeepsBound(c: Config, s: Span, st: Step)
    requires Inv(c, s) && Bounded(c, s) && Enabled(c, s, st) && c.maxAttempts <= 255
    ensures Bounded(c, Apply(c, s, st))
  {
    hide Errored, AllFinished, AnyError, BlockInv;
  }

  lemma {:induction false} RunBounded(c: Config, run: seq<Span>, i: nat)
    requires IsRun(c, run) && i < |run| && c.maxAttempts <= 255
    ensures Bounded(c, run[i])
  {
    if i > 0 {
      RunBounded(c, run, i - 1);
      RunHasInv(c, run, i - 1);
      assert Next(c, run[i - 1], run[i]);
      var st :| Enabled(c, run[i - 1], st) && run[i] == Apply(c, run[i - 1], st);
      StepKeepsBound(c, run[i - 1], st);
    }
  }

  function Last(run: seq<Span>): Span
    requires run != []
  {
    run[|run| - 1]
  }

  lemma Extend(c: Config, run: seq<Span>, st: Step) returns (longer: seq<Span>)
    requires IsRun(c, run) && Shaped(c, Last(run)) && Enabled(c, Last(run), st)
    ensures longer != [] && IsRun(c, longer) && Last(longer) == Apply(c, Last(run), st) && Inv(c, Last(longer))
  {
    hide Apply, Enabled, Inv, Init;
    longer := run + [Apply(c, Last(run), st)];
    forall i | 0 <= i < |longer| - 1 ensures Next(c, longer[i], longer[i + 1]) {
      if i < |run| - 1 {
        assert Next(c, run[i], run[i + 1]);
      }
    }
    RunHasInv(c, longer, |run|);
  }

  /** A run whose `n`-th attempt has just started. */
  ghost predicate StartsAttempt(c: Config, run: seq<Span>, n: nat) {
    && run != [] && IsRun(c, run) && Inv(c, Last(run))
    && Last(run).phase.Writing? && Last(run).next == 0 && Last(run).flight == {} && Last(run).initiates == n
  }

  /** All blocks of the attempt fail to start. */
  lemma AttemptFails(c: Config, run: seq<Span>, n: nat) returns (longer: seq<Span>)
    requires StartsAttempt(c, run, n)
    ensures longer != [] && IsRun(c, longer) && Inv(c, Last(longer))
    ensures Last(longer).phase == Judging(true) && Last(longer).initiates == n
  {
    longer := run;
    while Last(longer).phase.Writing?
      invariant longer != [] && IsRun(c, longer) && Inv(c, Last(longer)) && Last(longer).initiates == n
      invariant (Last(longer).phase.Writing? && Last(longer).flight == {}) || Last(longer).phase == Judging(true)
      decreases Last(longer).phase.Writing?, c.blocks - Last(longer).next
    {
      SomeLeft(c, Last(longer));
      StartFailsOutcome(c, Last(longer));
      longer := Extend(c, longer, StartFails(EIO));
    }
  }

  lemma SomeLeft(c: Config, s: Span)
    requires Inv(c, s) && s.phase.Writing? && s.flight == {}
    ensures s.next < c.blocks
  {
    var b: nat :| b < c.blocks && !BlockFinished(s.proofs, s.errs, b);
    assert BlockInv(s, b);
  }

  lemma StartFailsOutcome(c: Config, s: Span)
    requires Inv(c, s) && s.phase.Writing? && s.flight == {} && s.next < c.blocks
    ensures var s' := Apply(c, s, StartFails(EIO));
      && s'.initiates == s.initiates && s'.flight == {} && s'.next == s.next + 1
      && (s'.phase.Writing? || s'.phase == Judging(true))
  {
    assert s.errs[s.next := EIO][s.next] != 0;
  }

  /**
   A failing span is tried as often as the limit says; with a limit that an 8-bit counter never reaches, it is
   tried again without end.
   */
  lemma {:induction false} AttemptsUnbounded(c: Config, n: nat) returns (run: seq<Span>)
    requires c.blocks > 0 && n > 0 && (c.maxAttempts > 255 || n <= AttemptLimit(c))
    ensures StartsAttempt(c, run, n)
    decreases n
  {
    var step := Initiate(0, Zeros(c.blocks));
    if n == 1 {
      var s: Span := Span(Fresh, Zeros(c.blocks), Zeros(c.blocks), Zeros(c.blocks), c.blocks, {}, false, 0, Driving, 0,
        [], 1, 0, 0, 0, []);
      run := Extend(c, [s], step);
    } else {
      var before := AttemptsUnbounded(c, n - 1);
      run := AttemptFails(c, before, n - 1);
      assert Inv(c, Last(run));
      run := Extend(c, run, Judge);
      run := Extend(c, run, step);
    }
  }

  /** There are at most max(1, maxAttempts) attempts in every run if and only if the limit fits the counter. */
  lemma AttemptsBoundedIff(c: Config)
    requires c.blocks > 0
    ensures c.maxAttempts <= 255 <==>
      forall run: seq<Span>, i: nat | IsRun(c, run) && i < |run| :: run[i].initiates <= AttemptLimit(c)
  {
    if c.maxAttempts <= 255 {
      forall run: seq<Span>, i: nat | IsRun(c, run) && i < |run| ensures run[i].initiates <= AttemptLimit(c) {
        RunBounded(c, run, i);
      }
    } else {
      var run := AttemptsUnbounded(c, c.maxAttempts + 1);
      assert run[|run| - 1].initiates > AttemptLimit(c);
    }
  }

  // ---------------------------------------------------------------- every span write ends

  function PhaseLeft(phase: Phase): nat {
    match phase
    case Fresh => 1
    case Writing => 2
    case Judging(_) => 3
    case Restarting => 2
    case Finished(_) => 0
  }

  /** How many steps are left until the next attempt starts or the span is over. */
  function Left(c: Config, s: Span): int {
    PhaseLeft(s.phase) + (if s.phase.Writing? then 3 * (c.blocks - s.next) else 0) + 2 * |s.flight| + s.leaving
      + Bit(s.finalizerDrives) + Bit(!s.flusher.Gone?)
  }

  /** No more than this many steps belong to one attempt. */
  function AttemptSteps(c: Config): nat {
    3 * c.blocks + 2
  }

  lemma MarkedAdvances(c: Config, s: Span, b: nat, proof: int, err: int)
    requires s.phase.Writing? && b < |s.proofs| == |s.errs| && s.next <= c.blocks
    requires AllFinished(Marked(s, b, proof, err).proofs, Marked(s, b, proof, err).errs) ==> s.next == c.blocks
    ensures Left(c, Marked(s, b, proof, err)) <= Left(c, s) + 1 && Marked(s, b, proof, err).initiates == s.initiates
    ensures Marked(s, b, proof, err).next == s.next
  {
    hide AllFinished, AnyError;
  }

  lemma DriverLeft(c: Config, s: Span)
    ensures Left(c, DriverLeaves(c, s)) == Left(c, s) && DriverLeaves(c, s).initiates == s.initiates
  {
  }

  lemma StepAdvances(c: Config, s: Span, st: Step)
    requires Inv(c, s) && Enabled(c, s, st)
    ensures var s' := Apply(c, s, st);
      (s'.initiates == s.initiates && Left(c, s') < Left(c, s))
      || (s'.initiates == s.initiates + 1 && Left(c, s') < Left(c, s) + AttemptSteps(c))
  {
    hide AllFinished, AnyError, Errored, BlockInv, Marked, DriverLeaves, Capped;
    match st {
      case StartBlock => StartAdvances(c, s);
      case StartFails(err) => StartFailsAdvances(c, s, err);
      case BlockDone(b, proof, err) => DoneAdvances(c, s, b, proof, err);
      case _ =>
    }
  }

  lemma StartAdvances(c: Config, s: Span)
    requires Inv(c, s) && Enabled(c, s, StartBlock)
    ensures var s' := Apply(c, s, StartBlock); s'.initiates == s.initiates && Left(c, s') < Left(c, s)
  {
    assert BlockInv(s, s.next);
    hide AllFinished, AnyError, BlockInv, DriverLeaves;
    DriverLeft(c, s.(flight := s.flight + {s.next}, next := s.next + 1, refs := s.refs + 1));
  }

  /** Only the last block to be started can find all of them finished. */
  lemma StartFailsAdvances(c: Config, s: Span, err: int)
    requires Inv(c, s) && Enabled(c, s, StartFails(err))
    ensures var s' := Apply(c, s, StartFails(err)); s'.initiates == s.initiates && Left(c, s') < Left(c, s)
  {
    var s1 := s.(next := s.next + 1, refs := s.refs + 1);
    var s2 := Marked(s1, s.next, 0, err);
    if s1.next < c.blocks {
      assert BlockInv(s, s1.next);
      assert !BlockFinished(s2.proofs, s2.errs, s1.next);
    }
    hide AllFinished, AnyError, BlockInv, DriverLeaves, Marked;
    MarkedAdvances(c, s1, s.next, 0, err);
    DriverLeft(c, s2);
  }

  lemma DoneAdvances(c: Config, s: Span, b: nat, proof: int, err: int)
    requires Inv(c, s) && Enabled(c, s, BlockDone(b, proof, err))
    ensures var s' := Apply(c, s, BlockDone(b, proof, err)); s'.initiates == s.initiates && Left(c, s') < Left(c, s)
  {
    var s1, e := s.(flight := s.flight - {b}), if err == 0 && proof == 0 then EIO else err;
    var s2 := Marked(s1, b, proof, e);
    assert BlockInv(s, b);
    if s.next < c.blocks {
      assert BlockInv(s, s.next);
      assert !BlockFinished(s2.proofs, s2.errs, s.next);
    }
    hide AllFinished, AnyError, BlockInv, Marked;
    MarkedAdvances(c, s1, b, proof, e);
  }

  /** A span write takes at most 3 * blocks + 2 steps for every attempt, and two more. */
  lemma {:induction false} RunEnds(c: Config, run: seq<Span>, i: nat)
    requires IsRun(c, run) && i < |run|
    ensures i + Left(c, run[i]) <= AttemptSteps(c) * run[i].initiates + 2
    decreases i
  {
    hide Apply, Enabled, Left, Inv, AttemptSteps;
    RunHasInv(c, run, i);
    if i == 0 {
      assert Left(c, run[0]) == 2 by { StartsWith(c, run[0]); }
    } else {
      RunEnds(c, run, i - 1);
      RunHasInv(c, run, i - 1);
      assert Next(c, run[i - 1], run[i]);
      var st :| Enabled(c, run[i - 1], st) && run[i] == Apply(c, run[i - 1], st);
      StepAdvances(c, run[i - 1], st);
      NextAttempt(AttemptSteps(c), run[i - 1].initiates, run[i].initiates);
    }
  }

  lemma NextAttempt(k: nat, n: nat, n': nat)
    ensures n' == n + 1 ==> k * n' == k * n + k
    ensures n' == n ==> k * n' == k * n
  {
  }

  lemma StartsWith(c: Config, s: Span)
    requires Init(c, s)
    ensures Left(c, s) == 2 && s.initiates == 0
  {
  }

  /**
   With a limit that fits the counter, no run is longer than the limit allows; a run that cannot go on has dropped
   every reference and reported its outcome.
   */
  lemma SpanEnds(c: Config, run: seq<Span>)
    requires IsRun(c, run) && c.maxAttempts <= 255
    ensures |run| <= AttemptSteps(c) * AttemptLimit(c) + 3
    ensures (forall st :: !Enabled(c, Last(run), st)) ==>
      Last(run).refs == 0 && Last(run).phase.Finished? && Last(run).transientErr == Last(run).phase.err
  {
    var i := |run| - 1;
    RunEnds(c, run, i);
    RunBounded(c, run, i);
    RunHasInv(c, run, i);
    assert Left(c, run[i]) >= 0;
    Monotone(AttemptSteps(c), run[i].initiates, AttemptLimit(c));
    var st := NeverStuck(c, run, i);
    NoneLeft(c, run[i]);
  }

  /** Whoever still has to do something for the span refers to it. */
  lemma NoneLeft(c: Config, s: Span)
    requires Inv(c, s)
    ensures s.refs >= 0 && (s.refs == 0 ==> s.phase.Finished?)
  {
    if s.phase.Writing? && s.flight == {} {
      SomeLeft(c, s);
    }
  }

  lemma Monotone(k: nat, n: nat, m: nat)
    requires n <= m
    ensures k * n <= k * m
  {
  }
}
