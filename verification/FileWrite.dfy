/**
 Writing a file: appends only, cut into spans of the maximal span size, with forward seeks and extending
 truncates as runs of zeros.  The bytes of the spans are the bytes of the file, in order.
 */
module FileWrite {
  import opened Common
  import opened Bytes

  /** A transient span: where it starts in the file and what has been written to it. */
  datatype Span = Span(offset: nat, data: seq<byte>)

  /**
   What a write depends on beyond the file: memory for a span, how much can be copied or the error of the copy,
   whether the span before is still being flushed, and how starting the flush ends.
   */
  datatype Env = Env(noSpan: bool, copied: int, busy: bool, flushErr: int)

  /** A copy that is asked for something copies something or fails. */
  predicate EnvOk(env: Env) {
    env.copied != 0 && env.flushErr <= 0
  }

  predicate EnvsOk(envs: seq<Env>) {
    forall env | env in envs :: EnvOk(env)
  }

  /** What copying `count` bytes returns. */
  function Copied(env: Env, count: nat): int {
    if count == 0 then 0 else if env.copied > count then count else env.copied
  }

  datatype Whence = SeekSet | SeekCur | SeekEnd | SeekOther

  function Contents(spans: seq<Span>): seq<byte> {
    if spans == [] then [] else Contents(spans[..|spans| - 1]) + spans[|spans| - 1].data
  }

  lemma ZerosConcat(m: nat, n: nat)
    ensures Zeros(m) + Zeros(n) == Zeros(m + n)
  {
  }

  /** Spans of `max` bytes, one after the other from the start of the file. */
  predicate Tiles(spans: seq<Span>, max: nat) {
    forall k | 0 <= k < |spans| :: spans[k].offset == k * max && |spans[k].data| == max
  }

  lemma {:induction false} TilesLength(spans: seq<Span>, max: nat)
    requires Tiles(spans, max)
    ensures |Contents(spans)| == |spans| * max
    decreases |spans|
  {
    if spans != [] {
      var n := |spans| - 1;
      TilesLength(spans[..n], max);
      assert (n + 1) * max == n * max + max;
      assert |spans[n].data| == max;
      hide Tiles;
    }
  }

  /** Every byte of the file is at its place in its span. */
  lemma {:induction false} TilesPlace(spans: seq<Span>, max: nat, k: nat, o: nat)
    requires Tiles(spans, max) && k < |spans| && o < max
    ensures k * max + o < |Contents(spans)| && Contents(spans)[k * max + o] == spans[k].data[o]
    decreases |spans|
  {
    var last := |spans| - 1;
    TilesLength(spans[..last], max);
    if k < last {
      TilesPlace(spans[..last], max, k, o);
    }
  }

  /** A full span at the end of the tiling extends it. */
  lemma {:induction false} TilesMore(spans: seq<Span>, max: nat, span: Span)
    requires Tiles(spans, max) && span.offset == |Contents(spans)| && |span.data| == max
    ensures Tiles(spans + [span], max)
  {
    TilesLength(spans, max);
  }

  lemma {:induction false} ContentsMore(spans: seq<Span>, span: Span)
    ensures Contents(spans + [span]) == Contents(spans) + span.data
  {
    assert (spans + [span])[..|spans|] == spans;
  }

  // ---------------------------------------------------------------- the file as a value

  /** `sealed` are the spans handed to flushing so far. */
  datatype File = File(max: nat, writing: bool, size: nat, err: int, current: Option<Span>, sealed: seq<Span>)

  function FileBytes(f: File): seq<byte> {
    Contents(f.sealed) + if f.current.Some? then f.current.value.data else []
  }

  /** The spans tile the file; only after an error can the current one be full. */
  predicate Valid(f: File) {
    && Tiles(f.sealed, f.max) && |FileBytes(f)| == f.size
    && (f.current.Some? ==> f.current.value.offset == |Contents(f.sealed)| && |f.current.value.data| <= f.max)
    && (f.current.Some? && |f.current.value.data| == f.max ==> f.err != 0)
    && f.err <= 0
  }

  /** What has been written to the current span. */
  function Written(f: File): nat {
    if f.current.Some? then |f.current.value.data| else 0
  }

  /** The write gets as far as copying. */
  predicate Admits(f: File, pos: nat, direct: bool, env: Env) {
    !direct && f.writing && f.err == 0 && pos == f.size && (f.current.Some? || !env.noSpan)
  }

  /** The error of a write that does not get so far. */
  function Refusal(f: File, pos: nat, direct: bool): int {
    if direct then ENOSYS
    else if !f.writing then EROFS
    else if f.err != 0 then f.err
    else if pos != f.size then EINVAL
    else ENOMEM
  }

  /** How many bytes one write asks to copy. */
  function CopyCount(max: nat, written: nat, count: nat): nat {
    if written >= max then 0 else if count < max - written then count else max - written
  }

  function Source(from: Option<seq<byte>>, count: nat): (s: seq<byte>)
    requires from.Some? ==> count <= |from.value|
    ensures |s| == count
  {
    if from.Some? then from.value[..count] else Zeros(count)
  }

  function Appended(ret: int): nat {
    if ret < 0 then 0 else ret
  }

  /** The file with its current span, a new one if need be, extended by `bytes`. */
  function Grown(f: File, bytes: seq<byte>): (g: File)
    ensures g.current.Some?
  {
    var span := if f.current.Some? then f.current.value else Span(f.size, []);
    f.(current := Some(Span(span.offset, span.data + bytes)), size := f.size + |bytes|)
  }

  /** The current span goes unless a non-blocking caller would have to wait for the one before it. */
  function Flushed(f: File, nonBlocking: bool, env: Env): (File, int)
    requires f.current.Some?
  {
    if env.busy && nonBlocking then (f, EAGAIN)
    else (f.(current := None, sealed := f.sealed + [f.current.value]), env.flushErr)
  }

  /** The file after a write, and what the write returns. */
  function WriteTo(f: File, pos: nat, from: Option<seq<byte>>, count: nat, direct: bool, nonBlocking: bool, env: Env)
    : (File, int)
    requires (from.Some? ==> count <= |from.value|) && EnvOk(env)
  {
    if !Admits(f, pos, direct, env) then (f, Refusal(f, pos, direct)) else
    var copied := Copied(env, CopyCount(f.max, Written(f), count));
    if copied < 0 then (Grown(f, []), copied) else
    var g := Grown(f, Source(from, count)[..copied]);
    if Written(g) < f.max then (g, copied) else
    var (h, e) := Flushed(g, nonBlocking, env);
    if e < 0 then (h.(err := e), if copied == 0 then e else copied) else (h, copied)
  }

  lemma GrownBytes(f: File, bytes: seq<byte>)
    requires Valid(f) && (f.current.None? || Written(f) + |bytes| <= f.max) && |bytes| <= f.max
    ensures FileBytes(Grown(f, bytes)) == FileBytes(f) + bytes && |FileBytes(Grown(f, bytes))| == f.size + |bytes|
    ensures Grown(f, bytes).current.value.offset == |Contents(f.sealed)|
    ensures Written(Grown(f, bytes)) == Written(f) + |bytes|
  {
    hide Tiles, Contents;
  }

  /** Handing a full span over changes no byte and keeps the tiling. */
  lemma FlushedValid(f: File, nonBlocking: bool, env: Env)
    requires Valid(f.(err := -1)) && f.current.Some? && Written(f) == f.max && EnvOk(env)
    ensures var (g, e) := Flushed(f, nonBlocking, env);
      FileBytes(g) == FileBytes(f) && e <= 0 && (f.err == 0 ==> Valid(g.(err := e)))
  {
    hide Tiles, Contents;
    TilesMore(f.sealed, f.max, f.current.value);
    ContentsMore(f.sealed, f.current.value);
  }

  /**
   A write appends what it reports to have written and nothing else, whatever the environment does, and the
   spans keep tiling the file.
   */
  lemma WriteAppends(f: File, pos: nat, from: Option<seq<byte>>, count: nat, direct: bool, nonBlocking: bool, env: Env)
    requires Valid(f) && (from.Some? ==> count <= |from.value|) && EnvOk(env)
    ensures var (g, ret) := WriteTo(f, pos, from, count, direct, nonBlocking, env);
      && Valid(g) && ret <= count && FileBytes(g) == FileBytes(f) + Source(from, count)[..Appended(ret)]
      && g.max == f.max && g.writing == f.writing
  {
    hide Tiles, Contents, Source, Zeros;
    assert FileBytes(f) + Source(from, count)[..0] == FileBytes(f);
    if Admits(f, pos, direct, env) {
      var copied := Copied(env, CopyCount(f.max, Written(f), count));
      GrownBytes(f, []);
      if copied >= 0 {
        var bytes := Source(from, count)[..copied];
        GrownBytes(f, bytes);
        if Written(f) + copied >= f.max {
          FlushedValid(Grown(f, bytes), nonBlocking, env);
        }
      }
    }
  }

  /** The error of each refusal, and the span is handed over exactly when it is full and the caller can wait. */
  lemma WriteSeals(f: File, pos: nat, from: Option<seq<byte>>, count: nat, direct: bool, nonBlocking: bool, env: Env)
    requires Valid(f) && (from.Some? ==> count <= |from.value|) && EnvOk(env)
    ensures var (g, ret) := WriteTo(f, pos, from, count, direct, nonBlocking, env);
      var copied := Copied(env, CopyCount(f.max, Written(f), count));
      var full := copied >= 0 && Written(f) + copied >= f.max;
      if !Admits(f, pos, direct, env) then g == f && ret == Refusal(f, pos, direct) else
      && (full && !(env.busy && nonBlocking) <==> |g.sealed| == |f.sealed| + 1)
      && (g.sealed == f.sealed || g.sealed[..|f.sealed|] == f.sealed)
      && g.err == (if !full then 0 else if env.busy && nonBlocking then EAGAIN else env.flushErr)
      && ret == if copied != 0 then copied else g.err
  {
    hide Tiles, Contents, Source;
  }

  /** When a write changes nothing, and with which error; only a write at the end of a writable file goes further. */
  lemma WriteRefused(f: File, pos: nat, from: Option<seq<byte>>, count: nat, direct: bool, nonBlocking: bool, env: Env)
    requires (from.Some? ==> count <= |from.value|) && EnvOk(env)
    ensures var w := WriteTo(f, pos, from, count, direct, nonBlocking, env);
      && (direct ==> w == (f, ENOSYS))
      && (!direct && !f.writing ==> w == (f, EROFS))
      && (!direct && f.writing && f.err != 0 ==> w == (f, f.err))
      && (!direct && f.writing && f.err == 0 && pos != f.size ==> w == (f, EINVAL))
      && (!direct && f.writing && f.err == 0 && pos == f.size && f.current.None? && env.noSpan ==> w == (f, ENOMEM))
  {
  }

  /** How much a write in the right place takes: what fits the span, as far as the copy goes. */
  lemma WriteTakes(f: File, pos: nat, from: Option<seq<byte>>, count: nat, nonBlocking: bool, env: Env)
    requires Valid(f) && (from.Some? ==> count <= |from.value|) && EnvOk(env)
    requires f.writing && f.err == 0 && pos == f.size && !env.noSpan && env.copied > 0 && f.max > 0
    ensures var (g, ret) := WriteTo(f, pos, from, count, false, nonBlocking, env);
      var room := f.max - Written(f);
      && room > 0 && ret == Min(count, Min(room, env.copied)) && g.size == f.size + ret
      && (ret == room && (!nonBlocking || !env.busy) <==> g.sealed != f.sealed)
      && (ret == room && env.busy && nonBlocking ==> g.err == EAGAIN)
  {
    hide Tiles, Contents, Source;
  }

  // ---------------------------------------------------------------- extending by zeros

  /** How far zeroing got: `over` when it reached the target or failed, not when the environments ran out. */
  datatype Progress = Progress(f: File, e: int, reached: nat, over: bool)

  /** The loop of file_lseek and of ternfs_do_ftruncate, one environment a turn. */
  function Zeroed(f: File, pos: nat, target: nat, envs: seq<Env>): Progress
    requires EnvsOk(envs)
    decreases |envs|
  {
    if pos >= target then Progress(f, 0, pos, true) else
    if envs == [] then Progress(f, 0, pos, false) else
    assert envs[0] in envs;
    var (g, n) := WriteTo(f, pos, None, target - pos, false, false, envs[0]);
    if n < 0 then Progress(g, n, pos, true) else Zeroed(g, pos + n, target, envs[1..])
  }

  /** Zeros are appended as far as it got, for every sequence of environments. */
  lemma {:induction false} ZeroedAppends(f: File, pos: nat, target: nat, envs: seq<Env>)
    requires Valid(f) && pos <= target && EnvsOk(envs)
    ensures var p := Zeroed(f, pos, target, envs);
      && Valid(p.f) && pos <= p.reached <= target && FileBytes(p.f) == FileBytes(f) + Zeros(p.reached - pos)
      && p.e <= 0 && (p.over <==> p.e < 0 || p.reached == target)
      && (!f.writing && pos < target && envs != [] ==> p.e == EROFS && p.reached == pos)
    decreases |envs|
  {
    hide Tiles, Contents, WriteTo, FileBytes;
    assert FileBytes(f) + Zeros(0) == FileBytes(f);
    if pos < target && envs != [] {
      assert envs[0] in envs;
      var (g, n) := WriteTo(f, pos, None, target - pos, false, false, envs[0]);
      WriteAppends(f, pos, None, target - pos, false, false, envs[0]);
      WriteSeals(f, pos, None, target - pos, false, false, envs[0]);
      assert Zeros(target - pos)[..Appended(n)] == Zeros(Appended(n));
      if n >= 0 {
        ZeroedAppends(g, pos + n, target, envs[1..]);
        var more := Zeroed(g, pos + n, target, envs[1..]).reached - pos - n;
        ZerosConcat(n, more);
        assert FileBytes(f) + Zeros(n) + Zeros(more) == FileBytes(f) + (Zeros(n) + Zeros(more));
      }
    }
  }

  /** With spans of some size every turn that does not fail appends a byte. */
  lemma TurnAppends(f: File, pos: nat, target: nat, env: Env)
    requires Valid(f) && f.max > 0 && pos < target && EnvOk(env)
    ensures WriteTo(f, pos, None, target - pos, false, false, env).1 != 0
  {
    WriteSeals(f, pos, None, target - pos, false, false, env);
  }

  /** So the loop is over after as many turns as there are bytes to go. */
  lemma {:induction false} ZeroedEnds(f: File, pos: nat, target: nat, envs: seq<Env>)
    requires Valid(f) && f.max > 0 && pos <= target && EnvsOk(envs) && |envs| >= target - pos
    ensures Zeroed(f, pos, target, envs).over
    decreases |envs|
  {
    hide Tiles, Contents, WriteTo;
    if pos < target {
      assert envs[0] in envs;
      var (g, n) := WriteTo(f, pos, None, target - pos, false, false, envs[0]);
      WriteAppends(f, pos, None, target - pos, false, false, envs[0]);
      TurnAppends(f, pos, target, envs[0]);
      if n > 0 {
        ZeroedEnds(g, pos + n, target, envs[1..]);
      }
    }
  }

  /** With spans of no size no turn appends anything: the loop stays where it is until a write fails. */
  lemma {:induction false} ZeroedStays(f: File, pos: nat, target: nat, envs: seq<Env>)
    requires Valid(f) && f.max == 0 && pos < target && EnvsOk(envs)
    ensures var p := Zeroed(f, pos, target, envs);
      p.reached == pos && FileBytes(p.f) == FileBytes(f) && p.f.size == f.size && (p.over <==> p.e < 0)
    decreases |envs|
  {
    hide Tiles, Contents, WriteTo, FileBytes;
    if envs != [] {
      assert envs[0] in envs;
      var (g, n) := WriteTo(f, pos, None, target - pos, false, false, envs[0]);
      WriteAppends(f, pos, None, target - pos, false, false, envs[0]);
      WriteSeals(f, pos, None, target - pos, false, false, envs[0]);
      assert FileBytes(f) + Zeros(target - pos)[..0] == FileBytes(f);
      if n >= 0 {
        ZeroedStays(g, pos, target, envs[1..]);
      }
    }
  }

  /** An environment in which nothing fails. */
  predicate Smooth(env: Env) {
    !env.noSpan && env.copied > 0 && env.flushErr == 0
  }

  /** Without a failure the loop never ends when spans have no size. */
  lemma {:induction false} SmoothStays(f: File, pos: nat, target: nat, envs: seq<Env>)
    requires Valid(f) && f.max == 0 && f.writing && f.err == 0 && pos == f.size && pos < target
    requires EnvsOk(envs) && forall env | env in envs :: Smooth(env)
    ensures !Zeroed(f, pos, target, envs).over
    decreases |envs|
  {
    hide Tiles, Contents, FileBytes;
    if envs != [] {
      assert envs[0] in envs;
      var (g, n) := WriteTo(f, pos, None, target - pos, false, false, envs[0]);
      WriteAppends(f, pos, None, target - pos, false, false, envs[0]);
      WriteSeals(f, pos, None, target - pos, false, false, envs[0]);
      SmoothStays(g, pos, target, envs[1..]);
    }
  }

  /** Every sequence of enough environments ends the loop if and only if the maximal span size is not zero. */
  lemma ProgressIff(f: File, pos: nat, target: nat, turns: nat)
    requires Valid(f) && f.writing && f.err == 0 && pos == f.size && pos < target <= pos + turns
    ensures f.max > 0 <==> forall envs: seq<Env> | EnvsOk(envs) && |envs| == turns :: Zeroed(f, pos, target, envs).over
  {
    hide Zeroed, Valid;
    if f.max > 0 {
      forall envs: seq<Env> | EnvsOk(envs) && |envs| == turns ensures Zeroed(f, pos, target, envs).over {
        ZeroedEnds(f, pos, target, envs);
      }
    } else {
      var envs := seq(turns, i => Env(false, 1, false, 0));
      SmoothStays(f, pos, target, envs);
      assert EnvsOk(envs) && |envs| == turns && !Zeroed(f, pos, target, envs).over;
    }
  }

  /** Where a seek goes; before the current position where it is refused. */
  function SeekTarget(filePos: nat, offset: int, whence: Whence): int {
    match whence
    case SeekSet => offset
    case SeekCur => filePos + offset
    case SeekEnd => filePos + offset
    case SeekOther => filePos - 1
  }

  // ---------------------------------------------------------------- the file being written

  class TransientFile {
    const max: nat                   // the largest span size of the directory's span policy
    var writing: bool                // TERNFS_FILE_STATUS_WRITING
    var size: nat                    // i_size
    var err: int                     // transient_err
    var current: Option<Span>        // writing_span
    ghost var sealed: seq<Span>      // spans handed to flushing so far

    ghost function State(): File
      reads this
    {
      File(max, writing, size, err, current, sealed)
    }

    /** start_flushing */
    method StartFlushing(nonBlocking: bool, env: Env) returns (e: int)
      requires current.Some?
      modifies this`current, this`sealed
      ensures (State(), e) == Flushed(old(State()), nonBlocking, env)
    {
      if env.busy && nonBlocking {
        return EAGAIN;
      }
      sealed := sealed + [current.value];
      current := None;
      return env.flushErr;
    }

    /** ternfs_file_write_internal; `from` is what to write, zeros if there is none. */
    method Write(pos: nat, from: Option<seq<byte>>, count: nat, direct: bool, nonBlocking: bool, env: Env)
      returns (ret: int)
      requires Valid(State()) && (from.Some? ==> count <= |from.value|) && EnvOk(env)
      modifies this`size, this`err, this`current, this`sealed
      ensures (State(), ret) == WriteTo(old(State()), pos, from, count, direct, nonBlocking, env)
      ensures Valid(State()) && ret <= count
        && FileBytes(State()) == FileBytes(old(State())) + Source(from, count)[..Appended(ret)]
    {
      hide Tiles, Contents, Source, Zeros, FileBytes, Valid;
      WriteAppends(State(), pos, from, count, direct, nonBlocking, env);
      if direct {
        return ENOSYS;
      }
      if !writing {
        return EROFS;
      }
      if err != 0 {
        return err;
      }
      if pos != size {
        return EINVAL;
      }
      if current.None? {
        if env.noSpan {
          return ENOMEM;
        }
        current := Some(Span(size, []));
      }
      var span := current.value;
      assert span.data + [] == span.data;
      var copied := Copied(env, CopyCount(max, |span.data|, count));
      if copied < 0 {
        return copied;
      }
      current := Some(Span(span.offset, span.data + Source(from, count)[..copied]));
      size := size + copied;
      ret := copied;
      if |current.value.data| >= max {
        var e := StartFlushing(nonBlocking, env);
        if e < 0 {
          err := e;
          if copied == 0 {
            ret := e;
          }
        }
      }
    }

    /** Zeros up to `target`: the loop of file_lseek and of ternfs_do_ftruncate, one environment a turn. */
    method Extend(pos: nat, target: nat, envs: seq<Env>) returns (e: int, reached: nat, over: bool)
      requires Valid(State()) && pos <= target && EnvsOk(envs)
      modifies this`size, this`err, this`current, this`sealed
      ensures Progress(State(), e, reached, over) == Zeroed(old(State()), pos, target, envs)
      ensures Valid(State()) && pos <= reached <= target
        && FileBytes(State()) == FileBytes(old(State())) + Zeros(reached - pos)
      ensures over <==> e < 0 || reached == target
      ensures pos == target ==> over && e >= 0 && State() == old(State())
      ensures max > 0 && |envs| >= target - pos ==> over
      ensures max == 0 && pos < target ==> reached == pos && (over <==> e < 0)
    {
      hide Tiles, Contents, Valid, FileBytes, WriteTo;
      ghost var f := State();
      ZeroedAppends(f, pos, target, envs);
      if max > 0 && |envs| >= target - pos {
        ZeroedEnds(f, pos, target, envs);
      }
      if max == 0 && pos < target {
        ZeroedStays(f, pos, target, envs);
      }
      reached := pos;
      var turn := 0;
      while reached < target && turn < |envs|
        invariant turn <= |envs| && Valid(State()) && EnvsOk(envs[turn..])
        invariant Zeroed(f, pos, target, envs) == Zeroed(State(), reached, target, envs[turn..])
        decreases |envs| - turn
      {
        assert envs[turn] in envs && envs[turn..][0] == envs[turn] && envs[turn..][1..] == envs[turn + 1..];
        var n := Write(reached, None, target - reached, false, false, envs[turn]);
        if n < 0 {
          return n, reached, true;
        }
        reached, turn := reached + n, turn + 1;
      }
      return 0, reached, reached >= target;
    }

    /** file_lseek on a file that is being written; `filePos` is f_pos. */
    method Seek(filePos: nat, offset: int, whence: Whence, envs: seq<Env>) returns (ret: int, newPos: nat, over: bool)
      requires Valid(State()) && EnvsOk(envs)
      modifies this`size, this`err, this`current, this`sealed
      ensures Valid(State()) && newPos >= filePos
        && FileBytes(State()) == FileBytes(old(State())) + Zeros(newPos - filePos)
      ensures over && ret >= 0 ==>
        ret == newPos == (if whence == SeekSet then offset else filePos + offset) && whence != SeekOther
      ensures offset == 0 && whence == SeekCur ==> over && ret == filePos && State() == old(State())
      ensures
        var refused := SeekTarget(filePos, offset, whence) < filePos
                       || (filePos != old(size) && (offset != 0 || whence != SeekCur));
        && (refused ==> over && ret == EINVAL && newPos == filePos && State() == old(State()))
        && (max > 0 && |envs| >= SeekTarget(filePos, offset, whence) - filePos ==> over)
        && (max == 0 && !refused && SeekTarget(filePos, offset, whence) > filePos ==>
              newPos == filePos && (over <==> ret < 0))
    {
      hide Tiles, Contents, Zeroed, Valid, FileBytes;
      newPos, over := filePos, true;
      ghost var f := State();
      assert FileBytes(f) + Zeros(0) == FileBytes(f);
      if filePos != size && (offset != 0 || whence != SeekCur) {
        return EINVAL, newPos, true;
      }
      var target := offset;
      match whence {
        case SeekSet =>
          if offset < filePos {
            return EINVAL, newPos, true;
          }
        case SeekCur =>
          if offset < 0 {
            return EINVAL, newPos, true;
          }
          target := filePos + offset;
        case SeekEnd =>
          if offset < 0 {
            return EINVAL, newPos, true;
          }
          target := filePos + offset;
        case SeekOther =>
          return EINVAL, newPos, true;
      }
      var e;
      e, newPos, over := Extend(filePos, target, envs);
      return if e < 0 then e else target, newPos, over;
    }

    /** ternfs_do_ftruncate; `disabled` is the module parameter that turns it off. */
    method Truncate(newSize: nat, disabled: bool, envs: seq<Env>) returns (e: int, over: bool)
      requires Valid(State()) && EnvsOk(envs)
      modifies this`size, this`err, this`current, this`sealed
      ensures Valid(State()) && e <= 0
      ensures disabled ==> over && e == ENOSYS && State() == old(State())
      ensures !disabled && (!writing || newSize < old(size)) ==> over && e == EINVAL && State() == old(State())
      ensures over && e == 0 ==>
        writing && newSize >= old(size) && FileBytes(State()) == FileBytes(old(State())) + Zeros(newSize - old(size))
      ensures max > 0 && |envs| >= newSize - old(size) ==> over
      ensures max == 0 && newSize > old(size) ==> FileBytes(State()) == FileBytes(old(State())) && (over <==> e < 0)
    {
      hide Tiles, Contents, Zeroed, Valid, FileBytes;
      if disabled {
        return ENOSYS, true;
      }
      if !writing || newSize < size {
        return EINVAL, true;
      }
      ghost var f := State();
      assert FileBytes(f) + Zeros(0) == FileBytes(f);
      ZeroedAppends(f, size, newSize, envs);
      var reached;
      e, reached, over := Extend(size, newSize, envs);
    }

    /** Closing the file hands over what is left, whatever its size. */
    method Flush(env: Env) returns (e: int)
      requires Valid(State())
      modifies this`current, this`sealed
      ensures current.None? && FileBytes(State()) == FileBytes(old(State()))
      ensures e == (if old(current).Some? then env.flushErr else 0)
      ensures |sealed| >= |old(sealed)| && sealed[..|old(sealed)|] == old(sealed) && Tiles(old(sealed), max)
      ensures |sealed| <= |old(sealed)| + 1
      ensures |sealed| > |old(sealed)| ==>
        var last := sealed[|old(sealed)|]; last.offset == |Contents(old(sealed))| && |last.data| <= max
    {
      if current.None? {
        return 0;
      }
      ContentsMore(sealed, current.value);
      e := StartFlushing(false, env);
    }
  }
}
