/**
 Decoding the span list of a file: a table of block services, then spans that are either inline or made of
 blocks that refer to the table.  The decoder moves a cursor with a sticky error and reports what it finds
 through callbacks, here the events.
 */
module SpanWire {
  import opened Common
  import opened Bytes

  const MALFORMED: nat := 14
  const HEADER_SIZE: nat := 17
  const BLOCK_SIZE: nat := 13
  const SERVICE_SIZE: nat := 21

  datatype Service = Service(ip1: nat, port1: nat, ip2: nat, port2: nat, id: nat, flags: nat)

  datatype Header = Header(offset: nat, size: nat, crc: nat, storageClass: nat)

  datatype Shape = Shape(parity: nat, stripes: nat, cellSize: nat)

  datatype Event =
    | InlineSpan(header: Header, body: seq<byte>)
    | BlocksSpan(header: Header, shape: Shape)
    | BlockFound(j: nat, service: Service, blockId: nat, crc: nat)

  predicate ParityOk(parity: nat) {
    1 <= DataBlocks(parity) <= MAX_DATA && ParityBlocks(parity) <= MAX_PARITY
  }

  // ---------------------------------------------------------------- fixed-size records

  function U(data: seq<byte>, at: nat, n: nat): nat
    requires at + n <= |data|
  {
    LeValue(data[at..at + n])
  }

  function HeaderAt(data: seq<byte>, at: nat): Header
    requires at + HEADER_SIZE <= |data|
  {
    Header(U(data, at, 8), U(data, at + 8, 4), U(data, at + 12, 4), U(data, at + 16, 1))
  }

  function ServiceAt(data: seq<byte>, at: nat): Service
    requires at + SERVICE_SIZE <= |data|
  {
    Service(BeValue(data[at..at + 4]), U(data, at + 4, 2), BeValue(data[at + 6..at + 10]), U(data, at + 10, 2),
            U(data, at + 12, 8), U(data, at + 20, 1))
  }

  // ---------------------------------------------------------------- the specification

  /** Where decoding stands; on an error only the events matter. */
  datatype Result = Result(events: seq<Event>, pos: nat, ok: bool)

  /** The service table: `count` records from `at` on. */
  datatype Table = Table(at: nat, count: nat)

  predicate TableIn(data: seq<byte>, t: Table) {
    t.at + SERVICE_SIZE * t.count <= |data|
  }

  lemma ServiceIn(data: seq<byte>, t: Table, ix: nat)
    requires TableIn(data, t) && ix < t.count
    ensures t.at + SERVICE_SIZE * ix + SERVICE_SIZE <= |data|
  {
  }

  /** Blocks `j` to `n` of a span, whose records start at `at`. */
  function DecodeBlocks(data: seq<byte>, t: Table, at: nat, j: nat, n: nat): (r: Result)
    requires TableIn(data, t) && j <= n && at + BLOCK_SIZE * n <= |data|
    decreases n - j
  {
    if j == n then Result([], at, true)
    else
      var p := at + BLOCK_SIZE * j;
      var ix := U(data, p, 1);
      if ix >= t.count then Result([], at, false)
      else
        ServiceIn(data, t, ix);
        var e := BlockFound(j, ServiceAt(data, t.at + SERVICE_SIZE * ix), U(data, p + 1, 8), U(data, p + 9, 4));
        var rest := DecodeBlocks(data, t, at, j + 1, n);
        rest.(events := [e] + rest.events)
  }

  function Malformed(): Result {
    Result([], 0, false)
  }

  /** The body of an inline span at `at`. */
  function DecodeInline(data: seq<byte>, h: Header, at: nat): Result {
    if at + 1 > |data| then Malformed()
    else
      var n := U(data, at, 1);
      if at + 1 + n > |data| then Malformed()
      else Result([InlineSpan(h, data[at + 1..at + 1 + n])], at + 1 + n, true)
  }

  /** The body of a span of blocks at `at`. */
  function DecodeBlocksSpan(data: seq<byte>, t: Table, h: Header, at: nat): Result
    requires TableIn(data, t)
  {
    if at + 8 > |data| then Malformed()
    else
      var shape := Shape(U(data, at, 1), U(data, at + 1, 1), U(data, at + 2, 4));
      var n := U(data, at + 6, 2);
      var crcs := at + 8 + BLOCK_SIZE * n;
      if !ParityOk(shape.parity) || n != DataBlocks(shape.parity) + ParityBlocks(shape.parity) then Malformed()
      else if crcs + 2 > |data| || crcs + 2 + 4 * U(data, crcs, 2) > |data| then Malformed()
      else
        var blocks := DecodeBlocks(data, t, at + 8, 0, n);
        Result([BlocksSpan(h, shape)] + blocks.events, crcs + 2 + 4 * U(data, crcs, 2), blocks.ok)
  }

  function DecodeSpan(data: seq<byte>, t: Table, at: nat): Result
    requires TableIn(data, t)
  {
    if at + HEADER_SIZE > |data| then Malformed()
    else
      var h := HeaderAt(data, at);
      if h.storageClass == EMPTY_STORAGE then Malformed()
      else if h.storageClass == INLINE_STORAGE then DecodeInline(data, h, at + HEADER_SIZE)
      else DecodeBlocksSpan(data, t, h, at + HEADER_SIZE)
  }

  /** `n` spans from `at` on. */
  function DecodeSpans(data: seq<byte>, t: Table, at: nat, n: nat): Result
    requires TableIn(data, t)
    decreases n
  {
    if n == 0 then Result([], at, true)
    else
      var first := DecodeSpan(data, t, at);
      if !first.ok then first
      else
        var rest := DecodeSpans(data, t, first.pos, n - 1);
        rest.(events := first.events + rest.events)
  }

  /** The whole response body: the next offset, the service table and the spans. */
  datatype Decoded = Decoded(nextOffset: nat, events: seq<Event>, err: nat)

  function Decode(data: seq<byte>): Decoded {
    if |data| < 8 then Decoded(0, [], MALFORMED)
    else
      var next := U(data, 0, 8);
      if |data| < 10 then Decoded(next, [], MALFORMED)
      else
        var t := Table(10, U(data, 8, 2));
        var spans := 10 + SERVICE_SIZE * t.count;
        if spans + 2 > |data| then Decoded(next, [], MALFORMED)
        else
          var r := DecodeSpans(data, t, spans + 2, U(data, spans, 2));
          Decoded(next, r.events, if r.ok then 0 else MALFORMED)
  }

  // ---------------------------------------------------------------- the decoder

  /** ternfs_bincode_get_ctx: a cursor that stops moving once an error is set. */
  class Cursor {
    const data: seq<byte>
    const end: nat
    var pos: nat
    var err: nat

    predicate Valid()
      reads this
    {
      pos <= end <= |data|
    }

    constructor (data: seq<byte>, pos: nat, end: nat)
      requires pos <= end <= |data|
      ensures Valid() && this.data == data && this.pos == pos && this.end == end && err == 0
    {
      this.data, this.end := data, end;
      this.pos, this.err := pos, 0;
    }

    /** What every read of `n` bytes does to the cursor. */
    twostate predicate Moved(n: nat)
      reads this
    {
      && Valid()
      && (old(err) != 0 ==> pos == old(pos) && err == old(err))
      && (old(err) == 0 && old(pos) + n <= end ==> pos == old(pos) + n && err == 0)
      && (old(err) == 0 && old(pos) + n > end ==> err == MALFORMED)
    }

    method GetLe(n: nat) returns (x: nat)
      requires Valid()
      modifies this
      ensures Moved(n)
      ensures old(err) == 0 && old(pos) + n <= end ==> x == U(data, old(pos), n)
    {
      x := 0;
      if err == 0 {
        if end - pos < n {
          err := MALFORMED;
        } else {
          x := LeValue(data[pos..pos + n]);
          pos := pos + n;
        }
      }
    }

    method GetBe(n: nat) returns (x: nat)
      requires Valid()
      modifies this
      ensures Moved(n)
      ensures old(err) == 0 && old(pos) + n <= end ==> x == BeValue(data[old(pos)..old(pos) + n])
    {
      x := 0;
      if err == 0 {
        if end - pos < n {
          err := MALFORMED;
        } else {
          x := BeValue(data[pos..pos + n]);
          pos := pos + n;
        }
      }
    }

    method Skip(n: nat)
      requires Valid()
      modifies this
      ensures Moved(n)
    {
      if err == 0 {
        if n > end - pos {
          err := MALFORMED;
        } else {
          pos := pos + n;
        }
      }
    }
  }

  method ReadHeader(c: Cursor) returns (h: Header)
    requires c.Valid() && c.err == 0
    modifies c
    ensures c.Valid()
    ensures old(c.pos) + HEADER_SIZE <= c.end ==>
      c.err == 0 && c.pos == old(c.pos) + HEADER_SIZE && h == HeaderAt(c.data, old(c.pos))
    ensures old(c.pos) + HEADER_SIZE > c.end ==> c.err == MALFORMED
  {
    hide LeValue;
    var offset := c.GetLe(8);
    var size := c.GetLe(4);
    var crc := c.GetLe(4);
    var storageClass := c.GetLe(1);
    h := Header(offset, size, crc, storageClass);
  }

  method ReadService(data: seq<byte>, at: nat) returns (s: Service, err: nat)
    requires at + SERVICE_SIZE <= |data|
    ensures err == 0 && s == ServiceAt(data, at)
  {
    hide LeValue, BeValue;
    var c := new Cursor(data, at, at + SERVICE_SIZE);
    var ip1 := c.GetBe(4);
    var port1 := c.GetLe(2);
    var ip2 := c.GetBe(4);
    var port2 := c.GetLe(2);
    var id := c.GetLe(8);
    var flags := c.GetLe(1);
    s, err := Service(ip1, port1, ip2, port2, id, flags), c.err;
  }

  method ReadBlock(c: Cursor) returns (ix: nat, id: nat, crc: nat)
    requires c.Valid() && c.err == 0
    modifies c
    ensures c.Valid() && c.err == if old(c.pos) + BLOCK_SIZE <= c.end then 0 else MALFORMED
    ensures c.err == 0 ==>
      && c.pos == old(c.pos) + BLOCK_SIZE
      && ix == U(c.data, old(c.pos), 1) && id == U(c.data, old(c.pos) + 1, 8) && crc == U(c.data, old(c.pos) + 9, 4)
  {
    hide LeValue;
    ix := c.GetLe(1);
    id := c.GetLe(8);
    crc := c.GetLe(4);
  }

  /** The loop over the blocks of one span, on a cursor of its own. */
  method ReadBlocks(data: seq<byte>, t: Table, at: nat, n: nat) returns (events: seq<Event>, err: nat)
    requires TableIn(data, t) && at + BLOCK_SIZE * n <= |data|
    ensures events == DecodeBlocks(data, t, at, 0, n).events
    ensures err == if DecodeBlocks(data, t, at, 0, n).ok then 0 else MALFORMED
  {
    hide LeValue, BeValue, ServiceAt, DecodeBlocks, U;
    events := [];
    var c := new Cursor(data, at, at + BLOCK_SIZE * n);
    ghost var all := DecodeBlocks(data, t, at, 0, n);
    assert [] + all.events == all.events;
    var j := 0;
    while c.err == 0 && j < n
      invariant 0 <= j <= n && c.Valid() && c.data == data && c.end == at + BLOCK_SIZE * n
      invariant c.err == 0 ==> c.pos == at + BLOCK_SIZE * j
      invariant c.err == 0 ==> all == After(events, DecodeBlocks(data, t, at, j, n))
      invariant c.err != 0 ==> c.err == MALFORMED && all.events == events && !all.ok
    {
      BlocksStep(data, t, at, j, n, events);
      var ix, id, crc := ReadBlock(c);
      if c.err == 0 {
        if ix >= t.count {
          c.err := MALFORMED;
        } else {
          ServiceIn(data, t, ix);
          var s, e := ReadService(data, t.at + SERVICE_SIZE * ix);
          if e == 0 {
            events := events + [BlockFound(j, s, id, crc)];
          }
          c.err := e;
        }
      }
      j := j + 1;
    }
    BlocksEnd(data, t, at, n, events);
    err := c.err;
  }

  /** A result that comes after the given events. */
  function After(events: seq<Event>, r: Result): Result {
    r.(events := events + r.events)
  }

  lemma BlocksStep(data: seq<byte>, t: Table, at: nat, j: nat, n: nat, events: seq<Event>)
    requires TableIn(data, t) && j < n && at + BLOCK_SIZE * n <= |data|
    ensures var p := at + BLOCK_SIZE * j;
      var ix, r := U(data, p, 1), DecodeBlocks(data, t, at, j, n);
      && (ix >= t.count ==> After(events, r).events == events && !After(events, r).ok)
      && (ix < t.count ==>
            && t.at + SERVICE_SIZE * ix + SERVICE_SIZE <= |data|
            && After(events, r) ==
              After(events
                + [BlockFound(j, ServiceAt(data, t.at + SERVICE_SIZE * ix), U(data, p + 1, 8), U(data, p + 9, 4))],
                                         DecodeBlocks(data, t, at, j + 1, n)))
  {
    hide U, ServiceAt;
    var p := at + BLOCK_SIZE * j;
    var ix := U(data, p, 1);
    if ix < t.count {
      ServiceIn(data, t, ix);
      var e := BlockFound(j, ServiceAt(data, t.at + SERVICE_SIZE * ix), U(data, p + 1, 8), U(data, p + 9, 4));
      var rest := DecodeBlocks(data, t, at, j + 1, n);
      assert events + ([e] + rest.events) == events + [e] + rest.events;
    } else {
      assert events + [] == events;
    }
  }

  lemma {:induction false} BlocksEnd(data: seq<byte>, t: Table, at: nat, n: nat, events: seq<Event>)
    requires TableIn(data, t) && at + BLOCK_SIZE * n <= |data|
    ensures After(events, DecodeBlocks(data, t, at, n, n)) == Result(events, at, true)
  {
    assert events + [] == events;
  }

  method ReadInline(c: Cursor, h: Header) returns (events: seq<Event>)
    requires c.Valid() && c.err == 0 && c.end == |c.data|
    modifies c
    ensures var r := DecodeInline(c.data, h, old(c.pos));
      && c.Valid() && events == r.events && c.err == (if r.ok then 0 else MALFORMED) && (r.ok ==> c.pos == r.pos)
  {
    hide LeValue;
    events := [];
    var n := c.GetLe(1);
    if c.err == 0 {
      var from := c.pos;
      c.Skip(n);
      if c.err == 0 {
        events := [InlineSpan(h, c.data[from..from + n])];
      }
    }
  }

  method ReadBlocksSpan(c: Cursor, t: Table, h: Header) returns (events: seq<Event>)
    requires c.Valid() && c.err == 0 && c.end == |c.data| && TableIn(c.data, t)
    modifies c
    ensures var r := DecodeBlocksSpan(c.data, t, h, old(c.pos));
      && c.Valid() && events == r.events && c.err == (if r.ok then 0 else MALFORMED) && (r.ok ==> c.pos == r.pos)
  {
    hide LeValue, DecodeBlocks;
    events := [];
    var parity := c.GetLe(1);
    var stripes := c.GetLe(1);
    var cellSize := c.GetLe(4);
    var n := c.GetLe(2);
    if c.err == 0 && (DataBlocks(parity) == 0 || DataBlocks(parity) > MAX_DATA || ParityBlocks(parity) > MAX_PARITY) {
      c.err := MALFORMED;
    }
    if c.err == 0 && n != DataBlocks(parity) + ParityBlocks(parity) {
      c.err := MALFORMED;
    }
    var at := c.pos;
    if c.err != 0 {
      return;
    }
    c.Skip(BLOCK_SIZE * n);
    var crcs := c.GetLe(2);
    if c.err == 0 {
      c.Skip(4 * crcs);
    }
    if c.err == 0 {
      var blocks, e := ReadBlocks(c.data, t, at, n);
      events := [BlocksSpan(h, Shape(parity, stripes, cellSize))] + blocks;
      c.err := e;
    }
  }

  /** The loop of ternfs_shard_file_spans over `n` spans. */
  method ReadSpans(c: Cursor, t: Table, n: nat) returns (events: seq<Event>)
    requires c.Valid() && c.err == 0 && c.end == |c.data| && TableIn(c.data, t)
    modifies c
    ensures var r := DecodeSpans(c.data, t, old(c.pos), n);
      events == r.events && c.err == (if r.ok then 0 else MALFORMED)
  {
    hide LeValue, DecodeInline, DecodeBlocksSpan, U;
    events := [];
    ghost var all := DecodeSpans(c.data, t, c.pos, n);
    var i := 0;
    while c.err == 0 && i < n
      invariant 0 <= i <= n && c.Valid()
      invariant c.err == 0 ==> var rest := DecodeSpans(c.data, t, c.pos, n - i);
        all == rest.(events := events + rest.events)
      invariant c.err != 0 ==> c.err == MALFORMED && all.events == events && !all.ok
    {
      ghost var p := c.pos;
      var h := ReadHeader(c);
      var found := [];
      if c.err == 0 {
        if h.storageClass == EMPTY_STORAGE {
          c.err := MALFORMED;
        } else if h.storageClass == INLINE_STORAGE {
          found := ReadInline(c, h);
        } else {
          found := ReadBlocksSpan(c, t, h);
        }
      }
      assert found == DecodeSpan(c.data, t, p).events;
      assert c.err == if DecodeSpan(c.data, t, p).ok then 0 else MALFORMED;
      SpansStep(c.data, t, p, n - i, events);
      events := events + found;
      i := i + 1;
    }
  }

  lemma SpansStep(data: seq<byte>, t: Table, at: nat, n: nat, events: seq<Event>)
    requires TableIn(data, t) && n > 0
    ensures var first := DecodeSpan(data, t, at);
      var rest := DecodeSpans(data, t, at, n);
      && (first.ok ==> var next := DecodeSpans(data, t, first.pos, n - 1);
            rest.(events := events + rest.events) == next.(events := (events + first.events) + next.events))
      && (!first.ok ==> rest == first)
  {
    hide DecodeSpan;
    var first := DecodeSpan(data, t, at);
    if first.ok {
      var next := DecodeSpans(data, t, first.pos, n - 1);
      assert events + (first.events + next.events) == (events + first.events) + next.events;
    }
  }

  /** ternfs_shard_file_spans on the body of the response. */
  method FileSpans(data: seq<byte>) returns (d: Decoded)
    ensures d == Decode(data)
  {
    hide LeValue, DecodeSpans;
    var c := new Cursor(data, 0, |data|);
    var nextOffset := c.GetLe(8);
    if c.err != 0 {
      return Decoded(0, [], c.err);
    }
    var services := c.GetLe(2);
    var at := c.pos;
    c.Skip(SERVICE_SIZE * services);
    var n := c.GetLe(2);
    if c.err != 0 {
      return Decoded(nextOffset, [], c.err);
    }
    var events := ReadSpans(c, Table(at, services), n);
    return Decoded(nextOffset, events, c.err);
  }

  // ---------------------------------------------------------------- what any buffer can produce

  /**
   Inside a span of `total` blocks the next block due is `next`; a span is followed by all its blocks, in
   order, unless decoding failed.
   */
  predicate Shaped(events: seq<Event>, next: nat, total: nat, complete: bool) {
    if events == [] then complete ==> next == total
    else match events[0]
      case InlineSpan(h, body) => next == total && h.storageClass == INLINE_STORAGE
        && Shaped(events[1..], 0, 0, complete)
      case BlocksSpan(h, shape) =>
        && next == total && ParityOk(shape.parity) && h.storageClass > INLINE_STORAGE
        && Shaped(events[1..], 0, DataBlocks(shape.parity) + ParityBlocks(shape.parity), complete)
      case BlockFound(j, s, id, crc) => j == next < total <= 16 && Shaped(events[1..], next + 1, total, complete)
  }

  lemma {:induction false} ShapedConcat(a: seq<Event>, b: seq<Event>, next: nat, total: nat, complete: bool)
    requires Shaped(a, next, total, true) && Shaped(b, 0, 0, complete)
    requires a == [] ==> next == 0 && total == 0
    ensures Shaped(a + b, next, total, complete)
    decreases |a|
  {
    if a == [] {
      assert a + b == b;
    } else {
      assert (a + b)[0] == a[0] && (a + b)[1..] == a[1..] + b;
      if a[1..] == [] {
        LastEvent(a, b, next, total, complete);
      } else {
        match a[0] {
          case InlineSpan(h, body) => ShapedConcat(a[1..], b, 0, 0, complete);
          case BlocksSpan(h, shape) =>
            ShapedConcat(a[1..], b, 0, DataBlocks(shape.parity) + ParityBlocks(shape.parity), complete);
          case BlockFound(j, s, id, crc) => ShapedConcat(a[1..], b, next + 1, total, complete);
        }
      }
    }
  }

  lemma {:induction false} LastEvent(a: seq<Event>, b: seq<Event>, next: nat, total: nat, complete: bool)
    requires |a| == 1 && Shaped(a, next, total, true) && Shaped(b, 0, 0, complete)
    ensures Shaped(a + b, next, total, complete)
  {
    assert (a + b)[0] == a[0] && (a + b)[1..] == b;
    match a[0] {
      case BlockFound(j, s, id, crc) => AnyBase(b, total, complete);
      case _ =>
    }
  }

  /** Where a span is finished it does not matter how many blocks it had. */
  lemma {:induction false} AnyBase(b: seq<Event>, n: nat, complete: bool)
    requires Shaped(b, 0, 0, complete)
    ensures Shaped(b, n, n, complete)
  {
  }

  lemma {:induction false} BlocksShaped(data: seq<byte>, t: Table, at: nat, j: nat, n: nat)
    requires TableIn(data, t) && j <= n <= 16 && at + BLOCK_SIZE * n <= |data|
    ensures var r := DecodeBlocks(data, t, at, j, n); Shaped(r.events, j, n, r.ok)
    decreases n - j
  {
    hide U, ServiceAt;
    if j < n {
      var ix := U(data, at + BLOCK_SIZE * j, 1);
      if ix < t.count {
        BlocksShaped(data, t, at, j + 1, n);
        var r, rest := DecodeBlocks(data, t, at, j, n), DecodeBlocks(data, t, at, j + 1, n);
        assert r.events[1..] == rest.events;
      }
    }
  }

  lemma {:induction false} SpanShaped(data: seq<byte>, t: Table, at: nat)
    requires TableIn(data, t)
    ensures var r := DecodeSpan(data, t, at);
      Shaped(r.events, 0, 0, r.ok) && (r.ok ==> r.events != [] && r.pos <= |data|)
  {
    hide U, DecodeBlocks;
    if at + HEADER_SIZE <= |data| {
      var h, p := HeaderAt(data, at), at + HEADER_SIZE;
      if h.storageClass > INLINE_STORAGE && p + 8 <= |data| {
        var n := U(data, p + 6, 2);
        var r := DecodeBlocksSpan(data, t, h, p);
        if r.events != [] {
          BlocksShaped(data, t, p + 8, 0, n);
          assert r.events[1..] == DecodeBlocks(data, t, p + 8, 0, n).events;
        }
      }
    }
  }

  lemma {:induction false} SpansShaped(data: seq<byte>, t: Table, at: nat, n: nat)
    requires TableIn(data, t)
    ensures var r := DecodeSpans(data, t, at, n); Shaped(r.events, 0, 0, r.ok)
    decreases n
  {
    hide DecodeSpan;
    if n > 0 {
      var first := DecodeSpan(data, t, at);
      SpanShaped(data, t, at);
      if first.ok {
        SpansShaped(data, t, first.pos, n - 1);
        var rest := DecodeSpans(data, t, first.pos, n - 1);
        ShapedConcat(first.events, rest.events, 0, 0, rest.ok);
      }
    }
  }

  /**
   For every buffer: blocks come after their span, numbered 0, 1, 2, ... below D + P <= 16, all of them if there is
   no error.
   */
  lemma {:induction false} EventsShaped(data: seq<byte>)
    ensures Shaped(Decode(data).events, 0, 0, Decode(data).err == 0)
    ensures Decode(data).err == 0 || Decode(data).err == MALFORMED
  {
    hide DecodeSpans, U;
    if |data| >= 10 {
      var t := Table(10, U(data, 8, 2));
      var spans := 10 + SERVICE_SIZE * t.count;
      if spans + 2 <= |data| {
        SpansShaped(data, t, spans + 2, U(data, spans, 2));
      }
    }
  }

  // ---------------------------------------------------------------- where every field is, byte by byte

  lemma HeaderBytes(data: seq<byte>, at: nat)
    requires at + HEADER_SIZE <= |data|
    ensures HeaderAt(data, at)
      == Header(Long(data, at), Word(data, at + 8), Word(data, at + 12), data[at + 16] as nat)
  {
    hide LeValue, Long, Word;
    LongIs(data, at);
    WordIs(data, at + 8);
    WordIs(data, at + 12);
    ByteIs(data, at + 16);
  }

  /** Addresses are in network order, everything else is little-endian. */
  lemma ServiceBytes(data: seq<byte>, at: nat)
    requires at + SERVICE_SIZE <= |data|
    ensures ServiceAt(data, at)
      == Service(Network(data, at), Short(data, at + 4), Network(data, at + 6), Short(data, at + 10),
                 Long(data, at + 12), data[at + 20] as nat)
  {
    hide LeValue, BeValue, Long, Short, Network;
    NetworkIs(data, at);
    ShortIs(data, at + 4);
    NetworkIs(data, at + 6);
    ShortIs(data, at + 10);
    LongIs(data, at + 12);
    ByteIs(data, at + 20);
  }

  /** The record of a block: which service, its id there, its checksum. */
  lemma {:induction false} BlockBytes(data: seq<byte>, t: Table, at: nat, j: nat, n: nat)
    requires TableIn(data, t) && j < n && at + BLOCK_SIZE * n <= |data|
    requires data[at + BLOCK_SIZE * j] as nat < t.count
    ensures var p := at + BLOCK_SIZE * j; var s := t.at + SERVICE_SIZE * data[p] as nat;
      && s + SERVICE_SIZE <= |data|
      && |DecodeBlocks(data, t, at, j, n).events| > 0
      && DecodeBlocks(data, t, at, j, n).events[0]
           == BlockFound(j, ServiceAt(data, s), Long(data, p + 1), Word(data, p + 9))
  {
    hide LeValue, Long, Word, ServiceAt;
    var p := at + BLOCK_SIZE * j;
    ByteIs(data, p);
    LongIs(data, p + 1);
    WordIs(data, p + 9);
    ServiceIn(data, t, data[p] as nat);
  }

  /** The shape of a span of blocks, and how much of the message the span takes. */
  lemma ShapeBytes(data: seq<byte>, t: Table, h: Header, at: nat)
    requires TableIn(data, t) && DecodeBlocksSpan(data, t, h, at).ok
    ensures at + 8 <= |data| && at + 8 + BLOCK_SIZE * Short(data, at + 6) + 2 <= |data|
    ensures var r := DecodeBlocksSpan(data, t, h, at); var crcs := at + 8 + BLOCK_SIZE * Short(data, at + 6);
      && r.events != []
      && r.events[0] == BlocksSpan(h, Shape(data[at] as nat, data[at + 1] as nat, Word(data, at + 2)))
      && r.pos == crcs + 2 + 4 * Short(data, crcs)
  {
    hide LeValue, Word, Short, DecodeBlocks;
    ByteIs(data, at);
    ByteIs(data, at + 1);
    WordIs(data, at + 2);
    ShortIs(data, at + 6);
    ShortIs(data, at + 8 + BLOCK_SIZE * Short(data, at + 6));
  }

  // ---------------------------------------------------------------- what the shard sends

  datatype Block = Block(ix: nat, id: nat, crc: nat)

  /** `crcs` is the deprecated list of stripe checksums, which the decoder skips. */
  datatype Span =
    | Inline(header: Header, body: seq<byte>)
    | Blocks(header: Header, shape: Shape, blocks: seq<Block>, crcs: seq<nat>)

  predicate HeaderOk(h: Header) {
    h.offset < U64 && h.size < 0x1_0000_0000 && h.crc < 0x1_0000_0000 && h.storageClass < 256
  }

  predicate ServiceOk(s: Service) {
    s.ip1 < 0x1_0000_0000 && s.port1 < 65536 && s.ip2 < 0x1_0000_0000 && s.port2 < 65536 && s.id < U64 && s.flags < 256
  }

  predicate BlockOk(b: Block, services: nat) {
    b.ix < services && b.ix < 256 && b.id < U64 && b.crc < 0x1_0000_0000
  }

  predicate SpanOk(span: Span, services: nat) {
    && HeaderOk(span.header)
    && match span
       case Inline(h, body) => h.storageClass == INLINE_STORAGE && |body| < 256
       case Blocks(h, shape, blocks, crcs) =>
         && h.storageClass > INLINE_STORAGE && shape.parity < 256 && shape.stripes < 256
           && shape.cellSize < 0x1_0000_0000
         && ParityOk(shape.parity) && |blocks| == DataBlocks(shape.parity) + ParityBlocks(shape.parity)
         && (forall i | 0 <= i < |blocks| :: BlockOk(blocks[i], services))
         && |crcs| < 65536 && forall i | 0 <= i < |crcs| :: crcs[i] < 0x1_0000_0000
  }

  function EncodeHeader(h: Header): (bs: seq<byte>)
    ensures |bs| == HEADER_SIZE
  {
    LeBytes(h.offset, 8) + LeBytes(h.size, 4) + LeBytes(h.crc, 4) + LeBytes(h.storageClass, 1)
  }

  function EncodeService(s: Service): (bs: seq<byte>)
    ensures |bs| == SERVICE_SIZE
  {
    BeBytes(s.ip1, 4) + LeBytes(s.port1, 2) + BeBytes(s.ip2, 4) + LeBytes(s.port2, 2) + LeBytes(s.id, 8)
      + LeBytes(s.flags, 1)
  }

  function EncodeBlock(b: Block): (bs: seq<byte>)
    ensures |bs| == BLOCK_SIZE
  {
    LeBytes(b.ix, 1) + LeBytes(b.id, 8) + LeBytes(b.crc, 4)
  }

  function EncodeServices(ss: seq<Service>): (bs: seq<byte>)
    ensures |bs| == SERVICE_SIZE * |ss|
  {
    if ss == [] then [] else EncodeService(ss[0]) + EncodeServices(ss[1..])
  }

  function EncodeBlocks(bs: seq<Block>): (r: seq<byte>)
    ensures |r| == BLOCK_SIZE * |bs|
  {
    if bs == [] then [] else EncodeBlock(bs[0]) + EncodeBlocks(bs[1..])
  }

  function EncodeCrcs(cs: seq<nat>): (r: seq<byte>)
    ensures |r| == 4 * |cs|
  {
    if cs == [] then [] else LeBytes(cs[0], 4) + EncodeCrcs(cs[1..])
  }

  function EncodeSpan(span: Span): seq<byte> {
    EncodeHeader(span.header) +
    match span
    case Inline(h, body) => LeBytes(|body|, 1) + body
    case Blocks(h, shape, blocks, crcs) =>
      LeBytes(shape.parity, 1) + LeBytes(shape.stripes, 1) + LeBytes(shape.cellSize, 4) + LeBytes(|blocks|, 2)
      + EncodeBlocks(blocks) + LeBytes(|crcs|, 2) + EncodeCrcs(crcs)
  }

  function EncodeSpans(spans: seq<Span>): seq<byte> {
    if spans == [] then [] else EncodeSpan(spans[0]) + EncodeSpans(spans[1..])
  }

  function Encode(next: nat, services: seq<Service>, spans: seq<Span>): seq<byte> {
    LeBytes(next, 8) + LeBytes(|services|, 2) + EncodeServices(services) + LeBytes(|spans|, 2) + EncodeSpans(spans)
  }

  function BlockEvents(blocks: seq<Block>, services: seq<Service>, j: nat): seq<Event>
    requires forall i | 0 <= i < |blocks| :: BlockOk(blocks[i], |services|)
    decreases |blocks| - j
  {
    if j >= |blocks| then []
    else
      assert BlockOk(blocks[j], |services|);
      [BlockFound(j, services[blocks[j].ix], blocks[j].id, blocks[j].crc)] + BlockEvents(blocks, services, j + 1)
  }

  function SpanEvents(span: Span, services: seq<Service>): seq<Event>
    requires SpanOk(span, |services|)
  {
    match span
    case Inline(h, body) => [InlineSpan(h, body)]
    case Blocks(h, shape, blocks, crcs) => [BlocksSpan(h, shape)] + BlockEvents(blocks, services, 0)
  }

  function AllEvents(spans: seq<Span>, services: seq<Service>): seq<Event>
    requires forall i | 0 <= i < |spans| :: SpanOk(spans[i], |services|)
  {
    if spans == [] then [] else SpanEvents(spans[0], services) + AllEvents(spans[1..], services)
  }

  // ---------------------------------------------------------------- the round trip

  /** `part` is found in `data` at `at`. */
  predicate Has(data: seq<byte>, at: nat, part: seq<byte>) {
    at + |part| <= |data| && data[at..at + |part|] == part
  }

  lemma HasConcat(data: seq<byte>, at: nat, a: seq<byte>, b: seq<byte>)
    requires Has(data, at, a + b)
    ensures Has(data, at, a) && Has(data, at + |a|, b)
  {
    var ab := data[at..at + |a + b|];
    assert data[at..at + |a|] == ab[..|a|] == a;
    assert data[at + |a|..at + |a| + |b|] == ab[|a|..] == b;
  }

  lemma {:induction false} GetsLe(data: seq<byte>, at: nat, v: nat, n: nat)
    requires Has(data, at, LeBytes(v, n)) && v < Pow256(n)
    ensures U(data, at, n) == v
  {
    LeRoundTrip(v, n);
  }

  lemma GetsHeader(data: seq<byte>, at: nat, h: Header)
    requires HeaderOk(h) && Has(data, at, EncodeHeader(h))
    ensures HeaderAt(data, at) == h
  {
    hide LeBytes, U, Has;
    Powers();
    HasConcat(data, at, LeBytes(h.offset, 8) + LeBytes(h.size, 4) + LeBytes(h.crc, 4), LeBytes(h.storageClass, 1));
    HasConcat(data, at, LeBytes(h.offset, 8) + LeBytes(h.size, 4), LeBytes(h.crc, 4));
    HasConcat(data, at, LeBytes(h.offset, 8), LeBytes(h.size, 4));
    GetsLe(data, at, h.offset, 8);
    GetsLe(data, at + 8, h.size, 4);
    GetsLe(data, at + 12, h.crc, 4);
    GetsLe(data, at + 16, h.storageClass, 1);
  }

  lemma {:induction false} GetsBe(data: seq<byte>, at: nat, v: nat)
    requires Has(data, at, BeBytes(v, 4)) && v < 0x1_0000_0000
    ensures BeValue(data[at..at + 4]) == v
  {
    Powers();
    BeRoundTrip(v, 4);
  }

  lemma GetsService(data: seq<byte>, at: nat, s: Service)
    requires ServiceOk(s) && Has(data, at, EncodeService(s))
    ensures ServiceAt(data, at) == s
  {
    hide LeBytes, BeBytes, BeValue, U, Has;
    Powers();
    var a, b, c, d := BeBytes(s.ip1, 4), LeBytes(s.port1, 2), BeBytes(s.ip2, 4), LeBytes(s.port2, 2);
    var e, f := LeBytes(s.id, 8), LeBytes(s.flags, 1);
    HasConcat(data, at, a + b + c + d + e, f);
    HasConcat(data, at, a + b + c + d, e);
    HasConcat(data, at, a + b + c, d);
    HasConcat(data, at, a + b, c);
    HasConcat(data, at, a, b);
    GetsBe(data, at, s.ip1);
    GetsLe(data, at + 4, s.port1, 2);
    GetsBe(data, at + 6, s.ip2);
    GetsLe(data, at + 10, s.port2, 2);
    GetsLe(data, at + 12, s.id, 8);
    GetsLe(data, at + 20, s.flags, 1);
  }

  /** The table holds the services. */
  ghost predicate Holds(data: seq<byte>, t: Table, services: seq<Service>) {
    && TableIn(data, t) && t.count == |services|
    && forall k | 0 <= k < |services| ::
         t.at + SERVICE_SIZE * k + SERVICE_SIZE <= |data| && ServiceAt(data, t.at + SERVICE_SIZE * k) == services[k]
  }

  lemma {:induction false} GetsServices(data: seq<byte>, at: nat, services: seq<Service>)
    requires (forall k | 0 <= k < |services| :: ServiceOk(services[k])) && Has(data, at, EncodeServices(services))
    ensures Holds(data, Table(at, |services|), services)
    decreases |services|
  {
    hide ServiceAt, EncodeService, ServiceOk;
    if services != [] {
      HasConcat(data, at, EncodeService(services[0]), EncodeServices(services[1..]));
      GetsService(data, at, services[0]);
      GetsServices(data, at + SERVICE_SIZE, services[1..]);
      forall k | 0 <= k < |services|
        ensures at + SERVICE_SIZE * k + SERVICE_SIZE <= |data| && ServiceAt(data, at + SERVICE_SIZE * k) == services[k]
      {
        if k > 0 {
          assert services[1..][k - 1] == services[k];
          assert at + SERVICE_SIZE + SERVICE_SIZE * (k - 1) == at + SERVICE_SIZE * k;
        }
      }
    }
  }

  lemma GetsBlock(data: seq<byte>, at: nat, b: Block, services: nat)
    requires BlockOk(b, services) && Has(data, at, EncodeBlock(b))
    ensures U(data, at, 1) == b.ix && U(data, at + 1, 8) == b.id && U(data, at + 9, 4) == b.crc
  {
    hide LeBytes, U, Has;
    Powers();
    HasConcat(data, at, LeBytes(b.ix, 1) + LeBytes(b.id, 8), LeBytes(b.crc, 4));
    HasConcat(data, at, LeBytes(b.ix, 1), LeBytes(b.id, 8));
    GetsLe(data, at, b.ix, 1);
    GetsLe(data, at + 1, b.id, 8);
    GetsLe(data, at + 9, b.crc, 4);
  }

  lemma {:induction false} BlockRecord(data: seq<byte>, at: nat, blocks: seq<Block>, j: nat)
    requires Has(data, at, EncodeBlocks(blocks)) && j < |blocks|
    ensures Has(data, at + BLOCK_SIZE * j, EncodeBlock(blocks[j]))
    decreases j
  {
    hide EncodeBlock;
    HasConcat(data, at, EncodeBlock(blocks[0]), EncodeBlocks(blocks[1..]));
    if j > 0 {
      BlockRecord(data, at + BLOCK_SIZE, blocks[1..], j - 1);
      assert at + BLOCK_SIZE + BLOCK_SIZE * (j - 1) == at + BLOCK_SIZE * j;
    }
  }

  lemma {:induction false} GetsBlocks(data: seq<byte>, t: Table, services: seq<Service>, at: nat, blocks: seq<Block>,
    j: nat)
    requires Holds(data, t, services) && Has(data, at, EncodeBlocks(blocks)) && j <= |blocks|
    requires forall i | 0 <= i < |blocks| :: BlockOk(blocks[i], |services|)
    ensures DecodeBlocks(data, t, at, j, |blocks|) == Result(BlockEvents(blocks, services, j), at, true)
    decreases |blocks| - j
  {
    hide ServiceAt, U, EncodeBlock, Has;
    HasLength(data, at, EncodeBlocks(blocks));
    if j < |blocks| {
      BlockRecord(data, at, blocks, j);
      GetsBlock(data, at + BLOCK_SIZE * j, blocks[j], |services|);
      GetsBlocks(data, t, services, at, blocks, j + 1);
    }
  }

  lemma HasLength(data: seq<byte>, at: nat, part: seq<byte>)
    requires Has(data, at, part)
    ensures at + |part| <= |data|
  {
  }

  lemma GetsInline(data: seq<byte>, t: Table, services: seq<Service>, at: nat, span: Span)
    requires span.Inline? && SpanOk(span, |services|) && Holds(data, t, services) && Has(data, at, EncodeSpan(span))
    ensures DecodeSpan(data, t, at) == Result(SpanEvents(span, services), at + |EncodeSpan(span)|, true)
  {
    hide LeBytes, U, HeaderAt, EncodeHeader;
    var n := |span.body|;
    HasConcat(data, at, EncodeHeader(span.header), LeBytes(n, 1) + span.body);
    GetsHeader(data, at, span.header);
    HasConcat(data, at + HEADER_SIZE, LeBytes(n, 1), span.body);
    Powers();
    GetsLe(data, at + HEADER_SIZE, n, 1);
  }

  lemma {:induction false} GetsShape(data: seq<byte>, at: nat, shape: Shape, n: nat, rest: seq<byte>)
    requires shape.parity < 256 && shape.stripes < 256 && shape.cellSize < 0x1_0000_0000 && n < 65536
    requires Has(data, at, LeBytes(shape.parity, 1) + LeBytes(shape.stripes, 1) + LeBytes(shape.cellSize, 4)
      + LeBytes(n, 2) + rest)
    ensures at + 8 <= |data| && Has(data, at + 8, rest)
    ensures U(data, at, 1) == shape.parity && U(data, at + 1, 1) == shape.stripes
      && U(data, at + 2, 4) == shape.cellSize
    ensures U(data, at + 6, 2) == n
  {
    hide LeBytes, U, Has;
    Powers();
    var a, b, c, d := LeBytes(shape.parity, 1), LeBytes(shape.stripes, 1), LeBytes(shape.cellSize, 4), LeBytes(n, 2);
    HasConcat(data, at, a + b + c + d, rest);
    HasLength(data, at, a + b + c + d);
    HasConcat(data, at, a + b + c, d);
    HasConcat(data, at, a + b, c);
    HasConcat(data, at, a, b);
    GetsLe(data, at, shape.parity, 1);
    GetsLe(data, at + 1, shape.stripes, 1);
    GetsLe(data, at + 2, shape.cellSize, 4);
    GetsLe(data, at + 6, n, 2);
  }

  lemma GetsBlocksSpan(data: seq<byte>, t: Table, services: seq<Service>, at: nat, span: Span)
    requires span.Blocks? && SpanOk(span, |services|) && Holds(data, t, services) && Has(data, at, EncodeSpan(span))
    ensures DecodeSpan(data, t, at) == Result(SpanEvents(span, services), at + |EncodeSpan(span)|, true)
  {
    hide LeBytes, U, HeaderAt, EncodeHeader, Has, Holds, EncodeBlocks, EncodeCrcs, BlockEvents, DecodeBlocks;
    var shape, blocks, crcs := span.shape, span.blocks, span.crcs;
    var fixed := LeBytes(shape.parity, 1) + LeBytes(shape.stripes, 1) + LeBytes(shape.cellSize, 4)
      + LeBytes(|blocks|, 2);
    var bs, cs := EncodeBlocks(blocks), LeBytes(|crcs|, 2) + EncodeCrcs(crcs);
    assert EncodeSpan(span) == EncodeHeader(span.header) + (fixed + (bs + cs));
    HasConcat(data, at, EncodeHeader(span.header), fixed + (bs + cs));
    GetsHeader(data, at, span.header);
    var p := at + HEADER_SIZE;
    GetsShape(data, p, shape, |blocks|, bs + cs);
    HasConcat(data, p + 8, bs, cs);
    GetsBlocks(data, t, services, p + 8, blocks, 0);
    var q := p + 8 + BLOCK_SIZE * |blocks|;
    HasConcat(data, q, LeBytes(|crcs|, 2), EncodeCrcs(crcs));
    HasLength(data, q + 2, EncodeCrcs(crcs));
    Powers();
    GetsLe(data, q, |crcs|, 2);
    TableKept(data, t, services);
  }

  lemma TableKept(data: seq<byte>, t: Table, services: seq<Service>)
    requires Holds(data, t, services)
    ensures TableIn(data, t)
  {
  }

  lemma GetsSpan(data: seq<byte>, t: Table, services: seq<Service>, at: nat, span: Span)
    requires SpanOk(span, |services|) && Holds(data, t, services) && Has(data, at, EncodeSpan(span))
    ensures DecodeSpan(data, t, at) == Result(SpanEvents(span, services), at + |EncodeSpan(span)|, true)
  {
    hide *;
    match span {
      case Inline(_, _) => GetsInline(data, t, services, at, span);
      case Blocks(_, _, _, _) => GetsBlocksSpan(data, t, services, at, span);
    }
  }

  lemma {:induction false} GetsSpans(data: seq<byte>, t: Table, services: seq<Service>, at: nat, spans: seq<Span>)
    requires Holds(data, t, services) && Has(data, at, EncodeSpans(spans))
    requires forall i | 0 <= i < |spans| :: SpanOk(spans[i], |services|)
    ensures DecodeSpans(data, t, at, |spans|) == Result(AllEvents(spans, services), at + |EncodeSpans(spans)|, true)
    decreases |spans|
  {
    hide EncodeSpan, Has, Holds, SpanOk, SpanEvents, DecodeSpan;
    TableKept(data, t, services);
    if spans != [] {
      HasConcat(data, at, EncodeSpan(spans[0]), EncodeSpans(spans[1..]));
      GetsSpan(data, t, services, at, spans[0]);
      GetsSpans(data, t, services, at + |EncodeSpan(spans[0])|, spans[1..]);
    }
  }

  /** What the shard may send. */
  predicate ListOk(next: nat, services: seq<Service>, spans: seq<Span>) {
    && next < U64 && |services| < 65536 && |spans| < 65536
    && (forall k | 0 <= k < |services| :: ServiceOk(services[k]))
    && (forall i | 0 <= i < |spans| :: SpanOk(spans[i], |services|))
  }

  /**
   Decoding what the shard encoded reports exactly its spans and their blocks, in order; trailing bytes are ignored.
   */
  lemma {:induction false} RoundTrip(next: nat, services: seq<Service>, spans: seq<Span>, extra: seq<byte>)
    requires ListOk(next, services, spans)
    ensures Decode(Encode(next, services, spans) + extra) == Decoded(next, AllEvents(spans, services), 0)
  {
    hide LeBytes, U, EncodeServices, EncodeSpans, ServiceOk, SpanOk, AllEvents, DecodeSpans;
    var data := Encode(next, services, spans) + extra;
    var a, b, c, d, e := LeBytes(next, 8), LeBytes(|services|, 2), EncodeServices(services), LeBytes(|spans|, 2),
      EncodeSpans(spans);
    assert Has(data, 0, a + b + c + d + e);
    hide Has;
    HasConcat(data, 0, a + b + c + d, e);
    HasConcat(data, 0, a + b + c, d);
    HasConcat(data, 0, a + b, c);
    HasConcat(data, 0, a, b);
    Powers();
    GetsLe(data, 0, next, 8);
    GetsLe(data, 8, |services|, 2);
    GetsServices(data, 10, services);
    var p := 10 + SERVICE_SIZE * |services|;
    GetsLe(data, p, |spans|, 2);
    GetsSpans(data, Table(10, |services|), services, p + 2, spans);
  }

  // ---------------------------------------------------------------- what decodes was encoded

  lemma HasJoin(data: seq<byte>, at: nat, a: seq<byte>, b: seq<byte>)
    requires Has(data, at, a) && Has(data, at + |a|, b)
    ensures Has(data, at, a + b)
  {
    assert data[at..at + |a| + |b|] == data[at..at + |a|] + data[at + |a|..at + |a| + |b|];
  }

  lemma {:induction false} FoundLe(data: seq<byte>, at: nat, n: nat)
    requires at + n <= |data|
    ensures Has(data, at, LeBytes(U(data, at, n), n)) && U(data, at, n) < Pow256(n)
  {
    LeInverse(data[at..at + n]);
  }

  lemma {:induction false} FoundBe(data: seq<byte>, at: nat)
    requires at + 4 <= |data|
    ensures Has(data, at, BeBytes(BeValue(data[at..at + 4]), 4)) && BeValue(data[at..at + 4]) < 0x1_0000_0000
  {
    Powers();
    BeInverse(data[at..at + 4]);
  }

  lemma FoundHeader(data: seq<byte>, at: nat)
    requires at + HEADER_SIZE <= |data|
    ensures HeaderOk(HeaderAt(data, at)) && Has(data, at, EncodeHeader(HeaderAt(data, at)))
  {
    hide LeBytes, U, Has;
    Powers();
    FoundLe(data, at, 8);
    FoundLe(data, at + 8, 4);
    FoundLe(data, at + 12, 4);
    FoundLe(data, at + 16, 1);
    var h := HeaderAt(data, at);
    HasJoin(data, at, LeBytes(h.offset, 8), LeBytes(h.size, 4));
    HasJoin(data, at, LeBytes(h.offset, 8) + LeBytes(h.size, 4), LeBytes(h.crc, 4));
    HasJoin(data, at, LeBytes(h.offset, 8) + LeBytes(h.size, 4) + LeBytes(h.crc, 4), LeBytes(h.storageClass, 1));
  }

  lemma FoundService(data: seq<byte>, at: nat)
    requires at + SERVICE_SIZE <= |data|
    ensures ServiceOk(ServiceAt(data, at)) && Has(data, at, EncodeService(ServiceAt(data, at)))
  {
    hide LeBytes, BeBytes, BeValue, U, Has;
    Powers();
    FoundBe(data, at);
    FoundLe(data, at + 4, 2);
    FoundBe(data, at + 6);
    FoundLe(data, at + 10, 2);
    FoundLe(data, at + 12, 8);
    FoundLe(data, at + 20, 1);
    var s := ServiceAt(data, at);
    var a, b, c, d := BeBytes(s.ip1, 4), LeBytes(s.port1, 2), BeBytes(s.ip2, 4), LeBytes(s.port2, 2);
    var e, f := LeBytes(s.id, 8), LeBytes(s.flags, 1);
    HasJoin(data, at, a, b);
    HasJoin(data, at, a + b, c);
    HasJoin(data, at, a + b + c, d);
    HasJoin(data, at, a + b + c + d, e);
    HasJoin(data, at, a + b + c + d + e, f);
  }

  lemma HasNothing(data: seq<byte>, at: nat)
    requires at <= |data|
    ensures Has(data, at, [])
  {
  }

  lemma {:induction false} FoundServices(data: seq<byte>, at: nat, n: nat) returns (services: seq<Service>)
    requires at + SERVICE_SIZE * n <= |data|
    ensures |services| == n && Has(data, at, EncodeServices(services))
    ensures forall k | 0 <= k < n :: ServiceOk(services[k])
    decreases n
  {
    hide EncodeService, ServiceAt, ServiceOk, Has;
    HasNothing(data, at);
    services := [];
    if n > 0 {
      FoundService(data, at);
      var rest := FoundServices(data, at + SERVICE_SIZE, n - 1);
      services := [ServiceAt(data, at)] + rest;
      assert services[1..] == rest;
      HasJoin(data, at, EncodeService(services[0]), EncodeServices(rest));
    }
  }

  lemma FoundBlock(data: seq<byte>, at: nat, services: nat) returns (b: Block)
    requires at + BLOCK_SIZE <= |data| && U(data, at, 1) < services
    ensures BlockOk(b, services) && Has(data, at, EncodeBlock(b))
  {
    hide LeBytes, U, Has;
    Powers();
    FoundLe(data, at, 1);
    FoundLe(data, at + 1, 8);
    FoundLe(data, at + 9, 4);
    b := Block(U(data, at, 1), U(data, at + 1, 8), U(data, at + 9, 4));
    HasJoin(data, at, LeBytes(b.ix, 1), LeBytes(b.id, 8));
    HasJoin(data, at, LeBytes(b.ix, 1) + LeBytes(b.id, 8), LeBytes(b.crc, 4));
  }

  /** Blocks `j` to `n`. */
  lemma {:induction false} FoundBlocks(data: seq<byte>, t: Table, at: nat, j: nat, n: nat) returns (blocks: seq<Block>)
    requires TableIn(data, t) && j <= n && at + BLOCK_SIZE * n <= |data| && DecodeBlocks(data, t, at, j, n).ok
    ensures |blocks| == n - j && Has(data, at + BLOCK_SIZE * j, EncodeBlocks(blocks))
    ensures forall i | 0 <= i < |blocks| :: BlockOk(blocks[i], t.count)
    decreases n - j
  {
    hide EncodeBlock, ServiceAt, BlockOk, U, Has;
    HasNothing(data, at + BLOCK_SIZE * j);
    blocks := [];
    if j < n {
      var b := FoundBlock(data, at + BLOCK_SIZE * j, t.count);
      var rest := FoundBlocks(data, t, at, j + 1, n);
      blocks := [b] + rest;
      assert blocks[1..] == rest;
      HasJoin(data, at + BLOCK_SIZE * j, EncodeBlock(b), EncodeBlocks(rest));
    }
  }

  lemma {:induction false} FoundCrcs(data: seq<byte>, at: nat, n: nat) returns (crcs: seq<nat>)
    requires at + 4 * n <= |data|
    ensures |crcs| == n && Has(data, at, EncodeCrcs(crcs)) && forall i | 0 <= i < n :: crcs[i] < 0x1_0000_0000
    decreases n
  {
    hide LeBytes, U, Has;
    HasNothing(data, at);
    crcs := [];
    if n > 0 {
      Powers();
      FoundLe(data, at, 4);
      var rest := FoundCrcs(data, at + 4, n - 1);
      crcs := [U(data, at, 4)] + rest;
      assert crcs[1..] == rest;
      HasJoin(data, at, LeBytes(crcs[0], 4), EncodeCrcs(rest));
    }
  }

  lemma FoundInline(data: seq<byte>, t: Table, at: nat) returns (span: Span)
    requires TableIn(data, t) && DecodeSpan(data, t, at).ok && HeaderAt(data, at).storageClass == INLINE_STORAGE
    ensures SpanOk(span, t.count) && Has(data, at, EncodeSpan(span))
    ensures DecodeSpan(data, t, at).pos == at + |EncodeSpan(span)|
  {
    hide LeBytes, U, HeaderAt, EncodeHeader, Has;
    var h, p := HeaderAt(data, at), at + HEADER_SIZE;
    var n := U(data, p, 1);
    FoundHeader(data, at);
    FoundLe(data, p, 1);
    Powers();
    span := Inline(h, data[p + 1..p + 1 + n]);
    HasPart(data, p + 1, n);
    HasJoin(data, p, LeBytes(n, 1), span.body);
    HasJoin(data, at, EncodeHeader(h), LeBytes(n, 1) + span.body);
  }

  lemma HasPart(data: seq<byte>, at: nat, n: nat)
    requires at + n <= |data|
    ensures Has(data, at, data[at..at + n])
  {
  }

  lemma FoundShape(data: seq<byte>, at: nat)
    requires at + 8 <= |data|
    ensures U(data, at, 1) < 256 && U(data, at + 1, 1) < 256 && U(data, at + 2, 4) < 0x1_0000_0000
    ensures Has(data, at, LeBytes(U(data, at, 1), 1) + LeBytes(U(data, at + 1, 1), 1) + LeBytes(U(data, at + 2, 4), 4)
                          + LeBytes(U(data, at + 6, 2), 2))
  {
    hide LeBytes, U, Has;
    Powers();
    FoundLe(data, at, 1);
    FoundLe(data, at + 1, 1);
    FoundLe(data, at + 2, 4);
    FoundLe(data, at + 6, 2);
    var a, b, c, d := LeBytes(U(data, at, 1), 1), LeBytes(U(data, at + 1, 1), 1), LeBytes(U(data, at + 2, 4), 4),
      LeBytes(U(data, at + 6, 2), 2);
    HasJoin(data, at, a, b);
    HasJoin(data, at, a + b, c);
    HasJoin(data, at, a + b + c, d);
  }

  lemma FoundBlocksSpan(data: seq<byte>, t: Table, at: nat) returns (span: Span)
    requires TableIn(data, t) && DecodeSpan(data, t, at).ok && HeaderAt(data, at).storageClass > INLINE_STORAGE
    ensures SpanOk(span, t.count) && Has(data, at, EncodeSpan(span))
    ensures DecodeSpan(data, t, at).pos == at + |EncodeSpan(span)|
  {
    hide LeBytes, U, HeaderAt, EncodeHeader, Has, EncodeBlocks, EncodeCrcs, DecodeBlocks, BlockOk;
    var h, p := HeaderAt(data, at), at + HEADER_SIZE;
    var n := U(data, p + 6, 2);
    var q := p + 8 + BLOCK_SIZE * n;
    var m := U(data, q, 2);
    FoundHeader(data, at);
    FoundShape(data, p);
    var blocks := FoundBlocks(data, t, p + 8, 0, n);
    FoundLe(data, q, 2);
    var crcs := FoundCrcs(data, q + 2, m);
    Powers();
    var shape := Shape(U(data, p, 1), U(data, p + 1, 1), U(data, p + 2, 4));
    span := Blocks(h, shape, blocks, crcs);
    var fixed := LeBytes(shape.parity, 1) + LeBytes(shape.stripes, 1) + LeBytes(shape.cellSize, 4) + LeBytes(n, 2);
    HasJoin(data, p, fixed, EncodeBlocks(blocks));
    HasJoin(data, p, fixed + EncodeBlocks(blocks), LeBytes(m, 2));
    HasJoin(data, p, fixed + EncodeBlocks(blocks) + LeBytes(m, 2), EncodeCrcs(crcs));
    HasJoin(data, at, EncodeHeader(h), fixed + EncodeBlocks(blocks) + LeBytes(m, 2) + EncodeCrcs(crcs));
  }

  lemma FoundSpan(data: seq<byte>, t: Table, at: nat) returns (span: Span)
    requires TableIn(data, t) && DecodeSpan(data, t, at).ok
    ensures SpanOk(span, t.count) && Has(data, at, EncodeSpan(span))
    ensures DecodeSpan(data, t, at).pos == at + |EncodeSpan(span)|
  {
    hide SpanOk, EncodeSpan, Has, DecodeInline, DecodeBlocksSpan;
    if HeaderAt(data, at).storageClass == INLINE_STORAGE {
      span := FoundInline(data, t, at);
    } else {
      span := FoundBlocksSpan(data, t, at);
    }
  }

  lemma {:induction false} FoundSpans(data: seq<byte>, t: Table, at: nat, n: nat) returns (spans: seq<Span>)
    requires TableIn(data, t) && DecodeSpans(data, t, at, n).ok && at <= |data|
    ensures |spans| == n && Has(data, at, EncodeSpans(spans))
    ensures forall i | 0 <= i < n :: SpanOk(spans[i], t.count)
    decreases n
  {
    hide EncodeSpan, Has, SpanOk, DecodeSpan;
    HasNothing(data, at);
    spans := [];
    if n > 0 {
      var first := FoundSpan(data, t, at);
      HasLength(data, at, EncodeSpan(first));
      var rest := FoundSpans(data, t, DecodeSpan(data, t, at).pos, n - 1);
      spans := [first] + rest;
      assert spans[1..] == rest;
      HasJoin(data, at, EncodeSpan(first), EncodeSpans(rest));
    }
  }

  /** `data` is a list that the shard may send, followed by `extra`. */
  predicate IsList(data: seq<byte>, next: nat, services: seq<Service>, spans: seq<Span>, extra: seq<byte>) {
    ListOk(next, services, spans) && data == Encode(next, services, spans) + extra
  }

  lemma {:induction false} Found(data: seq<byte>)
    returns (next: nat, services: seq<Service>, spans: seq<Span>, extra: seq<byte>)
    requires Decode(data).err == 0
    ensures IsList(data, next, services, spans, extra)
  {
    hide LeBytes, U, EncodeServices, EncodeSpans, ServiceOk, SpanOk, DecodeSpans;
    next := U(data, 0, 8);
    var n := U(data, 8, 2);
    var p := 10 + SERVICE_SIZE * n;
    var m := U(data, p, 2);
    Powers();
    FoundLe(data, 0, 8);
    FoundLe(data, 8, 2);
    services := FoundServices(data, 10, n);
    FoundLe(data, p, 2);
    spans := FoundSpans(data, Table(10, n), p + 2, m);
    var a, b, c, d, e := LeBytes(next, 8), LeBytes(n, 2), EncodeServices(services), LeBytes(m, 2), EncodeSpans(spans);
    HasJoin(data, 0, a, b);
    HasJoin(data, 0, a + b, c);
    HasJoin(data, 0, a + b + c, d);
    HasJoin(data, 0, a + b + c + d, e);
    extra := data[|a + b + c + d + e|..];
    assert data == data[..|a + b + c + d + e|] + extra;
  }

  /** A buffer is accepted if and only if it begins with a list that the shard may send. */
  lemma {:induction false} AcceptsIffEncoded(data: seq<byte>)
    ensures Decode(data).err == 0 <==> exists next, services, spans, extra :: IsList(data, next, services, spans, extra)
  {
    hide Decode, Encode, ListOk;
    if Decode(data).err == 0 {
      var next, services, spans, extra := Found(data);
      assert IsList(data, next, services, spans, extra);
    }
    if exists next, services, spans, extra :: IsList(data, next, services, spans, extra) {
      var next, services, spans, extra :| IsList(data, next, services, spans, extra);
      RoundTrip(next, services, spans, extra);
    }
  }
}
