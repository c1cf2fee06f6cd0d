/**
 Receiving block fetch responses from a TCP stream.  The receiver keeps a cursor per request and is
 handed the stream in arbitrary segments; it must behave as if it had parsed each whole response.
 The reference is the reading of one byte at a time.
 */
module BlockStream {
  import opened Common
  import opened Bytes
  import opened PageOrder

  const PAGE_CRC_BYTES: nat := 4
  const RESP_HEADER_SIZE: nat := 5
  const ERROR_SIZE: nat := 7                       // the header and a 16-bit error code
  const RESP_PROTOCOL_VERSION: nat := 0x14f4c42

  /** The receiving state of one fetch request; `err` is the error code, 0 for none. */
  datatype Rx = Rx(header: seq<byte>, left: int, err: nat, inCrc: bool, off: nat, pages: seq<FetchPage>, withCrc: bool)

  // ---------------------------------------------------------------- one byte at a time

  predicate HeaderDone(r: Rx) {
    |r.header| >= RESP_HEADER_SIZE
  }

  predicate BadProtocol(r: Rx) {
    HeaderDone(r) && LeValue(r.header[..4]) != RESP_PROTOCOL_VERSION
  }

  predicate IsError(r: Rx) {
    HeaderDone(r) && r.header[4] == 0
  }

  predicate InHeader(r: Rx) {
    !HeaderDone(r) || (IsError(r) && |r.header| < ERROR_SIZE)
  }

  predicate Done(r: Rx) {
    r.left == 0 || r.err != 0
  }

  /** An error response with code 0 leaves the request neither done nor able to take a byte. */
  predicate Stuck(r: Rx) {
    IsError(r) && |r.header| == ERROR_SIZE && !Done(r)
  }

  predicate Halted(r: Rx) {
    Done(r) || Stuck(r) || BadProtocol(r)
  }

  predicate Waiting(r: Rx) {
    Valid(r) && !Done(r) && !BadProtocol(r)
  }

  function ReadSize(inCrc: bool): nat {
    if inCrc then PAGE_CRC_BYTES else PAGE_SIZE
  }

  predicate PageOk(p: FetchPage) {
    |p.data| == PAGE_SIZE && |p.crc| == PAGE_CRC_BYTES
  }

  /** No body byte has been read yet while the header is incomplete or the response is an error. */
  predicate Valid(r: Rx) {
    && |r.header| <= ERROR_SIZE
    && (|r.header| > RESP_HEADER_SIZE ==> IsError(r))
    && r.pages != [] && (forall i | 0 <= i < |r.pages| :: PageOk(r.pages[i]))
    && r.off < ReadSize(r.inCrc)
    && r.left >= 0
    && (|r.header| < ERROR_SIZE ==> r.err == 0) && (|r.header| == ERROR_SIZE ==> r.err == LeValue(r.header[5..]))
    && (!HeaderDone(r) || IsError(r) ==> r.left + |r.header| > ERROR_SIZE)
  }

  function Store(p: FetchPage, inCrc: bool, off: nat, d: seq<byte>): FetchPage
    requires PageOk(p) && off + |d| <= ReadSize(inCrc)
    ensures PageOk(Store(p, inCrc, off, d))
  {
    if inCrc then p.(crc := p.crc[..off] + d + p.crc[off + |d|..])
    else p.(data := p.data[..off] + d + p.data[off + |d|..])
  }

  /** The bytes `d` go to the current page; a completed part moves the cursor on. */
  function PutBody(r: Rx, d: seq<byte>): (r': Rx)
    requires Valid(r) && !InHeader(r) && r.off + |d| <= ReadSize(r.inCrc) && |d| <= r.left
    requires !IsError(r)
    ensures Valid(r')
  {
    var pages := r.pages[0 := Store(r.pages[0], r.inCrc, r.off, d)];
    var r1 := r.(pages := pages, left := r.left - |d|, off := r.off + |d|);
    if r.off + |d| < ReadSize(r.inCrc) then r1
    else if !r.inCrc && r.withCrc then r1.(off := 0, inCrc := true)
    else r1.(off := 0, inCrc := false, pages := RotateLeft(pages))
  }

  function PutHeader(r: Rx, d: seq<byte>): (r': Rx)
    requires Valid(r) && InHeader(r) && (|r.header| + |d| <= if HeaderDone(r) then ERROR_SIZE else RESP_HEADER_SIZE)
    ensures Valid(r')
  {
    var r1 := r.(header := r.header + d, left := r.left - |d|);
    if IsError(r1) && |r1.header| == ERROR_SIZE && r.err == 0 then r1.(err := LeValue(r1.header[5..])) else r1
  }

  function Feed(r: Rx, b: byte): (r': Rx)
    requires Valid(r) && !Halted(r)
    ensures Valid(r')
  {
    if InHeader(r) then PutHeader(r, [b]) else PutBody(r, [b])
  }

  /** Reads bytes until the request halts or the data ends; also how many it took. */
  function Run(r: Rx, data: seq<byte>): (res: (Rx, nat))
    requires Valid(r)
    ensures Valid(res.0) && res.1 <= |data|
    ensures res.1 < |data| ==> Halted(res.0)
    decreases |data|
  {
    if data == [] || Halted(r) then (r, 0)
    else
      var res := Run(Feed(r, data[0]), data[1..]);
      (res.0, res.1 + 1)
  }

  lemma {:induction false} RunConcat(r: Rx, a: seq<byte>, b: seq<byte>)
    requires Valid(r) && Run(r, a).1 == |a|
    ensures Run(r, a + b) == (Run(Run(r, a).0, b).0, |a| + Run(Run(r, a).0, b).1)
    decreases |a|
  {
    hide Feed, Halted, Valid;
    if a == [] {
      assert a + b == b;
    } else {
      assert (a + b)[0] == a[0] && (a + b)[1..] == a[1..] + b;
      RunConcat(Feed(r, a[0]), a[1..], b);
    }
  }

  // ---------------------------------------------------------------- whole chunks

  lemma {:induction false} HeaderChunk(r: Rx, d: seq<byte>)
    requires Valid(r) && InHeader(r) && !Halted(r) && d != []
    requires |r.header| + |d| <= if HeaderDone(r) then ERROR_SIZE else RESP_HEADER_SIZE
    ensures Run(r, d) == (PutHeader(r, d), |d|)
    decreases |d|
  {
    var r1 := PutHeader(r, d[..1]);
    assert d[..1] == [d[0]];
    if |d| == 1 {
      assert d == [d[0]];
    } else {
      assert r.header + d == r.header + [d[0]] + d[1..];
      assert HeaderDone(r1) ==> r1.header[..4] == r.header[..4];
      HeaderChunk(r1, d[1..]);
    }
  }

  lemma StoreTwice(p: FetchPage, inCrc: bool, off: nat, b: byte, d: seq<byte>)
    requires PageOk(p) && off + 1 + |d| <= ReadSize(inCrc)
    ensures Store(Store(p, inCrc, off, [b]), inCrc, off + 1, d) == Store(p, inCrc, off, [b] + d)
  {
    var was := if inCrc then p.crc else p.data;
    var one := was[..off] + [b] + was[off + 1..];
    assert one[..off + 1] + d + one[off + 1 + |d|..] == was[..off] + ([b] + d) + was[off + 1 + |d|..];
  }

  lemma {:induction false} BodyChunk(r: Rx, d: seq<byte>)
    requires Valid(r) && !InHeader(r) && !Halted(r) && d != []
    requires r.off + |d| <= ReadSize(r.inCrc) && |d| <= r.left
    ensures Run(r, d) == (PutBody(r, d), |d|)
    decreases |d|
  {
    hide LeValue, Store;
    if |d| == 1 {
      assert d == [d[0]];
    } else {
      var r1 := PutBody(r, [d[0]]);
      StoreTwice(r.pages[0], r.inCrc, r.off, d[0], d[1..]);
      assert [d[0]] + d[1..] == d;
      BodyChunk(r1, d[1..]);
      assert PutBody(r1, d[1..]) == PutBody(r, d);
    }
  }

  /** What reading all of `data` comes to when `r` is the state after its first `n` bytes. */
  function Resumed(r: Rx, data: seq<byte>, n: nat): (Rx, nat)
    requires Valid(r) && n <= |data|
  {
    var res := Run(r, data[n..]);
    (res.0, n + res.1)
  }

  lemma RunEnds(r: Rx, data: seq<byte>, n: nat)
    requires Valid(r) && n <= |data| && (n == |data| || Halted(r))
    ensures Resumed(r, data, n) == (r, n)
  {
  }

  lemma {:induction false} Unread(r: Rx, data: seq<byte>)
    requires Valid(r)
    ensures Run(r, data) == Resumed(r, data, 0)
  {
    assert data[0..] == data;
  }

  lemma NoHeader(r: Rx)
    requires Valid(r) && InHeader(r)
    ensures PutHeader(r, []) == r
  {
    assert r.header + [] == r.header;
  }

  lemma HeaderPut(r: Rx, d: seq<byte>)
    requires Valid(r) && |r.header| + |d| <= RESP_HEADER_SIZE && |r.header| < RESP_HEADER_SIZE
    ensures PutHeader(r, d) == r.(header := r.header + d, left := r.left - |d|)
  {
  }

  lemma {:induction false} HeaderStep(r: Rx, data: seq<byte>, n: nat)
    requires Valid(r) && InHeader(r) && !Halted(r)
    requires n <= |data| && |r.header| + n <= if HeaderDone(r) then ERROR_SIZE else RESP_HEADER_SIZE
    ensures Run(r, data) == Resumed(PutHeader(r, data[..n]), data, n)
  {
    hide Run, Halted, InHeader, Valid, PutHeader, HeaderDone;
    if n == 0 {
      assert data[..0] == [] && data[0..] == data && r.header + [] == r.header;
      assert PutHeader(r, []) == r by {
        NoHeader(r);
      }
    } else {
      HeaderChunk(r, data[..n]);
      RunConcat(r, data[..n], data[n..]);
      assert data[..n] + data[n..] == data;
    }
  }

  lemma BodyStep(r: Rx, data: seq<byte>, n: nat, k: nat)
    requires Valid(r) && !InHeader(r) && !Halted(r)
    requires 0 < k && n + k <= |data| && r.off + k <= ReadSize(r.inCrc) && k <= r.left
    ensures Resumed(r, data, n) == Resumed(PutBody(r, data[n..n + k]), data, n + k)
  {
    hide Run, PutBody, Halted, InHeader;
    var d := data[n..n + k];
    BodyChunk(r, d);
    RunConcat(r, d, data[n + k..]);
    assert d + data[n + k..] == data[n..];
  }

  // ---------------------------------------------------------------- what a partial transfer leaves

  /** The bytes a page takes from the stream, and how many of them the current page has. */
  function PartLen(withCrc: bool): nat {
    PAGE_SIZE + if withCrc then PAGE_CRC_BYTES else 0
  }

  function InPart(r: Rx): nat {
    r.off + if r.inCrc then PAGE_SIZE else 0
  }

  /** The body bytes read between two states of a request. */
  function BodyRead(r0: Rx, r1: Rx): int {
    r0.left + |r0.header| - r1.left - |r1.header|
  }

  function NextIn(k: nat, n: nat): nat {
    if k + 1 == n then 0 else k + 1
  }

  /** The list is `base` turned once for every page of the first `pos` body bytes, and the cursor agrees. */
  predicate TurnedTo(r: Rx, base: seq<FetchPage>, pos: nat) {
    && base != [] && (r.inCrc ==> r.withCrc) && InPart(r) == pos % PartLen(r.withCrc)
    && SamePages(r.pages, Rotated(base, Turns(pos, r.withCrc, |base|)))
  }

  /** How far a list of `n` pages is turned after `pos` body bytes. */
  function Turns(pos: nat, withCrc: bool, n: nat): (k: nat)
    requires n > 0
    ensures k < n
  {
    (pos / PartLen(withCrc)) % n
  }

  lemma ModNext(q: nat, n: nat)
    requires n > 0
    ensures (q + 1) % n == NextIn(q % n, n)
  {
    var d := q / n;
    assert q == d * n + q % n;
    if q % n + 1 == n {
      assert (d + 1) * n == d * n + n;
      QuotientIs(q + 1, d + 1, 0, n);
    } else {
      QuotientIs(q + 1, d, q % n + 1, n);
    }
  }

  /** One more body byte finishes a page or does not. */
  lemma TurnsNext(pos: nat, withCrc: bool, n: nat)
    requires n > 0
    ensures
      var len, k := PartLen(withCrc), Turns(pos, withCrc, n);
      if pos % len + 1 == len then (pos + 1) % len == 0 && Turns(pos + 1, withCrc, n) == NextIn(k, n)
      else (pos + 1) % len == pos % len + 1 && Turns(pos + 1, withCrc, n) == k
  {
    var q := pos / PartLen(withCrc);
    ModNext(q, n);
    assert (pos + 1) / PartLen(withCrc) == if pos % PartLen(withCrc) + 1 == PartLen(withCrc) then q + 1 else q;
  }

  lemma SameTurned(a: seq<FetchPage>, b: seq<FetchPage>)
    requires SamePages(a, b) && a != []
    ensures SamePages(RotateLeft(a), RotateLeft(b))
  {
    var x, y := RotateLeft(a), RotateLeft(b);
    forall i | 0 <= i < |a| ensures x[i].id == y[i].id && x[i].index == y[i].index {
      assert x[i] == if i + 1 < |a| then a[i + 1] else a[0];
      assert y[i] == if i + 1 < |b| then b[i + 1] else b[0];
    }
  }

  lemma SameRotated(pages: seq<FetchPage>, base: seq<FetchPage>, k: nat)
    requires k < |base| && SamePages(pages, Rotated(base, k))
    ensures SamePages(RotateLeft(pages), Rotated(base, NextIn(k, |base|)))
  {
    hide SamePages, Rotated, RotateLeft;
    assert |pages| == |base| by { SameLength(pages, Rotated(base, k)); }
    SameTurned(pages, Rotated(base, k));
    RotatedNext(base, k);
    RotatedFull(base);
  }

  lemma SameLength(a: seq<FetchPage>, b: seq<FetchPage>)
    requires SamePages(a, b)
    ensures |a| == |b|
  {
  }

  lemma StoreKeepsPages(pages: seq<FetchPage>, turned: seq<FetchPage>, inCrc: bool, off: nat, d: seq<byte>)
    requires pages != [] && PageOk(pages[0]) && off + |d| <= ReadSize(inCrc) && SamePages(pages, turned)
    ensures SamePages(pages[0 := Store(pages[0], inCrc, off, d)], turned)
  {
  }

  lemma {:induction false} FeedTurns(r: Rx, b: byte, base: seq<FetchPage>, pos: nat)
    requires Valid(r) && !Halted(r) && TurnedTo(r, base, pos)
    ensures var r' := Feed(r, b);
      0 <= BodyRead(r, r') <= 1 && r'.withCrc == r.withCrc && TurnedTo(r', base, pos + BodyRead(r, r'))
  {
    hide Rotated, RotateLeft, LeValue, Turns, SamePages, Store;
    if !InHeader(r) {
      var pages := r.pages[0 := Store(r.pages[0], r.inCrc, r.off, [b])];
      var k := Turns(pos, r.withCrc, |base|);
      StoreKeepsPages(r.pages, Rotated(base, k), r.inCrc, r.off, [b]);
      SameRotated(pages, base, k);
      TurnsNext(pos, r.withCrc, |base|);
    }
  }

  lemma {:induction false} RunTurns(r: Rx, data: seq<byte>, base: seq<FetchPage>, pos: nat)
    requires Valid(r) && TurnedTo(r, base, pos)
    ensures var r' := Run(r, data).0;
      BodyRead(r, r') >= 0 && r'.withCrc == r.withCrc && TurnedTo(r', base, pos + BodyRead(r, r'))
    decreases |data|
  {
    hide Valid, Halted, Feed, TurnedTo;
    if data != [] && !Halted(r) {
      FeedTurns(r, data[0], base, pos);
      var r1 := Feed(r, data[0]);
      RunTurns(r1, data[1..], base, pos + BodyRead(r, r1));
    }
  }

  /** How far the list is turned since the request was set up as `r0`: by its finished pages. */
  function TurnsMade(r0: Rx, r1: Rx): (k: nat)
    requires r0.pages != []
    ensures k < |r0.pages|
  {
    if BodyRead(r0, r1) < 0 then 0 else Turns(BodyRead(r0, r1), r0.withCrc, |r0.pages|)
  }

  /** After any data, cut off anywhere, the page list is turned once for every finished page. */
  lemma {:induction false} PartialFetchTurns(r: Rx, data: seq<byte>)
    requires Valid(r) && !r.inCrc && r.off == 0
    ensures var r' := Run(r, data).0;
      && SamePages(r'.pages, Rotated(r.pages, TurnsMade(r, r')))
      && BodyRead(r, r') >= 0 && InPart(r') == BodyRead(r, r') % PartLen(r.withCrc)
  {
    hide Run, Rotated, SamePages, Turns, Valid;
    NotTurned(r);
    RunTurns(r, data, r.pages, 0);
  }

  lemma NotTurned(r: Rx)
    requires Valid(r) && !r.inCrc && r.off == 0
    ensures r.pages != [] && TurnedTo(r, r.pages, 0)
  {
    hide Rotated;
    QuotientIs(0, 0, 0, |r.pages|);
    RotatedFull(r.pages);
  }

  /** A list that is turned at all is not in order. */
  lemma DistinctOrders(pages: seq<FetchPage>, base: seq<FetchPage>, k: nat)
    requires InOrder(base) && k < |base| && pages == Rotated(base, k)
    ensures SamePages(pages, base) <==> k == 0
  {
    RotatedFull(base);
    assert pages[0] == base[k];
  }

  lemma SamePagesAgain(a: seq<FetchPage>, b: seq<FetchPage>, c: seq<FetchPage>)
    requires SamePages(b, c)
    ensures SamePages(a, b) <==> SamePages(a, c)
  {
  }

  /** The list turned back. */
  lemma TurnedBack(pages: seq<FetchPage>, base: seq<FetchPage>, k: nat) returns (back: seq<FetchPage>)
    requires k < |base| && SamePages(pages, Rotated(base, k))
    ensures SamePages(back, base) && pages == Rotated(back, k)
  {
    back := Rotated(pages, |base| - k);
  }

  // ---------------------------------------------------------------- the receiver of one request

  datatype Outcome = Took(n: nat) | Malformed

  class FetchRequest {
    var header: seq<byte>
    var left: int              // left_to_read
    var err: nat
    var inCrc: bool            // next_read_size is PAGE_CRC_BYTES
    var off: nat               // page_offset
    var pages: seq<FetchPage>
    const withCrc: bool        // block_crc > 0

    function State(): Rx
      reads this
    {
      Rx(header, left, err, inCrc, off, pages, withCrc)
    }

    /** Copies header bytes up to `limit`; returns how many. */
    method CopyHeader(data: seq<byte>, limit: nat) returns (n: nat)
      requires |header| <= limit
      modifies this`header
      ensures n == if |data| < limit - |old(header)| then |data| else limit - |old(header)|
      ensures header == old(header) + data[..n]
    {
      n := if |data| < limit - |header| then |data| else limit - |header|;
      header := header + data[..n];
    }

    /** The state once the caller has taken `n` bytes off left_to_read. */
    function StateAfter(n: nat): Rx
      reads this
    {
      State().(left := left - n)
    }

    /** One memcpy into the current page, and the move to the next part. */
    method PutChunk(d: seq<byte>, taken: nat)
      requires var r := StateAfter(taken); Valid(r) && HeaderDone(r) && !IsError(r)
      requires off + |d| <= ReadSize(inCrc) && taken + |d| <= left
      modifies this`inCrc, this`off, this`pages
      ensures StateAfter(taken + |d|) == PutBody(old(StateAfter(taken)), d)
    {
      pages := pages[0 := Store(pages[0], inCrc, off, d)];
      off := off + |d|;
      if off >= ReadSize(inCrc) {
        off := 0;
        if !inCrc && withCrc {
          inCrc := true;
        } else {
          inCrc := false;
          pages := RotateLeft(pages);
        }
      }
    }

    /** Copies body bytes into the pages, in fragments as the socket buffer has them. */
    method CopyBody(data: seq<byte>, taken: nat) returns (read: nat)
      requires Valid(StateAfter(taken)) && HeaderDone(State()) && !IsError(State()) && !BadProtocol(State()) && err == 0
      modifies this`inCrc, this`off, this`pages
      ensures (StateAfter(taken + read), read) == Run(old(StateAfter(taken)), data)
    {
      hide Run, PutBody, Resumed, Store, LeValue;
      ghost var r := StateAfter(taken);
      var readLen := if left - taken < |data| then left - taken else |data|;
      read := 0;
      Unread(r, data);
      while read < readLen
        invariant 0 <= read <= readLen
        invariant Valid(StateAfter(taken + read))
        invariant Run(r, data) == Resumed(StateAfter(taken + read), data, read)
      {
        var avail :| 1 <= avail <= |data| - read;
        avail := if avail < readLen - read then avail else readLen - read;
        ghost var r0read := read;
        while avail > 0
          invariant 0 <= avail <= readLen - read
          invariant read + avail > r0read
          invariant Valid(StateAfter(taken + read))
          invariant Run(r, data) == Resumed(StateAfter(taken + read), data, read)
          decreases avail
        {
          var room := ReadSize(inCrc) - off;
          var thisLen := if avail < room then avail else room;
          var d := data[read..read + thisLen];
          ghost var cur := StateAfter(taken + read);
          BodyStep(cur, data, read, thisLen);
          PutChunk(d, taken + read);
          avail := avail - thisLen;
          read := read + thisLen;
        }
      }
      RunEnds(StateAfter(taken + read), data, read);
    }

    /** The error code of an error response. */
    method CopyError(data: seq<byte>, taken: nat) returns (m: nat)
      requires var r := StateAfter(taken); Waiting(r) && IsError(r)
      modifies this`header, this`err
      ensures (StateAfter(taken + m), m) == Run(old(StateAfter(taken)), data)
      ensures !BadProtocol(State())
    {
      hide Run;
      ghost var r := StateAfter(taken);
      m := CopyHeader(data, ERROR_SIZE);
      assert header[..4] == r.header[..4];
      if |r.header| == ERROR_SIZE {
        Unread(r, data);
        RunEnds(r, data, 0);
        assert header == r.header;
      } else {
        HeaderStep(r, data, m);
      }
      if |header| == ERROR_SIZE && err == 0 {
        err := LeValue(header[5..]);
      }
      if |r.header| < ERROR_SIZE {
        assert StateAfter(taken + m) == PutHeader(r, data[..m]);
        RunEnds(StateAfter(taken + m), data, m);
      }
    }

    /** fetch_receive_single_req: the caller takes the result off left_to_read. */
    method ReceiveSingle(data: seq<byte>) returns (out: Outcome)
      requires Waiting(State())
      modifies this
      ensures left == old(left)
      ensures out.Malformed? <==> BadProtocol(Run(old(State()), data).0)
      ensures out.Took? ==> (StateAfter(out.n), out.n) == Run(old(State()), data)
    {
      hide Run, PutBody, PutHeader, LeValue;
      ghost var r0 := State();
      Unread(r0, data);
      var n := 0;
      if |header| < RESP_HEADER_SIZE {
        n := CopyHeader(data, RESP_HEADER_SIZE);
        HeaderStep(r0, data, n);
        HeaderPut(r0, data[..n]);
      }
      ghost var r1 := StateAfter(n);
      assert Run(r0, data) == Resumed(r1, data, n);
      if |header| < RESP_HEADER_SIZE {
        RunEnds(r1, data, n);
        return Took(n);
      }
      if LeValue(header[..4]) != RESP_PROTOCOL_VERSION {
        RunEnds(r1, data, n);
        return Malformed;
      }
      if header[4] == 0 {
        var m := CopyError(data[n..], n);
        return Took(n + m);
      }
      var m := CopyBody(data[n..], n);
      return Took(n + m);
    }

    /**
     fetch_complete: whatever was received, the pages go back to the caller in the order of the request,
     with what was read into them, if and only if one has a real index or whole turns were made.
     */
    method Complete(ghost r: Rx, ghost data: seq<byte>) returns (turns: nat)
      requires Valid(r) && !r.inCrc && r.off == 0 && InOrder(r.pages) && State() == Run(r, data).0
      modifies this`pages
      ensures HasReal(r.pages) ==> SamePages(pages, r.pages) && old(pages) == Rotated(pages, TurnsMade(r, old(State())))
      ensures !HasReal(r.pages) ==> pages == old(pages)
      ensures SamePages(pages, r.pages) <==> HasReal(r.pages) || TurnsMade(r, old(State())) == 0
    {
      hide Run, Valid, InOrder, HasReal, Rotated, TurnsMade;
      PartialFetchTurns(r, data);
      ghost var k := TurnsMade(r, State());
      ghost var base := TurnedBack(pages, r.pages, k);
      SameOrder(base, r.pages);
      DistinctOrders(pages, base, k);
      SamePagesAgain(pages, base, r.pages);
      pages, turns := RestoreFetched(pages, base, k);
    }
  }

  // ---------------------------------------------------------------- the stream of all responses

  /** The queued requests and the finished ones, in order; after a malformed header the socket is failed. */
  datatype Stream = Live(queue: seq<Rx>, done: seq<Rx>) | Failed(done: seq<Rx>)

  predicate StreamOk(s: Stream) {
    s.Live? ==> forall i | 0 <= i < |s.queue| :: Waiting(s.queue[i])
  }

  predicate Blocked(s: Stream) {
    s.Live? && (s.queue == [] || Stuck(s.queue[0]))
  }

  function Take(s: Stream, b: byte): (s': Stream)
    requires StreamOk(s) && s.Live? && !Blocked(s)
    ensures StreamOk(s')
  {
    Moved(s, Feed(s.queue[0], b))
  }

  /** The first request is now `r`. */
  function Moved(s: Stream, r: Rx): (s': Stream)
    requires StreamOk(s) && s.Live? && s.queue != [] && Valid(r)
    ensures StreamOk(s')
  {
    if BadProtocol(r) then Failed(s.done)
    else if Done(r) then Live(s.queue[1..], s.done + [r])
    else Live([r] + s.queue[1..], s.done)
  }

  function Deliver(s: Stream, data: seq<byte>): (s': Stream)
    requires StreamOk(s)
    ensures StreamOk(s')
    decreases |data|
  {
    if data == [] || s.Failed? || Blocked(s) then s else Deliver(Take(s, data[0]), data[1..])
  }

  /** Any segmentation of the stream comes to the same. */
  lemma {:induction false} DeliverConcat(s: Stream, a: seq<byte>, b: seq<byte>)
    requires StreamOk(s)
    ensures Deliver(s, a + b) == Deliver(Deliver(s, a), b)
    decreases |a|
  {
    if a == [] {
      assert a + b == b;
    } else if s.Live? && !Blocked(s) {
      assert (a + b)[0] == a[0] && (a + b)[1..] == a[1..] + b;
      DeliverConcat(Take(s, a[0]), a[1..], b);
    }
  }

  function Flatten(segments: seq<seq<byte>>): seq<byte> {
    if segments == [] then [] else segments[0] + Flatten(segments[1..])
  }

  function DeliverAll(s: Stream, segments: seq<seq<byte>>): (s': Stream)
    requires StreamOk(s)
    ensures StreamOk(s')
    decreases |segments|
  {
    if segments == [] then s else DeliverAll(Deliver(s, segments[0]), segments[1..])
  }

  lemma {:induction false} AnySegmentation(s: Stream, segments: seq<seq<byte>>)
    requires StreamOk(s)
    ensures DeliverAll(s, segments) == Deliver(s, Flatten(segments))
    decreases |segments|
  {
    if segments != [] {
      DeliverConcat(s, segments[0], Flatten(segments[1..]));
      AnySegmentation(Deliver(s, segments[0]), segments[1..]);
    }
  }

  /** The first request reads what it can, and the rest of the data goes on from there. */
  lemma {:induction false} DeliverFirst(s: Stream, data: seq<byte>)
    requires StreamOk(s) && s.Live? && s.queue != [] && !Stuck(s.queue[0])
    ensures var (r, n) := Run(s.queue[0], data); Deliver(s, data) == Deliver(Moved(s, r), data[n..])
    decreases |data|
  {
    var r := s.queue[0];
    if data != [] {
      var r1 := Feed(r, data[0]);
      var s1 := Take(s, data[0]);
      var (r2, n) := Run(r1, data[1..]);
      assert data[1..][n..] == data[n + 1..];
      if !Halted(r1) {
        DeliverFirst(s1, data[1..]);
        assert s1.queue[1..] == s.queue[1..];
        assert Moved(s1, r2) == Moved(s, r2);
      }
    } else {
      assert [r] + s.queue[1..] == s.queue;
    }
  }

  // ---------------------------------------------------------------- whole responses

  type u16 = n: nat | n < 65536

  datatype Part = Part(data: seq<byte>, crc: seq<byte>)

  /** What a block service sends: every page with its CRC, or an error code. */
  datatype Response = Success(kind: byte, parts: seq<Part>) | Failure(code: u16)

  function Protocol(): seq<byte> {
    [0x42, 0x4c, 0x4f, 0x01]
  }

  function Body(parts: seq<Part>): seq<byte> {
    if parts == [] then [] else parts[0].data + parts[0].crc + Body(parts[1..])
  }

  function Encode(resp: Response): seq<byte> {
    match resp
    case Success(kind, parts) => Protocol() + [kind] + Body(parts)
    case Failure(code) => Protocol() + [0] + LeBytes(code, 2)
  }

  /** A request as ternfs_fetch_block_pages_with_crc sets it up. */
  predicate Fresh(r: Rx) {
    && r.header == [] && r.err == 0 && !r.inCrc && r.off == 0 && r.pages != []
    && (forall i | 0 <= i < |r.pages| :: PageOk(r.pages[i]) && r.pages[i].crc == [0, 0, 0, 0])
    && r.left == RESP_HEADER_SIZE + |r.pages| * PAGE_SIZE + |r.pages| * PAGE_CRC_BYTES
  }

  predicate PartsOk(parts: seq<Part>) {
    forall i | 0 <= i < |parts| :: |parts[i].data| == PAGE_SIZE && |parts[i].crc| == PAGE_CRC_BYTES
  }

  predicate Answers(resp: Response, r: Rx) {
    match resp
    case Success(kind, parts) => kind != 0 && |parts| == |r.pages| && PartsOk(parts)
    case Failure(code) => code != 0
  }

  function Filled(pages: seq<FetchPage>, parts: seq<Part>): seq<FetchPage>
    requires |pages| == |parts|
  {
    seq(|pages|, i requires 0 <= i < |pages| => pages[i].(data := parts[i].data, crc := parts[i].crc))
  }

  /** What parsing the whole response at once makes of the request. */
  function Parsed(r: Rx, resp: Response): Rx
    requires Fresh(r) && Answers(resp, r)
  {
    match resp
    case Success(kind, parts) => r.(header := Protocol() + [kind], left := 0, pages := Filled(r.pages, parts))
    case Failure(code) => r.(header := Encode(resp), left := r.left - ERROR_SIZE, err := code)
  }

  lemma PutData(r: Rx, p: Part)
    requires Valid(r) && HeaderDone(r) && !IsError(r) && !BadProtocol(r) && r.err == 0
    requires r.withCrc && !r.inCrc && r.off == 0 && r.left >= PAGE_SIZE + PAGE_CRC_BYTES
    requires |p.data| == PAGE_SIZE && |p.crc| == PAGE_CRC_BYTES
    ensures var r' := r.(left := r.left - PAGE_SIZE - PAGE_CRC_BYTES,
                         pages := r.pages[1..] + [r.pages[0].(data := p.data, crc := p.crc)]);
      Valid(r') && Run(r, p.data + p.crc) == (r', PAGE_SIZE + PAGE_CRC_BYTES)
  {
    BodyChunk(r, p.data);
    var r1 := PutBody(r, p.data);
    assert Store(r.pages[0], false, 0, p.data) == r.pages[0].(data := p.data);
    assert r1.pages[0] == r.pages[0].(data := p.data);
    BodyChunk(r1, p.crc);
    assert Store(r1.pages[0], true, 0, p.crc) == r.pages[0].(data := p.data, crc := p.crc);
    RunConcat(r, p.data, p.crc);
    assert Run(PutBody(r1, p.crc), []) == (PutBody(r1, p.crc), 0);
  }

  lemma {:induction false} ReadParts(r: Rx, parts: seq<Part>)
    requires Valid(r) && HeaderDone(r) && !IsError(r) && !BadProtocol(r) && r.err == 0
    requires r.withCrc && !r.inCrc && r.off == 0
    requires PartsOk(parts) && |parts| <= |r.pages| && r.left == |parts| * (PAGE_SIZE + PAGE_CRC_BYTES)
    ensures Run(r, Body(parts)) ==
      (r.(left := 0, pages := r.pages[|parts|..] + Filled(r.pages[..|parts|], parts)),
        |parts| * (PAGE_SIZE + PAGE_CRC_BYTES))
    decreases |parts|
  {
    hide Run;
    var n := |parts|;
    if n == 0 {
      assert r.pages[0..] + [] == r.pages;
      assert Run(r, []) == (r, 0) by { RunEnds(r, [], 0); Unread(r, []); }
    } else {
      PutData(r, parts[0]);
      var page := r.pages[0].(data := parts[0].data, crc := parts[0].crc);
      var r1 := r.(left := r.left - PAGE_SIZE - PAGE_CRC_BYTES, pages := r.pages[1..] + [page]);
      ReadParts(r1, parts[1..]);
      RunConcat(r, parts[0].data + parts[0].crc, Body(parts[1..]));
      assert r1.pages[..n - 1] == r.pages[1..n] && r1.pages[n - 1..] == r.pages[n..] + [page];
      assert [page] + Filled(r.pages[1..n], parts[1..]) == Filled(r.pages[..n], parts);
      assert r1.pages[n - 1..] + Filled(r1.pages[..n - 1], parts[1..]) == r.pages[n..] + Filled(r.pages[..n], parts);
    }
  }

  lemma FreshIsValid(r: Rx)
    requires Fresh(r)
    ensures Waiting(r) && !Stuck(r)
  {
    assert |r.pages| * PAGE_SIZE >= PAGE_SIZE;
  }

  lemma {:induction false} ReadHeader(r: Rx, kind: byte)
    requires Fresh(r)
    ensures var r1 := r.(header := Protocol() + [kind], left := r.left - RESP_HEADER_SIZE);
      Valid(r1) && !BadProtocol(r1) && Run(r, Protocol() + [kind]) == (r1, RESP_HEADER_SIZE)
  {
    hide Run, LeValue;
    FreshIsValid(r);
    var h := Protocol() + [kind];
    HeaderChunk(r, h);
    assert [] + h == h;
    assert h[..4] == Protocol() && h[4] == kind;
    LeProtocol();
  }

  lemma LeProtocol()
    ensures LeValue(Protocol()) == RESP_PROTOCOL_VERSION
  {
    assert LeValue([0x01]) == 1;
    assert LeValue([0x4f, 0x01]) == 0x14f by { assert [0x4f, 0x01][1..] == [0x01 as byte]; }
    assert LeValue([0x4c, 0x4f, 0x01]) == 0x14f4c by { assert [0x4c, 0x4f, 0x01][1..] == [0x4f as byte, 0x01]; }
    assert Protocol()[1..] == [0x4c, 0x4f, 0x01];
  }

  lemma {:induction false} ReadFailure(r: Rx, code: u16)
    requires Fresh(r)
    ensures Run(r, Encode(Failure(code))) ==
      (r.(header := Encode(Failure(code)), left := r.left - ERROR_SIZE, err := code), ERROR_SIZE)
  {
    hide Run;
    ReadHeader(r, 0);
    var d := LeBytes(code, 2);
    var r1 := r.(header := Protocol() + [0], left := r.left - RESP_HEADER_SIZE);
    FreshIsValid(r);
    HeaderChunk(r1, d);
    Powers();
    LeRoundTrip(code, 2);
    assert (r1.header + d)[5..] == d;
    RunConcat(r, Protocol() + [0], d);
  }

  /** One response, however it is cut up, is parsed as a whole. */
  lemma {:induction false} ReadResponse(r: Rx, resp: Response)
    requires Fresh(r) && r.withCrc && Answers(resp, r)
    ensures Run(r, Encode(resp)) == (Parsed(r, resp), |Encode(resp)|)
  {
    hide Run, Fresh, Valid;
    match resp {
      case Failure(code) => ReadFailure(r, code);
      case Success(kind, parts) => ReadSuccess(r, kind, parts);
    }
  }

  lemma {:induction false} ReadSuccess(r: Rx, kind: byte, parts: seq<Part>)
    requires Fresh(r) && r.withCrc && Answers(Success(kind, parts), r)
    ensures var resp := Success(kind, parts); Run(r, Encode(resp)) == (Parsed(r, resp), |Encode(resp)|)
  {
    hide Run;
    ReadHeader(r, kind);
    var r1 := r.(header := Protocol() + [kind], left := r.left - RESP_HEADER_SIZE);
    ReadParts(r1, parts);
    RunConcat(r, Protocol() + [kind], Body(parts));
    BodyLength(parts);
    assert r.pages[..|parts|] == r.pages && r.pages[|parts|..] == [];
    assert [] + Filled(r.pages, parts) == Filled(r.pages, parts);
  }

  lemma {:induction false} BodyLength(parts: seq<Part>)
    requires PartsOk(parts)
    ensures |Body(parts)| == |parts| * (PAGE_SIZE + PAGE_CRC_BYTES)
    decreases |parts|
  {
    if parts != [] {
      BodyLength(parts[1..]);
    }
  }

  function EncodeAll(resps: seq<Response>): seq<byte> {
    if resps == [] then [] else Encode(resps[0]) + EncodeAll(resps[1..])
  }

  function AllParsed(queue: seq<Rx>, resps: seq<Response>): seq<Rx>
    requires |resps| <= |queue|
    requires forall i | 0 <= i < |resps| :: Fresh(queue[i]) && Answers(resps[i], queue[i])
  {
    seq(|resps|, i requires 0 <= i < |resps| => Parsed(queue[i], resps[i]))
  }

  /** The i-th response completes the i-th queued request, as if it had been parsed whole. */
  lemma {:induction false} ResponsesInOrder(queue: seq<Rx>, done: seq<Rx>, resps: seq<Response>)
    requires StreamOk(Live(queue, done)) && |resps| <= |queue|
    requires forall i | 0 <= i < |resps| :: Fresh(queue[i]) && queue[i].withCrc && Answers(resps[i], queue[i])
    ensures Deliver(Live(queue, done), EncodeAll(resps)) == Live(queue[|resps|..], done + AllParsed(queue, resps))
    decreases |resps|
  {
    hide Run, Fresh, Answers, Deliver, Encode, Parsed, Valid;
    var s := Live(queue, done);
    if resps == [] {
      assert Deliver(s, []) == s by { DeliverNothing(s); }
      assert done + AllParsed(queue, resps) == done;
    } else {
      var first, rest := Encode(resps[0]), EncodeAll(resps[1..]);
      FreshIsValid(queue[0]);
      ReadResponse(queue[0], resps[0]);
      ParsedIsDone(queue[0], resps[0]);
      var p := Parsed(queue[0], resps[0]);
      RunConcat(queue[0], first, rest);
      RunHalted(p, rest);
      DeliverFirst(s, first + rest);
      assert (first + rest)[|first|..] == rest;
      ResponsesInOrder(queue[1..], done + [p], resps[1..]);
      assert queue[1..][|resps| - 1..] == queue[|resps|..];
      assert done + [p] + AllParsed(queue[1..], resps[1..]) == done + AllParsed(queue, resps);
    }
  }

  lemma {:induction false} DeliverNothing(s: Stream)
    requires StreamOk(s)
    ensures Deliver(s, []) == s
  {
  }

  lemma {:induction false} RunHalted(r: Rx, data: seq<byte>)
    requires Valid(r) && Halted(r)
    ensures Run(r, data) == (r, 0)
  {
  }

  lemma ParsedIsDone(r: Rx, resp: Response)
    requires Fresh(r) && r.withCrc && Answers(resp, r)
    ensures var p := Parsed(r, resp); Valid(p) && Done(p) && !BadProtocol(p)
    ensures resp.Success? <==> Parsed(r, resp).err == 0
  {
    LeProtocol();
    ReadResponse(r, resp);
    FreshIsValid(r);
    match resp {
      case Success(kind, parts) =>
        assert (Protocol() + [kind])[..4] == Protocol();
      case Failure(code) =>
        assert Encode(resp)[..4] == Protocol();
    }
  }

  /** The same for every segmentation of the stream. */
  lemma {:induction false} SegmentedResponsesInOrder(queue: seq<Rx>, resps: seq<Response>, segments: seq<seq<byte>>)
    requires StreamOk(Live(queue, [])) && |resps| <= |queue|
    requires forall i | 0 <= i < |resps| :: Fresh(queue[i]) && queue[i].withCrc && Answers(resps[i], queue[i])
    requires Flatten(segments) == EncodeAll(resps)
    ensures DeliverAll(Live(queue, []), segments) == Live(queue[|resps|..], AllParsed(queue, resps))
  {
    AnySegmentation(Live(queue, []), segments);
    ResponsesInOrder(queue, [], resps);
    assert [] + AllParsed(queue, resps) == AllParsed(queue, resps);
  }

  /** The header of a response is accepted exactly if it begins with the protocol's four bytes. */
  lemma {:induction false} ProtocolIff(r: Rx, data: seq<byte>)
    requires Fresh(r) && |data| >= RESP_HEADER_SIZE
    ensures Valid(r) && (BadProtocol(Run(r, data).0) <==> data[..4] != Protocol())
  {
    hide Run, LeValue;
    FreshIsValid(r);
    var h := data[..5];
    HeaderChunk(r, h);
    RunConcat(r, h, data[5..]);
    assert h + data[5..] == data;
    var r1 := PutHeader(r, h);
    assert r1.header == h && r1.header[..4] == data[..4];
    LeProtocol();
    LeInverse(data[..4]);
    LeInverse(Protocol());
    HeaderStays(r1, data[5..]);
    var r2 := Run(r1, data[5..]).0;
    assert r2.header[..5] == h && r2.header[..4] == data[..4];
    assert |Protocol()| == |data[..4]|;
  }

  /** What has been read of the header does not change any more. */
  lemma {:induction false} HeaderStays(r: Rx, data: seq<byte>)
    requires Valid(r)
    ensures r.header <= Run(r, data).0.header
    decreases |data|
  {
    if data != [] && !Halted(r) {
      HeaderStays(Feed(r, data[0]), data[1..]);
    }
  }

  /** A response that does not begin with them fails the socket: no request of it gets anything any more. */
  lemma {:induction false} WrongProtocolFails(s: Stream, data: seq<byte>, more: seq<byte>)
    requires StreamOk(s) && s.Live? && s.queue != [] && Fresh(s.queue[0])
    requires |data| >= RESP_HEADER_SIZE && data[..4] != Protocol()
    ensures Deliver(s, data) == Failed(s.done) && Deliver(Deliver(s, data), more) == Failed(s.done)
  {
    hide Run;
    FreshIsValid(s.queue[0]);
    ProtocolIff(s.queue[0], data);
    DeliverFirst(s, data);
    DeliverStops(Failed(s.done), data[Run(s.queue[0], data).1..]);
    DeliverStops(Failed(s.done), more);
  }

  // ---------------------------------------------------------------- where the parser does not hold up

  /** A request makes no progress on more data exactly when it has received an error response with code 0. */
  lemma {:induction false} NoProgressIffZeroCode(r: Rx, data: seq<byte>)
    requires Waiting(r) && data != []
    ensures Run(r, data).1 == 0 <==> IsError(r) && |r.header| == ERROR_SIZE && LeValue(r.header[5..]) == 0
  {
  }

  /** Such a response blocks its socket for good. */
  lemma {:induction false} ZeroCodeBlocks(s: Stream, more: seq<byte>)
    requires StreamOk(s) && s.Live? && s.queue != [] && Fresh(s.queue[0])
    ensures var s1 := Deliver(s, Encode(Failure(0))); Blocked(s1) && s1.done == s.done && Deliver(s1, more) == s1
  {
    hide Run, Fresh;
    var r := s.queue[0];
    FreshIsValid(r);
    ReadFailure(r, 0);
    var r1 := Run(r, Encode(Failure(0))).0;
    ZeroCodeLeft(r);
    assert Encode(Failure(0))[..4] == Protocol();
    LeProtocol();
    DeliverFirst(s, Encode(Failure(0)));
    assert Encode(Failure(0))[ERROR_SIZE..] == [];
  }

  lemma ZeroCodeLeft(r: Rx)
    requires Fresh(r)
    ensures r.left > ERROR_SIZE
  {
    assert |r.pages| * PAGE_SIZE >= PAGE_SIZE;
  }

  predicate CrcsClear(r: Rx) {
    !r.withCrc && !r.inCrc && forall i | 0 <= i < |r.pages| :: r.pages[i].crc == [0, 0, 0, 0]
  }

  lemma {:induction false} NoCrcStored(r: Rx, data: seq<byte>)
    requires Valid(r) && CrcsClear(r)
    ensures CrcsClear(Run(r, data).0) && |Run(r, data).0.pages| == |r.pages|
    decreases |data|
  {
    if data != [] && !Halted(r) {
      NoCrcStored(Feed(r, data[0]), data[1..]);
    }
  }

  /** Every success response is parsed right if and only if the request was made with a nonzero block CRC. */
  lemma {:induction false} ParsedRightIffCrc(r: Rx)
    requires Fresh(r)
    ensures r.withCrc <==>
      forall resp: Response | resp.Success? && Answers(resp, r) :: Run(r, Encode(resp)).0 == Parsed(r, resp)
  {
    hide Run;
    if r.withCrc {
      forall resp: Response | resp.Success? && Answers(resp, r) ensures Run(r, Encode(resp)).0 == Parsed(r, resp) {
        ReadResponse(r, resp);
      }
    } else {
      var part := Part(seq(PAGE_SIZE, i => 0 as byte), [1, 0, 0, 0]);
      var resp := Success(1, seq(|r.pages|, i => part));
      assert Answers(resp, r);
      FreshIsValid(r);
      NoCrcStored(r, Encode(resp));
      assert Parsed(r, resp).pages[0].crc[0] == 1;
      assert Run(r, Encode(resp)).0.pages[0].crc[0] == 0;
    }
  }

  // ---------------------------------------------------------------- the socket

  lemma {:induction false} DeliverStops(s: Stream, data: seq<byte>)
    requires StreamOk(s) && (s.Failed? || Blocked(s) || data == [])
    ensures Deliver(s, data) == s
  {
  }

  /** One call for the first request; it takes nothing only when the request is stuck. */
  lemma DeliverOnce(s: Stream, data: seq<byte>)
    requires StreamOk(s) && s.Live? && s.queue != [] && data != []
    ensures var (r, k) := Run(s.queue[0], data);
      && Deliver(s, data) == Deliver(Moved(s, r), if BadProtocol(r) then [] else data[k..])
      && (BadProtocol(r) <==> Moved(s, r).Failed?)
      && (k == 0 <==> Blocked(s))
      && (k == 0 ==> Moved(s, r) == s && Deliver(s, data) == s)
  {
    var r := s.queue[0];
    if Stuck(r) {
      assert [r] + s.queue[1..] == s.queue;
    } else {
      DeliverFirst(s, data);
    }
  }

  class FetchSocket {
    var queue: seq<FetchRequest>     // the read list
    var done: seq<FetchRequest>
    var failed: bool

    ghost predicate Distinct()
      reads this
    {
      && (forall i, j | 0 <= i < |done| && 0 <= j < |queue| :: done[i] != queue[j])
      && (forall i, j | 0 <= i < j < |queue| :: queue[i] != queue[j])
    }

    ghost function Stream(): Stream
      reads this, queue, done
    {
      if failed then Failed(States(done)) else Live(States(queue), States(done))
    }

    /** The first queued request reads what it can of the data. */
    method ReceiveFirst(data: seq<byte>) returns (k: nat)
      requires Distinct() && StreamOk(Stream()) && !failed && queue != [] && Waiting(queue[0].State())
      modifies this, queue[0]
      ensures Distinct() && done + queue == old(done + queue)
      ensures queue == old(queue) || queue == old(queue)[1..]
      ensures Stream() == Moved(old(Stream()), Run(old(queue[0].State()), data).0)
      ensures k == if failed then |data| else Run(old(queue[0].State()), data).1
    {
      hide Run, Valid, LeValue;
      var req := queue[0];
      ghost var q, d := States(queue), States(done);
      var out := req.ReceiveSingle(data);
      assert States(done) == d;
      if out.Malformed? {
        failed := true;
        k := |data|;
        return;
      }
      k := out.n;
      req.left := req.left - k;
      assert States(done) == d;
      assert States(queue[1..]) == q[1..];
      if req.left == 0 || req.err != 0 {
        queue, done := queue[1..], done + [req];
        assert States(done) == d + [req.State()];
      } else {
        assert States(queue) == [req.State()] + q[1..];
      }
    }

    /** block_socket_receive_req_locked; `overrun` is data for which no request is queued. */
    method Receive(data: seq<byte>) returns (n: nat, overrun: bool)
      requires Distinct() && StreamOk(Stream())
      modifies this, queue
      ensures Distinct() && done + queue == old(done + queue)
      ensures Stream() == Deliver(old(Stream()), data)
      ensures n <= |data|
      ensures n < |data| ==> Blocked(Stream())
      ensures overrun <==> n < |data| && queue == []
      ensures data != [] && !old(Blocked(Stream())) ==> n > 0
    {
      hide Run, Deliver, Valid, Moved;
      n, overrun := 0, false;
      if failed {
        DeliverStops(Stream(), data);
        n := |data|;
        return;
      }
      ghost var s0, all, q0 := Stream(), done + queue, queue;
      assert data[0..] == data;
      while n < |data|
        invariant n <= |data| && !failed && !overrun
        invariant done + queue == all && Distinct()
        invariant |queue| <= |q0| && queue == q0[|q0| - |queue|..]
        invariant StreamOk(Stream())
        invariant Deliver(s0, data) == Deliver(Stream(), data[n..])
        invariant n == 0 ==> Stream() == s0
        decreases |data| - n
      {
        if queue == [] {
          DeliverStops(Stream(), data[n..]);
          overrun := true;
          return;
        }
        ghost var s1 := Stream();
        assert queue[0] in q0 && s1.queue[0] == queue[0].State();
        DeliverOnce(s1, data[n..]);
        var k := ReceiveFirst(data[n..]);
        assert data[n..][k..] == data[n + k..];
        n := n + k;
        if failed {
          DeliverStops(Stream(), data[n..]);
          return;
        }
        if k == 0 {
          return;
        }
      }
      DeliverStops(Stream(), data[n..]);
    }
  }

  ghost function States(q: seq<FetchRequest>): seq<Rx>
    reads q
  {
    seq(|q|, i requires 0 <= i < |q| reads q => q[i].State())
  }
}
