/**
 Sending a write-block request: a header that is serialised anew on every call and the pages of the
 block, over a socket that may take any part of what it is offered.
 */
module BlockWrite {
  import opened Common
  import opened Bytes
  import opened PageOrder

  const HEAD_SIZE: nat := 37        // block request header and write-block request

  datatype Content = Content(id: nat, bytes: seq<byte>)

  /** `index` counts the bytes of the page already sent, `mark` is the private field. */
  datatype Page = Page(content: Content, index: nat, mark: nat)

  function Contents(pages: seq<Page>): seq<Content> {
    seq(|pages|, i requires 0 <= i < |pages| => pages[i].content)
  }

  function Marks(pages: seq<Page>): seq<nat> {
    seq(|pages|, i requires 0 <= i < |pages| => pages[i].mark)
  }

  function Flat(base: seq<Content>): seq<byte> {
    if base == [] then [] else base[0].bytes + Flat(base[1..])
  }

  predicate IsBlock(base: seq<Content>, size: nat) {
    && base != [] && size <= |base| * PAGE_SIZE
    && (forall i | 0 <= i < |base| :: |base[i].bytes| == PAGE_SIZE)
    && (forall i, j | 0 <= i < j < |base| :: base[i].id != base[j].id)
  }

  lemma {:induction false} FlatLength(base: seq<Content>)
    requires forall i | 0 <= i < |base| :: |base[i].bytes| == PAGE_SIZE
    ensures |Flat(base)| == |base| * PAGE_SIZE
    decreases |base|
  {
    if base != [] {
      FlatLength(base[1..]);
    }
  }

  /** Part of one page is the same part of the block. */
  lemma {:induction false} FlatSlice(base: seq<Content>, k: nat, from: nat, until: nat)
    requires forall i | 0 <= i < |base| :: |base[i].bytes| == PAGE_SIZE
    requires k < |base| && from <= until <= PAGE_SIZE
    ensures |Flat(base)| == |base| * PAGE_SIZE
    ensures k * PAGE_SIZE + until <= |Flat(base)|
    ensures Flat(base)[k * PAGE_SIZE + from..k * PAGE_SIZE + until] == base[k].bytes[from..until]
    decreases |base|
  {
    FlatLength(base);
    if k > 0 {
      FlatSlice(base[1..], k - 1, from, until);
    }
  }

  /** What the block service is to receive. */
  function Message(head: seq<byte>, base: seq<Content>, size: nat): (m: seq<byte>)
    requires IsBlock(base, size)
    ensures |m| == |head| + size
  {
    FlatLength(base);
    head + Flat(base)[..size]
  }

  function Body(written: nat): nat {
    if written < HEAD_SIZE then 0 else written - HEAD_SIZE
  }

  /** The pages when `body` bytes of the block have been sent: rotated by the whole pages among them. */
  predicate PagesAt(base: seq<Content>, size: nat, pages: seq<Page>, body: nat) {
    && IsBlock(base, size) && body <= size
    && body / PAGE_SIZE <= |base|
    && Contents(pages) == Rotated(base, body / PAGE_SIZE)
    && (body < size ==> pages[0].index == body % PAGE_SIZE)
  }

  /** How many pages after the first have had their mark cleared. */
  function Cleared(size: nat, body: nat): nat {
    if body > 0 && body == size && body % PAGE_SIZE == 0 then body / PAGE_SIZE - 1 else body / PAGE_SIZE
  }

  function MarksAfter(init: seq<nat>, cleared: nat): (m: seq<nat>)
    ensures |m| == |init|
  {
    seq(|init|, j requires 0 <= j < |init| => if 1 <= j <= cleared then 0 else init[j])
  }

  predicate MarksAt(init: seq<nat>, size: nat, pages: seq<Page>, body: nat) {
    && |init| == |pages| && body / PAGE_SIZE <= |init|
    && Marks(pages) == Rotated(MarksAfter(init, Cleared(size, body)), body / PAGE_SIZE)
  }

  /** The page list once `sent` bytes of the first page are gone; `more` if the block is not all sent yet. */
  function Advance(pages: seq<Page>, sent: nat, more: bool): seq<Page>
    requires pages != []
  {
    var page := pages[0].(index := pages[0].index + sent);
    if page.index < PAGE_SIZE then pages[0 := page]
    else
      var turned := RotateLeft(pages[0 := page]);
      if more then turned[0 := turned[0].(index := 0, mark := 0)] else turned
  }

  lemma Position(body: nat, sent: nat)
    requires body % PAGE_SIZE + sent <= PAGE_SIZE
    ensures body % PAGE_SIZE + sent < PAGE_SIZE ==>
      (body + sent) / PAGE_SIZE == body / PAGE_SIZE && (body + sent) % PAGE_SIZE == body % PAGE_SIZE + sent
    ensures body % PAGE_SIZE + sent == PAGE_SIZE ==>
      (body + sent) / PAGE_SIZE == body / PAGE_SIZE + 1 && (body + sent) % PAGE_SIZE == 0
  {
  }

  lemma FirstPage(base: seq<Content>, size: nat, pages: seq<Page>, body: nat)
    requires PagesAt(base, size, pages, body) && body < size
    ensures |pages| == |base| && body / PAGE_SIZE < |base|
    ensures pages[0].content == base[body / PAGE_SIZE] && |pages[0].content.bytes| == PAGE_SIZE
  {
    assert |Contents(pages)| == |base|;
    assert Contents(pages)[0] == base[body / PAGE_SIZE];
  }

  lemma PagesAdvance(base: seq<Content>, size: nat, pages: seq<Page>, body: nat, sent: nat)
    requires PagesAt(base, size, pages, body) && body < size
    requires 0 < sent <= PAGE_SIZE - pages[0].index && body + sent <= size
    ensures PagesAt(base, size, Advance(pages, sent, body + sent < size), body + sent)
  {
    hide IsBlock;
    FirstPage(base, size, pages, body);
    Position(body, sent);
    var next := Advance(pages, sent, body + sent < size);
    if pages[0].index + sent < PAGE_SIZE {
      assert Contents(next) == Contents(pages);
    } else {
      RotatedNext(base, body / PAGE_SIZE);
      assert Contents(next) == RotateLeft(Contents(pages));
    }
  }

  lemma MarksAdvance(base: seq<Content>, init: seq<nat>, size: nat, pages: seq<Page>, body: nat, sent: nat)
    requires PagesAt(base, size, pages, body) && MarksAt(init, size, pages, body) && body < size
    requires 0 < sent <= PAGE_SIZE - pages[0].index && body + sent <= size
    ensures MarksAt(init, size, Advance(pages, sent, body + sent < size), body + sent)
  {
    assert size <= |base| * PAGE_SIZE;
    hide IsBlock;
    FirstPage(base, size, pages, body);
    Position(body, sent);
    var k := body / PAGE_SIZE;
    var next := Advance(pages, sent, body + sent < size);
    var m := MarksAfter(init, k);
    if pages[0].index + sent < PAGE_SIZE {
      assert Marks(next) == Marks(pages);
    } else {
      RotatedNext(m, k);
      if body + sent < size {
        assert (k + 1) * PAGE_SIZE == body + sent;
        assert k + 1 < |init|;
        assert Marks(next) == RotateLeft(Marks(pages))[0 := 0];
        assert Rotated(m, k + 1)[0 := 0] == Rotated(MarksAfter(init, k + 1), k + 1);
      } else {
        assert Marks(next) == RotateLeft(Marks(pages));
      }
    }
  }

  lemma WireSlice(head: seq<byte>, base: seq<Content>, size: nat, pages: seq<Page>, body: nat, sent: nat)
    requires PagesAt(base, size, pages, body) && body < size
    requires 0 < sent <= PAGE_SIZE - pages[0].index && body + sent <= size
    ensures |pages[0].content.bytes| == PAGE_SIZE
    ensures pages[0].content.bytes[pages[0].index..pages[0].index + sent]
         == Message(head, base, size)[|head| + body..|head| + body + sent]
  {
    FirstPage(base, size, pages, body);
    var k, o := body / PAGE_SIZE, body % PAGE_SIZE;
    hide Flat, Message, PagesAt;
    FlatSlice(base, k, o, o + sent);
    assert body == k * PAGE_SIZE + o;
    MessageSlice(head, base, size, body, sent);
  }

  lemma {:induction false} MessageSlice(head: seq<byte>, base: seq<Content>, size: nat, body: nat, sent: nat)
    requires IsBlock(base, size) && body + sent <= size && body + sent <= |Flat(base)|
    ensures Message(head, base, size)[|head| + body..|head| + body + sent] == Flat(base)[body..body + sent]
  {
    hide Flat, IsBlock;
  }

  // ---------------------------------------------------------------- what the socket takes

  /** How much one send offers when `at` bytes of the message are gone: the rest of the header or of a page. */
  function Offered(size: nat, at: nat): (n: nat)
    requires at < HEAD_SIZE + size
    ensures 0 < n <= HEAD_SIZE + size - at
  {
    if at < HEAD_SIZE then HEAD_SIZE - at
    else Min(PAGE_SIZE - (at - HEAD_SIZE) % PAGE_SIZE, HEAD_SIZE + size - at)
  }

  /** The answers of the socket, send by send: an error, or how much it has room for. */
  predicate AnswersOk(answers: seq<int>) {
    forall k | 0 <= k < |answers| :: answers[k] != 0
  }

  datatype Sending = Sending(at: nat, err: int)

  /** Where a call ends and with which error, 0 if all is sent; a socket without a further answer has no room. */
  function Sent(size: nat, at: nat, answers: seq<int>): Sending
    decreases |answers|
  {
    if at >= HEAD_SIZE + size then Sending(at, 0)
    else if answers == [] then Sending(at, EAGAIN)
    else if answers[0] < 0 then Sending(at, answers[0])
    else Sent(size, at + Min(answers[0], Offered(size, at)), answers[1..])
  }

  /** A call that meets no error sends all; otherwise it ends with the first error that the socket gives. */
  lemma {:induction false} SentMeans(size: nat, at: nat, answers: seq<int>)
    requires at <= HEAD_SIZE + size && AnswersOk(answers)
    ensures var s := Sent(size, at, answers);
      && at <= s.at <= HEAD_SIZE + size && s.err <= 0 && (s.err == 0 <==> s.at == HEAD_SIZE + size)
      && (s.err != 0 ==> (exists k | 0 <= k < |answers| :: FirstError(answers, k) && answers[k] == s.err)
                         || (s.err == EAGAIN && forall k | 0 <= k < |answers| :: answers[k] > 0))
    decreases |answers|
  {
    if at < HEAD_SIZE + size && answers != [] {
      if answers[0] < 0 {
        assert FirstError(answers, 0);
      } else {
        var rest, next := answers[1..], at + Min(answers[0], Offered(size, at));
        SentMeans(size, next, rest);
        var s := Sent(size, next, rest);
        if k :| 0 <= k < |rest| && FirstError(rest, k) && rest[k] == s.err {
          assert FirstError(answers, k + 1) && answers[k + 1] == rest[k];
        }
      }
    }
  }

  /** One answer, taken from somewhere in the sequence. */
  lemma {:induction false} SentStep(size: nat, at: nat, answers: seq<int>, used: nat)
    requires at < HEAD_SIZE + size && used <= |answers|
    ensures Sent(size, at, answers[used..]) ==
      if used == |answers| then Sending(at, EAGAIN)
      else if answers[used] < 0 then Sending(at, answers[used])
      else Sent(size, at + Min(answers[used], Offered(size, at)), answers[used + 1..])
  {
    if used < |answers| {
      assert answers[used..][1..] == answers[used + 1..];
    }
  }

  lemma {:induction false} SentAll(size: nat, at: nat, answers: seq<int>)
    requires at >= HEAD_SIZE + size
    ensures Sent(size, at, answers) == Sending(at, 0)
  {
  }

  predicate FirstError(answers: seq<int>, k: nat)
    requires k < |answers|
  {
    answers[k] < 0 && forall j | 0 <= j < k :: answers[j] > 0
  }

  class WriteRequest {
    const head: seq<byte>
    const size: nat
    var pages: seq<Page>
    var left: nat               // left_to_write

    ghost predicate At(base: seq<Content>, init: seq<nat>, written: nat)
      reads this
    {
      && |head| == HEAD_SIZE && written <= HEAD_SIZE + size
      && PagesAt(base, size, pages, Body(written)) && MarksAt(init, size, pages, Body(written))
    }

    /** The request as ternfs_write_block sets it up: the first page is marked. */
    constructor (head: seq<byte>, size: nat, list: seq<Page>)
      requires |head| == HEAD_SIZE && IsBlock(Contents(list), size)
      ensures this.head == head && this.size == size && left == HEAD_SIZE + size
      ensures Contents(pages) == Contents(list) && Marks(pages) == Marks(list)[0 := 1]
      ensures At(Contents(list), Marks(pages), 0)
    {
      this.head, this.size := head, size;
      pages := list[0 := list[0].(index := 0, mark := 1)];
      left := HEAD_SIZE + size;
      new;
      assert |Contents(list)| == |list|;
      assert Contents(pages) == Contents(list) == Rotated(Contents(list), 0);
      assert Marks(pages) == Rotated(MarksAfter(Marks(pages), 0), 0);
    }

    /** Sends the rest of the header; `used` answers of the socket are gone then. */
    method SendHead(written: nat, answers: seq<int>) returns (ret: int, wire: seq<byte>, used: nat)
      requires |head| == HEAD_SIZE && AnswersOk(answers) && written <= HEAD_SIZE + size
      ensures written <= HEAD_SIZE ==> written + |wire| <= HEAD_SIZE && wire == head[written..written + |wire|]
      ensures written > HEAD_SIZE ==> wire == []
      ensures used <= |answers| && ret <= 0 && (ret == 0 ==> written + |wire| >= HEAD_SIZE)
      ensures Sent(size, written, answers) ==
        if ret < 0 then Sending(written + |wire|, ret) else Sent(size, written + |wire|, answers[used..])
    {
      hide Sent;
      var at := written;
      wire, used := [], 0;
      assert answers[0..] == answers;
      while at < HEAD_SIZE
        invariant written <= HEAD_SIZE ==> at == written + |wire| <= HEAD_SIZE && wire == head[written..at]
        invariant written > HEAD_SIZE ==> at == written && wire == []
        invariant used <= |answers| && Sent(size, written, answers) == Sent(size, at, answers[used..])
        decreases HEAD_SIZE - at
      {
        SentStep(size, at, answers, used);
        if used == |answers| {
          return EAGAIN, wire, used;
        }
        var sent := answers[used];
        if sent < 0 {
          return sent, wire, used;
        }
        sent := Min(sent, HEAD_SIZE - at);
        wire := wire + head[at..at + sent];
        at, used := at + sent, used + 1;
      }
      return 0, wire, used;
    }

    /** Accounts for `sent` bytes of the first page; `more` if the block is not all sent yet. */
    method Account(sent: nat, more: bool)
      requires pages != []
      modifies this`pages
      ensures pages == Advance(old(pages), sent, more)
    {
      pages := pages[0 := pages[0].(index := pages[0].index + sent)];
      if pages[0].index >= PAGE_SIZE {
        pages := RotateLeft(pages);
        if more {
          pages := pages[0 := pages[0].(index := 0, mark := 0)];
        }
      }
    }

    /** The page loop, from `from` bytes already written. */
    method SendPages(from: nat, answers: seq<int>, ghost base: seq<Content>, ghost init: seq<nat>)
      returns (ret: int, wire: seq<byte>)
      requires At(base, init, from) && from >= HEAD_SIZE && AnswersOk(answers)
      modifies this`pages
      ensures from + |wire| <= HEAD_SIZE + size && At(base, init, from + |wire|)
      ensures wire == Message(head, base, size)[from..from + |wire|]
      ensures ret <= 0 && (ret == 0 ==> from + |wire| == HEAD_SIZE + size)
      ensures Sent(size, from, answers) == Sending(from + |wire|, ret)
    {
      hide PagesAt, MarksAt, Message, Advance, Sent;
      var used := 0;
      assert answers[0..] == answers;
      var written := from;
      wire := [];
      assert IsBlock(base, size) by { PagesBlock(base, size, pages, Body(from)); }
      ghost var m := Message(head, base, size);
      while written < HEAD_SIZE + size
        invariant written == from + |wire| && HEAD_SIZE <= written <= HEAD_SIZE + size
        invariant At(base, init, written)
        invariant wire == m[from..written]
        invariant used <= |answers| && Sent(size, from, answers) == Sent(size, written, answers[used..])
        decreases HEAD_SIZE + size - written
      {
        ghost var body := written - HEAD_SIZE;
        FirstPage(base, size, pages, body);
        var page := pages[0];
        PageIndex(base, size, pages, body);
        var room := PAGE_SIZE - page.index;
        var offered := if room < HEAD_SIZE + size - written then room else HEAD_SIZE + size - written;
        SentStep(size, written, answers, used);
        if used == |answers| {
          return EAGAIN, wire;
        }
        var sent := answers[used];
        if sent < 0 {
          return sent, wire;
        }
        sent, used := Min(sent, offered), used + 1;
        PagesAdvance(base, size, pages, body, sent);
        MarksAdvance(base, init, size, pages, body, sent);
        WireSlice(head, base, size, pages, body, sent);
        assert m[from..written] + m[written..written + sent] == m[from..written + sent];
        wire := wire + page.content.bytes[page.index..page.index + sent];
        written := written + sent;
        Account(sent, written < HEAD_SIZE + size);
      }
      SentAll(size, written, answers[used..]);
      return 0, wire;
    }

    /**
     write_block_write_req; the caller takes a nonnegative result off left_to_write.  `full`: the socket
     took no more, and its write-space callback will schedule the next call.
     */
    method WriteReq(answers: seq<int>, ghost base: seq<Content>, ghost init: seq<nat>)
      returns (ret: int, wire: seq<byte>, full: bool)
      requires left <= HEAD_SIZE + size && At(base, init, HEAD_SIZE + size - left) && AnswersOk(answers)
      modifies this`pages
      ensures |wire| <= left && At(base, init, HEAD_SIZE + size - left + |wire|)
      ensures var from := HEAD_SIZE + size - left; wire == Message(head, base, size)[from..from + |wire|]
      ensures var s := Sent(size, HEAD_SIZE + size - left, answers);
        && |wire| == s.at - (HEAD_SIZE + size - left) && (full <==> s.err == EAGAIN)
        && ret == if s.err == 0 || s.err == EAGAIN then |wire| else s.err
      ensures ret >= 0 && !full ==> |wire| == left
    {
      hide PagesAt, MarksAt, Sent;
      var from := HEAD_SIZE + size - left;
      assert IsBlock(base, size) by { PagesBlock(base, size, pages, Body(from)); }
      ghost var m := Message(head, base, size);
      SentMeans(size, from, answers);
      var e, sentHead, used := SendHead(from, answers);
      var written := from + |sentHead|;
      assert sentHead == m[from..written];
      if e < 0 {
        return if e == EAGAIN then |sentHead| else e, sentHead, e == EAGAIN;
      }
      var sentBody;
      e, sentBody := SendPages(written, answers[used..], base, init);
      wire := sentHead + sentBody;
      assert m[from..written] + m[written..written + |sentBody|] == m[from..written + |sentBody|];
      return if e == 0 || e == EAGAIN then |wire| else e, wire, e == EAGAIN;
    }

    /**
     The loop of write_block_complete.  It turns the list to the next marked page; that is the first
     page, and the list is in its original order, if and only if no later page is still marked.
     */
    method Complete(ghost base: seq<Content>, ghost init: seq<nat>, ghost written: nat) returns (turns: nat)
      requires At(base, init, written) && init[0] != 0
      modifies this`pages
      ensures turns < |base|
      ensures Contents(pages) == base <==> NoLaterMark(init, size, Body(written))
    {
      hide IsBlock, Rotated, RotateLeft, MarksAfter, PagesAt, MarksAt, Contents, Marks, Cleared, Body;
      PagesBlock(base, size, pages, Body(written));
      ghost var body := Body(written);
      ghost var marks, k := MarksAfter(init, Cleared(size, body)), StartPosition(base, body);
      StartsAt(base, init, size, pages, body);
      turns := 0;
      while pages[0].mark == 0
        invariant |pages| == |base| && k + turns <= |base| && (k == 0 ==> turns == 0)
        invariant Contents(pages) == Rotated(base, k + turns) && Marks(pages) == Rotated(marks, k + turns)
        invariant pages[0].mark == marks[if k + turns == |base| then 0 else k + turns]
        invariant forall j | k <= j < k + turns :: marks[j] == 0
        decreases |base| - turns
      {
        RotatedNext(base, k + turns);
        RotatedNext(marks, k + turns);
        TurnPages(pages);
        pages := RotateLeft(pages);
        turns := turns + 1;
        FrontMark(marks, k + turns, pages);
      }
      DistinctTurns(base, size, k + turns);
    }
  }

  /** How far the list is turned when `body` bytes have been sent. */
  function StartPosition(base: seq<Content>, body: nat): nat {
    if body / PAGE_SIZE == |base| then 0 else body / PAGE_SIZE
  }

  /** No page from the current one on is marked, or the current page is the first one. */
  predicate NoLaterMark(init: seq<nat>, size: nat, body: nat) {
    var k := body / PAGE_SIZE;
    k == 0 || k == |init| || forall j | k <= j < |init| :: MarksAfter(init, Cleared(size, body))[j] == 0
  }

  /** With only the first page marked to begin with, the original order is always restored. */
  lemma UnmarkedIsRestored(init: seq<nat>, size: nat, body: nat)
    requires forall j | 1 <= j < |init| :: init[j] == 0
    ensures NoLaterMark(init, size, body)
  {
    var k := body / PAGE_SIZE;
    if k > 0 {
      assert forall j | k <= j < |init| :: MarksAfter(init, Cleared(size, body))[j] == 0;
    }
  }

  /** A page beyond the current one that starts out marked ends up in front. */
  lemma MarkedPageShows(init: seq<nat>, size: nat, body: nat, j: nat)
    requires PAGE_SIZE <= body && body / PAGE_SIZE < j < |init| && init[j] != 0
    ensures !NoLaterMark(init, size, body)
  {
    assert MarksAfter(init, Cleared(size, body))[j] == init[j];
  }

  lemma StartsAt(base: seq<Content>, init: seq<nat>, size: nat, pages: seq<Page>, body: nat)
    requires PagesAt(base, size, pages, body) && MarksAt(init, size, pages, body) && init[0] != 0
    ensures var k, marks := StartPosition(base, body), MarksAfter(init, Cleared(size, body));
      && |pages| == |base| == |marks| && k < |base| && marks[0] != 0
      && Contents(pages) == Rotated(base, k) && Marks(pages) == Rotated(marks, k)
      && pages[0].mark == marks[k]
  {
    assert |Contents(pages)| == |base|;
    RotatedFull(base);
    RotatedFull(MarksAfter(init, Cleared(size, body)));
    assert Marks(pages)[0] == pages[0].mark;
  }

  lemma TurnPages(pages: seq<Page>)
    requires pages != []
    ensures Contents(RotateLeft(pages)) == RotateLeft(Contents(pages))
    ensures Marks(RotateLeft(pages)) == RotateLeft(Marks(pages))
  {
  }

  lemma FrontMark(marks: seq<nat>, k: nat, pages: seq<Page>)
    requires k <= |marks| && pages != [] && Marks(pages) == Rotated(marks, k)
    ensures |marks| == |pages| && pages[0].mark == marks[if k == |marks| then 0 else k]
  {
    assert |Marks(pages)| == |pages|;
    assert Marks(pages)[0] == pages[0].mark;
  }

  lemma DistinctTurns(base: seq<Content>, size: nat, k: nat)
    requires IsBlock(base, size) && k <= |base|
    ensures Rotated(base, k) == base <==> k == 0 || k == |base|
  {
    RotatedFull(base);
    if 0 < k < |base| {
      assert Rotated(base, k)[0].id != base[0].id;
    }
  }

  lemma PagesBlock(base: seq<Content>, size: nat, pages: seq<Page>, body: nat)
    requires PagesAt(base, size, pages, body)
    ensures IsBlock(base, size)
  {
  }

  lemma PageIndex(base: seq<Content>, size: nat, pages: seq<Page>, body: nat)
    requires PagesAt(base, size, pages, body) && body < size
    ensures pages != [] && pages[0].index == body % PAGE_SIZE < PAGE_SIZE
  {
    FirstPage(base, size, pages, body);
  }
}
