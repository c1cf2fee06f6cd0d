/**
 Reading a cached directory.  The position is the hash of the next entry, so a reader can stop when its
 buffer is full, resume, and seek.  The reference is the plain list of entries in hash order.
 */
module Readdir {
  import opened Common
  import opened Bytes
  import opened DirPages

  datatype Item = Dot | DotDot | Named(e: Entry)

  /** A 64-bit value as a signed position. */
  function S64(v: nat): int {
    if v < S63 then v else v - U64
  }

  predicate Sorted(es: seq<Entry>) {
    forall i, j | 0 <= i < j < |es| :: es[i].hash <= es[j].hash
  }

  function Names(es: seq<Entry>): (items: seq<Item>)
    ensures |items| == |es|
  {
    seq(|es|, i requires 0 <= i < |es| => Named(es[i]))
  }

  // ---------------------------------------------------------------- the specification of one read

  /** Emits from entry `i` on: what is emitted, where the cursor stops, and the position there. */
  datatype Out = Out(emitted: seq<Entry>, stop: nat, pos: nat)

  function Scan(es: seq<Entry>, i: nat, pos: nat, room: nat): Out
    requires i < |es|
    decreases |es| - i
  {
    var e := es[i];
    if e.hash < pos then ScanNext(es, i, pos, room)
    else if room == 0 then Out([], i, e.hash)
    else
      var rest := ScanNext(es, i, e.hash, room - 1);
      rest.(emitted := [e] + rest.emitted)
  }

  /** After the last entry the cursor goes back to the start and the position one past the last. */
  function ScanNext(es: seq<Entry>, i: nat, pos: nat, room: nat): Out
    requires i < |es|
    decreases |es| - i, 0
  {
    if i + 1 == |es| then Out([], 0, (pos + 1) % U64) else Scan(es, i + 1, pos, room)
  }

  function FirstHash(groups: seq<seq<Entry>>, p: nat): nat
    requires p < |groups|
  {
    if p == 0 || groups[p] == [] then 0 else groups[p][0].hash
  }

  /** The last page, up to `p`, that does not start after the position. */
  function PageFor(groups: seq<seq<Entry>>, pos: nat, p: nat): (r: nat)
    requires p < |groups|
    ensures r <= p && FirstHash(groups, r) <= pos && forall q | r < q <= p :: FirstHash(groups, q) > pos
  {
    if p == 0 || FirstHash(groups, p) <= pos then p else PageFor(groups, pos, p - 1)
  }

  /** The number of entries before page `p`. */
  function PageStart(groups: seq<seq<Entry>>, p: nat): nat
    requires p <= |groups|
  {
    if p == 0 then 0 else PageStart(groups, p - 1) + |groups[p - 1]|
  }

  function At(groups: seq<seq<Entry>>, p: nat, n: nat): nat
    requires p <= |groups|
  {
    PageStart(groups, p) + n
  }

  predicate Resumes(es: seq<Entry>, pos: int, cursor: nat) {
    cursor < |es| && es[cursor].hash == pos
  }

  /** The entry at which reading starts. */
  function StartIndex(groups: seq<seq<Entry>>, pos: int, cursor: nat): nat
    requires groups != [] && pos >= 0
  {
    if pos < 2 then 0
    else if Resumes(Flatten(groups), pos, cursor) then cursor
    else PageStart(groups, PageFor(groups, pos, |groups| - 1))
  }

  /** Only the page of an empty directory is empty. */
  predicate Paged(groups: seq<seq<Entry>>) {
    groups != [] && forall p | 0 <= p < |groups| :: |groups| > 1 ==> groups[p] != []
  }

  lemma {:induction false} StartInRange(groups: seq<seq<Entry>>, pos: int, cursor: nat)
    requires Paged(groups) && pos >= 0 && Flatten(groups) != []
    ensures StartIndex(groups, pos, cursor) < |Flatten(groups)|
  {
    if pos >= 2 {
      var p := PageFor(groups, pos, |groups| - 1);
      if |groups| == 1 {
        assert groups[..0] == [];
        assert Flatten(groups) == groups[0];
      }
      FlattenAt(groups, p, 0);
    }
  }

  datatype Result = Result(err: int, pos: int, items: seq<Item>, cursor: nat)

  /** The dots that are still due at `pos`. */
  function Dots(pos: int): seq<Item> {
    if pos == 0 then [Dot, DotDot] else if pos == 1 then [DotDot] else []
  }

  /** Reading with the cursor at entry `at` of the plain list. */
  function ReadFrom(es: seq<Entry>, at: nat, pos: nat, room: nat): Result
    requires es != [] ==> at < |es|
  {
    var dots := Dots(pos);
    if room < |dots| then Result(0, pos + room, dots[..room], 0)
    else if es == [] then Result(0, pos + |dots|, dots, 0)
    else
      var out := Scan(es, at, pos + |dots|, room - |dots|);
      Result(0, S64(out.pos), dots + Names(out.emitted), out.stop)
  }

  predicate PastEnd(es: seq<Entry>, pos: int, cursor: nat) {
    pos >= 2 && !Resumes(es, pos, cursor) && pos > LastHash(es)
  }

  function ReadSpec(groups: seq<seq<Entry>>, pos: int, cursor: nat, room: nat): Result
    requires Paged(groups)
  {
    var es := Flatten(groups);
    if pos < 0 then Result(EIO, pos, [], cursor)
    else if PastEnd(es, pos, cursor) then Result(0, pos, [], cursor)
    else
      assert es != [] ==> StartIndex(groups, pos, cursor) < |es| by {
        if es != [] {
          StartInRange(groups, pos, cursor);
        }
      }
      ReadFrom(es, StartIndex(groups, pos, cursor), pos, room)
  }

  // ---------------------------------------------------------------- pages and the plain list

  lemma {:induction false} FlattenAt(groups: seq<seq<Entry>>, p: nat, n: nat)
    requires p < |groups| && n < |groups[p]|
    ensures At(groups, p, n) < |Flatten(groups)| && Flatten(groups)[At(groups, p, n)] == groups[p][n]
    decreases |groups|
  {
    var last := |groups| - 1;
    FlattenLength(groups[..last]);
    StartOfPrefix(groups, groups[..last], last);
    if p < last {
      FlattenAt(groups[..last], p, n);
      StartOfPrefix(groups, groups[..last], p);
    }
  }

  lemma {:induction false} FlattenLength(groups: seq<seq<Entry>>)
    ensures |Flatten(groups)| == PageStart(groups, |groups|)
    decreases |groups|
  {
    if groups != [] {
      var last := |groups| - 1;
      FlattenLength(groups[..last]);
      StartOfPrefix(groups, groups[..last], last);
    }
  }

  lemma {:induction false} StartOfPrefix(a: seq<seq<Entry>>, b: seq<seq<Entry>>, p: nat)
    requires p <= |a| && p <= |b| && forall k | 0 <= k < p :: a[k] == b[k]
    ensures PageStart(a, p) == PageStart(b, p)
    decreases p
  {
    if p > 0 {
      StartOfPrefix(a, b, p - 1);
    }
  }

  // ---------------------------------------------------------------- the reader

  class ReadCtx {
    var page: nat        // current_page, as a position in the page list
    var offset: nat      // page_offset
    var n: nat           // page_n

    ghost predicate CursorOk(groups: seq<seq<Entry>>)
      reads this
    {
      && page < |groups| && n <= |groups[page]| && offset == Offset(groups[page], n)
      && (n == |groups[page]| ==> groups[page] == [])
    }

    ghost function Cursor(groups: seq<seq<Entry>>): nat
      requires page < |groups|
      reads this
    {
      At(groups, page, n)
    }

    /** The page list walk of a seek: back while the page starts after the position, then forward. */
    method FindPage(pages: seq<DirPage>, pos: nat, ghost groups: seq<seq<Entry>>)
      requires PagesHold(pages, groups) && Paged(groups) && Sorted(Flatten(groups)) && page < |groups|
      modifies this
      ensures page == PageFor(groups, pos, |groups| - 1) && offset == 0 && n == 0
    {
      hide Flatten, PageFor, Holds;
      while pages[page].first > pos
        invariant page < |groups|
        decreases page
      {
        page := page - 1;
      }
      while page + 1 < |pages| && pages[page + 1].first <= pos
        invariant page < |groups| && pages[page].first <= pos
      {
        page := page + 1;
      }
      offset, n := 0, 0;
      FirstIs(pages, groups, page);
      if page + 1 < |pages| {
        FirstIs(pages, groups, page + 1);
      }
      PageForUnique(groups, pos, page);
    }

    /** The emit loop; the caller's buffer takes `room` entries. */
    method Emit(pages: seq<DirPage>, maxHash: nat, start: nat, room: nat, ghost groups: seq<seq<Entry>>)
      returns (pos: nat, emitted: seq<Entry>)
      requires Packed(pages, groups, maxHash) && Paged(groups) && CursorOk(groups) && groups[page] != []
      modifies this
      ensures CursorOk(groups)
      ensures At(groups, old(page), old(n)) < |Flatten(groups)|
      ensures Out(emitted, Cursor(groups), pos) == Scan(Flatten(groups), At(groups, old(page), old(n)), start, room)
    {
      hide Scan, ScanNext, Holds, Flatten, Offset, At, Packed, ParseEntry, Emitted;
      ghost var es := Flatten(groups);
      FlattenAt(groups, page, n);
      ghost var out := Scan(es, Cursor(groups), start, room);
      pos, emitted := start, [];
      NothingEmitted(out);
      while true
        invariant CursorOk(groups) && n < |groups[page]| && |emitted| <= room
        invariant Cursor(groups) < |es| && out == Emitted(emitted, Scan(es, Cursor(groups), pos, room - |emitted|))
        decreases |es| - Cursor(groups)
      {
        ghost var i := Cursor(groups);
        PageFacts(pages, groups, maxHash, page);
        ParseAt(pages[page].bytes, groups[page], n);
        FlattenAt(groups, page, n);
        NextEntry(groups, page, n);
        ScanStep(es, i, pos, room - |emitted|, emitted);
        var entry := ParseEntry(pages[page].bytes, offset);
        if entry.hash >= pos {
          pos := entry.hash;
          if |emitted| == room {
            return;
          }
          emitted := emitted + [entry];
        }
        ScanNextIs(es, i, pos, room - |emitted|, emitted);
        offset := offset + EntrySize(|entry.name|);
        n := n + 1;
        if n >= pages[page].n {
          n, offset := 0, 0;
          StartOfPage(groups);
          if page + 1 == |pages| {
            page := 0;
            pos := (pos + 1) % U64;
            return;
          }
          page := page + 1;
        }
      }
    }

    /** ternfs_dir_read */
    method Read(pages: seq<DirPage>, maxHash: nat, start: int, room: nat, ghost groups: seq<seq<Entry>>)
      returns (err: int, pos: int, items: seq<Item>)
      requires Packed(pages, groups, maxHash) && Paged(groups) && Sorted(Flatten(groups)) && CursorOk(groups)
        && start < S63
      modifies this
      ensures CursorOk(groups)
      ensures Result(err, pos, items, Cursor(groups)) == ReadSpec(groups, start, old(Cursor(groups)), room)
    {
      hide Scan, Flatten, PageFor, Holds, ParseEntry, Sorted;
      err, pos, items := 0, start, [];
      ghost var es, cursor := Flatten(groups), Cursor(groups);
      if pos < 0 {
        return EIO, pos, [];
      }
      MaxHashIsLast(pages, groups, maxHash);
      CursorEntry(groups, page, n);
      StartOfPage(groups);
      if pos == 0 || pos == 1 {
        page, offset, n := 0, 0, 0;
      } else {
        var atEntry := n < pages[page].n;
        if atEntry {
          ParseAt(pages[page].bytes, groups[page], n);
          atEntry := ParseEntry(pages[page].bytes, offset).hash == pos;
        }
        assert atEntry <==> Resumes(es, pos, cursor);
        if !atEntry {
          if pos > maxHash {
            return;
          }
          FindPage(pages, pos, groups);
        }
      }
      assert Cursor(groups) == StartIndex(groups, start, cursor);
      items := Dots(pos);
      if room < |items| {
        return 0, pos + room, items[..room];
      }
      pos := pos + |items|;
      EmptyPage(groups, page);
      if n >= pages[page].n {
        return;
      }
      var at, emitted := Emit(pages, maxHash, pos, room - |items|, groups);
      pos := S64(at);
      items := items + Names(emitted);
    }
  }

  /** A scan that has emitted `emitted` so far and goes on as `out`. */
  function Emitted(emitted: seq<Entry>, out: Out): Out {
    out.(emitted := emitted + out.emitted)
  }

  lemma NothingEmitted(out: Out)
    ensures out == Emitted([], out)
  {
    assert [] + out.emitted == out.emitted;
  }

  lemma PageFacts(pages: seq<DirPage>, groups: seq<seq<Entry>>, maxHash: nat, p: nat)
    requires Packed(pages, groups, maxHash) && p < |groups|
    ensures |pages| == |groups| && Holds(pages[p].bytes, groups[p]) && pages[p].n == |groups[p]|
  {
  }

  lemma ScanStep(es: seq<Entry>, i: nat, pos: nat, room: nat, emitted: seq<Entry>)
    requires i < |es|
    ensures es[i].hash < pos ==>
      Emitted(emitted, Scan(es, i, pos, room)) == Emitted(emitted, ScanNext(es, i, pos, room))
    ensures es[i].hash >= pos && room == 0 ==> Emitted(emitted, Scan(es, i, pos, room)) == Out(emitted, i, es[i].hash)
    ensures es[i].hash >= pos && room > 0 ==>
      Emitted(emitted, Scan(es, i, pos, room)) == Emitted(emitted + [es[i]], ScanNext(es, i, es[i].hash, room - 1))
  {
    hide ScanNext;
    if es[i].hash >= pos {
      if room == 0 {
        assert emitted + [] == emitted;
      } else {
        var rest := ScanNext(es, i, es[i].hash, room - 1);
        assert emitted + ([es[i]] + rest.emitted) == emitted + [es[i]] + rest.emitted;
      }
    }
  }

  lemma {:induction false} ScanNextIs(es: seq<Entry>, i: nat, pos: nat, room: nat, emitted: seq<Entry>)
    requires i < |es|
    ensures i + 1 == |es| ==> Emitted(emitted, ScanNext(es, i, pos, room)) == Out(emitted, 0, (pos + 1) % U64)
    ensures i + 1 < |es| ==> ScanNext(es, i, pos, room) == Scan(es, i + 1, pos, room)
  {
    assert emitted + [] == emitted;
  }

  lemma StartOfPage(groups: seq<seq<Entry>>)
    requires groups != []
    ensures At(groups, 0, 0) == 0 && forall p | 0 <= p < |groups| :: Offset(groups[p], 0) == 0
  {
  }

  /** Moving on from the last entry of a page. */
  lemma {:induction false} NextEntry(groups: seq<seq<Entry>>, p: nat, n: nat)
    requires Paged(groups) && p < |groups| && n < |groups[p]|
    ensures At(groups, p, n) + 1 == At(groups, p, n + 1)
    ensures n + 1 == |groups[p]| ==> At(groups, p, n + 1) == At(groups, p + 1, 0)
    ensures n + 1 == |groups[p]| && p + 1 == |groups| ==> At(groups, p, n) + 1 == |Flatten(groups)|
    ensures !(n + 1 == |groups[p]| && p + 1 == |groups|) ==> At(groups, p, n) + 1 < |Flatten(groups)|
  {
    FlattenLength(groups);
    if n + 1 < |groups[p]| {
      FlattenAt(groups, p, n + 1);
    } else if p + 1 < |groups| {
      FlattenAt(groups, p + 1, 0);
    }
  }

  lemma {:induction false} MaxHashIsLast(pages: seq<DirPage>, groups: seq<seq<Entry>>, maxHash: nat)
    requires Packed(pages, groups, maxHash)
    ensures maxHash == LastHash(Flatten(groups))
  {
    var last := |groups| - 1;
    if groups[last] == [] {
      assert groups[..last] == [];
    }
  }

  lemma {:induction false} CursorEntry(groups: seq<seq<Entry>>, p: nat, n: nat)
    requires Paged(groups) && p < |groups| && n <= |groups[p]| && (n == |groups[p]| ==> groups[p] == [])
    ensures n < |groups[p]| ==>
      At(groups, p, n) < |Flatten(groups)| && Flatten(groups)[At(groups, p, n)] == groups[p][n]
    ensures n == |groups[p]| ==> Flatten(groups) == []
  {
    if n < |groups[p]| {
      FlattenAt(groups, p, n);
    } else {
      assert groups[..0] == [];
    }
  }

  lemma {:induction false} EmptyPage(groups: seq<seq<Entry>>, p: nat)
    requires Paged(groups) && p < |groups|
    ensures groups[p] == [] <==> Flatten(groups) == []
  {
    CursorEntry(groups, p, 0);
  }

  lemma FirstIs(pages: seq<DirPage>, groups: seq<seq<Entry>>, p: nat)
    requires PagesHold(pages, groups) && Paged(groups) && p < |pages|
    ensures pages[p].first == FirstHash(groups, p)
  {
  }

  lemma {:induction false} FirstsAscend(groups: seq<seq<Entry>>, p: nat, q: nat)
    requires Paged(groups) && Sorted(Flatten(groups)) && p <= q < |groups|
    ensures FirstHash(groups, p) <= FirstHash(groups, q)
  {
    if 0 < p < q {
      FlattenAt(groups, p, 0);
      FlattenAt(groups, q, 0);
      StartsAscend(groups, p, q);
    }
  }

  lemma {:induction false} StartsAscend(groups: seq<seq<Entry>>, p: nat, q: nat)
    requires p <= q <= |groups|
    ensures PageStart(groups, p) <= PageStart(groups, q)
    ensures p < q ==> PageStart(groups, p) + |groups[p]| <= PageStart(groups, q)
    decreases q
  {
    if p < q {
      StartsAscend(groups, p, q - 1);
    }
  }

  lemma PageForUnique(groups: seq<seq<Entry>>, pos: nat, p: nat)
    requires Paged(groups) && Sorted(Flatten(groups)) && p < |groups|
    requires FirstHash(groups, p) <= pos && (p + 1 < |groups| ==> FirstHash(groups, p + 1) > pos)
    ensures PageFor(groups, pos, |groups| - 1) == p
  {
    var r := PageFor(groups, pos, |groups| - 1);
    if r > p {
      FirstsAscend(groups, p + 1, r);
    }
  }

  // ---------------------------------------------------------------- what one read emits

  /** The first entry from `i` on whose hash is at least `pos`. */
  function FirstFrom(es: seq<Entry>, i: nat, pos: nat): (m: nat)
    requires i <= |es|
    ensures i <= m <= |es| && (m < |es| ==> es[m].hash >= pos) && forall j | i <= j < m :: es[j].hash < pos
    decreases |es| - i
  {
    if i == |es| || es[i].hash >= pos then i else FirstFrom(es, i + 1, pos)
  }

  /** Emitting from entry `m` on as many entries as there is room for. */
  function Slice(es: seq<Entry>, m: nat, pos: nat, room: nat): Out
    requires m <= |es|
  {
    if room < |es| - m then Out(es[m..m + room], m + room, es[m + room].hash)
    else Out(es[m..], 0, ((if m < |es| then es[|es| - 1].hash else pos) + 1) % U64)
  }

  /** A scan emits a run of the list, from the first entry that is not before the position. */
  lemma {:induction false} ScanSorted(es: seq<Entry>, i: nat, pos: nat, room: nat)
    requires Sorted(es) && i < |es|
    ensures Scan(es, i, pos, room) == Slice(es, FirstFrom(es, i, pos), pos, room)
    decreases |es| - i
  {
    hide Sorted;
    var e := es[i];
    if e.hash < pos {
      if i + 1 < |es| {
        ScanSorted(es, i + 1, pos, room);
      }
    } else if room > 0 && i + 1 < |es| {
      ScanSorted(es, i + 1, e.hash, room - 1);
      InOrder(es, i);
      SliceMore(es, i, pos, room);
    }
  }

  lemma SliceMore(es: seq<Entry>, i: nat, pos: nat, room: nat)
    requires i + 1 < |es| && room > 0
    ensures var rest := Slice(es, i + 1, es[i].hash, room - 1);
      Slice(es, i, pos, room) == rest.(emitted := [es[i]] + rest.emitted)
  {
    if room < |es| - i {
      assert [es[i]] + es[i + 1..i + room] == es[i..i + room];
    } else {
      assert [es[i]] + es[i + 1..] == es[i..];
    }
  }

  lemma {:induction false} InOrder(es: seq<Entry>, i: nat)
    requires Sorted(es) && i + 1 < |es|
    ensures FirstFrom(es, i + 1, es[i].hash) == i + 1
  {
  }

  // ---------------------------------------------------------------- listing a directory

  /** The whole listing: the dots and the entries whose hash is not one of the dots' positions. */
  function Full(es: seq<Entry>): seq<Item> {
    [Dot, DotDot] + Names(es[FirstFrom(es, 0, 2)..])
  }

  /** Positions are signed: the last hash and its successor must fit. */
  predicate Fits(es: seq<Entry>) {
    LastHash(es) < S63 - 1
  }

  /** The reader has emitted the first `k` items of the listing. */
  predicate Progress(es: seq<Entry>, k: nat, pos: int, cursor: nat) {
    var at := FirstFrom(es, 0, 2) + k - 2;
    && k <= |Full(es)| && 0 <= pos < S63
    && (k < 2 ==> pos == k)
    && (k >= 2 && at < |es| ==> cursor == at && pos == es[at].hash)
    && (k >= 2 && at == |es| ==> pos >= 2 && pos > LastHash(es))
  }

  lemma HashesBelowLast(es: seq<Entry>, i: nat)
    requires Sorted(es) && i < |es|
    ensures es[i].hash <= LastHash(es)
  {
  }

  /** The items that a read at item `k` with room for `room` items is to emit. */
  function Due(es: seq<Entry>, k: nat, room: nat): seq<Item>
    requires k <= |Full(es)|
  {
    Full(es)[k..Min(k + room, |Full(es)|)]
  }

  lemma {:induction false} SliceOfFull(es: seq<Entry>, m: nat, pos: nat, room: nat, k: nat)
    requires FirstFrom(es, 0, 2) <= m <= |es| && k == m - FirstFrom(es, 0, 2) + 2
    ensures k <= |Full(es)| && Names(Slice(es, m, pos, room).emitted) == Due(es, k, room)
  {
    hide FirstFrom, Names;
    var f, n := FirstFrom(es, 0, 2), Min(room, |es| - m);
    TailSlice([Dot, DotDot], Names(es[f..]), k, n);
    NamesSlice(es, f, m, n);
    assert Slice(es, m, pos, room).emitted == es[m..m + n];
    assert Min(k + room, |Full(es)|) == k + n;
  }

  lemma NamesSlice(es: seq<Entry>, f: nat, m: nat, n: nat)
    requires f <= m && m + n <= |es|
    ensures Names(es[f..])[m - f..m - f + n] == Names(es[m..m + n])
  {
    var a, b := Names(es[f..])[m - f..m - f + n], Names(es[m..m + n]);
    forall i | 0 <= i < n ensures a[i] == b[i] {
    }
  }

  lemma TailSlice(head: seq<Item>, tail: seq<Item>, k: nat, n: nat)
    requires |head| <= k && k + n <= |head| + |tail|
    ensures (head + tail)[k..k + n] == tail[k - |head|..k - |head| + n]
  {
  }

  lemma DueSplit(es: seq<Entry>, k: nat, room: nat)
    requires k < 2 && room >= 2 - k
    ensures |Full(es)| >= 2 && Dots(k) + Due(es, 2, room - (2 - k)) == Due(es, k, room)
  {
    hide FirstFrom;
    var full := Full(es);
    assert Dots(k) == full[k..2];
  }

  /** The state after emitting from entry `m` on. */
  lemma {:induction false} SliceProgress(es: seq<Entry>, m: nat, pos: nat, room: nat)
    requires Sorted(es) && Fits(es) && FirstFrom(es, 0, 2) <= m <= |es| && (m == |es| ==> LastHash(es) <= pos == 2)
    ensures var out := Slice(es, m, pos, room);
      Progress(es, m - FirstFrom(es, 0, 2) + 2 + |out.emitted|, S64(out.pos), out.stop)
  {
    hide Progress;
    if room < |es| - m {
      StoppedAt(es, m + room);
    } else if m < |es| {
      HashAbove(es, |es| - 1);
      StoppedAtEnd(es, LastHash(es));
    } else {
      StoppedAtEnd(es, pos);
    }
  }

  lemma FromDots(es: seq<Entry>, k: nat, cursor: nat, room: nat)
    requires Sorted(es) && Fits(es) && k < 2 && Progress(es, k, k, cursor)
    ensures var r := ReadFrom(es, 0, k, room);
      r.err == 0 && r.items == Due(es, k, room) && Progress(es, k + |r.items|, r.pos, r.cursor)
  {
    hide Scan, Sorted, FirstFrom;
    var dots := Dots(k);
    assert dots == Full(es)[k..2];
    if room < |dots| {
      assert dots[..room] == Full(es)[k..k + room];
    } else if es == [] {
      NoEntries(es);
    } else {
      AllDots(es, k, room);
    }
  }

  lemma AllDots(es: seq<Entry>, k: nat, room: nat)
    requires Sorted(es) && Fits(es) && es != [] && k < 2 && room >= 2 - k
    ensures var r := ReadFrom(es, 0, k, room);
      r.err == 0 && r.items == Due(es, k, room) && Progress(es, k + |r.items|, r.pos, r.cursor)
  {
    hide Progress, Due, Full, Fits, S64, Sorted;
    var f, left := FirstFrom(es, 0, 2), room - (2 - k);
    ScanSorted(es, 0, 2, left);
    if f == |es| {
      LowHashes(es);
    }
    SliceProgress(es, f, 2, left);
    SliceOfFull(es, f, 2, left, 2);
    DueSplit(es, k, room);
    hide Slice, Scan, FirstFrom;
  }

  lemma {:induction false} LowHashes(es: seq<Entry>)
    requires FirstFrom(es, 0, 2) == |es|
    ensures LastHash(es) <= 2
  {
  }

  lemma {:induction false} NoEntries(es: seq<Entry>)
    requires es == []
    ensures FirstFrom(es, 0, 2) == 0 && |Full(es)| == 2
  {
  }

  /** The state after stopping before entry `at`. */
  lemma {:induction false} StoppedAt(es: seq<Entry>, at: nat)
    requires Sorted(es) && Fits(es) && FirstFrom(es, 0, 2) <= at < |es|
    ensures Progress(es, at - FirstFrom(es, 0, 2) + 2, S64(es[at].hash), at)
  {
    HashesBelowLast(es, at);
  }

  /** The state after the last entry, when `pos` is the position reached. */
  lemma {:induction false} StoppedAtEnd(es: seq<Entry>, pos: nat)
    requires LastHash(es) <= pos && 2 <= pos < S63 - 1
    ensures Progress(es, |es| - FirstFrom(es, 0, 2) + 2, S64((pos + 1) % U64), 0)
  {
  }

  lemma {:induction false} HashAbove(es: seq<Entry>, i: nat)
    requires Sorted(es) && FirstFrom(es, 0, 2) <= i < |es|
    ensures es[i].hash >= 2
  {
    var f := FirstFrom(es, 0, 2);
    assert es[f].hash >= 2;
  }

  lemma {:induction false} EntryFacts(es: seq<Entry>, k: nat, pos: nat, cursor: nat)
    requires Progress(es, k, pos, cursor) && k >= 2 && FirstFrom(es, 0, 2) + k - 2 < |es|
    ensures cursor == FirstFrom(es, 0, 2) + k - 2 && pos == es[cursor].hash
  {
  }

  lemma ReadsSlice(es: seq<Entry>, pos: nat, cursor: nat, room: nat)
    requires Sorted(es) && cursor < |es| && es[cursor].hash == pos >= 2
    ensures var out := Slice(es, cursor, pos, room);
      ReadFrom(es, cursor, pos, room) == Result(0, S64(out.pos), Names(out.emitted), out.stop)
  {
    ScanSorted(es, cursor, pos, room);
    hide Slice, Scan;
    assert FirstFrom(es, cursor, pos) == cursor;
    var out := Slice(es, cursor, pos, room);
    assert [] + Names(out.emitted) == Names(out.emitted);
  }

  lemma {:induction false} FromEntry(es: seq<Entry>, k: nat, pos: nat, cursor: nat, room: nat)
    requires Sorted(es) && Fits(es) && k >= 2 && FirstFrom(es, 0, 2) + k - 2 < |es| && Progress(es, k, pos, cursor)
    ensures cursor < |es| && pos >= 2
    ensures var r := ReadFrom(es, cursor, pos, room);
      r.err == 0 && r.items == Due(es, k, room) && Progress(es, k + |r.items|, r.pos, r.cursor)
  {
    hide Progress, Due, Full, Fits, S64, Sorted, ReadFrom, Names;
    EntryFacts(es, k, pos, cursor);
    HashAbove(es, cursor);
    ReadsSlice(es, pos, cursor, room);
    SliceOfFull(es, cursor, pos, room, k);
    SliceProgress(es, cursor, pos, room);
    hide Slice, Scan, FirstFrom;
  }

  /** One read, wherever the listing is: the next items, as many as fit, and none after the end. */
  lemma {:induction false} ReadStep(groups: seq<seq<Entry>>, k: nat, pos: int, cursor: nat, room: nat)
    requires Paged(groups) && Sorted(Flatten(groups)) && Fits(Flatten(groups))
      && Progress(Flatten(groups), k, pos, cursor)
    ensures var es, r := Flatten(groups), ReadSpec(groups, pos, cursor, room);
      r.err == 0 && r.items == Due(es, k, room) && Progress(es, k + |r.items|, r.pos, r.cursor)
  {
    var es := Flatten(groups);
    hide ReadFrom, Flatten, Sorted, PageFor, PageStart;
    if k < 2 {
      FromDots(es, k, cursor, room);
    } else if FirstFrom(es, 0, 2) + k - 2 < |es| {
      FromEntry(es, k, pos, cursor, room);
    } else {
      if cursor < |es| {
        HashesBelowLast(es, cursor);
      }
      assert Due(es, k, room) == [];
    }
  }

  // ---------------------------------------------------------------- whole listings

  /** Whether all reads succeeded, and everything they emitted. */
  datatype Listing = Listing(ok: bool, items: seq<Item>)

  /** One read after the other, each with its own room. */
  function Reads(groups: seq<seq<Entry>>, pos: int, cursor: nat, rooms: seq<nat>): Listing
    requires Paged(groups)
    decreases |rooms|
  {
    if rooms == [] then Listing(true, [])
    else
      var r := ReadSpec(groups, pos, cursor, rooms[0]);
      var rest := Reads(groups, r.pos, r.cursor, rooms[1..]);
      Listing(r.err == 0 && rest.ok, r.items + rest.items)
  }

  function Sum(rooms: seq<nat>): nat {
    if rooms == [] then 0 else rooms[0] + Sum(rooms[1..])
  }

  lemma {:induction false} ReadsContinue(groups: seq<seq<Entry>>, k: nat, pos: int, cursor: nat, rooms: seq<nat>)
    requires Paged(groups) && Sorted(Flatten(groups)) && Fits(Flatten(groups))
      && Progress(Flatten(groups), k, pos, cursor)
    ensures Reads(groups, pos, cursor, rooms) == Listing(true, Due(Flatten(groups), k, Sum(rooms)))
    decreases |rooms|
  {
    var es := Flatten(groups);
    hide ReadSpec, Flatten, Sorted, Progress, Full, Due;
    ProgressBound(es, k, pos, cursor);
    DueNothing(es, k);
    if rooms != [] {
      var r := ReadSpec(groups, pos, cursor, rooms[0]);
      ReadStep(groups, k, pos, cursor, rooms[0]);
      var k1 := k + |r.items|;
      ProgressBound(es, k1, r.pos, r.cursor);
      ReadsContinue(groups, k1, r.pos, r.cursor, rooms[1..]);
      DueMore(es, k, rooms[0], Sum(rooms[1..]));
    }
  }

  lemma DueMore(es: seq<Entry>, k: nat, m: nat, n: nat)
    requires k <= |Full(es)|
    ensures var k1 := k + |Due(es, k, m)|; k1 <= |Full(es)| && Due(es, k, m) + Due(es, k1, n) == Due(es, k, m + n)
  {
    hide Full;
  }

  lemma DueNothing(es: seq<Entry>, k: nat)
    requires k <= |Full(es)|
    ensures Due(es, k, 0) == []
  {
  }

  lemma ProgressBound(es: seq<Entry>, k: nat, pos: int, cursor: nat)
    requires Progress(es, k, pos, cursor)
    ensures k <= |Full(es)|
  {
  }

  /** Every way of reading the directory from the start gives the listing, once and in order. */
  ghost predicate ListsRight(groups: seq<seq<Entry>>, cursor: nat)
    requires Paged(groups)
  {
    forall rooms: seq<nat> :: Reads(groups, 0, cursor, rooms) == Listing(true, Due(Flatten(groups), 0, Sum(rooms)))
  }

  lemma {:induction false} ListsRightIff(groups: seq<seq<Entry>>, cursor: nat)
    requires Paged(groups) && Sorted(Flatten(groups)) && LastHash(Flatten(groups)) < U64
    ensures ListsRight(groups, cursor) <==> Fits(Flatten(groups))
  {
    var es := Flatten(groups);
    hide Reads, Flatten, Sorted, Full, FirstFrom, Due;
    if Fits(es) {
      StartOfListing(es, cursor);
      forall rooms: seq<nat> ensures Reads(groups, 0, cursor, rooms) == Listing(true, Due(es, 0, Sum(rooms))) {
        ReadsContinue(groups, 0, 0, cursor, rooms);
      }
    } else {
      BigHashFails(groups, cursor);
    }
  }

  lemma StartOfListing(es: seq<Entry>, cursor: nat)
    ensures Progress(es, 0, 0, cursor)
  {
  }

  /** After a listing that ends with too big a hash the next read fails, or starts all over. */
  lemma BigHashFails(groups: seq<seq<Entry>>, cursor: nat)
    requires Paged(groups) && Sorted(Flatten(groups)) && S63 - 1 <= LastHash(Flatten(groups)) < U64
    ensures var es := Flatten(groups);
      Reads(groups, 0, cursor, [|es| + 2, 1]) != Listing(true, Due(es, 0, Sum([|es| + 2, 1])))
  {
    var es := Flatten(groups);
    var rooms := [|es| + 2, 1];
    ReadAll(groups, cursor);
    var r := ReadSpec(groups, 0, cursor, |es| + 2);
    hide ReadSpec, Flatten, Sorted;
    assert rooms[1..] == [1];
    NextRead(groups, r.pos, r.cursor);
    assert [1][1..] == [];
    assert |Due(es, 0, Sum(rooms))| <= |Full(es)|;
  }

  lemma {:induction false} ReadAll(groups: seq<seq<Entry>>, cursor: nat)
    requires Paged(groups) && Sorted(Flatten(groups)) && S63 - 1 <= LastHash(Flatten(groups)) < U64
    ensures var es, r := Flatten(groups), ReadSpec(groups, 0, cursor, |Flatten(groups)| + 2);
      r.items == Full(es) && (r.pos < 0 || r.pos == 0)
  {
    var es := Flatten(groups);
    hide Flatten;
    ScanSorted(es, 0, 2, |es|);
    hide Scan, Sorted;
  }

  lemma NextRead(groups: seq<seq<Entry>>, pos: int, cursor: nat)
    requires Paged(groups) && pos <= 0
    ensures pos < 0 ==> ReadSpec(groups, pos, cursor, 1).err != 0
    ensures pos == 0 ==> ReadSpec(groups, pos, cursor, 1).items == [Dot]
  {
  }

  /** The listing has all entries if and only if no hash is 0 or 1. */
  lemma FullIff(es: seq<Entry>)
    requires Sorted(es)
    ensures Full(es) == [Dot, DotDot] + Names(es) <==> (es == [] || es[0].hash >= 2)
  {
    hide FirstFrom;
    FirstIsZero(es);
    var f := FirstFrom(es, 0, 2);
    if f == 0 {
      assert es[0..] == es;
    } else {
      assert |Full(es)| == 2 + |es| - f;
    }
  }

  lemma {:induction false} FirstIsZero(es: seq<Entry>)
    ensures FirstFrom(es, 0, 2) == 0 <==> (es == [] || es[0].hash >= 2)
    ensures FirstFrom(es, 0, 2) <= |es|
  {
  }

  // ---------------------------------------------------------------- seeking

  /** Reading at `pos` gives the entries with hash at least `pos`, as many as there is room for. */
  ghost predicate SeeksRight(groups: seq<seq<Entry>>, pos: nat, cursor: nat)
    requires Paged(groups)
  {
    var es := Flatten(groups);
    forall room: nat ::
      ReadSpec(groups, pos, cursor, room).items == Names(Slice(es, FirstFrom(es, 0, pos), pos, room).emitted)
  }

  /** Page `p` starts with the hash that the page before ends with. */
  predicate SplitAt(groups: seq<seq<Entry>>, p: nat, pos: nat)
    requires 0 < p < |groups|
  {
    groups[p] != [] && groups[p - 1] != [] && groups[p][0].hash == pos == LastHash(groups[p - 1])
  }

  predicate Splits(groups: seq<seq<Entry>>, pos: nat) {
    exists p | 0 < p < |groups| :: SplitAt(groups, p, pos)
  }

  /**
   When a seek is right.  A reader that resumes goes on from its cursor, which must be at the first entry of
   that hash; otherwise no page boundary may lie between entries of that hash.
   */
  predicate Seekable(groups: seq<seq<Entry>>, pos: nat, cursor: nat) {
    var es := Flatten(groups);
    if Resumes(es, pos, cursor) then cursor == 0 || es[cursor - 1].hash != pos else !Splits(groups, pos)
  }

  lemma {:induction false} SeeksRightIff(groups: seq<seq<Entry>>, pos: nat, cursor: nat)
    requires Paged(groups) && Sorted(Flatten(groups)) && 2 <= pos <= LastHash(Flatten(groups))
    ensures SeeksRight(groups, pos, cursor) <==> Seekable(groups, pos, cursor)
  {
    hide SeeksRight, Sorted, Splits, PageFor, PageStart, Flatten;
    var es := Flatten(groups);
    SeeksFromStart(groups, pos, cursor);
    if Resumes(es, pos, cursor) {
      if cursor > 0 {
        SortedPair(es, cursor);
      }
    } else {
      StartSplits(groups, pos);
    }
  }

  lemma SortedPair(es: seq<Entry>, i: nat)
    requires Sorted(es) && 0 < i < |es|
    ensures es[i - 1].hash <= es[i].hash
  {
  }

  /** The page where a seek starts is preceded by an entry of that hash exactly if a boundary splits the hash. */
  lemma {:induction false} StartSplits(groups: seq<seq<Entry>>, pos: nat)
    requires Paged(groups) && Sorted(Flatten(groups)) && 2 <= pos <= LastHash(Flatten(groups))
    ensures var es, p := Flatten(groups), PageFor(groups, pos, |groups| - 1);
      var start := PageStart(groups, p);
      start <= |es| && ((start == 0 || es[start - 1].hash < pos) <==> !Splits(groups, pos))
  {
    hide Sorted, Flatten, Splits;
    var es, p := Flatten(groups), PageFor(groups, pos, |groups| - 1);
    FlattenLength(groups);
    if p > 0 {
      BoundaryAt(groups, p);
      if SplitAt(groups, p, pos) {
        SplitsAt(groups, p, pos);
      }
    }
    if Splits(groups, pos) {
      SplitIsAtPageFor(groups, pos);
    }
  }

  lemma SplitsAt(groups: seq<seq<Entry>>, p: nat, pos: nat)
    requires 0 < p < |groups| && SplitAt(groups, p, pos)
    ensures Splits(groups, pos)
  {
  }

  /** The entries on either side of a page boundary. */
  lemma {:induction false} BoundaryAt(groups: seq<seq<Entry>>, p: nat)
    requires Paged(groups) && Sorted(Flatten(groups)) && 0 < p < |groups|
    ensures var es, start := Flatten(groups), PageStart(groups, p);
      && 0 < start < |es| && es[start] == groups[p][0] && es[start - 1].hash == LastHash(groups[p - 1])
      && LastHash(groups[p - 1]) <= groups[p][0].hash
  {
    hide Flatten;
    FlattenAt(groups, p, 0);
    FlattenAt(groups, p - 1, |groups[p - 1]| - 1);
  }

  /** If some boundary splits the hash, so does the one before the page where the seek starts. */
  lemma {:induction false} SplitIsAtPageFor(groups: seq<seq<Entry>>, pos: nat)
    requires Paged(groups) && Sorted(Flatten(groups)) && Splits(groups, pos)
    ensures var p := PageFor(groups, pos, |groups| - 1); p > 0 && SplitAt(groups, p, pos)
  {
    hide Sorted, Flatten;
    var p := PageFor(groups, pos, |groups| - 1);
    var q :| 0 < q < |groups| && SplitAt(groups, q, pos);
    assert FirstHash(groups, q) == pos;
    if q < p {
      FirstsAscend(groups, q, p - 1);
      BoundaryAt(groups, p);
      FirstBelowLast(groups, p - 1);
    }
  }

  lemma {:induction false} FirstBelowLast(groups: seq<seq<Entry>>, p: nat)
    requires Paged(groups) && Sorted(Flatten(groups)) && p < |groups| && groups[p] != []
    ensures groups[p][0].hash <= LastHash(groups[p])
  {
    FlattenAt(groups, p, 0);
    FlattenAt(groups, p, |groups[p]| - 1);
  }

  /** Seeking is right exactly when no entry with that hash lies before the entry where it starts. */
  lemma {:induction false} SeeksFromStart(groups: seq<seq<Entry>>, pos: nat, cursor: nat)
    requires Paged(groups) && Sorted(Flatten(groups)) && 2 <= pos <= LastHash(Flatten(groups))
    ensures var es, start := Flatten(groups), StartIndex(groups, pos, cursor);
      start <= |es| && (SeeksRight(groups, pos, cursor) <==> (start == 0 || es[start - 1].hash < pos))
  {
    var es, start := Flatten(groups), StartIndex(groups, pos, cursor);
    StartInRange(groups, pos, cursor);
    var m := FirstFrom(es, start, pos);
    forall room: nat ensures ReadSpec(groups, pos, cursor, room).items == Names(Slice(es, m, pos, room).emitted) {
      SeekReads(groups, pos, cursor, room);
    }
    FirstFromStart(es, start, pos);
    if !(start == 0 || es[start - 1].hash < pos) {
      var g := FirstFrom(es, 0, pos);
      assert |Slice(es, m, pos, |es|).emitted| < |Slice(es, g, pos, |es|).emitted|;
      assert ReadSpec(groups, pos, cursor, |es|).items != Names(Slice(es, g, pos, |es|).emitted);
    }
  }

  lemma {:induction false} SeekReads(groups: seq<seq<Entry>>, pos: nat, cursor: nat, room: nat)
    requires Paged(groups) && Sorted(Flatten(groups)) && 2 <= pos <= LastHash(Flatten(groups))
    ensures var es, start := Flatten(groups), StartIndex(groups, pos, cursor);
      start < |es| && ReadSpec(groups, pos, cursor, room).items ==
        Names(Slice(es, FirstFrom(es, start, pos), pos, room).emitted)
  {
    StartInRange(groups, pos, cursor);
    var es, start := Flatten(groups), StartIndex(groups, pos, cursor);
    ScanSorted(es, start, pos, room);
    hide StartIndex, Slice, Scan, Sorted, Flatten, FirstFrom;
    var items := Names(Slice(es, FirstFrom(es, start, pos), pos, room).emitted);
    assert [] + items == items;
  }

  lemma {:induction false} FirstFromStart(es: seq<Entry>, start: nat, pos: nat)
    requires Sorted(es) && start < |es|
    ensures (start == 0 || es[start - 1].hash < pos) ==> FirstFrom(es, start, pos) == FirstFrom(es, 0, pos)
    ensures !(start == 0 || es[start - 1].hash < pos) ==> FirstFrom(es, 0, pos) < FirstFrom(es, start, pos)
  {
    var g, m := FirstFrom(es, 0, pos), FirstFrom(es, start, pos);
    if start > 0 && es[start - 1].hash < pos {
      assert forall j | 0 <= j < start :: es[j].hash <= es[start - 1].hash;
    }
  }

  /** With distinct hashes every seek is right. */
  lemma {:induction false} DistinctSeeksRight(groups: seq<seq<Entry>>, pos: nat, cursor: nat)
    requires Paged(groups) && 2 <= pos <= LastHash(Flatten(groups))
    requires forall i, j | 0 <= i < j < |Flatten(groups)| :: Flatten(groups)[i].hash < Flatten(groups)[j].hash
    ensures SeeksRight(groups, pos, cursor)
  {
    var es := Flatten(groups);
    SeeksRightIff(groups, pos, cursor);
    if Splits(groups, pos) {
      var p :| 0 < p < |groups| && SplitAt(groups, p, pos);
      BoundaryAt(groups, p);
    }
  }

  /** Entries with the longest names fill a page with fifteen. */
  lemma {:induction false} LongNamesPack(es: seq<Entry>, k: nat)
    requires k <= 15 && k <= |es| && forall i | 0 <= i < |es| :: |es[i].name| == MAX_FILENAME
    ensures Pack(es[..k]) == [es[..k]] && Offset(es[..k], k) == 272 * k
  {
    if k == 0 {
      assert es[..0] == [];
    } else {
      LongNamesPack(es, k - 1);
      var before := es[..k - 1];
      assert es[..k] == before + [es[k - 1]];
      PackMore(before, es[k - 1]);
      OffsetPrefix(before, es[..k], k - 1);
    }
  }

  /**
   Sixteen entries with the longest names, the last two of one hash: the fill splits them over two pages, and a
   seek to that hash misses the first of the two.
   */
  lemma {:induction false} DuplicateMissed(es: seq<Entry>, cursor: nat)
    requires |es| == 16 && (forall i | 0 <= i < |es| :: |es[i].name| == MAX_FILENAME) && Sorted(es)
    requires es[14].hash == es[15].hash >= 2 && cursor < 14 && es[cursor].hash != es[15].hash
    ensures Paged(Pack(es)) && Flatten(Pack(es)) == es && Pack(es) == [es[..15], [es[15]]]
    ensures !SeeksRight(Pack(es), es[15].hash, cursor)
  {
    hide Pack, Flatten, SeeksRight, Sorted;
    LongNamesPack(es, 15);
    assert es == es[..15] + [es[15]];
    PackMore(es[..15], es[15]);
    PackFlatten(es);
    assert SplitAt(Pack(es), 1, es[15].hash);
    SplitsAt(Pack(es), 1, es[15].hash);
    SeeksRightIff(Pack(es), es[15].hash, cursor);
  }
}
