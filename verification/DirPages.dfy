/**
 The directory cache: entries in hash order, packed back to back into pages.  Each page knows how many
 entries it holds and, except for the first one, the hash of its first entry.
 */
module DirPages {
  import opened Common
  import opened Bytes

  const MAX_FILENAME: nat := 255

  datatype Entry = Entry(ino: nat, hash: nat, name: seq<byte>)

  predicate EntryOk(e: Entry) {
    e.ino < U64 && e.hash < U64 && |e.name| <= MAX_FILENAME
  }

  // ---------------------------------------------------------------- one entry

  /** ternfs_dir_entry_size */
  function EntrySize(nameLen: nat): nat {
    8 + 8 + 1 + nameLen
  }

  function EncodeEntry(e: Entry): (bs: seq<byte>)
    requires EntryOk(e)
    ensures |bs| == EntrySize(|e.name|)
  {
    LeBytes(e.ino, 8) + LeBytes(e.hash, 8) + [|e.name| as byte] + e.name
  }

  /** ternfs_dir_entry_parse at `off`, if the bytes are there. */
  function ParseEntry(bytes: seq<byte>, off: nat): Entry
    requires off + 17 <= |bytes| && off + EntrySize(bytes[off + 16] as nat) <= |bytes|
  {
    Entry(LeValue(bytes[off..off + 8]), LeValue(bytes[off + 8..off + 16]),
      bytes[off + 17..off + 17 + bytes[off + 16] as nat])
  }

  lemma ParseEncoded(bytes: seq<byte>, off: nat, e: Entry)
    requires EntryOk(e) && off + EntrySize(|e.name|) <= |bytes|
    requires bytes[off..off + EntrySize(|e.name|)] == EncodeEntry(e)
    ensures bytes[off + 16] as nat == |e.name| && ParseEntry(bytes, off) == e
  {
    hide LeBytes, LeValue;
    var enc := EncodeEntry(e);
    var size := EntrySize(|e.name|);
    var part := bytes[off..off + size];
    assert bytes[off + 16] == part[16] == enc[16];
    assert bytes[off..off + 8] == part[..8] == enc[..8] == LeBytes(e.ino, 8);
    assert bytes[off + 8..off + 16] == part[8..16] == enc[8..16] == LeBytes(e.hash, 8);
    assert bytes[off + 17..off + size] == part[17..] == enc[17..] == e.name;
    Powers();
    LeRoundTrip(e.ino, 8);
    LeRoundTrip(e.hash, 8);
  }

  /** The inode number, the hash, the length of the name and the name, in this order. */
  lemma EntryBytes(bytes: seq<byte>, off: nat)
    requires off + 17 <= |bytes| && off + EntrySize(bytes[off + 16] as nat) <= |bytes|
    ensures ParseEntry(bytes, off).ino == Long(bytes, off) && ParseEntry(bytes, off).hash == Long(bytes, off + 8)
    ensures |ParseEntry(bytes, off).name| == bytes[off + 16] as nat
  {
    hide LeValue, Long;
    LongIs(bytes, off);
    LongIs(bytes, off + 8);
  }

  // ---------------------------------------------------------------- pages

  /** `n` is the page's index field, `first` its private field. */
  datatype DirPage = DirPage(bytes: seq<byte>, n: nat, first: nat)

  function EncodeAll(es: seq<Entry>): seq<byte>
    requires forall i | 0 <= i < |es| :: EntryOk(es[i])
  {
    if es == [] then [] else EncodeAll(es[..|es| - 1]) + EncodeEntry(es[|es| - 1])
  }

  /** The page's bytes begin with the entries `es`. */
  predicate Holds(bytes: seq<byte>, es: seq<Entry>) {
    && |bytes| == PAGE_SIZE && (forall i | 0 <= i < |es| :: EntryOk(es[i]))
    && EncodeAll(es) <= bytes
  }

  /** Where entry `i` starts. */
  function Offset(es: seq<Entry>, i: nat): nat
    requires i <= |es|
  {
    if i == 0 then 0 else Offset(es, i - 1) + EntrySize(|es[i - 1].name|)
  }

  lemma {:induction false} EncodedLength(es: seq<Entry>, i: nat)
    requires i <= |es| && forall k | 0 <= k < |es| :: EntryOk(es[k])
    ensures |EncodeAll(es[..i])| == Offset(es, i)
    ensures EncodeAll(es[..i]) <= EncodeAll(es)
    decreases |es| - i, i
  {
    if i < |es| {
      EncodedLength(es, i + 1);
      assert es[..i + 1][..i] == es[..i] && es[..i + 1][i] == es[i];
    } else {
      assert es[..i] == es;
      EncodedSize(es);
    }
  }

  lemma {:induction false} EncodedSize(es: seq<Entry>)
    requires forall k | 0 <= k < |es| :: EntryOk(es[k])
    ensures |EncodeAll(es)| == Offset(es, |es|)
    decreases |es|
  {
    if es != [] {
      var n := |es| - 1;
      EncodedSize(es[..n]);
      OffsetPrefix(es, es[..n], n);
    }
  }

  lemma {:induction false} OffsetPrefix(a: seq<Entry>, b: seq<Entry>, i: nat)
    requires i <= |a| && i <= |b| && a[..i] == b[..i]
    ensures Offset(a, i) == Offset(b, i)
    decreases i
  {
    if i > 0 {
      assert a[..i][i - 1] == b[..i][i - 1];
      assert a[..i][..i - 1] == a[..i - 1] && b[..i][..i - 1] == b[..i - 1];
      OffsetPrefix(a, b, i - 1);
    }
  }

  /** Parsing at the offset of entry `i` gives entry `i`. */
  lemma ParseAt(bytes: seq<byte>, es: seq<Entry>, i: nat)
    requires Holds(bytes, es) && i < |es|
    ensures var off := Offset(es, i);
      && off + EntrySize(|es[i].name|) <= |bytes| && off + 17 <= |bytes|
      && bytes[off + 16] as nat == |es[i].name| && ParseEntry(bytes, off) == es[i]
      && off + EntrySize(|es[i].name|) == Offset(es, i + 1)
  {
    hide EncodeEntry, ParseEntry;
    EncodedLength(es, i);
    EncodedLength(es, i + 1);
    var off, size := Offset(es, i), EntrySize(|es[i].name|);
    assert es[..i + 1][..i] == es[..i] && es[..i + 1][i] == es[i];
    assert EncodeAll(es[..i + 1]) == EncodeAll(es[..i]) + EncodeEntry(es[i]);
    assert EncodeAll(es[..i + 1]) <= bytes;
    assert bytes[off..off + size] == EncodeEntry(es[i]);
    ParseEncoded(bytes, off, es[i]);
  }

  // ---------------------------------------------------------------- filling pages

  function Flatten(groups: seq<seq<Entry>>): seq<Entry> {
    if groups == [] then [] else Flatten(groups[..|groups| - 1]) + groups[|groups| - 1]
  }

  /** The pages hold the groups of entries; how many the last one has is not recorded in it yet. */
  predicate PagesHold(pages: seq<DirPage>, groups: seq<seq<Entry>>) {
    && |pages| == |groups| > 0
    && (forall p | 0 <= p < |pages| :: Holds(pages[p].bytes, groups[p]))
    && (forall p | 0 <= p < |pages| - 1 :: pages[p].n == |groups[p]|)
    && pages[0].first == 0
    && (forall p | 0 < p < |pages| && groups[p] != [] :: pages[p].first == groups[p][0].hash)
    && (forall p | 0 <= p < |pages| - 1 :: groups[p] != [])
  }

  /** The finished cache. */
  predicate Packed(pages: seq<DirPage>, groups: seq<seq<Entry>>, maxHash: nat) {
    && PagesHold(pages, groups) && (|groups| > 1 ==> groups[|groups| - 1] != [])
    && pages[|pages| - 1].n == |groups[|pages| - 1]|
    && maxHash == LastHash(groups[|pages| - 1])
  }

  function LastHash(es: seq<Entry>): nat {
    if es == [] then 0 else es[|es| - 1].hash
  }

  /** An entry goes to the last page if it fits there, to a new one otherwise. */
  function PutIn(groups: seq<seq<Entry>>, e: Entry): (r: seq<seq<Entry>>)
    requires groups != []
    ensures r != []
  {
    var last := groups[|groups| - 1];
    if Offset(last, |last|) + EntrySize(|e.name|) > PAGE_SIZE then groups + [[e]]
    else groups[|groups| - 1 := last + [e]]
  }

  /** The pages of a directory with these entries. */
  function Pack(es: seq<Entry>): (groups: seq<seq<Entry>>)
    ensures groups != []
  {
    if es == [] then [[]] else PutIn(Pack(es[..|es| - 1]), es[|es| - 1])
  }

  lemma {:induction false} PackMore(es: seq<Entry>, e: Entry)
    ensures Pack(es + [e]) == PutIn(Pack(es), e)
  {
    assert (es + [e])[..|es|] == es;
  }

  /** Packing keeps the entries and their order. */
  lemma {:induction false} PackFlatten(es: seq<Entry>)
    ensures Flatten(Pack(es)) == es
  {
    if es == [] {
      assert Pack(es)[..0] == [];
    } else {
      var n := |es| - 1;
      PackFlatten(es[..n]);
      FlattenAppend(Pack(es[..n]), Pack(es), es[n]);
      assert es[..n] + [es[n]] == es;
    }
  }

  class DirFill {
    var pages: seq<DirPage>
    var pageOff: nat
    var pageN: nat
    var maxHash: nat
    ghost var groups: seq<seq<Entry>>

    /** The fields agree with the entries; the last page may be about to get its first one. */
    ghost predicate Consistent()
      reads this
    {
      && PagesHold(pages, groups)
      && pageN == |Current()| && pageOff == Offset(Current(), pageN) <= PAGE_SIZE
    }

    ghost predicate Settled()
      reads this
    {
      Consistent() && maxHash == LastHash(Current()) && (|groups| > 1 ==> Current() != [])
    }

    ghost predicate Valid()
      reads this
    {
      Settled() && groups == Pack(Flatten(groups))
    }

    ghost function Current(): seq<Entry>
      requires groups != []
      reads this
    {
      groups[|groups| - 1]
    }

    constructor (page: seq<byte>)
      requires |page| == PAGE_SIZE
      ensures Valid() && Flatten(groups) == []
    {
      pages := [DirPage(page, 0, 0)];
      pageOff, pageN, maxHash := 0, 0, 0;
      groups := [[]];
      new;
      assert groups[..0] == [];
    }

    /** Flushes the current page and starts a new one. */
    method StartPage(hash: nat, blank: seq<byte>)
      requires Settled() && Current() != [] && |blank| == PAGE_SIZE
      modifies this
      ensures Consistent() && groups == old(groups) + [[]] && pageOff == 0
      ensures pages[|pages| - 1].first == hash
    {
      hide Holds;
      BlankHolds(blank);
      var last := |pages| - 1;
      pages := pages[last := pages[last].(n := pageN)] + [DirPage(blank, 0, hash)];
      groups := groups + [[]];
      pageOff, pageN := 0, 0;
    }

    /** Writes an entry that fits the current page. */
    method Put(e: Entry)
      requires Consistent() && EntryOk(e) && pageOff + EntrySize(|e.name|) <= PAGE_SIZE
      requires Current() == [] && |pages| > 1 ==> pages[|pages| - 1].first == e.hash
      modifies this
      ensures Settled() && |old(groups)| > 0 && groups == old(groups)[|old(groups)| - 1 := old(Current()) + [e]]
    {
      hide Holds, Overwrite, EncodeEntry, Offset;
      ghost var es := Current();
      var last := |pages| - 1;
      LastGroup(pages, groups);
      AppendHolds(pages[last].bytes, es, e);
      pages := pages[last := pages[last].(bytes := Overwrite(pages[last].bytes, pageOff, EncodeEntry(e)))];
      groups := groups[last := es + [e]];
      OffsetPrefix(es, es + [e], |es|);
      OffsetNext(es + [e], |es|);
      pageOff, pageN, maxHash := pageOff + EntrySize(|e.name|), pageN + 1, e.hash;
    }

    /** ternfs_dir_add_entry; `blank` is the page the allocator gives, if it gives one. */
    method AddEntry(e: Entry, granted: bool, blank: seq<byte>) returns (err: int)
      requires Valid() && e.ino < U64 && e.hash < U64 && |blank| == PAGE_SIZE
      modifies this
      ensures Valid()
      ensures err == if |e.name| > MAX_FILENAME then ENAMETOOLONG
                     else if old(pageOff) + EntrySize(|e.name|) > PAGE_SIZE && !granted then ENOMEM else 0
      ensures Flatten(groups) == if err == 0 then old(Flatten(groups)) + [e] else old(Flatten(groups))
    {
      hide PagesHold, Flatten, Pack;
      if |e.name| > MAX_FILENAME {
        return ENAMETOOLONG;
      }
      ghost var groups0 := groups;
      LastGroup(pages, groups);
      if pageOff + EntrySize(|e.name|) > PAGE_SIZE {
        if !granted {
          return ENOMEM;
        }
        StartPage(e.hash, blank);
      }
      // The second size check cannot fail: the longest entry fits an empty page.
      Put(e);
      assert [] + [e] == [e];
      FlattenAppend(groups0, groups, e);
      PackMore(Flatten(groups0), e);
      return 0;
    }

    /** The end of ternfs_dir_read_all. */
    method Finish()
      requires Valid()
      modifies this
      ensures Packed(pages, groups, maxHash) && groups == old(groups) == Pack(Flatten(groups))
    {
      var last := |pages| - 1;
      pages := pages[last := pages[last].(n := pageN)];
    }
  }

  lemma LastGroup(pages: seq<DirPage>, groups: seq<seq<Entry>>)
    requires PagesHold(pages, groups)
    ensures |pages| == |groups| > 0 && Holds(pages[|pages| - 1].bytes, groups[|pages| - 1])
    ensures |pages[|pages| - 1].bytes| == PAGE_SIZE
  {
  }

  lemma {:induction false} OffsetNext(es: seq<Entry>, i: nat)
    requires i < |es|
    ensures Offset(es, i + 1) == Offset(es, i) + EntrySize(|es[i].name|)
  {
  }

  lemma BlankHolds(blank: seq<byte>)
    requires |blank| == PAGE_SIZE
    ensures Holds(blank, [])
  {
  }

  function Overwrite(bytes: seq<byte>, off: nat, d: seq<byte>): seq<byte>
    requires off + |d| <= |bytes|
  {
    bytes[..off] + d + bytes[off + |d|..]
  }

  lemma {:induction false} AppendHolds(bytes: seq<byte>, es: seq<Entry>, e: Entry)
    requires Holds(bytes, es) && EntryOk(e) && Offset(es, |es|) + EntrySize(|e.name|) <= PAGE_SIZE
    ensures Holds(Overwrite(bytes, Offset(es, |es|), EncodeEntry(e)), es + [e])
  {
    hide EncodeEntry, Offset;
    EncodedSize(es);
    var off, enc, all := Offset(es, |es|), EncodeEntry(e), es + [e];
    assert all[..|all| - 1] == es && all[|all| - 1] == e;
    assert EncodeAll(all) == EncodeAll(es) + enc;
    assert bytes[..off] == EncodeAll(es);
    PrefixOf(bytes[..off] + enc, bytes[off + |enc|..]);
  }

  lemma PrefixOf(a: seq<byte>, b: seq<byte>)
    ensures a <= a + b
  {
  }

  lemma {:induction false} FlattenAppend(groups: seq<seq<Entry>>, groups': seq<seq<Entry>>, e: Entry)
    requires groups != []
    requires groups' == groups[|groups| - 1 := groups[|groups| - 1] + [e]] || groups' == groups + [[e]]
    ensures Flatten(groups') == Flatten(groups) + [e]
  {
    var n := |groups'| - 1;
    if |groups'| == |groups| {
      assert groups'[..n] == groups[..n];
    } else {
      assert groups'[..n] == groups;
    }
  }
}
