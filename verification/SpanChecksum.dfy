/**
 The checksums of a span: one per cell, built page by page; one per block, appended over its cells; and one
 for the whole span, appended over the cells of the data blocks and cut back by the padding.
 */
module SpanChecksum {
  import opened Common
  import opened Bytes
  import opened Crc32c
  import opened SpanLayout

  type Page = seq<byte>

  function Flat(pages: seq<Page>): seq<byte> {
    if pages == [] then [] else Flat(pages[..|pages| - 1]) + pages[|pages| - 1]
  }

  lemma {:induction false} FlatConcat(a: seq<Page>, b: seq<Page>)
    ensures Flat(a + b) == Flat(a) + Flat(b)
    decreases |b|
  {
    if b == [] {
      assert a + b == a;
    } else {
      var n := |b| - 1;
      assert (a + b)[..|a + b| - 1] == a + b[..n] && (a + b)[|a + b| - 1] == b[n];
      FlatConcat(a, b[..n]);
    }
  }

  predicate PageSized(pages: seq<Page>) {
    forall i | 0 <= i < |pages| :: |pages[i]| == PAGE_SIZE
  }

  lemma {:induction false} FlatLength(pages: seq<Page>)
    requires PageSized(pages)
    ensures |Flat(pages)| == |pages| * PAGE_SIZE
    decreases |pages|
  {
    if pages != [] {
      FlatLength(pages[..|pages| - 1]);
    }
  }

  // ---------------------------------------------------------------- cells

  /** The slot of cell `i` of stripe `s`. */
  function Slot(b: nat, s: nat, i: nat): nat {
    s * b + i
  }

  lemma SlotInRange(b: nat, stripes: nat, s: nat, i: nat)
    requires s < stripes && i < b
    ensures Slot(b, s, i) < stripes * b
  {
    MulStrict(b, s, stripes);
  }

  lemma SlotUnique(b: nat, s: nat, i: nat, s': nat, i': nat)
    requires i < b && i' < b
    ensures Slot(b, s, i) == Slot(b, s', i') <==> s == s' && i == i'
  {
    DivModUnique(s * b + i, b, s, i);
    DivModUnique(s' * b + i', b, s', i');
  }

  /** The pages of stripe `s` among the first `j` pages of a block. */
  function CellPart(block: seq<Page>, cellPages: nat, s: nat, j: nat): seq<Page>
    requires j <= |block|
  {
    Next(s, cellPages);
    block[Min(s * cellPages, j)..Min(s * cellPages + cellPages, j)]
  }

  lemma PartStep(block: seq<Page>, cellPages: nat, s: nat, j: nat)
    requires cellPages > 0 && j < |block|
    ensures CellPart(block, cellPages, s, j + 1) ==
      CellPart(block, cellPages, s, j) + if s == j / cellPages then [block[j]] else []
  {
    WhereCell(cellPages, s, j);
    PartOfRun(block, s * cellPages, cellPages, j);
  }

  lemma WhereCell(n: nat, s: nat, j: nat)
    requires n > 0
    ensures s == j / n <==> s * n <= j < s * n + n
  {
    if s * n <= j < s * n + n {
      DivModUnique(j, n, s, j - s * n);
    } else {
      assert j == (j / n) * n + j % n;
    }
  }

  lemma PartOfRun(block: seq<Page>, lo: nat, n: nat, j: nat)
    requires j < |block|
    ensures block[Min(lo, j + 1)..Min(lo + n, j + 1)] ==
      block[Min(lo, j)..Min(lo + n, j)] + if lo <= j < lo + n then [block[j]] else []
  {
    if lo <= j < lo + n {
      assert block[lo..j + 1] == block[lo..j] + [block[j]];
    }
  }

  /** The shape of the arranged span: every block has `stripes` cells. */
  predicate Arranged(blocks: seq<seq<Page>>, stripes: nat, cellPages: nat) {
    && cellPages > 0
    && forall i | 0 <= i < |blocks| :: |blocks[i]| == stripes * cellPages && PageSized(blocks[i])
  }

  /**
   Each slot holds the checksum of what has been read of its cell: `j` pages of every block, one more of the first
   `n`.
   */
  ghost predicate CrcsAt(blocks: seq<seq<Page>>, crcs: seq<Poly>, stripes: nat, cellPages: nat, j: nat, n: nat) {
    && |crcs| == stripes * |blocks|
    && (forall i | 0 <= i < |blocks| :: (if i < n then j + 1 else j) <= |blocks[i]|)
    && forall s, i | 0 <= s < stripes && 0 <= i < |blocks| ::
         Slot(|blocks|, s, i) < |crcs|
           && crcs[Slot(|blocks|, s, i)] == Crc(Flat(CellPart(blocks[i], cellPages, s, if i < n then j + 1 else j)))
  }

  lemma CrcOfPart(block: seq<Page>, cellPages: nat, s: nat, j: nat)
    requires cellPages > 0 && j < |block|
    ensures s == j / cellPages ==>
      CrcFrom(Crc(Flat(CellPart(block, cellPages, s, j))), block[j]) == Crc(Flat(CellPart(block, cellPages, s, j + 1)))
    ensures s != j / cellPages ==> CellPart(block, cellPages, s, j + 1) == CellPart(block, cellPages, s, j)
  {
    hide CrcFrom, CellPart;
    PartStep(block, cellPages, s, j);
    var part := CellPart(block, cellPages, s, j);
    FlatConcat(part, [block[j]]);
    FlatOne(block[j]);
    CrcFromConcat(Zero(), Flat(part), block[j]);
  }

  lemma FlatOne(page: Page)
    ensures Flat([page]) == page
  {
    assert [page][..0] == [];
  }

  lemma CrcsStep(blocks: seq<seq<Page>>, crcs: seq<Poly>, stripes: nat, cellPages: nat, j: nat, n: nat)
    requires cellPages > 0 && n < |blocks| && j < |blocks[n]| && j / cellPages < stripes
    requires CrcsAt(blocks, crcs, stripes, cellPages, j, n)
    ensures var at := Slot(|blocks|, j / cellPages, n);
      at < |crcs| && CrcsAt(blocks, crcs[at := CrcFrom(crcs[at], blocks[n][j])], stripes, cellPages, j, n + 1)
  {
    hide CrcFrom, Crc, CellPart, Flat;
    var b, s0 := |blocks|, j / cellPages;
    var at := Slot(b, s0, n);
    assert at < |crcs|;
    var crcs' := crcs[at := CrcFrom(crcs[at], blocks[n][j])];
    forall s, i | 0 <= s < stripes && 0 <= i < b
      ensures Slot(b, s, i) < |crcs'|
        && crcs'[Slot(b, s, i)] == Crc(Flat(CellPart(blocks[i], cellPages, s, if i < n + 1 then j + 1 else j)))
    {
      SlotUnique(b, s, i, s0, n);
      assert Slot(b, s, i) < |crcs|;
      if i == n {
        CrcOfPart(blocks[n], cellPages, s, j);
      }
    }
  }

  lemma EmptyPart(block: seq<Page>, cellPages: nat, s: nat)
    ensures Crc(Flat(CellPart(block, cellPages, s, 0))) == Zero()
  {
    assert CellPart(block, cellPages, s, 0) == [];
    CrcFromConcat(Zero(), [], []);
  }

  lemma WholePart(block: seq<Page>, stripes: nat, cellPages: nat, s: nat)
    requires |block| == stripes * cellPages && s < stripes
    ensures (s + 1) * cellPages <= |block| && CellPart(block, cellPages, s, |block|) == Cell(block, cellPages, s)
  {
    MulStrict(cellPages, s, stripes);
    Next(s, cellPages);
  }

  /** Every slot holds the checksum of its cell. */
  ghost predicate CellCrcs(blocks: seq<seq<Page>>, crcs: seq<Poly>, stripes: nat, cellPages: nat) {
    && |crcs| == stripes * |blocks|
    && forall s, i | 0 <= s < stripes && 0 <= i < |blocks| ::
         Slot(|blocks|, s, i) < |crcs| && (s + 1) * cellPages <= |blocks[i]|
         && crcs[Slot(|blocks|, s, i)] == Crc(Flat(Cell(blocks[i], cellPages, s)))
  }

  lemma NothingSummed(blocks: seq<seq<Page>>, crcs: seq<Poly>, stripes: nat, cellPages: nat)
    requires |crcs| == stripes * |blocks| && forall k | 0 <= k < |crcs| :: crcs[k] == Zero()
    ensures CrcsAt(blocks, crcs, stripes, cellPages, 0, 0)
  {
    hide Crc, CellPart, Flat;
    forall s, i | 0 <= s < stripes && 0 <= i < |blocks|
      ensures Slot(|blocks|, s, i) < |crcs|
        && crcs[Slot(|blocks|, s, i)] == Crc(Flat(CellPart(blocks[i], cellPages, s, 0)))
    {
      SlotInRange(|blocks|, stripes, s, i);
      EmptyPart(blocks[i], cellPages, s);
    }
  }

  lemma NextPage(blocks: seq<seq<Page>>, crcs: seq<Poly>, stripes: nat, cellPages: nat, j: nat)
    requires CrcsAt(blocks, crcs, stripes, cellPages, j, |blocks|)
    ensures CrcsAt(blocks, crcs, stripes, cellPages, j + 1, 0)
  {
    hide Crc, CellPart, Flat, Slot;
  }

  lemma AllSummed(blocks: seq<seq<Page>>, crcs: seq<Poly>, stripes: nat, cellPages: nat)
    requires Arranged(blocks, stripes, cellPages) && CrcsAt(blocks, crcs, stripes, cellPages, stripes * cellPages, 0)
    ensures CellCrcs(blocks, crcs, stripes, cellPages)
  {
    hide Crc, CellPart, Flat, Slot, Cell;
    forall s, i | 0 <= s < stripes && 0 <= i < |blocks|
      ensures Slot(|blocks|, s, i) < |crcs| && (s + 1) * cellPages <= |blocks[i]|
        && crcs[Slot(|blocks|, s, i)] == Crc(Flat(Cell(blocks[i], cellPages, s)))
    {
      WholePart(blocks[i], stripes, cellPages, s);
    }
  }

  /** The loop over the pages of all blocks in write_blocks. */
  method CellChecksums(blocks: seq<seq<Page>>, stripes: nat, cellPages: nat) returns (crcs: seq<Poly>)
    requires Arranged(blocks, stripes, cellPages)
    ensures CellCrcs(blocks, crcs, stripes, cellPages)
  {
    hide CrcFrom, CrcsAt, CellCrcs, Slot, PageSized;
    crcs := seq(stripes * |blocks|, _ => Zero());
    NothingSummed(blocks, crcs, stripes, cellPages);
    var perBlock := stripes * cellPages;
    for j := 0 to perBlock
      invariant CrcsAt(blocks, crcs, stripes, cellPages, j, 0)
    {
      StripeBelow(j, stripes, cellPages, j / cellPages, j % cellPages);
      for i := 0 to |blocks|
        invariant CrcsAt(blocks, crcs, stripes, cellPages, j, i)
      {
        CrcsStep(blocks, crcs, stripes, cellPages, j, i);
        var at := Slot(|blocks|, j / cellPages, i);
        var c := Crc32cUpdate(crcs[at], blocks[i][j]);
        crcs := crcs[at := c];
      }
      NextPage(blocks, crcs, stripes, cellPages, j);
    }
    AllSummed(blocks, crcs, stripes, cellPages);
  }

  // ---------------------------------------------------------------- blocks and the span

  lemma CellBytes(block: seq<Page>, cellPages: nat, s: nat)
    requires (s + 1) * cellPages <= |block| && PageSized(block)
    ensures |Flat(Cell(block, cellPages, s))| == cellPages * PAGE_SIZE
  {
    FlatLength(Cell(block, cellPages, s));
  }

  /** The checksum of block `i`, appended over its cells as add_span_initiate does. */
  method BlockChecksum(blocks: seq<seq<Page>>, crcs: seq<Poly>, stripes: nat, cellPages: nat, i: nat)
    returns (crc: Poly)
    requires Arranged(blocks, stripes, cellPages) && CellCrcs(blocks, crcs, stripes, cellPages) && i < |blocks|
    ensures crc == Crc(Flat(blocks[i]))
  {
    hide Crc, CrcFrom, Flat, Cell, PageSized;
    crc := Zero();
    NothingRead();
    var s := 0;
    ghost var block := blocks[i];
    while s < stripes
      invariant 0 <= s <= stripes && s * cellPages <= |block|
      invariant CrcIs(crc, block[..s * cellPages])
    {
      var at := Slot(|blocks|, s, i);
      assert at < |crcs|;
      CellBytes(block, cellPages, s);
      Next(s, cellPages);
      ReadNextCell(block, cellPages, s);
      AppendCell(crc, block[..s * cellPages], Cell(block, cellPages, s));
      crc := Crc32cAppend(crc, crcs[at], cellPages * PAGE_SIZE);
      s := s + 1;
    }
    assert block[..s * cellPages] == block;
    CrcIsCrc(crc, block);
  }

  ghost predicate CrcIs(crc: Poly, pages: seq<Page>) {
    crc == CrcFrom(Zero(), Flat(pages))
  }

  lemma NothingRead()
    ensures CrcIs(Zero(), [])
  {
    CrcFromConcat(Zero(), [], []);
  }

  lemma {:induction false} CrcIsCrc(crc: Poly, pages: seq<Page>)
    requires CrcIs(crc, pages)
    ensures crc == Crc(Flat(pages))
  {
  }

  lemma ReadNextCell(block: seq<Page>, cellPages: nat, s: nat)
    requires (s + 1) * cellPages <= |block|
    ensures s * cellPages <= |block|
      && block[..s * cellPages] + Cell(block, cellPages, s) == block[..(s + 1) * cellPages]
  {
    Next(s, cellPages);
  }

  lemma {:induction false} AppendCell(crc: Poly, read: seq<Page>, cell: seq<Page>)
    requires CrcIs(crc, read)
    ensures CrcIs(Add(XPow(8 * |Flat(cell)|, crc), Crc(Flat(cell))), read + cell)
  {
    hide CrcFrom, Add, XPow;
    AppendIsConcat(Zero(), Flat(read), Flat(cell));
    FlatConcat(read, cell);
  }

  /** The checksum of the span, appended over all data cells and cut back by the padding. */
  method SpanCrc(blocks: seq<seq<Page>>, crcs: seq<Poly>, d: nat, stripes: nat, cellPages: nat,
                 ghost pages: seq<Page>, ghost data: seq<byte>, written: nat) returns (crc: Poly)
    requires Arranged(blocks, stripes, cellPages) && CellCrcs(blocks, crcs, stripes, cellPages) && d <= |blocks|
    requires IsDeal(pages, blocks, d, stripes, cellPages) && PageSized(pages)
    requires written == |data| <= |pages| * PAGE_SIZE && Flat(pages) == data + Zeros(|pages| * PAGE_SIZE - written)
    ensures crc == Crc(data)
  {
    hide Crc, CrcFrom, Flat, Cell, PageSized, StripeCells, ReadBack, IsDeal, Zeros, Add, XPow, Not, XInvPow;
    crc := Zero();
    NothingRead();
    var s := 0;
    BackStart(blocks, d, cellPages);
    while s < stripes
      invariant 0 <= s <= stripes && forall k | 0 <= k < d :: s * cellPages <= |blocks[k]|
      invariant CrcIs(crc, ReadBack(blocks, d, cellPages, s))
    {
      StripesFit(blocks, crcs, stripes, cellPages, s);
      ghost var back := ReadBack(blocks, d, cellPages, s);
      StripeStart(blocks, cellPages, s, back);
      var i := 0;
      while i < d
        invariant 0 <= i <= d
        invariant CrcIs(crc, back + StripeCells(blocks, cellPages, s, i))
      {
        var at := Slot(|blocks|, s, i);
        assert at < |crcs|;
        CellBytes(blocks[i], cellPages, s);
        StripeNext(blocks, cellPages, s, i, back);
        AppendCell(crc, back + StripeCells(blocks, cellPages, s, i), Cell(blocks[i], cellPages, s));
        crc := Crc32cAppend(crc, crcs[at], cellPages * PAGE_SIZE);
        i := i + 1;
      }
      BackNext(blocks, d, cellPages, s);
      s := s + 1;
    }
    ReadBackIsSpan(pages, blocks, d, stripes, cellPages);
    var padding := d * (stripes * cellPages) * PAGE_SIZE - written;
    PaddingLength(pages, blocks, d, stripes, cellPages);
    ExtendRemovesZeros(Zero(), data, padding);
    crc := Crc32cZeroExtend(crc, -padding);
    DataCrc(crc, data);
  }

  lemma {:induction false} BackStart(blocks: seq<seq<Page>>, d: nat, cellPages: nat)
    requires d <= |blocks|
    ensures ReadBack(blocks, d, cellPages, 0) == []
  {
  }

  lemma StripesFit(blocks: seq<seq<Page>>, crcs: seq<Poly>, stripes: nat, cellPages: nat, s: nat)
    requires CellCrcs(blocks, crcs, stripes, cellPages) && s < stripes
    ensures forall k | 0 <= k < |blocks| :: (s + 1) * cellPages <= |blocks[k]|
  {
    hide Crc, Flat, Cell;
    forall k | 0 <= k < |blocks| ensures (s + 1) * cellPages <= |blocks[k]| {
      assert Slot(|blocks|, s, k) < |crcs|;
    }
  }

  lemma {:induction false} StripeStart(blocks: seq<seq<Page>>, cellPages: nat, s: nat, back: seq<Page>)
    ensures back + StripeCells(blocks, cellPages, s, 0) == back
  {
  }

  lemma StripeNext(blocks: seq<seq<Page>>, cellPages: nat, s: nat, i: nat, back: seq<Page>)
    requires i < |blocks| && forall k | 0 <= k <= i :: (s + 1) * cellPages <= |blocks[k]|
    ensures back + StripeCells(blocks, cellPages, s, i) + Cell(blocks[i], cellPages, s) ==
      back + StripeCells(blocks, cellPages, s, i + 1)
  {
  }

  lemma BackNext(blocks: seq<seq<Page>>, d: nat, cellPages: nat, s: nat)
    requires d <= |blocks| && forall k | 0 <= k < d :: (s + 1) * cellPages <= |blocks[k]|
    ensures forall k | 0 <= k < d :: s * cellPages <= |blocks[k]|
    ensures ReadBack(blocks, d, cellPages, s + 1) ==
      ReadBack(blocks, d, cellPages, s) + StripeCells(blocks, cellPages, s, d)
  {
    Next(s, cellPages);
  }

  lemma PaddingLength(pages: seq<Page>, blocks: seq<seq<Page>>, d: nat, stripes: nat, cellPages: nat)
    requires IsDeal(pages, blocks, d, stripes, cellPages)
    ensures d * (stripes * cellPages) == |pages|
  {
    hide PageAt;
    assert d * (stripes * cellPages) == stripes * (d * cellPages);
  }

  lemma DataCrc(crc: Poly, data: seq<byte>)
    requires crc == CrcFrom(Zero(), data)
    ensures crc == Crc(data)
  {
  }

  // ---------------------------------------------------------------- write_blocks as a whole

  function ZeroPage(): Page {
    Zeros(PAGE_SIZE)
  }

  lemma {:induction false} ZeroPageFits(data: seq<byte>, pages: seq<Page>, n: nat)
    requires Flat(pages) == data + Zeros(n)
    ensures Flat(pages + [ZeroPage()]) == data + Zeros(n + PAGE_SIZE)
  {
    FlatConcat(pages, [ZeroPage()]);
    FlatOne(ZeroPage());
    assert Zeros(n) + Zeros(PAGE_SIZE) == Zeros(n + PAGE_SIZE);
  }

  /** Padding pages up to the number the blocks hold. */
  method Pad(used: seq<Page>, total: nat, ghost data: seq<byte>) returns (pages: seq<Page>)
    requires |used| <= total && PageSized(used) && |data| <= |used| * PAGE_SIZE
    requires Flat(used) == data + Zeros(|used| * PAGE_SIZE - |data|)
    ensures |pages| == total && PageSized(pages) && used <= pages
    ensures Flat(pages) == data + Zeros(total * PAGE_SIZE - |data|)
  {
    hide Flat, Zeros;
    pages := used;
    while |pages| < total
      invariant |used| <= |pages| <= total && PageSized(pages) && used <= pages
      invariant Flat(pages) == data + Zeros(|pages| * PAGE_SIZE - |data|)
    {
      ZeroPageFits(data, pages, |pages| * PAGE_SIZE - |data|);
      ZeroPageSized();
      pages := pages + [ZeroPage()];
    }
  }

  lemma ZeroPageSized()
    ensures |ZeroPage()| == PAGE_SIZE
  {
  }

  lemma DealWithParity(pages: seq<Page>, data: seq<seq<Page>>, parity: seq<seq<Page>>, d: nat, stripes: nat,
    cellPages: nat)
    requires IsDeal(pages, data, d, stripes, cellPages) && |data| == d && PageSized(pages)
    requires Arranged(parity, stripes, cellPages)
    ensures IsDeal(pages, data + parity, d, stripes, cellPages) && Arranged(data + parity, stripes, cellPages)
  {
    hide PageAt;
    var all := data + parity;
    forall i | 0 <= i < |all| ensures |all[i]| == stripes * cellPages && PageSized(all[i]) {
      if i < d {
        assert all[i] == data[i];
        forall j | 0 <= j < |data[i]| ensures |data[i][j]| == PAGE_SIZE {
          assert data[i][j] == pages[PageAt(d, cellPages, i, j)];
        }
      } else {
        assert all[i] == parity[i - d];
      }
    }
  }

  /**
   write_blocks up to the metadata request, for a span of the bytes `data` in the pages `used`, the last one
   filled up with zeros; `parity` holds the parity blocks.
   */
  method ArrangeSpan(size: nat, spans: seq<SpanEntry>, classes: seq<BlockEntry>, targetStripe: nat,
                     used: seq<Page>, parity: seq<seq<Page>>, ghost data: seq<byte>)
    returns (blocks: seq<seq<Page>>, crcs: seq<Poly>, spanCrc: Poly, blockCrcs: seq<Poly>)
    requires MakePlan(size, spans, classes, targetStripe).Blocks?
    requires |data| == size && |used| == CeilDiv(size, PAGE_SIZE) && PageSized(used)
    requires size <= |used| * PAGE_SIZE && Flat(used) == data + Zeros(|used| * PAGE_SIZE - size)
    requires var plan := MakePlan(size, spans, classes, targetStripe);
      plan.stripes > 0 && |parity| == ParityBlocks(plan.parity) && Arranged(parity, plan.stripes, CellPages(plan))
    ensures var plan := MakePlan(size, spans, classes, targetStripe);
      var d := DataBlocks(plan.parity);
      && |blocks| == d + ParityBlocks(plan.parity) && blocks[d..] == parity
      && plan.stripes > 0 && Arranged(blocks, plan.stripes, CellPages(plan))
      && CellCrcs(blocks, crcs, plan.stripes, CellPages(plan))
      && used <= ReadBack(blocks, d, CellPages(plan), plan.stripes)
      && Flat(ReadBack(blocks, d, CellPages(plan), plan.stripes)) == data + Zeros(Pads(plan, size))
    ensures spanCrc == Crc(data)
    ensures |blockCrcs| == |blocks| && forall i | 0 <= i < |blocks| :: blockCrcs[i] == Crc(Flat(blocks[i]))
  {
    hide Flat, Zeros, Crc, CellPages, IsDeal, CellCrcs, ReadBack, Cell, PageSized;
    PlanIsSound(size, spans, classes, targetStripe);
    var plan := MakePlan(size, spans, classes, targetStripe);
    hide MakePlan;
    var d, stripes, cellPages := DataBlocks(plan.parity), plan.stripes, CellPages(plan);
    TotalSwap(d, stripes, cellPages);
    var pages := Pad(used, stripes * (d * cellPages), data);
    var dataBlocks := Deal(pages, d, stripes, cellPages);
    DealWithParity(pages, dataBlocks, parity, d, stripes, cellPages);
    blocks := dataBlocks + parity;
    crcs := CellChecksums(blocks, stripes, cellPages);
    spanCrc := SpanCrc(blocks, crcs, d, stripes, cellPages, pages, data, size);
    ReadBackIsSpan(pages, blocks, d, stripes, cellPages);
    PadsAre(plan, size);
    blockCrcs := [];
    for i := 0 to |blocks|
      invariant |blockCrcs| == i && forall k | 0 <= k < i :: blockCrcs[k] == Crc(Flat(blocks[k]))
    {
      var c := BlockChecksum(blocks, crcs, stripes, cellPages, i);
      blockCrcs := blockCrcs + [c];
    }
  }

  /** The zero bytes that fill the data blocks up. */
  function Pads(plan: Plan, size: nat): nat
    requires plan.Blocks?
  {
    if DataBlocks(plan.parity) * plan.blockSize < size then 0 else DataBlocks(plan.parity) * plan.blockSize - size
  }

  lemma TotalSwap(d: nat, s: nat, cp: nat)
    ensures d * (s * cp) == s * (d * cp)
  {
  }

  lemma PadsAre(plan: Plan, size: nat)
    requires plan.Blocks? && plan.stripes > 0
    requires plan.blockSize == (CellPages(plan) * PAGE_SIZE) * plan.stripes
      && size <= DataBlocks(plan.parity) * plan.blockSize
    ensures (plan.stripes * (DataBlocks(plan.parity) * CellPages(plan))) * PAGE_SIZE - size == Pads(plan, size)
  {
    hide CellPages;
    var d, s, cp := DataBlocks(plan.parity), plan.stripes, CellPages(plan);
    assert (s * (d * cp)) * PAGE_SIZE == d * ((cp * PAGE_SIZE) * s);
  }
}
