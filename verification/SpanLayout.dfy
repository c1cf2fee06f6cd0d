/**
 How a span becomes blocks: the geometry chosen from the directory policies, the dealing of its pages to
 the data blocks cell by cell, and the way back.
 */
module SpanLayout {
  import opened Common

  const MAX_STRIPES: nat := 15
  const MAX_BLOCK_SIZE: nat := 104857600
  const MAX_INLINE: nat := 256

  // ---------------------------------------------------------------- geometry

  datatype SpanEntry = SpanEntry(maxSize: nat, parity: nat)

  datatype BlockEntry = BlockEntry(storageClass: nat, minSize: nat)

  /** `Fault` stands for a failed assertion of the code or a division by zero. */
  datatype Plan =
    | Small(storageClass: nat)
    | Blocks(storageClass: nat, blockSize: nat, stripes: nat, parity: nat)
    | Einval
    | Fault

  function CeilDiv(a: nat, b: nat): nat
    requires b > 0
  {
    (a + b - 1) / b
  }

  /** The entry after the last one, up to `i`, that the span outgrows. */
  function Scan(policy: seq<SpanEntry>, size: nat, i: int): (k: nat)
    requires -1 <= i < |policy|
    ensures k <= i + 1
    ensures forall j | k <= j <= i :: size <= policy[j].maxSize
    ensures k > 0 ==> size > policy[k - 1].maxSize
    decreases i + 1
  {
    if i < 0 then 0 else if size > policy[i].maxSize then i + 1 else Scan(policy, size, i - 1)
  }

  /** The parity to use, or none where the code asserts.  Parity 0 doubles as "nothing found". */
  function ChosenParity(policy: seq<SpanEntry>, size: nat): int
    requires policy != []
  {
    var k := Scan(policy, size, |policy| - 2);
    if k > 0 && policy[k].parity != 0 then policy[k].parity
    else if size > policy[0].maxSize then -1
    else policy[0].parity
  }

  /** The last entry, from `i` down, that the block outgrows; the first one if there is none. */
  function ScanClass(policy: seq<BlockEntry>, blockSize: nat, i: nat): (k: nat)
    requires i < |policy|
    ensures k <= i
    ensures forall j | k < j <= i :: blockSize <= policy[j].minSize
    ensures k > 0 ==> blockSize > policy[k].minSize
  {
    if i == 0 || blockSize > policy[i].minSize then i else ScanClass(policy, blockSize, i - 1)
  }

  function Stripes(size: nat, dataBlocks: nat, targetStripe: nat): nat
    requires dataBlocks != 1 ==> targetStripe > 0
  {
    if dataBlocks == 1 then 1
    else
      var s := size / targetStripe;
      if s < 1 then 1 else if s > MAX_STRIPES then MAX_STRIPES else s
  }

  function CellSize(size: nat, d: nat, s: nat): nat
    requires d > 0 && s > 0
  {
    CeilDiv(CeilDiv(CeilDiv(size, d), s), PAGE_SIZE) * PAGE_SIZE
  }

  function MakePlan(size: nat, spans: seq<SpanEntry>, blocks: seq<BlockEntry>, targetStripe: nat): Plan {
    if size < MAX_INLINE then Small(if size > 0 then INLINE_STORAGE else EMPTY_STORAGE)
    else if spans == [] then Fault
    else
      var parity := ChosenParity(spans, size);
      if parity < 0 then Fault
      else if DataBlocks(parity) > MAX_DATA || ParityBlocks(parity) > MAX_PARITY then Einval
      else if DataBlocks(parity) == 0 || (DataBlocks(parity) != 1 && targetStripe == 0) then Fault
      else if size > MAX_BLOCK_SIZE || blocks == [] then Fault
      else
        var d := DataBlocks(parity);
        var s := Stripes(size, d, targetStripe);
        var blockSize := CellSize(size, d, s) * s;
        Blocks(blocks[ScanClass(blocks, blockSize, |blocks| - 1)].storageClass, blockSize, s, parity)
  }

  /** compute_span_parameters with its two search loops. */
  method ComputeSpanParameters(size: nat, spans: seq<SpanEntry>, blocks: seq<BlockEntry>, targetStripe: nat)
    returns (plan: Plan)
    ensures plan == MakePlan(size, spans, blocks, targetStripe)
  {
    if size < MAX_INLINE {
      return Small(if size > 0 then INLINE_STORAGE else EMPTY_STORAGE);
    }
    if spans == [] {
      return Fault;
    }
    var parity := 0;
    var i := |spans| - 2;
    while i >= 0
      invariant -1 <= i < |spans| - 1 && parity == 0
      invariant Scan(spans, size, |spans| - 2) == Scan(spans, size, i)
    {
      if size > spans[i].maxSize {
        parity := spans[i + 1].parity;
        break;
      }
      i := i - 1;
    }
    if parity == 0 {
      parity := spans[0].parity;
      if size > spans[0].maxSize {
        return Fault;
      }
    }
    if DataBlocks(parity) > MAX_DATA || ParityBlocks(parity) > MAX_PARITY {
      return Einval;
    }
    var d := DataBlocks(parity);
    if d == 0 || (d != 1 && targetStripe == 0) {
      return Fault;
    }
    var s := Stripes(size, d, targetStripe);
    var blockSize := CeilDiv(size, d);
    var cellSize := CeilDiv(blockSize, s);
    cellSize := CeilDiv(cellSize, PAGE_SIZE) * PAGE_SIZE;
    blockSize := cellSize * s;
    if size > MAX_BLOCK_SIZE || blocks == [] {
      return Fault;
    }
    var k := |blocks| - 1;
    while k > 0 && blockSize <= blocks[k].minSize
      invariant 0 <= k < |blocks|
      invariant ScanClass(blocks, blockSize, |blocks| - 1) == ScanClass(blocks, blockSize, k)
    {
      k := k - 1;
    }
    return Blocks(blocks[k].storageClass, blockSize, s, parity);
  }

  predicate Sorted(policy: seq<SpanEntry>) {
    forall i, j | 0 <= i < j < |policy| :: policy[i].maxSize < policy[j].maxSize
  }

  /** The least entry that covers the size; `|policy|` if none does. */
  predicate LeastCovering(policy: seq<SpanEntry>, size: nat, k: nat) {
    && k <= |policy|
    && (k < |policy| ==> size <= policy[k].maxSize)
    && forall j | 0 <= j < k :: size > policy[j].maxSize
  }

  /**
   For a sorted policy the least covering entry is used, unless its parity is 0 and it is not the first: then the
   code asserts.
   */
  lemma PicksLeastCovering(policy: seq<SpanEntry>, size: nat, k: nat)
    requires policy != [] && Sorted(policy) && LeastCovering(policy, size, k) && k < |policy|
    ensures ChosenParity(policy, size) == if k > 0 && policy[k].parity == 0 then -1 else policy[k].parity
  {
  }

  /** A span that no entry covers gets the last entry, or fails when there is only one or its parity is 0. */
  lemma PicksLastWhenUncovered(policy: seq<SpanEntry>, size: nat)
    requires policy != [] && Sorted(policy) && LeastCovering(policy, size, |policy|)
    ensures ChosenParity(policy, size) ==
      if |policy| == 1 || policy[|policy| - 1].parity == 0 then -1 else policy[|policy| - 1].parity
  {
  }

  lemma CeilDivBounds(a: nat, b: nat)
    requires b > 0
    ensures a <= b * CeilDiv(a, b) < a + b
  {
    var q, r := (a + b - 1) / b, (a + b - 1) % b;
    assert a + b - 1 == b * q + r;
  }

  /** The blocks hold the span, with less than one page of padding per cell. */
  lemma CellBounds(size: nat, d: nat, s: nat)
    requires d > 0 && s > 0
    ensures var cell := CellSize(size, d, s);
      && cell % PAGE_SIZE == 0
      && size <= d * (s * cell)
      && d * (s * cell) < size + d * (s * PAGE_SIZE)
  {
    var block := CeilDiv(size, d);
    var raw := CeilDiv(block, s);
    var pages := CeilDiv(raw, PAGE_SIZE);
    var cell := pages * PAGE_SIZE;
    CeilDivBounds(size, d);
    CeilDivBounds(block, s);
    CeilDivBounds(raw, PAGE_SIZE);
    assert cell % PAGE_SIZE == 0;
    assert raw <= cell <= raw + PAGE_SIZE - 1;
    MulMono(s, raw, cell);
    MulMono(s, cell, raw + PAGE_SIZE - 1);
    assert s * (raw + PAGE_SIZE - 1) == s * raw + s * PAGE_SIZE - s;
    assert block <= s * cell <= block + s * PAGE_SIZE - 1;
    MulMono(d, block, s * cell);
    MulMono(d, s * cell, block + s * PAGE_SIZE - 1);
    assert d * (block + s * PAGE_SIZE - 1) == d * block + d * (s * PAGE_SIZE) - d;
  }

  lemma MulMono(k: nat, a: int, b: int)
    requires a <= b
    ensures k * a <= k * b
  {
  }

  /** The pages of one cell. */
  function CellPages(plan: Plan): nat
    requires plan.Blocks? && plan.stripes > 0
  {
    plan.blockSize / plan.stripes / PAGE_SIZE
  }

  lemma PlanShape(size: nat, spans: seq<SpanEntry>, blocks: seq<BlockEntry>, targetStripe: nat)
    requires MakePlan(size, spans, blocks, targetStripe).Blocks?
    ensures var plan := MakePlan(size, spans, blocks, targetStripe);
      var d := DataBlocks(plan.parity);
      && size > 0 && 1 <= d <= MAX_DATA && ParityBlocks(plan.parity) <= MAX_PARITY && 1 <= plan.stripes <= MAX_STRIPES
      && plan.blockSize == CellSize(size, d, plan.stripes) * plan.stripes
  {
    hide CellSize, ChosenParity, ScanClass;
  }

  /** The numbers of a geometry with `d` data blocks and `s` stripes. */
  lemma CellNumbers(size: nat, d: nat, s: nat)
    requires d > 0 && s > 0 && size > 0
    ensures var cell := CellSize(size, d, s);
      var cp := cell / PAGE_SIZE;
      && (cell * s) / s == cell && cell == cp * PAGE_SIZE && cp > 0
      && (cell * s) % PAGE_SIZE == 0 && (cell * s) / PAGE_SIZE == s * cp
      && size <= d * (cell * s) < size + d * (s * PAGE_SIZE)
      && CeilDiv(size, PAGE_SIZE) <= d * (s * cp)
  {
    var cell := CellSize(size, d, s);
    var cp := cell / PAGE_SIZE;
    CellBounds(size, d, s);
    hide CellSize;
    assert cell * s == s * cell;
    CancelStripe(cell, s);
    PageMultiple(s, cp);
    TotalPages(d, s, cp, size);
    assert d * (s * (0 * PAGE_SIZE)) == 0;
  }

  lemma CancelStripe(cell: nat, s: nat)
    requires s > 0
    ensures (cell * s) / s == cell
  {
    DivModUnique(cell * s, s, cell, 0);
  }

  lemma TotalPages(d: nat, s: nat, cp: nat, size: nat)
    requires size <= d * (s * (cp * PAGE_SIZE))
    ensures CeilDiv(size, PAGE_SIZE) <= d * (s * cp)
  {
    CeilDivBounds(size, PAGE_SIZE);
    assert s * (cp * PAGE_SIZE) == (s * cp) * PAGE_SIZE;
    assert d * ((s * cp) * PAGE_SIZE) == (d * (s * cp)) * PAGE_SIZE;
    PagesFit(CeilDiv(size, PAGE_SIZE), d * (s * cp), size);
  }

  /** What every successful plan satisfies, so the page-count assertion of write_blocks cannot fail. */
  lemma PlanIsSound(size: nat, spans: seq<SpanEntry>, blocks: seq<BlockEntry>, targetStripe: nat)
    requires MakePlan(size, spans, blocks, targetStripe).Blocks?
    ensures var plan := MakePlan(size, spans, blocks, targetStripe);
      var d := DataBlocks(plan.parity);
      && 1 <= d <= MAX_DATA && ParityBlocks(plan.parity) <= MAX_PARITY && 1 <= plan.stripes <= MAX_STRIPES
      && CellPages(plan) > 0 && plan.blockSize == (CellPages(plan) * PAGE_SIZE) * plan.stripes
      && plan.blockSize % PAGE_SIZE == 0 && plan.blockSize / PAGE_SIZE == plan.stripes * CellPages(plan)
      && size <= d * plan.blockSize < size + d * (plan.stripes * PAGE_SIZE)
      && CeilDiv(size, PAGE_SIZE) <= d * (plan.stripes * CellPages(plan))
  {
    PlanShape(size, spans, blocks, targetStripe);
    var plan := MakePlan(size, spans, blocks, targetStripe);
    hide MakePlan, CellSize, CeilDiv;
    CellNumbers(size, DataBlocks(plan.parity), plan.stripes);
  }

  /** As many stripes of the target size as the span has, but at least 1 and at most 15; one for a single data block. */
  lemma StripesAre(size: nat, d: nat, targetStripe: nat)
    requires d != 1 ==> targetStripe > 0
    ensures var s := Stripes(size, d, targetStripe);
      && 1 <= s <= MAX_STRIPES && (d == 1 ==> s == 1)
      && (d != 1 && s > 1 ==> s * targetStripe <= size)
      && (d != 1 && s < MAX_STRIPES ==> (s + 1) * targetStripe > size)
  {
    if d != 1 {
      var q := size / targetStripe;
      assert size == q * targetStripe + size % targetStripe;
      assert (q + 1) * targetStripe == q * targetStripe + targetStripe;
      if q > MAX_STRIPES {
        MulMono(targetStripe, MAX_STRIPES, q);
        assert targetStripe * MAX_STRIPES == MAX_STRIPES * targetStripe && targetStripe * q == q * targetStripe;
      }
    }
  }

  /** A plan stores small spans inline or not at all, and takes the class of the last entry that the block outgrows. */
  lemma PlanStores(size: nat, spans: seq<SpanEntry>, blocks: seq<BlockEntry>, targetStripe: nat)
    ensures var plan := MakePlan(size, spans, blocks, targetStripe);
      && (size == 0 ==> plan == Small(EMPTY_STORAGE))
      && (0 < size < MAX_INLINE ==> plan == Small(INLINE_STORAGE))
      && (size >= MAX_INLINE ==> !plan.Small?)
      && (plan.Blocks? ==>
            && plan.parity == ChosenParity(spans, size)
            && plan.stripes == Stripes(size, DataBlocks(plan.parity), targetStripe)
            && exists k :: 0 <= k < |blocks| && ClassOf(blocks, plan.blockSize, k)
                           && plan.storageClass == blocks[k].storageClass)
  {
    hide CellSize, ChosenParity, Stripes;
    var plan := MakePlan(size, spans, blocks, targetStripe);
    if plan.Blocks? {
      var k := ScanClass(blocks, plan.blockSize, |blocks| - 1);
      assert ClassOf(blocks, plan.blockSize, k);
    }
  }

  /** Entry `k` is the last one whose minimal size the block exceeds, or the first one if there is none. */
  predicate ClassOf(policy: seq<BlockEntry>, blockSize: nat, k: nat)
    requires k < |policy|
  {
    (k > 0 ==> blockSize > policy[k].minSize) && forall j | k < j < |policy| :: blockSize <= policy[j].minSize
  }

  lemma PageMultiple(s: nat, pages: nat)
    ensures s * (pages * PAGE_SIZE) == (s * pages) * PAGE_SIZE
    ensures (s * (pages * PAGE_SIZE)) % PAGE_SIZE == 0 && (s * (pages * PAGE_SIZE)) / PAGE_SIZE == s * pages
  {
  }

  lemma PagesFit(used: nat, pages: nat, size: nat)
    requires PAGE_SIZE * used < size + PAGE_SIZE && size <= pages * PAGE_SIZE
    ensures used <= pages
  {
  }

  /** A usable configuration: sorted, every parity usable, the largest span at most a block long. */
  predicate Usable(spans: seq<SpanEntry>, blocks: seq<BlockEntry>, targetStripe: nat) {
    && spans != [] && Sorted(spans) && blocks != [] && targetStripe > 0
    && spans[|spans| - 1].maxSize <= MAX_BLOCK_SIZE
    && (forall i | 0 <= i < |spans| ::
          1 <= DataBlocks(spans[i].parity) <= MAX_DATA && ParityBlocks(spans[i].parity) <= MAX_PARITY)
  }

  /** Under a usable configuration every span that some entry covers is planned with the least such entry. */
  lemma UsablePlans(size: nat, spans: seq<SpanEntry>, blocks: seq<BlockEntry>, targetStripe: nat, k: nat)
    requires Usable(spans, blocks, targetStripe) && size >= MAX_INLINE
    requires k < |spans| && LeastCovering(spans, size, k)
    ensures MakePlan(size, spans, blocks, targetStripe).Blocks?
    ensures MakePlan(size, spans, blocks, targetStripe).parity == spans[k].parity
  {
    PicksLeastCovering(spans, size, k);
    assert size <= spans[k].maxSize <= spans[|spans| - 1].maxSize;
  }

  // ---------------------------------------------------------------- dealing pages to blocks

  /** The span page that is page `j` of data block `b`: whole stripes, whole cells, pages of a cell. */
  function PageAt(d: nat, cellPages: nat, b: nat, j: nat): nat
    requires cellPages > 0
  {
    Next(d, cellPages);
    Next(j / cellPages, d * cellPages);
    Next(b, cellPages);
    (j / cellPages) * (d * cellPages) + b * cellPages + j % cellPages
  }

  /** How many pages block `b` has after `stripe` whole stripes, `block` cells and `o` pages. */
  function Dealt(cellPages: nat, stripe: nat, block: nat, o: nat, b: nat): nat {
    stripe * cellPages + if b < block then cellPages else if b == block then o else 0
  }

  /** The first `t` pages are dealt: `stripe` whole stripes, `block` cells and `o` pages. */
  ghost predicate DealtRight<T>(pages: seq<T>, blocks: seq<seq<T>>, d: nat, cellPages: nat, stripe: nat, block: nat,
    o: nat, t: nat)
  {
    && |blocks| == d && block < d && o <= cellPages && cellPages > 0 && t <= |pages|
    && t == stripe * (d * cellPages) + block * cellPages + o
    && (forall b | 0 <= b < d :: |blocks[b]| == Dealt(cellPages, stripe, block, o, b))
    && (forall b, j | 0 <= b < d && 0 <= j < |blocks[b]| ::
          PageAt(d, cellPages, b, j) < t && blocks[b][j] == pages[PageAt(d, cellPages, b, j)])
  }

  lemma DealPage<T>(pages: seq<T>, blocks: seq<seq<T>>, d: nat, cellPages: nat, stripe: nat, block: nat, o: nat, t: nat)
    requires DealtRight(pages, blocks, d, cellPages, stripe, block, o, t) && o < cellPages && t < |pages|
    ensures DealtRight(pages, blocks[block := blocks[block] + [pages[t]]], d, cellPages, stripe, block, o + 1, t + 1)
  {
    Position(cellPages, stripe, o);
    assert PageAt(d, cellPages, block, |blocks[block]|) == t;
    hide PageAt;
    var blocks' := blocks[block := blocks[block] + [pages[t]]];
    forall b, j | 0 <= b < d && 0 <= j < |blocks'[b]|
      ensures PageAt(d, cellPages, b, j) < t + 1 && blocks'[b][j] == pages[PageAt(d, cellPages, b, j)]
    {
      if b != block || j < |blocks[block]| {
        assert blocks'[b][j] == blocks[b][j];
      }
    }
  }

  lemma DealNextCell<T>(pages: seq<T>, blocks: seq<seq<T>>, d: nat, cellPages: nat, stripe: nat, block: nat, t: nat)
    requires DealtRight(pages, blocks, d, cellPages, stripe, block, cellPages, t)
    ensures block + 1 < d ==> DealtRight(pages, blocks, d, cellPages, stripe, block + 1, 0, t)
    ensures block + 1 == d ==> DealtRight(pages, blocks, d, cellPages, stripe + 1, 0, 0, t)
  {
    hide PageAt;
    Next(stripe, d * cellPages);
    Next(block, cellPages);
    Next(stripe, cellPages);
  }

  lemma Next(n: nat, m: nat)
    ensures (n + 1) * m == n * m + m && n * m >= 0
  {
  }

  /** What the dealing comes to; there may be further blocks after the `d` data blocks. */
  ghost predicate IsDeal<T>(pages: seq<T>, blocks: seq<seq<T>>, d: nat, stripes: nat, cellPages: nat) {
    && cellPages > 0 && |pages| == stripes * (d * cellPages) && |blocks| >= d
    && (forall b | 0 <= b < d :: |blocks[b]| == stripes * cellPages)
    && (forall b, j | 0 <= b < d && 0 <= j < |blocks[b]| ::
          PageAt(d, cellPages, b, j) < |pages| && blocks[b][j] == pages[PageAt(d, cellPages, b, j)])
  }

  /** The list_for_each_entry_safe loop of write_blocks. */
  method Deal<T>(pages: seq<T>, d: nat, stripes: nat, cellPages: nat) returns (blocks: seq<seq<T>>)
    requires d > 0 && cellPages > 0 && |pages| == stripes * (d * cellPages)
    ensures |blocks| == d && IsDeal(pages, blocks, d, stripes, cellPages)
  {
    blocks := seq(d, _ => []);
    var block, cellOffset, t := 0, 0, 0;
    ghost var stripe := 0;
    while t < |pages|
      invariant cellOffset < cellPages
      invariant DealtRight(pages, blocks, d, cellPages, stripe, block, cellOffset, t)
    {
      DealPage(pages, blocks, d, cellPages, stripe, block, cellOffset, t);
      hide *;
      blocks := blocks[block := blocks[block] + [pages[t]]];
      t := t + 1;
      cellOffset := cellOffset + 1;
      if cellOffset >= cellPages {
        DealNextCell(pages, blocks, d, cellPages, stripe, block, t);
        block := block + 1;
        if block == d {
          block, stripe := 0, stripe + 1;
        }
        cellOffset := 0;
      }
    }
    EndOfDeal(d, cellPages, stripe, block, cellOffset, stripes);
  }

  lemma Position(cellPages: nat, stripe: nat, o: nat)
    requires o < cellPages
    ensures (stripe * cellPages + o) / cellPages == stripe && (stripe * cellPages + o) % cellPages == o
  {
    DivModUnique(stripe * cellPages + o, cellPages, stripe, o);
  }

  lemma DivModUnique(n: nat, m: nat, q: nat, r: nat)
    requires r < m && n == q * m + r
    ensures n / m == q && n % m == r
  {
    MulStrict(m, n / m, q);
    MulStrict(m, q, n / m);
  }

  lemma MulStrict(m: nat, a: nat, b: nat)
    ensures a < b ==> m * a + m <= m * b
  {
    if a < b {
      MulMono(m, a + 1, b);
      assert m * (a + 1) == m * a + m;
    }
  }

  /** Cells and pages before the end of a stripe. */
  lemma WithinStripe(d: nat, cellPages: nat, block: nat, o: nat)
    requires block < d && o < cellPages
    ensures block * cellPages + o < d * cellPages
  {
    MulStrict(cellPages, block, d);
  }

  lemma EndOfDeal(d: nat, cellPages: nat, stripe: nat, block: nat, o: nat, stripes: nat)
    requires block < d && o < cellPages
    requires stripe * (d * cellPages) + block * cellPages + o == stripes * (d * cellPages)
    ensures stripe == stripes && block == 0 && o == 0
  {
    var st, r := d * cellPages, block * cellPages + o;
    WithinStripe(d, cellPages, block, o);
    DivModUnique(stripes * st, st, stripe, r);
    DivModUnique(stripes * st, st, stripes, 0);
    if block > 0 {
      MulStrict(cellPages, 0, block);
    }
  }

  function BlockOf(d: nat, cellPages: nat, p: nat): nat
    requires d > 0 && cellPages > 0
  {
    (p / cellPages) % d
  }

  function PlaceOf(d: nat, cellPages: nat, p: nat): nat
    requires d > 0 && cellPages > 0
  {
    Next((p / cellPages) / d, cellPages);
    ((p / cellPages) / d) * cellPages + p % cellPages
  }

  lemma PlaceInverse(d: nat, cellPages: nat, stripes: nat, p: nat)
    requires d > 0 && cellPages > 0 && p < stripes * (d * cellPages)
    ensures BlockOf(d, cellPages, p) < d && PlaceOf(d, cellPages, p) < stripes * cellPages
    ensures PageAt(d, cellPages, BlockOf(d, cellPages, p), PlaceOf(d, cellPages, p)) == p
  {
    hide PageAt, BlockOf, PlaceOf;
    var s, b, o := Decompose(d, cellPages, p);
    PageAtPlace(d, cellPages, s, b, o);
    StripeBelow(p, stripes, d * cellPages, s, b * cellPages + o);
    PlaceInBlock(s, stripes, cellPages, o);
  }

  lemma Decompose(d: nat, cellPages: nat, p: nat) returns (s: nat, b: nat, o: nat)
    requires d > 0 && cellPages > 0
    ensures b < d && o < cellPages && p == s * (d * cellPages) + b * cellPages + o
    ensures BlockOf(d, cellPages, p) == b && PlaceOf(d, cellPages, p) == s * cellPages + o
  {
    var q := p / cellPages;
    o := p % cellPages;
    s, b := q / d, q % d;
    Distribute(s, d, b, cellPages);
  }

  /** Page `p` of the span is in block (p / cellPages) mod d, at the place its stripe and cell give. */
  lemma DealPosition<T>(pages: seq<T>, blocks: seq<seq<T>>, d: nat, stripes: nat, cellPages: nat, p: nat)
    requires d > 0 && IsDeal(pages, blocks, d, stripes, cellPages) && p < |pages|
    ensures var b, j := BlockOf(d, cellPages, p), PlaceOf(d, cellPages, p);
      b < d && j < |blocks[b]| && blocks[b][j] == pages[p]
  {
    hide PageAt, BlockOf, PlaceOf;
    PlaceInverse(d, cellPages, stripes, p);
    var b, j := BlockOf(d, cellPages, p), PlaceOf(d, cellPages, p);
    assert |blocks[b]| == stripes * cellPages;
    assert blocks[b][j] == pages[PageAt(d, cellPages, b, j)];
  }

  lemma Distribute(s: nat, d: nat, b: nat, m: nat)
    ensures (s * d + b) * m == s * (d * m) + b * m
  {
  }

  lemma StripeBelow(p: nat, stripes: nat, st: nat, s: nat, r: nat)
    requires p < stripes * st && p == s * st + r
    ensures s < stripes
  {
    MulMono(st, stripes, if s >= stripes then s else stripes);
  }

  lemma PlaceInBlock(s: nat, stripes: nat, cellPages: nat, o: nat)
    requires s < stripes && o < cellPages
    ensures s * cellPages + o < stripes * cellPages
  {
    MulStrict(cellPages, s, stripes);
  }

  lemma PageAtPlace(d: nat, cellPages: nat, s: nat, b: nat, o: nat)
    requires o < cellPages
    ensures PageAt(d, cellPages, b, s * cellPages + o) == s * (d * cellPages) + b * cellPages + o
  {
    Position(cellPages, s, o);
  }

  // ---------------------------------------------------------------- reading the cells back

  /** The cell of stripe `s`. */
  function Cell<T>(block: seq<T>, cellPages: nat, s: nat): (cell: seq<T>)
    requires (s + 1) * cellPages <= |block|
    ensures |cell| == cellPages
  {
    Next(s, cellPages);
    block[s * cellPages..s * cellPages + cellPages]
  }

  /** The first `b` cells of stripe `s`. */
  function StripeCells<T>(blocks: seq<seq<T>>, cellPages: nat, s: nat, b: nat): seq<T>
    requires b <= |blocks| && forall i | 0 <= i < b :: (s + 1) * cellPages <= |blocks[i]|
  {
    if b == 0 then [] else StripeCells(blocks, cellPages, s, b - 1) + Cell(blocks[b - 1], cellPages, s)
  }

  /** The first `s` stripes of the first `d` blocks. */
  function ReadBack<T>(blocks: seq<seq<T>>, d: nat, cellPages: nat, s: nat): seq<T>
    requires d <= |blocks| && forall i | 0 <= i < d :: s * cellPages <= |blocks[i]|
  {
    if s == 0 then []
    else
      Next(s - 1, cellPages);
      ReadBack(blocks, d, cellPages, s - 1) + StripeCells(blocks, cellPages, s - 1, d)
  }

  lemma CellIsRun<T>(pages: seq<T>, blocks: seq<seq<T>>, d: nat, stripes: nat, cellPages: nat, s: nat, b: nat, at: nat)
    requires IsDeal(pages, blocks, d, stripes, cellPages) && b < d && at == s * (d * cellPages) + b * cellPages
    requires (s + 1) * cellPages <= |blocks[b]|
    ensures at + cellPages <= |pages| && Cell(blocks[b], cellPages, s) == pages[at..at + cellPages]
  {
    Next(s, cellPages);
    var lo := s * cellPages;
    forall j | lo <= j < lo + cellPages ensures PageAt(d, cellPages, b, j) == at + (j - lo) {
      PageAtPlace(d, cellPages, s, b, j - lo);
    }
    RunAt(pages, blocks[b], d, cellPages, b, lo, at);
  }

  lemma RunAt<T>(pages: seq<T>, block: seq<T>, d: nat, cellPages: nat, b: nat, lo: nat, at: nat)
    requires cellPages > 0 && lo + cellPages <= |block|
    requires forall j | 0 <= j < |block| ::
      PageAt(d, cellPages, b, j) < |pages| && block[j] == pages[PageAt(d, cellPages, b, j)]
    requires forall j | lo <= j < lo + cellPages :: PageAt(d, cellPages, b, j) == at + (j - lo)
    ensures at + cellPages <= |pages| && block[lo..lo + cellPages] == pages[at..at + cellPages]
  {
    hide PageAt;
    assert PageAt(d, cellPages, b, lo + cellPages - 1) < |pages|;
    var cell, run := block[lo..lo + cellPages], pages[at..at + cellPages];
    forall o | 0 <= o < cellPages ensures cell[o] == run[o] {
      assert block[lo + o] == pages[PageAt(d, cellPages, b, lo + o)];
    }
  }

  lemma Join<T>(pages: seq<T>, from: nat, m: nat, n: nat)
    requires from <= m && m + n <= |pages|
    ensures pages[from..m] + pages[m..m + n] == pages[from..m + n]
  {
  }

  lemma {:induction false} StripeIsRun<T>(pages: seq<T>, blocks: seq<seq<T>>, d: nat, stripes: nat, cellPages: nat,
    s: nat, b: nat, at: nat)
    requires IsDeal(pages, blocks, d, stripes, cellPages) && b <= d && at == s * (d * cellPages) <= |pages|
    requires d <= |blocks| && forall i | 0 <= i < d :: (s + 1) * cellPages <= |blocks[i]|
    ensures at + b * cellPages <= |pages| && StripeCells(blocks, cellPages, s, b) == pages[at..at + b * cellPages]
    decreases b
  {
    hide Cell, IsDeal;
    if b > 0 {
      StripeIsRun(pages, blocks, d, stripes, cellPages, s, b - 1, at);
      Next(b - 1, cellPages);
      var m := at + (b - 1) * cellPages;
      CellIsRun(pages, blocks, d, stripes, cellPages, s, b - 1, m);
      Join(pages, at, m, cellPages);
      assert StripeCells(blocks, cellPages, s, b) == pages[at..m] + pages[m..m + cellPages];
    }
  }

  lemma {:induction false} ReadBackPrefix<T>(pages: seq<T>, blocks: seq<seq<T>>, d: nat, stripes: nat, cellPages: nat,
    s: nat)
    requires IsDeal(pages, blocks, d, stripes, cellPages) && d <= |blocks| && forall i | 0 <= i < d ::
      s * cellPages <= |blocks[i]|
    ensures s * (d * cellPages) <= |pages| && ReadBack(blocks, d, cellPages, s) == pages[..s * (d * cellPages)]
    decreases s
  {
    hide StripeCells, IsDeal;
    if s > 0 {
      Next(s - 1, cellPages);
      Next(s - 1, d * cellPages);
      ReadBackPrefix(pages, blocks, d, stripes, cellPages, s - 1);
      StripeIsRun(pages, blocks, d, stripes, cellPages, s - 1, d, (s - 1) * (d * cellPages));
      Join(pages, 0, (s - 1) * (d * cellPages), d * cellPages);
    }
  }

  /** Reading the cells back stripe by stripe gives the pages of the span in order. */
  lemma {:induction false} ReadBackIsSpan<T>(pages: seq<T>, blocks: seq<seq<T>>, d: nat, stripes: nat, cellPages: nat)
    requires IsDeal(pages, blocks, d, stripes, cellPages)
    ensures ReadBack(blocks, d, cellPages, stripes) == pages
  {
    ReadBackPrefix(pages, blocks, d, stripes, cellPages, stripes);
  }
}
