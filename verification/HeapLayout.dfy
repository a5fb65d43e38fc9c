/** The address arithmetic of the kernel heap, on values: blocks obtained from the
    system ("majors"), the allocations inside them ("minors", here cells), the gaps
    between those, and the alignment of user pointers. */
module HeapLayout {
  import opened Sequences

  const MAJOR_HEADER: nat := 24
  const MINOR_HEADER: nat := 24
  const ALIGNMENT: nat := 16
  const ALIGN_INFO: nat := 16
  const PAGE_SIZE: nat := 4096
  const PAGE_COUNT: nat := 16
  const WORD_LIMIT: nat := 0x1_0000_0000
  const HEAP_START: nat := 0xF000_0000

  /** One allocation: the address of its header, the bytes it owns after the header
      and the bytes the caller asked for. */
  datatype Cell = Cell(addr: nat, size: nat, req: nat) {
    function Raw(): nat { addr + MINOR_HEADER }
    function End(): nat { addr + MINOR_HEADER + size }
    function User(): nat { Align(Raw()) }
  }

  /** One region obtained from the system, with its allocations in list order. */
  datatype Block = Block(addr: nat, size: nat, usage: int, cells: seq<Cell>) {
    function Free(): int { size - usage }
  }

  // ---------------------------------------------------------------- alignment

  /** Skips the alignment byte's area, then rounds up to a multiple of 16. */
  function Align(raw: nat): nat {
    var ptr := raw + ALIGN_INFO;
    var diff := ptr % ALIGNMENT;
    if diff != 0 then ptr + (ALIGNMENT - diff) else ptr
  }

  /** The value that alignment leaves just below the aligned area. */
  function AlignTag(raw: nat): nat {
    var diff := (raw + ALIGN_INFO) % ALIGNMENT;
    (if diff != 0 then ALIGNMENT - diff else 0) + ALIGN_INFO
  }

  /** Undoes the alignment with the stored tag; a tag out of range is not believed. */
  function Unalign(ptr: int, tag: int): int {
    if 0 <= tag < ALIGNMENT + ALIGN_INFO then ptr - tag else ptr
  }

  lemma UnalignInvertsAlign(raw: nat)
    ensures Align(raw) % 16 == 0
    ensures Unalign(Align(raw), AlignTag(raw)) == raw
    ensures raw + 16 <= Align(raw) < raw + 32
    ensures 16 <= AlignTag(raw) < 128
  {
  }

  // ---------------------------------------------------------------- gaps

  function GapStart(b: Block, j: nat): nat
    requires j <= |b.cells|
  {
    if j == 0 then b.addr + MAJOR_HEADER else b.cells[j - 1].End()
  }

  function GapEnd(b: Block, j: nat): nat
    requires j <= |b.cells|
  {
    if j == |b.cells| then b.addr + b.size else b.cells[j].addr
  }

  function Gap(b: Block, j: nat): int
    requires j <= |b.cells|
  {
    GapEnd(b, j) - GapStart(b, j)
  }

  /** The cells are address-sorted, disjoint and inside the block. */
  ghost predicate Sorted(b: Block) {
    forall j: nat :: j <= |b.cells| ==> Gap(b, j) >= 0
  }

  function CellBytes(cells: seq<Cell>): nat {
    if cells == [] then 0
    else CellBytes(cells[..|cells| - 1]) + MINOR_HEADER + cells[|cells| - 1].size
  }

  ghost function GapBytes(b: Block, n: nat): int
    requires n <= |b.cells| + 1
  {
    if n == 0 then 0 else GapBytes(b, n - 1) + Gap(b, n - 1)
  }

  /** Every allocation was padded so that its aligned request fits. */
  ghost predicate HasPadding(c: Cell) {
    c.size >= c.req + ALIGNMENT + ALIGN_INFO
  }

  ghost predicate BlockOk(b: Block) {
    && Sorted(b)
    && b.usage == MAJOR_HEADER + CellBytes(b.cells)
    && (forall j :: 0 <= j < |b.cells| ==> HasPadding(b.cells[j]))
    && HEAP_START <= b.addr
    && b.addr % ALIGNMENT == 0
    && b.addr + b.size <= WORD_LIMIT
  }

  lemma {:induction false} GapsAndCellsFillPrefix(b: Block, n: nat)
    requires n <= |b.cells|
    ensures MAJOR_HEADER + CellBytes(b.cells[..n]) + GapBytes(b, n) == GapStart(b, n) - b.addr
  {
    if n > 0 {
      GapsAndCellsFillPrefix(b, n - 1);
      assert b.cells[..n][..n - 1] == b.cells[..n - 1];
    }
  }

  /** Headers, payloads and gaps together are the whole block. */
  lemma Conservation(b: Block)
    ensures MAJOR_HEADER + CellBytes(b.cells) + GapBytes(b, |b.cells| + 1) == b.size
  {
    GapsAndCellsFillPrefix(b, |b.cells|);
    assert b.cells[..|b.cells|] == b.cells;
  }

  lemma {:induction false} GapWithinSum(b: Block, j: nat, n: nat)
    requires Sorted(b) && j < n <= |b.cells| + 1
    ensures 0 <= Gap(b, j) <= GapBytes(b, n)
    decreases n
  {
    if j < n - 1 {
      GapWithinSum(b, j, n - 1);
      assert Gap(b, n - 1) >= 0;
    } else {
      GapSumNonNegative(b, j);
    }
  }

  lemma {:induction false} GapSumNonNegative(b: Block, n: nat)
    requires Sorted(b) && n <= |b.cells| + 1
    ensures GapBytes(b, n) >= 0
  {
    if n > 0 {
      GapSumNonNegative(b, n - 1);
      assert Gap(b, n - 1) >= 0;
    }
  }

  ghost predicate FitsAt(b: Block, j: nat, need: nat) {
    j <= |b.cells| && Gap(b, j) >= need
  }

  ghost predicate Fits(b: Block, need: nat) {
    exists j: nat :: FitsAt(b, j, need)
  }

  /** A block whose free total is below the need has no gap of that size: this is
      what lets the allocator skip it unseen. */
  lemma SkipIsSafe(b: Block, need: nat)
    requires BlockOk(b) && b.Free() < need
    ensures !Fits(b, need)
  {
    Conservation(b);
    forall j: nat | j <= |b.cells| ensures !FitsAt(b, j, need) {
      GapWithinSum(b, j, |b.cells| + 1);
    }
  }

  /** Fits, decided gap by gap: the first gap that is large enough. */
  ghost predicate IsFirstFit(b: Block, j: nat, need: nat) {
    && FitsAt(b, j, need)
    && forall i: nat :: i < j ==> !FitsAt(b, i, need)
  }

  lemma {:induction false} SortedPairs(b: Block, i: nat, j: nat)
    requires Sorted(b) && i < j < |b.cells|
    ensures b.cells[i].End() <= b.cells[j].addr
    decreases j - i
  {
    assert Gap(b, j) >= 0;
    if i < j - 1 {
      SortedPairs(b, i, j - 1);
    }
  }

  lemma {:induction false} CellInside(b: Block, j: nat)
    requires Sorted(b) && j < |b.cells|
    ensures b.addr + MAJOR_HEADER <= b.cells[j].addr
    ensures b.cells[j].End() <= b.addr + b.size
  {
    assert Gap(b, 0) >= 0 && Gap(b, |b.cells|) >= 0;
    if j > 0 { SortedPairs(b, 0, j); }
    if j < |b.cells| - 1 { SortedPairs(b, j, |b.cells| - 1); }
  }

  lemma GapInside(b: Block, j: nat)
    requires Sorted(b) && j <= |b.cells|
    ensures b.addr + MAJOR_HEADER <= GapStart(b, j) <= GapEnd(b, j) <= b.addr + b.size
  {
    assert Gap(b, j) >= 0;
    if j > 0 { CellInside(b, j - 1); }
    if j < |b.cells| { CellInside(b, j); }
  }

  lemma BlockNotEmpty(b: Block)
    requires BlockOk(b)
    ensures b.size >= MAJOR_HEADER
  {
    Conservation(b);
    GapSumNonNegative(b, |b.cells| + 1);
  }

  // ---------------------------------------------------------------- placing and removing

  lemma InsertIsConcat<T>(s: seq<T>, j: nat, x: T)
    requires j <= |s|
    ensures InsertAt(s, j, x) == s[..j] + [x] + s[j..]
  {
  }

  lemma RemoveInsert<T>(s: seq<T>, j: nat)
    requires j < |s|
    ensures InsertAt(RemoveAt(s, j), j, s[j]) == s
  {
  }

  function Place(b: Block, j: nat, size: nat, req: nat): Block
    requires j <= |b.cells|
  {
    b.(usage := b.usage + size + MINOR_HEADER,
       cells := InsertAt(b.cells, j, Cell(GapStart(b, j), size, req)))
  }

  function Release(b: Block, j: nat): Block
    requires j < |b.cells|
  {
    b.(usage := b.usage - (b.cells[j].size + MINOR_HEADER), cells := RemoveAt(b.cells, j))
  }

  lemma {:induction false} CellBytesConcat(a: seq<Cell>, c: seq<Cell>)
    ensures CellBytes(a + c) == CellBytes(a) + CellBytes(c)
  {
    if c == [] {
      assert a + c == a;
    } else {
      var n := |c| - 1;
      CellBytesConcat(a, c[..n]);
      assert (a + c)[..|a + c| - 1] == a + c[..n];
    }
  }

  lemma CellBytesOne(c: Cell)
    ensures CellBytes([c]) == MINOR_HEADER + c.size
  {
    assert [c][..0] == [];
  }

  lemma CellBytesInsert(cells: seq<Cell>, j: nat, c: Cell)
    requires j <= |cells|
    ensures CellBytes(InsertAt(cells, j, c)) == CellBytes(cells) + MINOR_HEADER + c.size
  {
    hide InsertAt, CellBytes;
    calc {
      CellBytes(InsertAt(cells, j, c));
      { InsertIsConcat(cells, j, c); CellBytesConcat(cells[..j] + [c], cells[j..]); }
      CellBytes(cells[..j] + [c]) + CellBytes(cells[j..]);
      { CellBytesConcat(cells[..j], [c]); CellBytesOne(c); }
      CellBytes(cells[..j]) + MINOR_HEADER + c.size + CellBytes(cells[j..]);
      { CellBytesConcat(cells[..j], cells[j..]); assert cells[..j] + cells[j..] == cells; }
      CellBytes(cells) + MINOR_HEADER + c.size;
    }
  }

  lemma PlaceKeepsBlock(b: Block, j: nat, size: nat, req: nat)
    requires BlockOk(b) && FitsAt(b, j, size + MINOR_HEADER)
    requires size >= req + ALIGNMENT + ALIGN_INFO
    ensures BlockOk(Place(b, j, size, req))
  {
    var b' := Place(b, j, size, req);
    CellBytesInsert(b.cells, j, Cell(GapStart(b, j), size, req));
    forall i: nat | i <= |b'.cells| ensures Gap(b', i) >= 0 {
      assert Gap(b, j) >= size + MINOR_HEADER;
      if i < j {
        assert Gap(b', i) == Gap(b, i);
      } else if i > j + 1 {
        assert Gap(b', i) == Gap(b, i - 1);
      }
    }
  }

  lemma ReleaseUndoesPlace(b: Block, j: nat, size: nat, req: nat)
    requires j <= |b.cells|
    ensures Release(Place(b, j, size, req), j) == b
  {
    assert RemoveAt(InsertAt(b.cells, j, Cell(GapStart(b, j), size, req)), j) == b.cells;
  }

  lemma ReleaseKeepsBlock(b: Block, j: nat)
    requires BlockOk(b) && j < |b.cells|
    ensures BlockOk(Release(b, j))
  {
    var rest := RemoveAt(b.cells, j);
    RemoveInsert(b.cells, j);
    CellBytesInsert(rest, j, b.cells[j]);
    var b' := Release(b, j);
    forall i: nat | i <= |b'.cells| ensures Gap(b', i) >= 0 {
      if i < j {
        assert Gap(b', i) == Gap(b, i);
      } else if i > j {
        assert Gap(b', i) == Gap(b, i + 1);
      } else {
        assert Gap(b, j) >= 0 && Gap(b, j + 1) >= 0;
      }
    }
  }

  // ---------------------------------------------------------------- the size of a new block

  /** Pages asked of the system for an allocation of `size` padded bytes, in 32-bit
      arithmetic. */
  function PagesFor(size: nat): nat {
    var st := (size + MAJOR_HEADER + MINOR_HEADER) % WORD_LIMIT;
    var pages := if st % PAGE_SIZE == 0 then st / PAGE_SIZE else st / PAGE_SIZE + 1;
    if pages < PAGE_COUNT then PAGE_COUNT else pages
  }

  function BytesFor(size: nat): nat {
    (PagesFor(size) * PAGE_SIZE) % WORD_LIMIT
  }

  /** A new block holds the allocation it was requested for exactly when the size
      computation did not wrap around. */
  lemma NewBlockHoldsRequest(size: nat)
    requires size < WORD_LIMIT
    ensures BytesFor(size) >= MAJOR_HEADER + MINOR_HEADER + size
            <==> size + MAJOR_HEADER + MINOR_HEADER <= WORD_LIMIT - PAGE_SIZE
  {
  }

  /** The size of a new block: whole pages, at least 16 of them, and beyond that less than one page more than needed. */
  lemma NewBlockSize(size: nat)
    requires size + 48 <= WORD_LIMIT - 4096
    ensures BytesFor(size) % 4096 == 0 && BytesFor(size) >= 16 * 4096 && BytesFor(size) >= size + 48
    ensures BytesFor(size) == 16 * 4096 || BytesFor(size) < size + 48 + 4096
  {
  }

  function NewBlock(addr: nat, size: nat): Block {
    Block(addr, BytesFor(size), MAJOR_HEADER, [])
  }

  lemma PageAlignedIsAligned(addr: nat)
    requires addr % PAGE_SIZE == 0
    ensures addr % ALIGNMENT == 0
  {
    assert addr == (addr / PAGE_SIZE) * 256 * ALIGNMENT;
  }

  lemma EmptyBlockFits(b: Block, size: nat)
    requires b.cells == [] && b.usage == MAJOR_HEADER
    requires b.size >= MAJOR_HEADER + MINOR_HEADER + size
    requires HEAP_START <= b.addr && b.addr % ALIGNMENT == 0 && b.addr + b.size <= WORD_LIMIT
    ensures BlockOk(b) && IsFirstFit(b, 0, size + MINOR_HEADER)
  {
    assert forall j: nat :: j <= |b.cells| ==> j == 0 && Gap(b, j) == b.size - MAJOR_HEADER;
  }

  lemma NewBlockFits(addr: nat, size: nat)
    requires size + MAJOR_HEADER + MINOR_HEADER <= WORD_LIMIT - PAGE_SIZE
    requires HEAP_START <= addr && addr % PAGE_SIZE == 0 && addr + BytesFor(size) <= WORD_LIMIT
    ensures BlockOk(NewBlock(addr, size))
    ensures IsFirstFit(NewBlock(addr, size), 0, size + MINOR_HEADER)
  {
    NewBlockHoldsRequest(size);
    PageAlignedIsAligned(addr);
    EmptyBlockFits(NewBlock(addr, size), size);
  }

  // ---------------------------------------------------------------- the whole heap

  ghost predicate Apart(a: Block, b: Block) {
    a.addr + a.size <= b.addr || b.addr + b.size <= a.addr
  }

  ghost predicate HeapOk(bs: seq<Block>) {
    && (forall k :: 0 <= k < |bs| ==> BlockOk(bs[k]))
    && (forall k, l :: 0 <= k < l < |bs| ==> Apart(bs[k], bs[l]))
  }

  /** No block of the heap can take an allocation needing `need` bytes. */
  ghost predicate Full(bs: seq<Block>, need: nat) {
    forall k :: 0 <= k < |bs| ==> !Fits(bs[k], need)
  }

  function TotalSize(bs: seq<Block>): int {
    if bs == [] then 0 else TotalSize(bs[..|bs| - 1]) + bs[|bs| - 1].size
  }

  /** Payload bytes handed out, without headers. */
  function InUse(b: Block): int {
    CellBytes(b.cells) - MINOR_HEADER * |b.cells|
  }

  function TotalInUse(bs: seq<Block>): int {
    if bs == [] then 0 else TotalInUse(bs[..|bs| - 1]) + InUse(bs[|bs| - 1])
  }

  lemma {:induction false} TotalsConcat(a: seq<Block>, c: seq<Block>)
    ensures TotalSize(a + c) == TotalSize(a) + TotalSize(c)
    ensures TotalInUse(a + c) == TotalInUse(a) + TotalInUse(c)
  {
    if c == [] {
      assert a + c == a;
    } else {
      var n := |c| - 1;
      TotalsConcat(a, c[..n]);
      assert (a + c)[..|a + c| - 1] == a + c[..n];
    }
  }

  lemma TotalsOne(b: Block)
    ensures TotalSize([b]) == b.size && TotalInUse([b]) == InUse(b)
  {
    assert [b][..0] == [];
  }

  lemma TotalsInsert(bs: seq<Block>, k: nat, b: Block)
    requires k <= |bs|
    ensures TotalSize(InsertAt(bs, k, b)) == TotalSize(bs) + b.size
    ensures TotalInUse(InsertAt(bs, k, b)) == TotalInUse(bs) + InUse(b)
  {
    InsertIsConcat(bs, k, b);
    TotalsOne(b);
    TotalsThree(bs[..k], [b], bs[k..]);
    TotalsCut(bs, k);
  }

  lemma TotalsCut(bs: seq<Block>, k: nat)
    requires k <= |bs|
    ensures TotalSize(bs) == TotalSize(bs[..k]) + TotalSize(bs[k..])
    ensures TotalInUse(bs) == TotalInUse(bs[..k]) + TotalInUse(bs[k..])
  {
    TotalsConcat(bs[..k], bs[k..]);
    assert bs[..k] + bs[k..] == bs;
  }

  lemma TotalsThree(x: seq<Block>, y: seq<Block>, z: seq<Block>)
    ensures TotalSize(x + y + z) == TotalSize(x) + TotalSize(y) + TotalSize(z)
    ensures TotalInUse(x + y + z) == TotalInUse(x) + TotalInUse(y) + TotalInUse(z)
  {
    TotalsConcat(x + y, z);
    TotalsConcat(x, y);
  }

  lemma TotalsSplit(bs: seq<Block>, k: nat)
    requires k < |bs|
    ensures TotalSize(bs) == TotalSize(RemoveAt(bs, k)) + bs[k].size
    ensures TotalInUse(bs) == TotalInUse(RemoveAt(bs, k)) + InUse(bs[k])
  {
    RemoveInsert(bs, k);
    TotalsInsert(RemoveAt(bs, k), k, bs[k]);
  }

  lemma TotalsUpdate(bs: seq<Block>, k: nat, b: Block)
    requires k < |bs|
    ensures TotalSize(bs[k := b]) == TotalSize(bs) - bs[k].size + b.size
    ensures TotalInUse(bs[k := b]) == TotalInUse(bs) - InUse(bs[k]) + InUse(b)
  {
    TotalsSplit(bs, k);
    TotalsSplit(bs[k := b], k);
    assert RemoveAt(bs, k) == RemoveAt(bs[k := b], k);
  }

  /** Two different live allocations, of the same block or of two. */
  ghost predicate TwoCells(bs: seq<Block>, k: nat, i: nat, l: nat, j: nat) {
    k < |bs| && i < |bs[k].cells| && l < |bs| && j < |bs[l].cells| && !(k == l && i == j)
  }

  lemma CellsApart(bs: seq<Block>, k: nat, i: nat, l: nat, j: nat)
    requires HeapOk(bs) && TwoCells(bs, k, i, l, j)
    ensures bs[k].cells[i].End() <= bs[l].cells[j].addr || bs[l].cells[j].End() <= bs[k].cells[i].addr
  {
    CellInside(bs[k], i);
    CellInside(bs[l], j);
    if k == l {
      if i < j { SortedPairs(bs[k], i, j); } else { SortedPairs(bs[k], j, i); }
    } else {
      assert Apart(bs[k], bs[l]) || Apart(bs[l], bs[k]);
    }
  }

  /** The aligned request lies in the allocation, 16-aligned, with its tag byte before it. */
  lemma UserInsideCell(c: Cell)
    requires HasPadding(c)
    ensures c.User() % ALIGNMENT == 0
    ensures c.Raw() <= c.User() - ALIGN_INFO < c.User() <= c.User() + c.req <= c.End()
  {
    UnalignInvertsAlign(c.Raw());
  }

  /** The ranges given to callers are pairwise disjoint and 16-byte aligned. */
  lemma UserRangesDisjoint(bs: seq<Block>, k: nat, i: nat, l: nat, j: nat)
    requires HeapOk(bs) && TwoCells(bs, k, i, l, j)
    ensures var c, d := bs[k].cells[i], bs[l].cells[j];
            && c.User() % ALIGNMENT == 0 && d.User() % ALIGNMENT == 0
            && (c.User() + c.req <= d.User() || d.User() + d.req <= c.User())
  {
    CellsApart(bs, k, i, l, j);
    UserInsideCell(bs[k].cells[i]);
    UserInsideCell(bs[l].cells[j]);
  }

  /** Placing an allocation in a gap keeps the heap well formed. */
  lemma PlaceKeepsHeap(bs: seq<Block>, k: nat, j: nat, size: nat, req: nat)
    requires HeapOk(bs) && k < |bs| && FitsAt(bs[k], j, size + MINOR_HEADER)
    requires size >= req + ALIGNMENT + ALIGN_INFO
    ensures var bs' := bs[k := Place(bs[k], j, size, req)];
            && HeapOk(bs')
            && TotalSize(bs') == TotalSize(bs)
            && TotalInUse(bs') == TotalInUse(bs) + size
  {
    var b' := Place(bs[k], j, size, req);
    PlaceKeepsBlock(bs[k], j, size, req);
    TotalsUpdate(bs, k, b');
    CellBytesInsert(bs[k].cells, j, Cell(GapStart(bs[k], j), size, req));
  }

  lemma ReleaseKeepsHeap(bs: seq<Block>, k: nat, j: nat)
    requires HeapOk(bs) && k < |bs| && j < |bs[k].cells|
    ensures var bs' := bs[k := Release(bs[k], j)];
            && HeapOk(bs')
            && TotalSize(bs') == TotalSize(bs)
            && TotalInUse(bs') == TotalInUse(bs) - bs[k].cells[j].size
  {
    ReleaseKeepsBlock(bs[k], j);
    TotalsUpdate(bs, k, Release(bs[k], j));
    RemoveInsert(bs[k].cells, j);
    CellBytesInsert(RemoveAt(bs[k].cells, j), j, bs[k].cells[j]);
  }

  lemma RemoveBlockKeepsHeap(bs: seq<Block>, k: nat)
    requires HeapOk(bs) && k < |bs|
    ensures HeapOk(RemoveAt(bs, k))
    ensures TotalSize(RemoveAt(bs, k)) == TotalSize(bs) - bs[k].size
    ensures bs[k].cells == [] ==> TotalInUse(RemoveAt(bs, k)) == TotalInUse(bs)
  {
    TotalsSplit(bs, k);
  }

  /** The system's answer to a request for a block: page-aligned, in the heap area,
      apart from every block the allocator holds. */
  ghost predicate GrantOk(bs: seq<Block>, addr: nat, size: nat) {
    && HEAP_START <= addr && addr % PAGE_SIZE == 0
    && addr + BytesFor(size) <= WORD_LIMIT
    && forall k :: 0 <= k < |bs| ==> Apart(bs[k], NewBlock(addr, size))
  }

  lemma AppendKeepsHeap(bs: seq<Block>, addr: nat, size: nat)
    requires HeapOk(bs) && GrantOk(bs, addr, size)
    requires size + MAJOR_HEADER + MINOR_HEADER <= WORD_LIMIT - PAGE_SIZE
    ensures var bs' := bs + [NewBlock(addr, size)];
            && HeapOk(bs')
            && TotalSize(bs') == TotalSize(bs) + BytesFor(size)
            && TotalInUse(bs') == TotalInUse(bs)
  {
    NewBlockFits(addr, size);
    TotalsConcat(bs, [NewBlock(addr, size)]);
    TotalsOne(NewBlock(addr, size));
  }

  // ---------------------------------------------------------------- live allocations

  /** The allocations of the heap, whatever block and position they are in. */
  ghost function Live(bs: seq<Block>): set<Cell> {
    set k, i | 0 <= k < |bs| && 0 <= i < |bs[k].cells| :: bs[k].cells[i]
  }

  lemma LiveAt(bs: seq<Block>, k: nat, i: nat)
    requires k < |bs| && i < |bs[k].cells|
    ensures bs[k].cells[i] in Live(bs)
  {
  }

  lemma LiveIndex(bs: seq<Block>, c: Cell) returns (k: nat, i: nat)
    requires c in Live(bs)
    ensures k < |bs| && i < |bs[k].cells| && bs[k].cells[i] == c
  {
    k, i :| k < |bs| && i < |bs[k].cells| && bs[k].cells[i] == c;
  }

  lemma LivePlace(bs: seq<Block>, k: nat, j: nat, size: nat, req: nat)
    requires k < |bs| && j <= |bs[k].cells|
    ensures Live(bs[k := Place(bs[k], j, size, req)]) == Live(bs) + {Cell(GapStart(bs[k], j), size, req)}
  {
    var bs' := bs[k := Place(bs[k], j, size, req)];
    var c := Cell(GapStart(bs[k], j), size, req);
    forall d | d in Live(bs') ensures d in Live(bs) + {c} {
      var l, i := LiveIndex(bs', d);
      if !(l == k && i == j) { LiveAt(bs, l, if l == k && i > j then i - 1 else i); }
    }
    forall d | d in Live(bs) + {c} ensures d in Live(bs') {
      if d in Live(bs) {
        var l, i := LiveIndex(bs, d);
        LiveAt(bs', l, if l == k && i >= j then i + 1 else i);
      } else {
        LiveAt(bs', k, j);
      }
    }
  }

  /** A newly placed allocation shares no address with a live one. */
  lemma PlacedIsNew(bs: seq<Block>, k: nat, j: nat, size: nat, req: nat, d: Cell)
    requires HeapOk(bs) && k < |bs| && FitsAt(bs[k], j, size + MINOR_HEADER)
    requires size >= req + ALIGNMENT + ALIGN_INFO && d in Live(bs)
    ensures var c := Cell(GapStart(bs[k], j), size, req);
            c.End() <= d.addr || d.End() <= c.addr
  {
    var bs' := bs[k := Place(bs[k], j, size, req)];
    PlaceKeepsHeap(bs, k, j, size, req);
    var l, i := LiveIndex(bs, d);
    CellsApart(bs', k, j, l, if l == k && i >= j then i + 1 else i);
  }

  lemma LiveRelease(bs: seq<Block>, k: nat, j: nat)
    requires HeapOk(bs) && k < |bs| && j < |bs[k].cells|
    ensures Live(bs[k := Release(bs[k], j)]) == Live(bs) - {bs[k].cells[j]}
  {
    var bs' := bs[k := Release(bs[k], j)];
    var c := bs[k].cells[j];
    forall d | d in Live(bs') ensures d in Live(bs) - {c} {
      var l, i := LiveIndex(bs', d);
      var o := if l == k && i >= j then i + 1 else i;
      LiveAt(bs, l, o);
      CellsApart(bs, l, o, k, j);
    }
    forall d | d in Live(bs) - {c} ensures d in Live(bs') {
      var l, i := LiveIndex(bs, d);
      LiveAt(bs', l, if l == k && i > j then i - 1 else i);
    }
  }

  lemma LiveRemoveEmpty(bs: seq<Block>, k: nat)
    requires k < |bs| && bs[k].cells == []
    ensures Live(RemoveAt(bs, k)) == Live(bs)
  {
    forall d | d in Live(bs) ensures d in Live(RemoveAt(bs, k)) {
      var l, i := LiveIndex(bs, d);
      LiveAt(RemoveAt(bs, k), if l < k then l else l - 1, i);
    }
    forall d | d in Live(RemoveAt(bs, k)) ensures d in Live(bs) {
      var l, i := LiveIndex(RemoveAt(bs, k), d);
      LiveAt(bs, if l < k then l else l + 1, i);
    }
  }

  lemma LiveAppendEmpty(bs: seq<Block>, b: Block)
    requires b.cells == []
    ensures Live(bs + [b]) == Live(bs)
  {
    forall d | d in Live(bs) ensures d in Live(bs + [b]) {
      var l, i := LiveIndex(bs, d);
      LiveAt(bs + [b], l, i);
    }
    forall d | d in Live(bs + [b]) ensures d in Live(bs) {
      var l, i := LiveIndex(bs + [b], d);
      LiveAt(bs, l, i);
    }
  }
}
