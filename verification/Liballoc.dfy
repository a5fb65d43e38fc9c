/** The kernel heap allocator: malloc, free and realloc over the two-level list, with the
    memory the system hands out given as an answer to each call. */
module Liballoc {
  import opened Options
  import opened Sequences
  import opened HeapLayout
  import opened HeapLists

  /** The largest request whose block size is still computed without wrap-around. */
  const MAX_REQUEST: nat := WORD_LIMIT - PAGE_SIZE - MAJOR_HEADER - MINOR_HEADER - ALIGNMENT - ALIGN_INFO

  function PaddedSize(req: nat): nat {
    req + ALIGNMENT + ALIGN_INFO
  }

  /** Bytes of a gap that a request takes: its header and its padded size. */
  function Need(req: nat): nat {
    PaddedSize(req) + MINOR_HEADER
  }

  ghost predicate IsGoodBet(bs: seq<Block>, best: nat, req: nat, k: nat) {
    k < |bs| && bs[k].addr == best && bs[k].Free() > Need(req)
  }

  /** Where the search for a request starts: the best bet if it has more free memory
      than needed, else the root. */
  ghost predicate IsStart(bs: seq<Block>, best: nat, req: nat, start: nat) {
    if exists k: nat :: IsGoodBet(bs, best, req, k) then IsGoodBet(bs, best, req, start) else start == 0
  }

  lemma StartAtRoot(bs: seq<Block>, best: nat, req: nat, k: nat)
    requires HeapOk(bs)
    requires best == NULL || (k < |bs| && bs[k].addr == best && bs[k].Free() <= Need(req))
    ensures IsStart(bs, best, req, 0)
  {
    forall l: nat ensures !IsGoodBet(bs, best, req, l) {
      if l < |bs| && bs[l].addr == best {
        assert BlockOk(bs[l]);
        if l != k { BlocksDistinct(bs, k, l); }
      }
    }
  }

  /** `k` is the first block, going from `start` to the end and then from the root,
      with a gap for the request. */
  ghost predicate IsChosen(bs: seq<Block>, need: nat, start: nat, k: nat) {
    && k < |bs| && Fits(bs[k], need)
    && forall i :: (start <= i < k || (k < start && (i < k || start <= i))) && 0 <= i < |bs| ==> !Fits(bs[i], need)
  }

  /** Free memory of the block at address `a`, or 0 for none. */
  ghost predicate FreeAt(bs: seq<Block>, a: nat, n: int) {
    if a == NULL then n == 0 else exists k :: 0 <= k < |bs| && bs[k].addr == a && bs[k].Free() == n
  }

  /** `a` is null or the address of a block in the list. */
  ghost predicate Listed(bs: seq<Block>, a: nat) {
    a == NULL || exists k :: 0 <= k < |bs| && bs[k].addr == a
  }

  lemma ListedAppend(bs: seq<Block>, b: Block, a: nat)
    requires Listed(bs, a) || a == b.addr
    ensures Listed(bs + [b], a)
  {
    if a == b.addr {
      assert (bs + [b])[|bs|].addr == a;
    } else if a != NULL {
      var k :| 0 <= k < |bs| && bs[k].addr == a;
      assert (bs + [b])[k].addr == a;
    }
  }

  lemma ListedUpdate(bs: seq<Block>, k: nat, b: Block, a: nat)
    requires k < |bs| && b.addr == bs[k].addr && Listed(bs, a)
    ensures Listed(bs[k := b], a)
  {
    if a != NULL {
      var l :| 0 <= l < |bs| && bs[l].addr == a;
      assert bs[k := b][l].addr == a;
    }
  }

  lemma ListedRemove(bs: seq<Block>, k: nat, a: nat)
    requires k < |bs| && Listed(bs, a) && a != bs[k].addr
    ensures Listed(RemoveAt(bs, k), a)
  {
    if a != NULL {
      var l :| 0 <= l < |bs| && bs[l].addr == a;
      assert RemoveAt(bs, k)[if l < k then l else l - 1].addr == a;
    }
  }

  ghost predicate NoFit(bs: seq<Block>, need: nat, lo: nat, hi: nat) {
    forall i :: lo <= i < hi && i < |bs| ==> !Fits(bs[i], need)
  }

  lemma NoFitExtend(bs: seq<Block>, need: nat, lo: nat, k: nat)
    requires NoFit(bs, need, lo, k) && k < |bs| && !Fits(bs[k], need)
    ensures NoFit(bs, need, lo, k + 1)
  {
  }

  /** Gap `j` of block `k` is the block's first that fits, with these pointers around it. */
  ghost predicate IsSpot(bs: seq<Block>, need: nat, k: nat, j: nat, prev: nat, next: nat, addr: nat) {
    && k < |bs| && IsFirstFit(bs[k], j, need) && addr == GapStart(bs[k], j)
    && prev == CellAddr(bs[k], j - 1) && next == CellAddr(bs[k], j)
  }

  lemma ChosenInPass(bs: seq<Block>, need: nat, start: nat, k: nat, j: nat)
    requires start <= k < |bs| && NoFit(bs, need, start, k) && IsFirstFit(bs[k], j, need)
    ensures IsChosen(bs, need, start, k) && !Full(bs, need)
  {
    assert FitsAt(bs[k], j, need);
  }

  lemma ChosenAfterRestart(bs: seq<Block>, need: nat, start: nat, k: nat, j: nat)
    requires NoFit(bs, need, start, |bs|) && NoFit(bs, need, 0, k) && k < |bs| && IsFirstFit(bs[k], j, need)
    ensures IsChosen(bs, need, start, k) && !Full(bs, need)
  {
    assert FitsAt(bs[k], j, need);
  }

  ghost predicate MostFree(bs: seq<Block>, lo: nat, hi: nat, n: int) {
    forall i :: lo <= i < hi && i < |bs| ==> bs[i].Free() <= n
  }

  lemma MostFreeExtend(bs: seq<Block>, lo: nat, k: nat, n: int, m: int)
    requires MostFree(bs, lo, k, n) && k < |bs| && n <= m && bs[k].Free() <= m
    ensures MostFree(bs, lo, k + 1, m)
  {
  }

  /** A new block holding just the request it was obtained for. */
  ghost function FirstPlaced(addr: nat, req: nat): Block {
    Place(NewBlock(addr, PaddedSize(req)), 0, PaddedSize(req), req)
  }

  /** A region obtained for a request: whole pages, at least 16 of them, otherwise less than a page more than the
      headers, the request and its 32 bytes of padding take; the request lies at its start. */
  ghost predicate IsNewMajor(b: Block, addr: nat, req: nat) {
    && b.addr == addr && b.size % 4096 == 0 && b.size >= 16 * 4096 && b.size >= 24 + 24 + req + 32
    && (b.size == 16 * 4096 || b.size < 24 + 24 + req + 32 + 4096)
    && b.cells == [Cell(addr + 24, req + 32, req)] && b.usage == 24 + 24 + req + 32
  }

  lemma FirstPlacedIs(addr: nat, req: nat)
    requires req <= MAX_REQUEST
    ensures IsNewMajor(FirstPlaced(addr, req), addr, req)
  {
    NewBlockSize(PaddedSize(req));
  }

  /** A request that fits behind the first one in 64K has a gap there. */
  lemma FitsBehind(b: Block, addr: nat, first: nat, req: nat)
    requires IsNewMajor(b, addr, first) && 24 + (24 + first + 32) + (24 + req + 32) <= 16 * 4096
    ensures FitsAt(b, 1, req + 56)
    ensures forall bs: seq<Block> :: b in bs ==> !Full(bs, req + 56)
  {
    assert GapStart(b, 1) == addr + 24 + 24 + first + 32;
  }

  /** The new region is taken for the best bet: it is the first one, or the last one before it was large enough in total
      and none has as much free memory as the new one, headers apart. */
  ghost predicate BetMoves(bs: seq<Block>, req: nat, size: nat) {
    bs == [] || (bs[|bs| - 1].Free() >= req + 56 && forall i :: 0 <= i < |bs| ==> bs[i].Free() < size - 24)
  }

  lemma BetAfterIs(bs: seq<Block>, best: nat, bestSize: int, scanned: bool, addr: nat, req: nat)
    requires req <= MAX_REQUEST && FreeAt(bs, best, bestSize) && MostFree(bs, 0, |bs|, bestSize)
    requires if bs == [] then scanned else scanned <==> bs[|bs| - 1].Free() >= req + 56
    ensures bs == [] ==> best == NULL
    ensures BetAfter(best, scanned, bestSize, addr, req)
         == if BetMoves(bs, req, FirstPlaced(addr, req).size) then addr else best
  {
    NewBlockSize(PaddedSize(req));
    if best != NULL {
      var k :| 0 <= k < |bs| && bs[k].addr == best && bs[k].Free() == bestSize;
      assert BetMoves(bs, req, FirstPlaced(addr, req).size) ==> bestSize < BytesFor(PaddedSize(req)) - MAJOR_HEADER;
    }
  }

  /** What the region obtained for a request adds to the heap. */
  lemma NewMajor(bs: seq<Block>, best: nat, bestSize: int, scanned: bool, addr: nat, req: nat)
    requires HeapOk(bs) && req <= MAX_REQUEST && GrantOk(bs, addr, PaddedSize(req))
    requires FreeAt(bs, best, bestSize) && MostFree(bs, 0, |bs|, bestSize)
    requires if bs == [] then scanned else scanned <==> bs[|bs| - 1].Free() >= req + 56
    ensures var bs', b := bs + [FirstPlaced(addr, req)], FirstPlaced(addr, req);
            && IsNewMajor(b, addr, req) && TotalSize(bs') == TotalSize(bs) + b.size
            && IsCell(bs', |bs|, 0) && bs'[|bs|].cells[0].req == req && GrewBy(bs, bs', bs'[|bs|].cells[0])
            && BetAfter(best, scanned, bestSize, addr, req) == if BetMoves(bs, req, b.size) then addr else best
  {
    FirstPlacedGrows(bs, addr, req);
    FirstPlacedIs(addr, req);
    hide HeapOk, GrewBy, GrantOk;
    BetAfterIs(bs, best, bestSize, scanned, addr, req);
    TotalsConcat(bs, [FirstPlaced(addr, req)]);
    TotalsOne(FirstPlaced(addr, req));
  }

  lemma FreeIsListed(bs: seq<Block>, a: nat, n: int)
    requires FreeAt(bs, a, n)
    ensures Listed(bs, a)
  {
  }

  lemma BestOf(bs: seq<Block>, best: nat, bestSize: int)
    requires FreeAt(bs, best, bestSize) && MostFree(bs, 0, |bs|, bestSize)
    ensures IsBest(bs, best)
  {
  }

  lemma BestCovers(bs: seq<Block>, best: nat, bestSize: int, k: nat, need: nat)
    requires HeapOk(bs) && k < |bs| && FreeAt(bs, best, bestSize) && MostFree(bs, k, k + 1, bestSize)
    requires Fits(bs[k], need) && need > 0
    ensures BetCovers(bs, best, k)
  {
    if bs[k].Free() < need { SkipIsSafe(bs[k], need); }
  }

  /** Another best bet has no less free memory than the one before. */
  ghost predicate BetNotWorse(bs: seq<Block>, before: nat, after: nat) {
    exists n, m :: FreeAt(bs, before, n) && FreeAt(bs, after, m) && n <= m
  }

  /** The block chosen is the best bet if that has more free memory than needed and a gap; if it has not as much free
      memory, or there is none, it is the first block of the list with a gap. */
  lemma ChosenBlock(bs: seq<Block>, best: nat, req: nat, start: nat, k: nat, l: nat)
    requires HeapOk(bs) && IsStart(bs, best, req, start) && IsChosen(bs, req + 56, start, k)
    ensures l < |bs| && bs[l].addr == best && bs[l].Free() > req + 56 && Fits(bs[l], req + 56) ==> k == l
    ensures best == NULL || (l < |bs| && bs[l].addr == best && bs[l].Free() <= req + 56) ==>
      forall i :: 0 <= i < k ==> !Fits(bs[i], req + 56)
  {
    if l < |bs| && bs[l].addr == best {
      if bs[l].Free() > req + 56 { assert IsGoodBet(bs, best, req, l); }
      if start != l && start < |bs| { BlocksDistinct(bs, start, l); }
    }
    if best == NULL && start < |bs| { assert BlockOk(bs[start]); }
    if start > 0 { assert IsGoodBet(bs, best, req, start); }
    assert start == 0 || start < |bs|;
  }

  /** `p` is the aligned pointer of cell (k, j), and the only byte written is its tag. */
  ghost predicate Handed(bs: seq<Block>, before: map<int, int>, after: map<int, int>, k: nat, j: nat, p: nat) {
    && IsCell(bs, k, j) && p == bs[k].cells[j].User() && p != NULL
    && after == before[p - ALIGN_INFO := AlignTag(bs[k].cells[j].Raw())]
  }

  /** The best bet is a block with at least the free memory of block `k`. */
  ghost predicate BetCovers(bs: seq<Block>, best: nat, k: nat) {
    best != NULL && k < |bs| && exists n :: FreeAt(bs, best, n) && bs[k].Free() <= n
  }

  /** The best bet is a listed block with the most free memory of all, or null if no block has any. */
  ghost predicate IsBest(bs: seq<Block>, best: nat) {
    exists n :: FreeAt(bs, best, n) && MostFree(bs, 0, |bs|, n)
  }

  /** The live allocations gained `c`, which shares no address with the others. */
  ghost predicate GrewBy(bs: seq<Block>, bs': seq<Block>, c: Cell) {
    Live(bs') == Live(bs) + {c} && ApartFrom(bs, c)
  }

  lemma PlacedGrows(bs: seq<Block>, k: nat, j: nat, req: nat)
    requires HeapOk(bs) && k < |bs| && FitsAt(bs[k], j, Need(req))
    ensures var bs' := bs[k := Place(bs[k], j, PaddedSize(req), req)];
            IsCell(bs', k, j) && bs'[k].cells[j].req == req && GrewBy(bs, bs', bs'[k].cells[j])
  {
    LivePlace(bs, k, j, PaddedSize(req), req);
    forall d | d in Live(bs) {
      PlacedIsNew(bs, k, j, PaddedSize(req), req, d);
    }
  }

  lemma FirstPlacedGrows(bs: seq<Block>, addr: nat, req: nat)
    requires HeapOk(bs) && req <= MAX_REQUEST && GrantOk(bs, addr, PaddedSize(req))
    ensures var bs' := bs + [FirstPlaced(addr, req)];
            IsCell(bs', |bs|, 0) && bs'[|bs|].cells[0].req == req && GrewBy(bs, bs', bs'[|bs|].cells[0])
  {
    var b := NewBlock(addr, PaddedSize(req));
    AppendKeepsHeap(bs, addr, PaddedSize(req));
    LiveAppendEmpty(bs, b);
    NewBlockFits(addr, PaddedSize(req));
    PlacedGrows(bs + [b], |bs|, 0, req);
    assert (bs + [b])[|bs| := Place((bs + [b])[|bs|], 0, PaddedSize(req), req)] == bs + [FirstPlaced(addr, req)];
  }

  ghost predicate IsCell(bs: seq<Block>, k: nat, j: nat) {
    k < |bs| && j < |bs[k].cells|
  }

  /** Header memory is the two-level list of `bs`, tags are in place, the best bet is null or listed,
      and the running totals are the sums over the list. */
  ghost predicate Consistent(ma: map<nat, Major>, mi: map<nat, Minor>, mem: map<int, int>, bs: seq<Block>,
                             root: nat, best: nat, allocatedBytes: int, inuseBytes: int)
  {
    && HeapOk(bs)
    && Mirrors(ma, mi, bs)
    && root == BlockAddr(bs, 0)
    && Listed(bs, best)
    && allocatedBytes == TotalSize(bs)
    && inuseBytes == TotalInUse(bs)
    && Tagged(mem, bs)
  }

  ghost predicate NoneEmpty(bs: seq<Block>) {
    forall k :: 0 <= k < |bs| ==> bs[k].cells != []
  }

  /** The best bet after a new block at `addr` was or was not compared with it. */
  ghost function BetAfter(best: nat, rescan: bool, bestSize: int, addr: nat, req: nat): nat {
    if rescan && bestSize < BytesFor(PaddedSize(req)) - MAJOR_HEADER then addr else best
  }

  /** Where a pointer's header would be: below the address that unaligning gives. */
  function HeaderOf(mem: map<int, int>, ptr: int): int {
    Unalign(ptr, Byte(mem, ptr - ALIGN_INFO)) - MINOR_HEADER
  }

  ghost function AfterFree(bs: seq<Block>, k: nat, j: nat): seq<Block>
    requires IsCell(bs, k, j)
  {
    if |bs[k].cells| == 1 then RemoveAt(bs, k) else bs[k := Release(bs[k], j)]
  }

  lemma AfterFreeTotals(bs: seq<Block>, k: nat, j: nat)
    requires HeapOk(bs) && IsCell(bs, k, j)
    ensures TotalInUse(AfterFree(bs, k, j)) == TotalInUse(bs) - bs[k].cells[j].size
    ensures TotalSize(AfterFree(bs, k, j)) == TotalSize(bs) - if |bs[k].cells| == 1 then bs[k].size else 0
  {
    hide HeapOk, TotalInUse, TotalSize;
    ReleaseKeepsHeap(bs, k, j);
    var bs' := bs[k := Release(bs[k], j)];
    assert RemoveAt(bs', k) == RemoveAt(bs, k);
    RemoveBlockKeepsHeap(bs', k);
  }

  /** The new best bet is block `k` if that has more free memory than the old one. */
  ghost predicate IsBetterBet(bs: seq<Block>, before: nat, after: nat, k: nat) {
    && k < |bs|
    && exists n :: FreeAt(bs, before, n) && after == if bs[k].Free() > n then bs[k].addr else before
  }

  /** The allocation whose header lies behind a pointer, if any. */
  ghost function Named(bs: seq<Block>, mem: map<int, int>, ptr: int, c: Cell): set<Cell> {
    if ptr != NULL && Owned(bs, HeaderOf(mem, ptr)) then {c} else {}
  }

  /** A tag that alignment cannot have left is not believed: the header would be just below the pointer. */
  lemma StrayTag(mem: map<int, int>, ptr: int)
    ensures var tag := Byte(mem, ptr - 16);
            HeaderOf(mem, ptr) == (if 0 <= tag < 32 then ptr - tag else ptr) - 24
  {
  }

  /** No byte of these allocations changed. */
  ghost predicate OthersKept(before: map<int, int>, after: map<int, int>, cells: set<Cell>) {
    forall e, a :: e in cells && e.User() <= a < e.User() + e.req ==> Byte(after, a) == Byte(before, a)
  }

  /** No block has a gap for the request and the system gives no memory. */
  ghost predicate Refused(bs: seq<Block>, req: nat, grant: Option<nat>) {
    Full(bs, Need(req)) && grant.None?
  }

  /** What a copy to the null pointer does: exactly the first n bytes of memory change. */
  ghost predicate Overwritten(before: map<int, int>, after: map<int, int>, src: int, n: nat) {
    SameOutside(before, after, NULL, NULL + n) && Copied(before, after, NULL, src, n)
  }

  ghost predicate Copied(before: map<int, int>, after: map<int, int>, dst: int, src: int, n: nat) {
    forall a {:trigger Byte(after, a)} :: dst <= a < dst + n ==> Byte(after, a) == Byte(before, src + (a - dst))
  }

  lemma ByteWritten(mem: map<int, int>, x: int, v: int)
    ensures forall a {:trigger Byte(mem[x := v], a)} :: Byte(mem[x := v], a) == if a == x then v else Byte(mem, a)
  {
  }

  class Heap {
    var memRoot: nat
    var bestBet: nat
    var allocatedBytes: int
    var inuseBytes: int
    var warningCount: nat
    var errorCount: nat
    /** Region headers, by address. */
    var majorAt: map<nat, Major>
    /** Allocation headers carrying the live magic number, by address. */
    var minorAt: map<nat, Minor>
    /** Payload bytes. */
    var mem: map<int, int>
    ghost var blocks: seq<Block>

    /** Holds also while a block is being added or emptied. */
    ghost predicate Wf()
      reads this
    {
      Consistent(majorAt, minorAt, mem, blocks, memRoot, bestBet, allocatedBytes, inuseBytes)
    }

    /** The invariant between calls: no listed block is empty. */
    ghost predicate Valid()
      reads this
    {
      Wf() && NoneEmpty(blocks)
    }

    constructor ()
      ensures Valid() && blocks == []
    {
      memRoot, bestBet, allocatedBytes, inuseBytes := NULL, NULL, 0, 0;
      warningCount, errorCount := 0, 0;
      majorAt, minorAt, mem, blocks := map[], map[], map[], [];
    }

    /** `allocate_new_page` and the linking of its result behind `last`, or as the root. When the search
        comes round to the new block (`rescan`), it becomes the best bet if it has more free memory. */
    method AppendBlock(last: nat, req: nat, grant: Option<nat>, rescan: bool, bestSize: int) returns (maj: nat)
      requires Wf() && req <= MAX_REQUEST && last == BlockAddr(blocks, |blocks| - 1)
      requires grant.Some? ==> GrantOk(blocks, grant.value, PaddedSize(req))
      modifies this`memRoot, this`bestBet, this`allocatedBytes, this`majorAt, this`warningCount, this`blocks
      ensures Wf()
      ensures grant.None? ==> maj == NULL && blocks == old(blocks) && bestBet == old(bestBet)
      ensures warningCount == old(warningCount) + if grant.None? then 1 else 0
      ensures grant.Some? ==> maj == grant.value != NULL && blocks == old(blocks) + [NewBlock(maj, PaddedSize(req))]
      ensures grant.Some? ==> bestBet == BetAfter(old(bestBet), rescan, bestSize, maj, req)
    {
      hide HeapOk, Mirrors, Tagged, Listed;
      if grant.None? {
        warningCount := warningCount + 1;
        return NULL;
      }
      maj := grant.value;
      var size := BytesFor(PaddedSize(req));
      AppendKeepsConsistent(majorAt, minorAt, mem, blocks, memRoot, bestBet, allocatedBytes, inuseBytes,
                            rescan, bestSize, maj, req);
      if last == NULL { memRoot := maj; }
      majorAt := AppendMajor(majorAt, last, maj, size);
      allocatedBytes := allocatedBytes + size;
      if rescan && bestSize < size - MAJOR_HEADER { bestBet := maj; }
      blocks := blocks + [NewBlock(maj, PaddedSize(req))];
    }

    /** Links a new minor at the start of gap `j` of block `k`, charges the block, and
        returns the aligned pointer. */
    method Insert(maj: nat, prev: nat, next: nat, addr: nat, req: nat, ghost k: nat, ghost j: nat) returns (p: nat)
      requires Wf() && k < |blocks| && maj == blocks[k].addr && FitsAt(blocks[k], j, Need(req))
      requires addr == GapStart(blocks[k], j)
      requires prev == CellAddr(blocks[k], j - 1) && next == CellAddr(blocks[k], j)
      modifies this`inuseBytes, this`majorAt, this`minorAt, this`mem, this`blocks
      ensures Wf()
      ensures blocks == old(blocks)[k := Place(old(blocks)[k], j, PaddedSize(req), req)]
      ensures Handed(blocks, old(mem), mem, k, j, p)
      ensures inuseBytes == old(inuseBytes) + req + 32
    {
      hide HeapOk, Mirrors, Tagged, Listed;
      var size := PaddedSize(req);
      ghost var bs' := blocks[k := Place(blocks[k], j, size, req)];
      InsertKeepsConsistent(majorAt, minorAt, mem, blocks, memRoot, bestBet, allocatedBytes, inuseBytes, k, j, req);
      minorAt := LinkMinor(minorAt, addr, Minor(prev, next, maj, size, req));
      majorAt := ChargeMajor(majorAt, maj, size + MINOR_HEADER, prev, addr);
      inuseBytes := inuseBytes + size;
      p := Align(addr + MINOR_HEADER);
      mem := mem[p - ALIGN_INFO := AlignTag(addr + MINOR_HEADER)];
      blocks := bs';
    }

    /** Cases 2, 3 and 4: the first gap of a block, in address order, that takes the request. */
    method FindGap(maj: nat, req: nat, ghost k: nat)
      returns (found: bool, prev: nat, next: nat, addr: nat, ghost j: nat)
      requires k < |blocks| && maj == blocks[k].addr && BlockOk(blocks[k])
      requires MajorOk(majorAt, blocks, k) && MinorsOk(minorAt, blocks)
      requires blocks[k].cells == [] ==> FitsAt(blocks[k], 0, Need(req))
      ensures found <==> Fits(blocks[k], Need(req))
      ensures found ==> IsSpot(blocks, Need(req), k, j, prev, next, addr)
    {
      ghost var b := blocks[k];
      assert MajorOk(majorAt, blocks, k) && BlockOk(b);
      j, found := 0, true;
      prev, next, addr := NULL, majorAt[maj].first, maj + MAJOR_HEADER;
      if b.cells != [] { CellInside(b, 0); }
      if next == NULL {  // case 2: a brand new block
        assert FitsAt(b, 0, Need(req));
        return;
      }
      CellInside(b, 0);
      assert Gap(b, 0) == next - maj - MAJOR_HEADER;
      if next - maj - MAJOR_HEADER >= Need(req) {  // case 3: space before the first minor
        assert FitsAt(b, 0, Need(req));
        return;
      }
      while next != NULL  // case 4: space behind a minor
        invariant j <= |b.cells| && next == CellAddr(b, j)
        invariant forall i: nat :: i <= j ==> !FitsAt(b, i, Need(req))
        decreases |b.cells| - j
      {
        assert MinorOk(minorAt, b, j) && Gap(b, j + 1) >= 0;
        if j + 1 < |b.cells| { CellInside(b, j + 1); }
        prev := next;
        var min := minorAt[prev];
        next, addr, j := min.next, prev + MINOR_HEADER + min.size, j + 1;
        var diff := (if next == NULL then maj + majorAt[maj].size else next) - addr;
        assert diff == Gap(b, j);
        if diff >= Need(req) {
          assert FitsAt(b, j, Need(req));
          return;
        }
      }
      assert j == |b.cells| by { if j < |b.cells| { CellInside(b, j); } }
      found := false;
    }

    /** One pass of the search loop: the majors from block `from` to the end of the list, until one
        has a gap for the request; meanwhile the best bet moves to any block with more free memory. */
    method Walk(req: nat, head: nat, bet: nat, betSize: int, ghost from: nat)
      returns (found: bool, maj: nat, prev: nat, next: nat, addr: nat, best: nat, bestSize: int, scanned: bool,
               ghost k: nat, ghost j: nat)
      requires Valid() && from < |blocks| && head == blocks[from].addr && FreeAt(blocks, bet, betSize)
      ensures from <= k < |blocks| && maj == blocks[k].addr && NoFit(blocks, Need(req), from, k)
      ensures found ==> IsSpot(blocks, Need(req), k, j, prev, next, addr)
      ensures !found ==> k + 1 == |blocks| && !Fits(blocks[k], Need(req))
      ensures FreeAt(blocks, best, bestSize) && betSize <= bestSize
      ensures MostFree(blocks, from, k + 1, bestSize)
      ensures !found ==> (scanned <==> blocks[k].Free() >= req + 56)
    {
      hide HeapOk, Mirrors, Tagged, Listed;
      ghost var need := Need(req);
      prev, next, addr, j := NULL, NULL, NULL, 0;
      found, maj, k, best, bestSize := false, head, from, bet, betSize;
      while true
        invariant from <= k < |blocks| && maj == blocks[k].addr
        invariant NoFit(blocks, need, from, k)
        invariant FreeAt(blocks, best, bestSize) && betSize <= bestSize
        invariant MostFree(blocks, from, k, bestSize)
        decreases |blocks| - k
      {
        MajorFacts(k);
        var diff := majorAt[maj].size - majorAt[maj].usage;
        MostFreeExtend(blocks, from, k, bestSize, if bestSize < diff then diff else bestSize);
        if bestSize < diff {
          best, bestSize := maj, diff;
        }
        scanned := diff >= Need(req);
        if scanned {
          found, prev, next, addr, j := FindGap(maj, req, k);
          if found {  // cases 2, 3 and 4
            return;
          }
        } else {  // case 1: not enough space in this block
          SkipIsSafe(blocks[k], need);
        }
        NoFitExtend(blocks, need, from, k);
        if majorAt[maj].next == NULL {
          return;
        }
        maj, k := majorAt[maj].next, k + 1;
      }
    }

    /** The majors are searched from the best bet on if it has more free memory than needed. */
    method Begin(req: nat) returns (maj: nat, startedBet: bool, bestSize: int, ghost start: nat)
      requires Valid() && blocks != []
      ensures IsStart(blocks, bestBet, req, start) && start < |blocks| && maj == blocks[start].addr
      ensures FreeAt(blocks, bestBet, bestSize) && (!startedBet ==> start == 0)
    {
      maj, startedBet, bestSize, start := memRoot, false, 0, 0;
      if bestBet != NULL {
        ghost var l := BlockIndex(bestBet);
        bestSize := majorAt[bestBet].size - majorAt[bestBet].usage;
        if bestSize > Need(req) {
          maj, startedBet, start := bestBet, true, l;
          assert IsGoodBet(blocks, bestBet, req, l);
        } else {
          StartAtRoot(blocks, bestBet, req, l);
        }
      } else {
        StartAtRoot(blocks, bestBet, req, 0);
      }
    }

    /** The search loop: from the best bet on if that looks large enough, then from the root. */
    method Search(req: nat)
      returns (found: bool, maj: nat, prev: nat, next: nat, addr: nat, best: nat, bestSize: int, scanned: bool,
               ghost start: nat, ghost k: nat, ghost j: nat)
      requires Valid() && blocks != []
      ensures found <==> !Full(blocks, Need(req))
      ensures found ==>
        && IsStart(blocks, bestBet, req, start)
        && IsChosen(blocks, Need(req), start, k) && maj == blocks[k].addr
        && IsSpot(blocks, Need(req), k, j, prev, next, addr)
      ensures !found ==> k + 1 == |blocks| && maj == blocks[k].addr
      ensures FreeAt(blocks, best, bestSize)
      ensures if found then MostFree(blocks, k, k + 1, bestSize) else MostFree(blocks, 0, |blocks|, bestSize)
      ensures BetNotWorse(blocks, bestBet, best)
      ensures !found ==> (scanned <==> blocks[k].Free() >= req + 56)
    {
      hide HeapOk, Mirrors, Tagged, Listed, IsStart;
      ghost var need := Need(req);
      var startedBet;
      maj, startedBet, bestSize, start := Begin(req);
      found, maj, prev, next, addr, best, bestSize, scanned, k, j := Walk(req, maj, bestBet, bestSize, start);
      if found {
        ChosenInPass(blocks, need, start, k, j);
        return;
      }
      NoFitExtend(blocks, need, start, k);
      if startedBet {
        found, maj, prev, next, addr, best, bestSize, scanned, k, j := Walk(req, memRoot, best, bestSize, 0);
        if found {
          ChosenAfterRestart(blocks, need, start, k, j);
          return;
        }
        NoFitExtend(blocks, need, 0, k);
      }
    }

    /** Asks the system for a block behind `last` and places the request in it. */
    method UseNewBlock(last: nat, req: nat, grant: Option<nat>, rescan: bool, bestSize: int)
      returns (p: nat)
      requires Valid() && req <= MAX_REQUEST && last == BlockAddr(blocks, |blocks| - 1)
      requires grant.Some? ==> GrantOk(blocks, grant.value, PaddedSize(req))
      modifies this
      ensures Valid()
      ensures grant.None? ==> p == NULL && blocks == old(blocks) && mem == old(mem) && bestBet == old(bestBet)
      ensures warningCount == old(warningCount) + if grant.None? then 1 else 0
      ensures grant.Some? ==>
        && blocks == old(blocks) + [FirstPlaced(grant.value, req)]
        && Handed(blocks, old(mem), mem, |old(blocks)|, 0, p)
        && bestBet == BetAfter(old(bestBet), rescan, bestSize, grant.value, req)
      ensures inuseBytes == old(inuseBytes) + if grant.Some? then req + 32 else 0
    {
      hide HeapOk, Mirrors, Tagged, Listed;
      ghost var bs := blocks;
      var maj := AppendBlock(last, req, grant, rescan, bestSize);
      if maj == NULL { return NULL; }
      NewBlockFits(maj, PaddedSize(req));
      p := Insert(maj, NULL, NULL, maj + MAJOR_HEADER, req, |bs|, 0);
      PlacedInNew(bs, maj, req);
    }

    /** Returns an aligned pointer to `req` fresh bytes, or NULL. `grant` is what the system would
        answer if asked for a block; `asked` tells whether it was asked. */
    method Malloc(req: nat, grant: Option<nat>)
      returns (p: nat, asked: bool, ghost start: nat, ghost k: nat, ghost j: nat)
      requires Valid() && req <= MAX_REQUEST
      requires grant.Some? ==> GrantOk(blocks, grant.value, PaddedSize(req))
      modifies this
      ensures Valid()
      ensures asked <==> Full(old(blocks), req + 56)
      ensures !asked ==>
        && IsStart(old(blocks), old(bestBet), req, start)
        && IsChosen(old(blocks), req + 56, start, k)
        && IsFirstFit(old(blocks)[k], j, req + 56)
        && blocks == old(blocks)[k := Place(old(blocks)[k], j, req + 32, req)]
      ensures asked && grant.Some? ==>
        && k == |old(blocks)| && j == 0 && blocks == old(blocks) + [FirstPlaced(grant.value, req)]
        && IsNewMajor(blocks[k], grant.value, req) && allocatedBytes == old(allocatedBytes) + blocks[k].size
      ensures asked && grant.Some? ==>
        if BetMoves(old(blocks), req, blocks[k].size) then bestBet == grant.value else IsBest(old(blocks), bestBet)
      ensures asked && grant.None? ==>
        && p == NULL && blocks == old(blocks) && mem == old(mem) && warningCount == old(warningCount) + 1
        && IsBest(blocks, bestBet)
      ensures !(asked && grant.None?) ==> Handed(blocks, old(mem), mem, k, j, p)
      ensures !(asked && grant.None?) ==>
        blocks[k].cells[j].req == req && GrewBy(old(blocks), blocks, blocks[k].cells[j])
      ensures !asked ==> BetCovers(old(blocks), bestBet, k) && BetNotWorse(old(blocks), old(bestBet), bestBet)
      ensures inuseBytes == old(inuseBytes) + if asked && grant.None? then 0 else req + 32
      ensures !(asked && grant.Some?) ==> allocatedBytes == old(allocatedBytes)
    {
      hide HeapOk, Mirrors, Tagged, GrewBy, IsNewMajor, BetMoves, BetCovers, BetNotWorse, IsStart, IsChosen,
        FirstPlaced, MostFree, FreeAt, IsBest, ApartFrom, AllPadded;
      RootNull();
      Totals();
      if memRoot == NULL {
        asked, start, k, j := true, 0, 0, 0;
        NoBest();
        BestOf(blocks, bestBet, 0);
        if grant.Some? { NewMajor(blocks, bestBet, 0, true, grant.value, req); }
        p := UseNewBlock(NULL, req, grant, true, 0);
        return;
      }
      var found, maj, prev, next, addr, best, bestSize, scanned;
      found, maj, prev, next, addr, best, bestSize, scanned, start, k, j := Search(req);
      FreeIsListed(blocks, best, bestSize);
      bestBet := best;
      asked := !found;
      if found {
        BestCovers(blocks, best, bestSize, k, Need(req));
        PlacedGrows(blocks, k, j, req);
        p := Insert(maj, prev, next, addr, req, k, j);
      } else {
        BestOf(blocks, best, bestSize);
        if grant.Some? { NewMajor(blocks, best, bestSize, scanned, grant.value, req); }
        p := UseNewBlock(maj, req, grant, scanned, bestSize);
        k, j := |old(blocks)|, 0;
      }
      Totals();
    }

    lemma Totals()
      requires Wf()
      ensures allocatedBytes == TotalSize(blocks) && inuseBytes == TotalInUse(blocks)
    {
    }

    lemma NoBest()
      requires Wf() && blocks == []
      ensures FreeAt(blocks, bestBet, 0) && MostFree(blocks, 0, |blocks|, 0)
    {
    }

    /** Releases the allocation that `ptr` was handed out for, and its block with its last allocation;
        a pointer without a live header behind it only raises a counter. */
    method Free(ptr: int) returns (ghost hit: bool, ghost k: nat, ghost j: nat)
      requires Valid()
      modifies this
      ensures Valid()
      ensures hit <==> ptr != NULL && Owned(old(blocks), HeaderOf(old(mem), ptr))
      ensures hit ==> CellAt(old(blocks), k, j, HeaderOf(old(mem), ptr)) && blocks == AfterFree(old(blocks), k, j)
      ensures hit ==> Live(blocks) == Live(old(blocks)) - {old(blocks)[k].cells[j]}
      ensures hit ==> warningCount == old(warningCount) && errorCount == old(errorCount)
      ensures hit && old(bestBet) == NULL ==> bestBet == NULL
      ensures hit && old(bestBet) != NULL && |old(blocks)[k].cells| == 1 ==>
        bestBet == if old(bestBet) == old(blocks)[k].addr then NULL else old(bestBet)
      ensures hit && old(bestBet) != NULL && |old(blocks)[k].cells| > 1 ==>
        IsBetterBet(blocks, old(bestBet), bestBet, k)
      ensures hit ==> inuseBytes == old(inuseBytes) - old(blocks)[k].cells[j].size
      ensures hit ==>
        allocatedBytes == old(allocatedBytes) - if |old(blocks)[k].cells| == 1 then old(blocks)[k].size else 0
      ensures !hit ==> inuseBytes == old(inuseBytes) && allocatedBytes == old(allocatedBytes)
      ensures !hit ==> blocks == old(blocks) && bestBet == old(bestBet)
      ensures !hit ==> warningCount == old(warningCount) + (if ptr == NULL then 1 else 0)
      ensures !hit ==> errorCount == old(errorCount) + (if ptr == NULL then 0 else 1)
      ensures mem == old(mem)
    {
      hide HeapOk, Mirrors, Tagged, Listed, NoneEmpty, DischargeMajor, UnlinkMinor, HeaderOf, AfterFree, Release, Owned;
      hide RemoveAt, IsBetterBet, TotalInUse, TotalSize, Live;
      hit, k, j := false, 0, 0;
      if ptr == NULL {
        warningCount := warningCount + 1;
        return;
      }
      var min := HeaderOf(mem, ptr);
      LiveHeader(min);
      if min !in minorAt {
        errorCount := errorCount + 1;
        return;
      }
      hit := true;
      k, j := CellIndex(min);
      AfterFreeNoneEmpty(blocks, k, j);
      AfterFreeLive(blocks, k, j);
      AfterFreeTotals(blocks, k, j);
      Totals();
      var m := minorAt[min];
      var maj := m.block;
      ReleaseKeepsConsistent(majorAt, minorAt, mem, blocks, memRoot, bestBet, allocatedBytes, inuseBytes, k, j);
      inuseBytes := inuseBytes - m.size;
      majorAt := DischargeMajor(majorAt, maj, m.size + MINOR_HEADER, m);
      minorAt := UnlinkMinor(minorAt, min);
      blocks := blocks[k := Release(blocks[k], j)];
      FirstNull(k);
      if majorAt[maj].first == NULL {  // the block is completely unused
        DropBlock(maj, k);
      } else {
        ImproveBet(maj, k);
      }
      Totals();
    }

    /** Unlinks an empty block and returns its memory to the system. */
    method DropBlock(maj: nat, ghost k: nat)
      requires Wf() && k < |blocks| && maj == blocks[k].addr && blocks[k].cells == []
      modifies this`memRoot, this`bestBet, this`allocatedBytes, this`majorAt, this`blocks
      ensures Wf() && blocks == RemoveAt(old(blocks), k)
      ensures bestBet == if old(bestBet) == maj then NULL else old(bestBet)
    {
      hide HeapOk, Mirrors, Tagged, Listed;
      EmptyKeepsConsistent(majorAt, minorAt, mem, blocks, memRoot, bestBet, allocatedBytes, inuseBytes, k);
      if memRoot == maj { memRoot := majorAt[maj].next; }
      if bestBet == maj { bestBet := NULL; }
      allocatedBytes := allocatedBytes - majorAt[maj].size;
      majorAt := UnlinkMajor(majorAt, maj);
      blocks := RemoveAt(blocks, k);
    }

    method ImproveBet(maj: nat, ghost k: nat)
      requires Wf() && k < |blocks| && maj == blocks[k].addr
      modifies this`bestBet
      ensures Wf()
      ensures if old(bestBet) == NULL then bestBet == NULL else IsBetterBet(blocks, old(bestBet), bestBet, k)
    {
      hide HeapOk, Mirrors, Tagged;
      if bestBet != NULL {
        ghost var l := BlockIndex(bestBet);
        MajorFacts(k);
        var bestSize := majorAt[bestBet].size - majorAt[bestBet].usage;
        var majSize := majorAt[maj].size - majorAt[maj].usage;
        assert FreeAt(blocks, bestBet, bestSize) && FreeAt(blocks, maj, majSize);
        if majSize > bestSize { bestBet := maj; }
      }
    }

    /** The caller writes a byte of memory it was handed. */
    method Write(a: int, v: int, ghost c: Cell)
      requires Valid() && c in Live(blocks) && c.User() <= a < c.User() + c.req
      modifies this`mem
      ensures Valid() && mem == old(mem)[a := v]
    {
      WriteKeepsTags(mem, mem[a := v], blocks, c, a, a + 1);
      mem := mem[a := v];
    }

    /** memcpy, into a user range or, for a failed allocation, to address 0; it comes to an end there only as long as a
        page is mapped at that address, which the kernel takes away when it starts. */
    method CopyBytes(dst: int, src: int, n: nat, ghost c: Cell)
      requires Valid()
      requires (dst == NULL && n <= HEAP_START) || (c in Live(blocks) && dst == c.User() && n <= c.req)
      requires dst + n <= src || src + n <= dst
      modifies this`mem
      ensures Valid() && SameOutside(old(mem), mem, dst, dst + n) && Copied(old(mem), mem, dst, src, n)
    {
      hide Mirrors, HeapOk, Listed;
      var i := 0;
      while i < n
        invariant 0 <= i <= n
        invariant SameOutside(old(mem), mem, dst, dst + i) && Copied(old(mem), mem, dst, src, i)
        modifies this`mem
      {
        ByteWritten(mem, dst + i, Byte(mem, src + i));
        mem := mem[dst + i := Byte(mem, src + i)];
        i := i + 1;
      }
      WriteKeepsTags(old(mem), mem, blocks, c, dst, dst + n);
    }

    /** Lowers the recorded request of the allocation with header `min`. */
    method ShrinkInPlace(min: nat, size: nat, ghost c: Cell)
      requires Valid() && c in Live(blocks) && c.addr == min && size <= c.req
      modifies this`minorAt, this`blocks
      ensures Valid() && Live(blocks) == Live(old(blocks)) - {c} + {c.(req := size)}
    {
      hide Mirrors, HeapOk, Tagged, Listed;
      ghost var k, j := LiveIndex(blocks, c);
      SetReqKeepsHeap(blocks, k, j, size);
      SetReqKeepsMirrors(majorAt, minorAt, mem, blocks, k, j, size);
      LiveSetReq(blocks, k, j, size);
      SetReqListed(blocks, k, j, size, bestBet);
      minorAt := minorAt[min := minorAt[min].(req := size)];
      blocks := blocks[k := SetReq(blocks[k], j, size)];
    }

    /** A new allocation holding a copy of the old request; a failed one still copies, to address 0, where the copy
        faults if nothing is mapped there. */
    method CopyToNew(ptr: int, realSize: nat, size: nat, grant: Option<nat>, ghost c: Cell)
      returns (q: int, ghost d: Cell)
      requires Valid() && size <= MAX_REQUEST && c in Live(blocks) && c.User() == ptr && c.req == realSize < size
      requires grant.Some? ==> GrantOk(blocks, grant.value, PaddedSize(size))
      modifies this
      ensures Valid()
      ensures q == NULL <==> Refused(old(blocks), size, grant)
      ensures q == NULL ==> blocks == old(blocks) && Overwritten(old(mem), mem, ptr, realSize)
      ensures q != NULL ==>
        && GrewBy(old(blocks), blocks, d) && d.User() == q && d.req == size
        && Copied(old(mem), mem, q, ptr, realSize) && OthersKept(old(mem), mem, Live(old(blocks)))
    {
      hide Mirrors, HeapOk, Listed, BetCovers, IsBetterBet, IsChosen, IsStart, IsFirstFit, Full, Tagged;
      hide AllPadded, OthersKept, Copied, SameOutside, GrantOk;
      d := c;
      ghost var mem0, bs0 := mem, blocks;
      ghost var start, k, j;
      var asked;
      CellAddressed(c);
      LivePadded();
      q, asked, start, k, j := Malloc(size, grant);
      if q != NULL { d := blocks[k].cells[j]; }
      ghost var mem1 := mem;
      CellAddressed(d);
      CopyBytes(q, ptr, realSize, d);
      if q != NULL { MovedBytes(mem0, mem1, mem, bs0, c, d); }
    }

    /** Growth: a new allocation, a copy of the old request, and the release of the old allocation,
        which also happens when there was no new one. */
    method Move(ptr: int, realSize: nat, size: nat, grant: Option<nat>, ghost c: Cell) returns (q: int, ghost d: Cell)
      requires Valid() && size <= MAX_REQUEST && c in Live(blocks) && c.User() == ptr && c.req == realSize < size
      requires grant.Some? ==> GrantOk(blocks, grant.value, PaddedSize(size))
      modifies this
      ensures Valid()
      ensures q == NULL <==> Refused(old(blocks), size, grant)
      ensures q == NULL ==> Live(blocks) == Live(old(blocks)) - {c} && Overwritten(old(mem), mem, ptr, realSize)
      ensures q != NULL ==>
        && Live(blocks) == Live(old(blocks)) - {c} + {d} && d.User() == q && d.req == size && d !in Live(old(blocks))
        && Copied(old(mem), mem, q, ptr, realSize)
        && OthersKept(old(mem), mem, Live(old(blocks)) - {c})
    {
      hide Mirrors, HeapOk, Listed, IsBetterBet, Tagged, Copied, AfterFree, GrantOk, Refused, Overwritten;
      q, d := CopyToNew(ptr, realSize, size, grant, c);
      HandedFound(mem, blocks, c);
      LiveMinor(c);
      ghost var bs := blocks;
      ghost var hit, l, i := Free(ptr);
      LiveUnique(bs, c, bs[l].cells[i]);
    }

    lemma LivePadded()
      requires Wf()
      ensures AllPadded(Live(blocks))
    {
      forall e | e in Live(blocks) { CellAddressed(e); }
    }

    /** A live allocation's aligned request lies in the heap area. */
    lemma CellAddressed(c: Cell)
      requires Wf() && c in Live(blocks)
      ensures HEAP_START <= c.addr && HasPadding(c) && c.User() + c.req <= c.End() <= WORD_LIMIT
    {
      var k, j := LiveIndex(blocks, c);
      CellInside(blocks[k], j);
      UserInsideCell(c);
    }

    method Realloc(ptr: int, size: nat, grant: Option<nat>, ghost c: Cell) returns (q: int, ghost d: Cell)
      requires Valid() && size <= MAX_REQUEST
      requires grant.Some? ==> GrantOk(blocks, grant.value, PaddedSize(size))
      requires Owned(blocks, HeaderOf(mem, ptr)) ==> c in Live(blocks) && c.User() == ptr
      modifies this
      ensures Valid()
      ensures size == 0 ==> q == NULL && mem == old(mem)
      ensures size == 0 ==> Live(blocks) == Live(old(blocks)) - Named(old(blocks), old(mem), ptr, c)
      ensures size > 0 && ptr == NULL ==> (q == NULL <==> Refused(old(blocks), size, grant))
      ensures size > 0 && ptr == NULL ==> if q == NULL then blocks == old(blocks) && mem == old(mem) else
        GrewBy(old(blocks), blocks, d) && d.User() == q && d.req == size
      ensures size > 0 && ptr != NULL && Named(old(blocks), old(mem), ptr, c) == {} ==>
        q == NULL && blocks == old(blocks) && mem == old(mem) && errorCount == old(errorCount) + 1
      ensures 0 < size <= c.req && Named(old(blocks), old(mem), ptr, c) != {} ==>
        q == ptr && mem == old(mem) && Live(blocks) == Live(old(blocks)) - {c} + {c.(req := size)}
      ensures size > c.req && Named(old(blocks), old(mem), ptr, c) != {} ==>
        (q == NULL <==> Refused(old(blocks), size, grant))
      ensures size > c.req && Named(old(blocks), old(mem), ptr, c) != {} ==>
        if q == NULL then Live(blocks) == Live(old(blocks)) - {c} && Overwritten(old(mem), mem, ptr, c.req) else
          && Live(blocks) == Live(old(blocks)) - {c} + {d} && d.User() == q && d.req == size && d !in Live(old(blocks))
          && Copied(old(mem), mem, q, ptr, c.req)
          && OthersKept(old(mem), mem, Live(old(blocks)) - {c})
    {
      hide Mirrors, HeapOk, Tagged, Listed, GrewBy, OthersKept, Copied, Overwritten, Full;
      d := c;
      if size == 0 {
        if Owned(blocks, HeaderOf(mem, ptr)) { HandedFound(mem, blocks, c); }
        ghost var bs := blocks;
        ghost var hit, k, j := Free(ptr);
        if hit { LiveUnique(bs, c, bs[k].cells[j]); }
        return NULL, d;
      }
      if ptr == NULL {
        ghost var start, k, j;
        var asked;
        q, asked, start, k, j := Malloc(size, grant);
        if q != NULL { d := blocks[k].cells[j]; }
        return;
      }
      var min := HeaderOf(mem, ptr);
      LiveHeader(min);
      if min !in minorAt {
        errorCount := errorCount + 1;
        return NULL, d;
      }
      HandedFound(mem, blocks, c);
      LiveMinor(c);
      var realSize := minorAt[min].req;
      if realSize >= size {
        ShrinkInPlace(min, size, c);
        return ptr, d;
      }
      q, d := Move(ptr, realSize, size, grant, c);
    }

    lemma LiveMinor(c: Cell)
      requires Wf() && c in Live(blocks)
      ensures c.addr in minorAt && minorAt[c.addr].req == c.req && Owned(blocks, c.addr)
    {
      var k, j := LiveIndex(blocks, c);
      assert MinorOk(minorAt, blocks[k], j) && CellAt(blocks, k, j, c.addr);
    }

    lemma LiveHeader(a: int)
      requires Wf()
      ensures a in minorAt <==> Owned(blocks, a)
    {
      if Owned(blocks, a) {
        var k: nat, i: nat :| CellAt(blocks, k, i, a);
        assert MinorOk(minorAt, blocks[k], i);
      }
    }

    /** The list position of a live header. */
    lemma CellIndex(a: nat) returns (k: nat, j: nat)
      requires Wf() && a in minorAt
      ensures CellAt(blocks, k, j, a) && minorAt[a] == MinorOf(blocks[k], j)
    {
      k, j :| CellAt(blocks, k, j, a);
      assert MinorOk(minorAt, blocks[k], j);
    }

    lemma FirstNull(k: nat)
      requires Wf() && k < |blocks|
      ensures MajorOk(majorAt, blocks, k) && (majorAt[blocks[k].addr].first == NULL <==> blocks[k].cells == [])
    {
      MajorFacts(k);
      if blocks[k].cells != [] { CellInside(blocks[k], 0); }
    }

    /** The list position of a block address. */
    lemma BlockIndex(a: nat) returns (k: nat)
      requires Wf() && Listed(blocks, a) && a != NULL
      ensures k < |blocks| && blocks[k].addr == a
      ensures a in majorAt && majorAt[a] == MajorOf(blocks, k)
    {
      k :| k < |blocks| && blocks[k].addr == a;
      assert MajorOk(majorAt, blocks, k);
    }

    lemma RootNull()
      requires Wf()
      ensures memRoot == NULL <==> blocks == []
    {
      if blocks != [] { MajorFacts(0); }
    }

    lemma MajorFacts(k: nat)
      requires Wf() && k < |blocks|
      ensures BlockOk(blocks[k]) && MajorOk(majorAt, blocks, k) && MinorsOk(minorAt, blocks)
      ensures majorAt[blocks[k].addr].next == NULL <==> k + 1 == |blocks|
    {
      assert MajorOk(majorAt, blocks, k) && BlockOk(blocks[k]);
      if k + 1 < |blocks| { assert BlockOk(blocks[k + 1]); }
    }
  }

  lemma AfterFreeNoneEmpty(bs: seq<Block>, k: nat, j: nat)
    requires NoneEmpty(bs) && IsCell(bs, k, j)
    ensures NoneEmpty(AfterFree(bs, k, j))
    ensures Release(bs[k], j).cells == [] <==> |bs[k].cells| == 1
    ensures Release(bs[k], j).addr == bs[k].addr
    ensures var bs' := bs[k := Release(bs[k], j)];
            AfterFree(bs, k, j) == if |bs[k].cells| == 1 then RemoveAt(bs', k) else bs'
  {
  }

  lemma AfterFreeLive(bs: seq<Block>, k: nat, j: nat)
    requires HeapOk(bs) && IsCell(bs, k, j)
    ensures Live(AfterFree(bs, k, j)) == Live(bs) - {bs[k].cells[j]}
  {
    var bs' := bs[k := Release(bs[k], j)];
    LiveRelease(bs, k, j);
    if |bs[k].cells| == 1 {
      LiveRemoveEmpty(bs', k);
      assert RemoveAt(bs', k) == RemoveAt(bs, k);
    }
  }

  lemma PlacedInNew(bs: seq<Block>, addr: nat, req: nat)
    requires NoneEmpty(bs)
    ensures var n, b := |bs|, NewBlock(addr, PaddedSize(req));
            var bs' := bs + [FirstPlaced(addr, req)];
            && (bs + [b])[n := Place((bs + [b])[n], 0, PaddedSize(req), req)] == bs'
            && NoneEmpty(bs')
  {
  }

  lemma AppendKeepsTags(mem: map<int, int>, bs: seq<Block>, b: Block)
    requires Tagged(mem, bs) && b.cells == []
    ensures Tagged(mem, bs + [b])
  {
    var bs' := bs + [b];
    forall l: nat, i: nat | l < |bs'| && i < |bs'[l].cells| ensures TagOk(mem, bs'[l].cells[i]) {
      assert TagOk(mem, bs[l].cells[i]);
    }
  }

  lemma InsertKeepsConsistent(ma: map<nat, Major>, mi: map<nat, Minor>, mem: map<int, int>, bs: seq<Block>,
                              root: nat, best: nat, total: int, used: int, k: nat, j: nat, req: nat)
    requires Consistent(ma, mi, mem, bs, root, best, total, used)
    requires k < |bs| && FitsAt(bs[k], j, Need(req))
    ensures var b, size := bs[k], PaddedSize(req);
            var addr, prev, next := GapStart(b, j), CellAddr(b, j - 1), CellAddr(b, j);
            var bs' := bs[k := Place(b, j, size, req)];
            var p := Align(addr + MINOR_HEADER);
            var mem' := mem[p - ALIGN_INFO := AlignTag(addr + MINOR_HEADER)];
            && (prev != NULL ==> prev in mi)
            && (next != NULL ==> next in mi)
            && b.addr in ma
            && Consistent(ChargeMajor(ma, b.addr, size + MINOR_HEADER, prev, addr),
                          LinkMinor(mi, addr, Minor(prev, next, b.addr, size, req)),
                          mem', bs', root, best, total, used + size)
            && Handed(bs', mem, mem', k, j, p)
  {
    var size := PaddedSize(req);
    assert Place(bs[k], j, size, req).cells[j] == Cell(GapStart(bs[k], j), size, req);
    PlaceKeepsHeap(bs, k, j, size, req);
    LinkKeepsMirrors(ma, mi, bs, k, j, size, req);
    PlaceKeepsTags(mem, bs, k, j, size, req);
    SameAddr(bs, k, Place(bs[k], j, size, req), 0);
    ListedUpdate(bs, k, Place(bs[k], j, size, req), best);
  }

  lemma AppendKeepsConsistent(ma: map<nat, Major>, mi: map<nat, Minor>, mem: map<int, int>, bs: seq<Block>,
                              root: nat, best: nat, total: int, used: int, rescan: bool, bestSize: int,
                              addr: nat, req: nat)
    requires Consistent(ma, mi, mem, bs, root, best, total, used)
    requires req <= MAX_REQUEST && GrantOk(bs, addr, PaddedSize(req))
    ensures var last, size := BlockAddr(bs, |bs| - 1), BytesFor(PaddedSize(req));
            && (last != NULL ==> last in ma)
            && addr != NULL
            && Consistent(AppendMajor(ma, last, addr, size), mi, mem, bs + [NewBlock(addr, PaddedSize(req))],
                          if last == NULL then addr else root, BetAfter(best, rescan, bestSize, addr, req),
                          total + size, used)
  {
    var b := NewBlock(addr, PaddedSize(req));
    AppendKeepsHeap(bs, addr, PaddedSize(req));
    AppendKeepsMirrors(ma, mi, bs, b);
    AppendKeepsTags(mem, bs, b);
    ListedAppend(bs, b, BetAfter(best, rescan, bestSize, addr, req));
    if bs != [] { assert BlockOk(bs[|bs| - 1]); }
  }

  lemma ReleaseKeepsConsistent(ma: map<nat, Major>, mi: map<nat, Minor>, mem: map<int, int>, bs: seq<Block>,
                               root: nat, best: nat, total: int, used: int, k: nat, j: nat)
    requires Consistent(ma, mi, mem, bs, root, best, total, used) && IsCell(bs, k, j)
    ensures var b := bs[k];
            var a := b.cells[j].addr;
            && a in mi && mi[a] == MinorOf(b, j)
            && (mi[a].prev != NULL ==> mi[a].prev in mi && mi[a].prev != a)
            && (mi[a].next != NULL ==> mi[a].next in mi && mi[a].next != a && mi[a].next != mi[a].prev)
            && b.addr in ma
            && Consistent(DischargeMajor(ma, b.addr, b.cells[j].size + MINOR_HEADER, mi[a]), UnlinkMinor(mi, a), mem,
                          bs[k := Release(b, j)], root, best, total, used - b.cells[j].size)
  {
    ReleaseKeepsHeap(bs, k, j);
    UnlinkKeepsMirrors(ma, mi, bs, k, j);
    ReleaseKeepsTags(mem, bs, k, j);
    SameAddr(bs, k, Release(bs[k], j), 0);
    ListedUpdate(bs, k, Release(bs[k], j), best);
  }

  lemma EmptyKeepsConsistent(ma: map<nat, Major>, mi: map<nat, Minor>, mem: map<int, int>, bs: seq<Block>,
                             root: nat, best: nat, total: int, used: int, k: nat)
    requires Consistent(ma, mi, mem, bs, root, best, total, used) && k < |bs| && bs[k].cells == []
    ensures var a := bs[k].addr;
            && a in ma && ma[a] == MajorOf(bs, k)
            && (ma[a].prev != NULL ==> ma[a].prev in ma && ma[a].prev != a)
            && (ma[a].next != NULL ==> ma[a].next in ma && ma[a].next != a && ma[a].next != ma[a].prev)
            && Consistent(UnlinkMajor(ma, a), mi, mem, RemoveAt(bs, k), if root == a then ma[a].next else root,
                          if best == a then NULL else best, total - bs[k].size, used)
  {
    RemoveBlockKeepsHeap(bs, k);
    UnlinkMajorKeepsMirrors(ma, mi, bs, k);
    RemovedAddr(bs, k, 0);
    if k > 0 { BlocksDistinct(bs, 0, k); }
    if best != bs[k].addr { ListedRemove(bs, k, best); }
    RemovedTags(mem, bs, k);
  }

  lemma RemovedTags(mem: map<int, int>, bs: seq<Block>, k: nat)
    requires k < |bs| && Tagged(mem, bs)
    ensures Tagged(mem, RemoveAt(bs, k))
  {
    var bs' := RemoveAt(bs, k);
    forall l: nat, i: nat | l < |bs'| && i < |bs'[l].cells| ensures TagOk(mem, bs'[l].cells[i]) {
      assert TagOk(mem, bs[if l < k then l else l + 1].cells[i]);
    }
  }

  lemma SetReqListed(bs: seq<Block>, k: nat, j: nat, req: nat, best: nat)
    requires k < |bs| && j < |bs[k].cells| && Listed(bs, best)
    ensures var bs' := bs[k := SetReq(bs[k], j, req)];
            Listed(bs', best) && BlockAddr(bs', 0) == BlockAddr(bs, 0) && (NoneEmpty(bs) ==> NoneEmpty(bs'))
  {
    ListedUpdate(bs, k, SetReq(bs[k], j, req), best);
    SameAddr(bs, k, SetReq(bs[k], j, req), 0);
  }

  /** A handed-out pointer leads back to its header. */
  lemma HandedFound(mem: map<int, int>, bs: seq<Block>, c: Cell)
    requires Tagged(mem, bs) && c in Live(bs)
    ensures HeaderOf(mem, c.User()) == c.addr
  {
    var k, j := LiveIndex(bs, c);
    assert TagOk(mem, bs[k].cells[j]);
    UnalignInvertsAlign(c.Raw());
  }

  lemma LiveUnique(bs: seq<Block>, c: Cell, d: Cell)
    requires HeapOk(bs) && c in Live(bs) && d in Live(bs) && c.addr == d.addr
    ensures c == d
  {
    var k, i := LiveIndex(bs, c);
    var l, j := LiveIndex(bs, d);
    if !(k == l && i == j) { CellsApart(bs, k, i, l, j); }
  }

  ghost predicate AllPadded(cells: set<Cell>) {
    forall e :: e in cells ==> HasPadding(e)
  }

  /** `d` shares no address with the allocations of `bs`. */
  ghost predicate ApartFrom(bs: seq<Block>, d: Cell) {
    forall e :: e in Live(bs) ==> d.End() <= e.addr || e.End() <= d.addr
  }

  /** Tagging and filling a new allocation `d` changes no byte of the others' requests. */
  lemma MovedBytes(mem0: map<int, int>, mem1: map<int, int>, mem2: map<int, int>, bs: seq<Block>, c: Cell, d: Cell)
    requires mem1 == mem0[d.User() - ALIGN_INFO := AlignTag(d.Raw())]
    requires c in Live(bs) && c.req <= d.req && HasPadding(d) && AllPadded(Live(bs)) && ApartFrom(bs, d)
    requires SameOutside(mem1, mem2, d.User(), d.User() + c.req) && Copied(mem1, mem2, d.User(), c.User(), c.req)
    ensures Copied(mem0, mem2, d.User(), c.User(), c.req)
    ensures OthersKept(mem0, mem2, Live(bs))
  {
    UserInsideCell(d);
    UserInsideCell(c);
    ByteWritten(mem0, d.User() - ALIGN_INFO, AlignTag(d.Raw()));
    forall e, a | e in Live(bs) && e.User() <= a < e.User() + e.req
      ensures Byte(mem1, a) == Byte(mem0, a) && Byte(mem2, a) == Byte(mem0, a)
    {
      UserInsideCell(e);
    }
  }

  /** Releasing what was just placed restores the layout, block list included. */
  lemma FreeUndoesMalloc(bs: seq<Block>, k: nat, j: nat, req: nat, addr: nat)
    requires NoneEmpty(bs)
    ensures k < |bs| && j <= |bs[k].cells| ==> AfterFree(bs[k := Place(bs[k], j, PaddedSize(req), req)], k, j) == bs
    ensures AfterFree(bs + [FirstPlaced(addr, req)], |bs|, 0) == bs
  {
    if k < |bs| && j <= |bs[k].cells| { ReleaseUndoesPlace(bs[k], j, PaddedSize(req), req); }
  }

  /** An address lies in a block of the heap, and so in memory that is mapped. */
  ghost predicate InHeap(bs: seq<Block>, a: nat) {
    exists k :: 0 <= k < |bs| && bs[k].addr <= a < bs[k].addr + bs[k].size
  }

  /** A released header is no longer found, so releasing the same pointer again changes nothing, as long as the header
      can be read at all: its block is there still exactly if the allocation was not the block's last. */
  lemma SecondFreeMisses(bs: seq<Block>, k: nat, j: nat)
    requires HeapOk(bs) && IsCell(bs, k, j)
    ensures !Owned(AfterFree(bs, k, j), bs[k].cells[j].addr)
    ensures InHeap(AfterFree(bs, k, j), bs[k].cells[j].addr) <==> |bs[k].cells| > 1
  {
    BlockStays(bs, k, j);
    var bs' := AfterFree(bs, k, j);
    if Owned(bs', bs[k].cells[j].addr) {
      var l: nat, i: nat :| CellAt(bs', l, i, bs[k].cells[j].addr);
      AfterFreeLive(bs, k, j);
      LiveAt(bs', l, i);
      LiveAt(bs, k, j);
      LiveUnique(bs, bs[k].cells[j], bs'[l].cells[i]);
    }
  }

  lemma BlockStays(bs: seq<Block>, k: nat, j: nat)
    requires HeapOk(bs) && IsCell(bs, k, j)
    ensures InHeap(AfterFree(bs, k, j), bs[k].cells[j].addr) <==> |bs[k].cells| > 1
  {
    var bs', a := AfterFree(bs, k, j), bs[k].cells[j].addr;
    CellInside(bs[k], j);
    if |bs[k].cells| > 1 {
      assert bs'[k].addr <= a < bs'[k].addr + bs'[k].size;
    } else {
      forall l | 0 <= l < |bs'| ensures !(bs'[l].addr <= a < bs'[l].addr + bs'[l].size) {
        assert bs'[l] == bs[if l < k then l else l + 1];
        assert if l < k then Apart(bs[l], bs[k]) else Apart(bs[k], bs[l + 1]);
      }
    }
  }

  /** The block obtained for a request of 16 bytes has no room for 100000. */
  lemma NoRoomToGrow(bs: seq<Block>)
    requires bs == [FirstPlaced(HEAP_START, 16)] && BlockOk(bs[0])
    ensures Full(bs, Need(100000))
  {
    var b := bs[0];
    assert b.cells[0] == Cell(HEAP_START + MAJOR_HEADER, PaddedSize(16), 16) && b.size == 0x1_0000;
    assert b.usage == MAJOR_HEADER + CellBytes(b.cells);
    assert CellBytes(b.cells) >= 0 by { CellBytesOne(b.cells[0]); }
    SkipIsSafe(b, Need(100000));
  }

  /** A run in which the old allocation is lost: 16 bytes are to grow to 100000 when the system has no memory left. With
      no page mapped at address 0 the copy there faults before that. */
  method GrowthLoses() returns (heap: Heap, p: int, q: int, ghost before: set<Cell>)
    ensures fresh(heap) && heap.Valid()
    ensures p != NULL && exists c :: before == {c} && c.User() == p && c.req == 16
    ensures q == NULL && Live(heap.blocks) == {}
  {
    heap := new Heap();
    assert Full(heap.blocks, Need(16)) && GrantOk(heap.blocks, HEAP_START, PaddedSize(16))
           && Live(heap.blocks) == {} by {
      NothingLive(heap.blocks);
    }
    ghost var asked, start, k, j;
    hide Mirrors, Tagged, IsStart, IsChosen, BetCovers, Full, GrantOk, HeapOk, Listed, FirstPlaced, ApartFrom,
      Overwritten;
    p, asked, start, k, j := heap.Malloc(16, Some(HEAP_START));
    ghost var c := heap.blocks[k].cells[j];
    assert heap.blocks == [FirstPlaced(HEAP_START, 16)];
    before := Live(heap.blocks);
    assert before == {c} && c.User() == p && c.req == 16;
    assert BlockOk(heap.blocks[0]) && HeapOk(heap.blocks) by {
      FirstOk(heap.majorAt, heap.minorAt, heap.mem, heap.blocks, heap.memRoot, heap.bestBet, heap.allocatedBytes,
              heap.inuseBytes);
    }
    NoRoomToGrow(heap.blocks);
    HandedFound(heap.mem, heap.blocks, c);
    heap.LiveMinor(c);
    ghost var d;
    q, d := heap.Realloc(p, 100000, None, c);
  }

  /** A run on an empty heap: whatever fits behind the first request in 64K is served without asking for more. */
  method FirstMajorServes(first: nat, req: nat, addr: nat) returns (heap: Heap, p: nat, q: nat, asked: bool)
    requires 24 + (24 + first + 32) + (24 + req + 32) <= 16 * 4096
    requires 0xF000_0000 <= addr && addr % 4096 == 0 && addr + 16 * 4096 <= 0x1_0000_0000
    ensures fresh(heap) && heap.Valid() && p != NULL && q != NULL && !asked
    ensures |heap.blocks| == 1 && heap.blocks[0].size == 16 * 4096 == heap.allocatedBytes
  {
    heap := new Heap();
    SmallGrant(heap.blocks, addr, first);
    ghost var start, k, j;
    hide Mirrors, Tagged, IsStart, IsChosen, BetCovers, BetMoves, BetNotWorse, IsBest, Full, GrantOk, HeapOk, Listed,
      FirstPlaced, ApartFrom, GrewBy, FitsAt, IsNewMajor;
    p, asked, start, k, j := heap.Malloc(first, Some(addr));
    ghost var b := heap.blocks[k];
    FitsBehind(b, addr, first, req);
    assert b in heap.blocks && |heap.blocks| == 1 && b.size == 16 * 4096 by { SmallMajor(b, addr, first, req); }
    q, asked, start, k, j := heap.Malloc(req, None);
  }

  lemma SmallGrant(bs: seq<Block>, addr: nat, first: nat)
    requires bs == [] && first + 80 <= 16 * 4096
    requires 0xF000_0000 <= addr && addr % 4096 == 0 && addr + 16 * 4096 <= 0x1_0000_0000
    ensures Full(bs, first + 56) && GrantOk(bs, addr, PaddedSize(first))
  {
    NewBlockSize(PaddedSize(first));
  }

  lemma SmallMajor(b: Block, addr: nat, first: nat, req: nat)
    requires IsNewMajor(b, addr, first) && 24 + (24 + first + 32) + (24 + req + 32) <= 16 * 4096
    ensures b.size == 16 * 4096
  {
  }

  lemma NothingLive(bs: seq<Block>)
    requires bs == []
    ensures Live(bs) == {} && Full(bs, Need(16)) && GrantOk(bs, HEAP_START, PaddedSize(16))
  {
  }

  lemma FirstOk(ma: map<nat, Major>, mi: map<nat, Minor>, mem: map<int, int>, bs: seq<Block>,
                root: nat, best: nat, allocatedBytes: int, inuseBytes: int)
    requires Consistent(ma, mi, mem, bs, root, best, allocatedBytes, inuseBytes) && bs != []
    ensures HeapOk(bs) && BlockOk(bs[0])
  {
  }
}
