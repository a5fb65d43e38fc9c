/** Mapping memory while still running at its physical addresses: the loop maps all memory in use, including
    the page table that it allocates itself, and the size projected for the frame bitmaps. Addresses in this
    loop are page-aligned and counted in pages. */
module BootMap {
  import opened Options
  import opened Paging
  import opened Spaces
  import Bitmaps
  import Pmm

  /** Kernel addresses are physical addresses moved up by 3G. */
  const HIGHER: nat := 0xC000_0000

  const BOOT_ATTRS := Attrs(true, false, false, false, false, false, false, true)

  // ---------------------------------------------------------------- bitmap storage

  /** The bytes of the bitmaps from a level on. */
  function BitmapBytes(frames: nat, level: nat): nat
    requires level <= Pmm.LEVELS
    decreases Pmm.LEVELS - level
  {
    if level == Pmm.LEVELS || frames == 0 then 0 else 4 * Pmm.LevelWords(frames, level) + BitmapBytes(frames, level + 1)
  }

  /** The next page boundary. */
  function AlignUp(a: nat): (r: nat)
    ensures r % PAGE == 0 && a <= r < a + PAGE
  {
    if a % PAGE == 0 then a else a - a % PAGE + PAGE
  }

  function FramesOf(memSize: nat): (frames: nat)
    ensures frames == Pmm.NumFrames(memSize)
  {
    if memSize % PAGE != 0 then memSize / PAGE + 1 else memSize / PAGE
  }

  lemma {:induction false} BitsStayPositive(frames: nat, level: nat)
    ensures Pmm.LevelBits(frames, level) > 0 <==> frames > 0
  {
    if level > 0 { BitsStayPositive(frames, level - 1); }
  }

  method RoundUp(a: nat) returns (r: nat)
    ensures r == AlignUp(a)
  {
    r := a;
    if r % PAGE != 0 { r := r - r % PAGE + PAGE; }
  }

  lemma LevelStep(frames: nat, level: nat)
    requires level < Pmm.LEVELS && frames > 0
    ensures Pmm.LevelBits(frames, level) > 0
    ensures Pmm.LevelWords(frames, level) == (Pmm.LevelBits(frames, level) + 31) / 32
    ensures Pmm.LevelBits(frames, level + 1) == (Pmm.LevelBits(frames, level) + 1) / 2
    ensures BitmapBytes(frames, level)
          == 4 * ((Pmm.LevelBits(frames, level) + 31) / 32) + BitmapBytes(frames, level + 1)
  {
    BitsStayPositive(frames, level);
  }

  lemma LastLevel(frames: nat, level: nat)
    requires level <= Pmm.LEVELS && (level == Pmm.LEVELS || Pmm.LevelBits(frames, level) == 0)
    ensures BitmapBytes(frames, level) == 0 && (level < Pmm.LEVELS ==> frames == 0)
  {
    BitsStayPositive(frames, level);
  }

  lemma FirstLevel(frames: nat)
    ensures Pmm.LevelBits(frames, 0) == frames
  {
  }

  lemma SomeFrames(frames: nat, level: nat)
    requires Pmm.LevelBits(frames, level) != 0
    ensures frames > 0
  {
    BitsStayPositive(frames, level);
  }

  /** The size projected before paging is on, for memory of `memSize` bytes. */
  method ProjectBitmapSize(start: nat, memSize: nat) returns (size: nat)
    ensures start + size == AlignUp(AlignUp(start) + BitmapBytes(Pmm.NumFrames(memSize), 0))
  {
    var addr := RoundUp(start);
    var numFrames := FramesOf(memSize);
    ghost var frames := numFrames;
    var level := 0;
    FirstLevel(frames);
    hide AlignUp, Pmm.NumFrames, FramesOf, Pmm.LevelBits, Pmm.LevelWords, BitmapBytes;
    while level < Pmm.LEVELS && numFrames != 0
      invariant level <= Pmm.LEVELS && numFrames == Pmm.LevelBits(frames, level)
      invariant addr + BitmapBytes(frames, level) == AlignUp(start) + BitmapBytes(frames, 0)
    {
      SomeFrames(frames, level);
      LevelStep(frames, level);
      addr := addr + 4 * ((numFrames + 31) / 32);
      level, numFrames := level + 1, (numFrames + 1) / 2;
    }
    LastLevel(frames, level);
    var end := RoundUp(addr);
    size := end - start;
  }

  /** Bitmaps one right after the other between two addresses. */
  ghost predicate LaidOut(addrs: seq<nat>, words: seq<nat>, start: nat, end: nat) {
    && |addrs| == |words| && (if addrs == [] then end == start
                              else addrs[0] == start && end == addrs[|addrs| - 1] + 4 * words[|addrs| - 1])
    && (forall k :: 0 < k < |addrs| ==> addrs[k] == addrs[k - 1] + 4 * words[k - 1])
    && (forall k :: 0 <= k < |addrs| ==> start <= addrs[k] && addrs[k] + 4 * words[k] <= end)
    && (forall k, l :: 0 <= k < l < |addrs| ==> addrs[k] + 4 * words[k] <= addrs[l])
  }

  lemma LayNext(addrs: seq<nat>, words: seq<nat>, start: nat, end: nat, n: nat)
    requires LaidOut(addrs, words, start, end) && start <= end
    ensures LaidOut(addrs + [end], words + [n], start, end + 4 * n)
  {
  }

  ghost predicate LevelSizes(words: seq<nat>, frames: nat) {
    forall k :: 0 <= k < |words| ==> words[k] == Pmm.LevelWords(frames, k)
  }

  /** The addresses and sizes in words that the frame allocator then gives its bitmaps. */
  method LayOutBitmaps(start: nat, maxSize: nat) returns (addrs: seq<nat>, words: seq<nat>, end: nat)
    ensures |addrs| == if Pmm.NumFrames(maxSize) == 0 then 0 else 4
    ensures LevelSizes(words, Pmm.NumFrames(maxSize)) && LaidOut(addrs, words, AlignUp(start), end)
    ensures end == AlignUp(start) + BitmapBytes(Pmm.NumFrames(maxSize), 0)
  {
    var bits := Pmm.NumFrames(maxSize);
    ghost var frames := bits;
    var addr := RoundUp(start);
    var level := 0;
    addrs, words := [], [];
    FirstLevel(frames);
    hide AlignUp, Pmm.NumFrames, Pmm.LevelBits, Pmm.LevelWords, BitmapBytes, LaidOut;
    NoneLaidOut(addrs, words, addr);
    while level < Pmm.LEVELS && bits != 0
      invariant level <= Pmm.LEVELS && bits == Pmm.LevelBits(frames, level) && |addrs| == |words| == level
      invariant level > 0 ==> frames > 0
      invariant addr >= AlignUp(start) && addr + BitmapBytes(frames, level) == AlignUp(start) + BitmapBytes(frames, 0)
      invariant LevelSizes(words, frames) && LaidOut(addrs, words, AlignUp(start), addr)
    {
      SomeFrames(frames, level);
      LevelStep(frames, level);
      var levelSize := (bits + 31) / 32;
      LayNext(addrs, words, AlignUp(start), addr, levelSize);
      addrs, words := addrs + [addr], words + [levelSize];
      addr := addr + 4 * levelSize;
      level, bits := level + 1, (bits + 1) / 2;
    }
    LastLevel(frames, level);
    end := addr;
  }

  lemma NoneLaidOut(addrs: seq<nat>, words: seq<nat>, a: nat)
    requires |addrs| == |words| == 0
    ensures LaidOut(addrs, words, a, a)
  {
  }

  /** The projected size covers the bitmaps, ends at a page, and is less than a page more than needed. */
  lemma ProjectionFits(start: nat, memSize: nat, size: nat)
    requires start + size == AlignUp(AlignUp(start) + BitmapBytes(Pmm.NumFrames(memSize), 0))
    ensures var end := AlignUp(start) + BitmapBytes(Pmm.NumFrames(memSize), 0);
            && start <= AlignUp(start) && end <= start + size < end + PAGE && (start + size) % PAGE == 0
  {
    hide AlignUp, Pmm.NumFrames, BitmapBytes;
  }

  // ---------------------------------------------------------------- the space of the bitmaps themselves

  /** What is reserved for the bitmaps: their virtual addresses, taken for physical ones, or the physical ones. */
  function OwnRange(start: nat, size: nat, physical: bool): Pmm.Range
    requires HIGHER <= start
  {
    Pmm.Range(if physical then AlignUp(start) - HIGHER else AlignUp(start), BitmapBytes(Pmm.NumFrames(size), 0))
  }

  /** Frame i holds a part of the bitmaps. */
  predicate OwnFrame(start: nat, size: nat, i: nat)
    requires HIGHER <= start
  {
    (AlignUp(start) - HIGHER) / PAGE <= i < Pmm.NumFrames(AlignUp(start) - HIGHER + BitmapBytes(Pmm.NumFrames(size), 0))
  }

  ghost predicate OwnTaken(bits: seq<bool>, start: nat, size: nat)
    requires HIGHER <= start
  {
    forall i: nat :: i < |bits| && i < Pmm.NumFrames(size) && OwnFrame(start, size, i) ==> bits[i]
  }

  /** All frames of the bitmaps that there are lie in some of the ranges. */
  ghost predicate OwnHeld(ranges: seq<Pmm.Range>, start: nat, size: nat)
    requires HIGHER <= start
  {
    forall i: nat :: i < Pmm.NumFrames(size) && OwnFrame(start, size, i) ==> Pmm.Held(ranges, size, i)
  }

  lemma HeldFirst(r: Pmm.Range, ranges: seq<Pmm.Range>, max: nat, i: nat)
    ensures Pmm.Held([r] + ranges, max, i) <==> Pmm.HeldBy(r, max, i) || Pmm.Held(ranges, max, i)
  {
    hide Pmm.HeldBy;
    var all := [r] + ranges;
    if Pmm.HeldBy(r, max, i) { assert Pmm.HeldBy(all[0], max, i); }
    if k: nat :| k < |ranges| && Pmm.HeldBy(ranges[k], max, i) { assert all[k + 1] == ranges[k]; }
    if k: nat :| k < |all| && Pmm.HeldBy(all[k], max, i) { assert k > 0 ==> all[k] == ranges[k - 1]; }
  }

  /** The physical range holds the frames of the bitmaps, the virtual one none of them. */
  lemma OwnRangeHolds(start: nat, size: nat, i: nat)
    requires HIGHER <= start && AlignUp(start) + BitmapBytes(Pmm.NumFrames(size), 0) < HIGHER + 256 * LARGE_PAGE
    requires i < Pmm.NumFrames(size) && OwnFrame(start, size, i)
    ensures Pmm.HeldBy(OwnRange(start, size, true), size, i) && !Pmm.HeldBy(OwnRange(start, size, false), size, i)
  {
    hide BitmapBytes;
  }

  /** The kernel image ends where the space for the bitmaps starts, so it does not hold their frames either. */
  lemma KernelHoldsNone(kernel: Pmm.Range, start: nat, size: nat, i: nat)
    requires HIGHER <= start && kernel.addr + kernel.len <= start - HIGHER && OwnFrame(start, size, i)
    ensures !Pmm.HeldBy(kernel, size, i)
  {
    hide BitmapBytes, AlignUp;
    FramesBelow(if kernel.addr + kernel.len > size then size else kernel.addr + kernel.len, AlignUp(start) - HIGHER);
  }

  lemma FramesBelow(a: nat, b: nat)
    requires a <= b && b % PAGE == 0
    ensures Pmm.NumFrames(a) <= b / PAGE
  {
  }

  /** Just the frames of the reserved ranges are taken, and what that means for the frames of the bitmaps. */
  ghost predicate StartedWith(levels: seq<seq<bool>>, size: nat, start: nat, rest: seq<Pmm.Range>, physical: bool)
    requires HIGHER <= start
  {
    && Pmm.JustTaken(Pmm.FrameBits(levels), [OwnRange(start, size, physical)] + rest, size)
    && (OwnTaken(Pmm.FrameBits(levels), start, size) <==> physical || OwnHeld(rest, start, size))
  }

  lemma OwnSpace(bits: seq<bool>, start: nat, size: nat, rest: seq<Pmm.Range>, physical: bool)
    requires HIGHER <= start && AlignUp(start) + BitmapBytes(Pmm.NumFrames(size), 0) < HIGHER + 256 * LARGE_PAGE
    requires |bits| >= Pmm.NumFrames(size)
    requires Pmm.JustTaken(bits, [OwnRange(start, size, physical)] + rest, size)
    ensures OwnTaken(bits, start, size) <==> physical || OwnHeld(rest, start, size)
  {
    hide BitmapBytes, OwnFrame, OwnRange, Pmm.Held, Pmm.HeldBy, Pmm.NumFrames, AlignUp;
    var own := OwnRange(start, size, physical);
    forall i: nat | i < Pmm.NumFrames(size) && OwnFrame(start, size, i)
      ensures bits[i] <==> physical || Pmm.Held(rest, size, i)
    {
      OwnRangeHolds(start, size, i);
      HeldFirst(own, rest, size, i);
    }
  }

  /** The start of the frame allocator as the kernel goes about it: the bitmaps are laid out from the end of what the
      boot loader left, and their space, the kernel and what the machine keeps are reserved. The frames that hold the
      bitmaps are taken exactly if the other ranges hold them, as a virtual address is passed for their space. */
  method StartFrames(size: nat, start: nat, kernel: Pmm.Range, keep: seq<Pmm.Range>, build: Bitmaps.Build,
                     physical: bool)
    returns (a: Pmm.FrameAllocator, addrs: seq<nat>, words: seq<nat>)
    requires HIGHER <= start && AlignUp(start) + BitmapBytes(Pmm.NumFrames(size), 0) < HIGHER + 256 * LARGE_PAGE
    ensures fresh(a) && fresh(a.bitmaps) && a.Valid() && a.maxSize == size && a.build == build
    ensures |addrs| == |a.bitmaps| && LevelSizes(words, Pmm.NumFrames(size))
    ensures LaidOut(addrs, words, AlignUp(start), AlignUp(start) + BitmapBytes(Pmm.NumFrames(size), 0))
    ensures Pmm.StartsRight(build, size)
            && Pmm.AllExactly(build, size, [OwnRange(start, size, physical)] + ([kernel] + keep)) ==>
      a.Ready() && StartedWith(a.levels, size, start, [kernel] + keep, physical)
  {
    hide BitmapBytes, Pmm.NumFrames, AlignUp, LaidOut, LevelSizes, Pmm.AllExactly, Pmm.Held, OwnTaken, OwnHeld,
      Pmm.Consistent, Pmm.TailSet, Pmm.LevelWords, Pmm.StartsRight, Pmm.JustTaken;
    var end: nat;
    addrs, words, end := LayOutBitmaps(start, size);
    var first := RoundUp(start);
    var own := Pmm.Range(if physical then first - HIGHER else first, end - first);
    ghost var ranges := [own] + ([kernel] + keep);
    a := Pmm.FrameAllocator.Init(size, build, [own] + ([kernel] + keep));
    assert own == OwnRange(start, size, physical);
    if Pmm.StartsRight(build, size) && Pmm.AllExactly(build, size, ranges) {
      a.LevelsSized();
      EnoughBits(a.levels, size);
      OwnSpace(Pmm.FrameBits(a.levels), start, size, [kernel] + keep, physical);
    }
  }

  const MEGABYTE: nat := Pmm.MEGABYTE

  const SMALL_KERNEL := Pmm.Range(MEGABYTE, MEGABYTE)
  const LOW_MEMORY := Pmm.Range(0, MEGABYTE)

  /** Memory of whole megabytes, more than two of them and not beyond 3G. */
  predicate SomeMegabytes(size: nat) {
    size % MEGABYTE == 0 && 2 * MEGABYTE < size <= HIGHER
  }

  /** As written, with the kernel in the second megabyte and the bitmaps after it: just the first two are taken. */
  method StartSmall(size: nat, start: nat) returns (a: Pmm.FrameAllocator, addrs: seq<nat>)
    requires SomeMegabytes(size) && start == HIGHER + 2 * MEGABYTE
    ensures fresh(a) && fresh(a.bitmaps) && a.build == Bitmaps.AS_WRITTEN && a.maxSize == size && a.Ready()
    ensures |addrs| == |a.bitmaps| && Pmm.FirstFree(Pmm.FrameBits(a.levels), 512)
    ensures addrs != [] && addrs[0] == start
  {
    var words;
    WholeMegabytes(size, start);
    hide *;
    a, addrs, words := StartFrames(size, start, SMALL_KERNEL, [LOW_MEMORY], Bitmaps.AS_WRITTEN, false);
    AllocatorStarted(a, addrs, words, size, start);
  }

  lemma AllocatorStarted(a: Pmm.FrameAllocator, addrs: seq<nat>, words: seq<nat>, size: nat, start: nat)
    requires a.Valid() && a.maxSize == size && |addrs| == |a.bitmaps| && SomeMegabytes(size)
    requires start == HIGHER + 2 * MEGABYTE && StartedWith(a.levels, size, start, [SMALL_KERNEL] + [LOW_MEMORY], false)
    requires LaidOut(addrs, words, AlignUp(start), AlignUp(start) + BitmapBytes(Pmm.NumFrames(size), 0))
    ensures Pmm.FirstFree(Pmm.FrameBits(a.levels), 512) && addrs != [] && addrs[0] == start
  {
    a.LevelsSized();
    AlignedStart(start);
    hide AlignUp, BitmapBytes, Pmm.NumFrames, Pmm.LevelWords, Pmm.Sized, StartedWith, Pmm.FirstFree, Pmm.FrameBits,
      SomeMegabytes;
    SmallFree(a.levels, size, start);
  }

  lemma SmallFree(levels: seq<seq<bool>>, size: nat, start: nat)
    requires SomeMegabytes(size) && start == HIGHER + 2 * MEGABYTE && Pmm.Sized(levels, Pmm.NumFrames(size))
    requires StartedWith(levels, size, start, [SMALL_KERNEL] + [LOW_MEMORY], false)
    ensures Pmm.FirstFree(Pmm.FrameBits(levels), 512) && levels != []
  {
    LowMegabytes(OwnRange(start, size, false), size);
    hide Pmm.NumFrames, Pmm.Held, Pmm.HeldBy, Pmm.Sized, Pmm.FrameBits;
    Pmm.LowestFree(levels, 512, size);
  }

  /** A run as written: the first frame handed out is that of the allocator's own lowest bitmap. */
  method BitmapHandedOut(size: nat) returns (a: Pmm.FrameAllocator, addrs: seq<nat>, r: Option<nat>)
    requires SomeMegabytes(size)
    ensures a.build == Bitmaps.AS_WRITTEN && a.maxSize == size
    ensures addrs != [] && |addrs| == |a.bitmaps| && addrs[0] >= HIGHER && r == Some(addrs[0] - HIGHER)
  {
    hide Pmm.Consistent, Pmm.TailSet, Pmm.FrameBits, Pmm.FirstFree, Pmm.Claim, Pmm.BlockAddress;
    a, addrs := StartSmall(size, HIGHER + 2 * MEGABYTE);
    r := a.AllocFirst(512);
    Frame512();
  }

  lemma Frame512()
    ensures Pmm.BlockAddress(false, 512, 0) == 2 * MEGABYTE
  {
  }

  lemma WholeMegabytes(size: nat, start: nat)
    requires SomeMegabytes(size) && start == HIGHER + 2 * MEGABYTE
    ensures AlignUp(start) == start && start + BitmapBytes(Pmm.NumFrames(size), 0) < HIGHER + 256 * LARGE_PAGE
    ensures var own := OwnRange(start, size, false);
            && own.addr > size && Pmm.StartsRight(Bitmaps.AS_WRITTEN, size)
            && Pmm.AllExactly(Bitmaps.AS_WRITTEN, size, [own] + ([SMALL_KERNEL] + [LOW_MEMORY]))
  {
    assert Pmm.NumFrames(size) <= HIGHER / PAGE;
    AlignedStart(start);
    hide BitmapBytes, Pmm.NumFrames, AlignUp;
    FewBytes(Pmm.NumFrames(size));
  }

  lemma AlignedStart(start: nat)
    requires start == HIGHER + 2 * MEGABYTE
    ensures AlignUp(start) == start
  {
  }

  lemma FewBytes(frames: nat)
    ensures BitmapBytes(frames, 0) <= 16 * frames
  {
    hide Pmm.LevelWords;
    FewBits(frames, 0);
    FewBits(frames, 1);
    FewBits(frames, 2);
    FewBits(frames, 3);
    assert BitmapBytes(frames, 3) <= 4 * frames;
    assert BitmapBytes(frames, 2) <= 8 * frames;
    assert BitmapBytes(frames, 1) <= 12 * frames;
  }

  lemma {:induction false} FewBits(frames: nat, level: nat)
    ensures Pmm.LevelBits(frames, level) <= frames && Pmm.LevelWords(frames, level) <= frames
  {
    if level > 0 { FewBits(frames, level - 1); }
  }

  lemma LowMegabytes(own: Pmm.Range, size: nat)
    requires own.addr > size && SomeMegabytes(size)
    ensures forall i: nat :: Pmm.Held([own] + ([SMALL_KERNEL] + [LOW_MEMORY]), size, i) <==>
                             Pmm.HeldBy(Pmm.Range(0, 2 * MEGABYTE), size, i)
  {
    forall i: nat ensures Pmm.Held([own] + ([SMALL_KERNEL] + [LOW_MEMORY]), size, i) <==>
                          Pmm.HeldBy(Pmm.Range(0, 2 * MEGABYTE), size, i)
    {
      HeldFirst(own, [SMALL_KERNEL] + [LOW_MEMORY], size, i);
      HeldFirst(SMALL_KERNEL, [LOW_MEMORY], size, i);
      Pmm.OneHeld(LOW_MEMORY, size);
    }
  }

  lemma EnoughBits(levels: seq<seq<bool>>, size: nat)
    requires Pmm.Sized(levels, Pmm.NumFrames(size))
    ensures |Pmm.FrameBits(levels)| >= Pmm.NumFrames(size)
  {
  }

  // ---------------------------------------------------------------- the mapping loop

  /** The directory indices that memory is mapped at: the lower and the upper half look the same. */
  function HalfIndex(i: nat): nat { if i >= KERNEL_PDE then i - KERNEL_PDE else i }

  /** What the loop has stored at a directory index once pages 0 to `page` are mapped, for memory in use up
      to page `start` at first: 4M pages, and one table for what is left. */
  function BootSlot(start: nat, page: nat, i: nat): Slot {
    var h, whole := HalfIndex(i), start / ENTRIES;
    if h < whole && h * ENTRIES < page then Slot(Large(h, BOOT_ATTRS), NULL, ENTRIES)
    else if h == whole && h * ENTRIES < page then Slot(Small(start, false), start * PAGE + HIGHER, page - h * ENTRIES)
    else Slot(Empty, NULL, 0)
  }

  function BootTable(start: nat, page: nat): Table {
    var base := start / ENTRIES * ENTRIES;
    Table(start,
          seq(ENTRIES, p requires 0 <= p < ENTRIES => if base + p < page then Page(base + p, BOOT_ATTRS) else NoPage))
  }

  function BootTables(start: nat, page: nat): map<nat, Table> {
    if start / ENTRIES * ENTRIES < page then map[start * PAGE + HIGHER := BootTable(start, page)] else map[]
  }

  /** The bound at the end: one table more, unless 4M pages are enough. */
  function FinalBound(start: nat): nat { if start % ENTRIES == 0 then start else start + 1 }

  ghost predicate BootMapped(c: Config, start: nat, page: nat) {
    ShapeOk(c) && forall i: nat :: i < ENTRIES ==> SlotOf(c, i) == BootSlot(start, page, i)
  }

  /** A page is mapped at a frame below the bound, for the kernel to read and write in every space, and nothing else. */
  predicate BootPage(m: Option<Mapping>, frame: nat, bound: nat) {
    && (m.Some? <==> frame < bound)
    && (m.Some? ==>
          var a := m.value.attrs;
          && m.value.frame == frame && a.rw && a.global && !a.user
          && !a.writethru && !a.nocache && !a.accessed && !a.dirty && !a.attribTab)
  }

  /** The physical page that a virtual page stands for. */
  function PhysicalPage(v: nat): nat { HalfIndex(v / ENTRIES) * ENTRIES + v % ENTRIES }

  lemma {:induction false} BootCount(start: nat, page: nat, e: seq<Pte>)
    requires forall i :: 0 <= i < |e| ==> (e[i] == NoPage <==> !(start / ENTRIES * ENTRIES + i < page))
    requires start / ENTRIES * ENTRIES < page
    ensures Count(e) == if page - start / ENTRIES * ENTRIES < |e| then page - start / ENTRIES * ENTRIES else |e|
  {
    if e != [] {
      assert forall i :: 0 <= i < |e| - 1 ==> e[..|e| - 1][i] == e[i];
      BootCount(start, page, e[..|e| - 1]);
    }
  }

  /** In every directory index, entry, table and use count agree. */
  lemma BootSlotOk(start: nat, page: nat, i: nat)
    requires page <= FinalBound(start) && start < 256 * ENTRIES && i < ENTRIES
    ensures SlotOk(BootSlot(start, page, i), BootTables(start, page))
    ensures CountOk(BootSlot(start, page, i), BootTables(start, page))
  {
    if HalfIndex(i) == start / ENTRIES && HalfIndex(i) * ENTRIES < page {
      BootCount(start, page, BootTable(start, page).entries);
    }
  }

  /** At the end all pages up to the bound are mapped, at their own address and in the upper half, and no others;
      the table that was allocated is one of them. */
  lemma BootTranslations(start: nat, v: nat)
    requires start < 256 * ENTRIES && v < PAGES
    ensures Walk(BootSlot(start, FinalBound(start), v / ENTRIES), BootTables(start, FinalBound(start)), v % ENTRIES)
         == if PhysicalPage(v) < FinalBound(start) then Some(Mapping(PhysicalPage(v), BOOT_ATTRS)) else None
    ensures BootPage(Walk(BootSlot(start, FinalBound(start), v / ENTRIES), BootTables(start, FinalBound(start)),
                          v % ENTRIES),
                     if v >= 0xC_0000 then v - 0xC_0000 else v, FinalBound(start))
    ensures forall t :: t in BootTables(start, FinalBound(start)) ==>
              BootTables(start, FinalBound(start))[t].frame == start < FinalBound(start) && t == start * PAGE + HIGHER
    ensures |BootTables(start, FinalBound(start))| == if start % ENTRIES == 0 then 0 else 1
  {
  }

  lemma LargeStep(c: Config, start: nat, page: nat)
    requires BootMapped(c, start, page) && start < 256 * ENTRIES && page % ENTRIES == 0 && page + ENTRIES <= start
    ensures var pde, s := page / ENTRIES, Slot(Large(page / ENTRIES, BOOT_ATTRS), NULL, ENTRIES);
            && SlotOf(c, pde) == Slot(Empty, NULL, 0) == SlotOf(c, pde + KERNEL_PDE)
            && BootMapped(PutSlot(PutSlot(c, pde, s), pde + KERNEL_PDE, s), start, page + ENTRIES)
            && BootTables(start, page + ENTRIES) == BootTables(start, page) == map[]
  {
    var pde, s := page / ENTRIES, Slot(Large(page / ENTRIES, BOOT_ATTRS), NULL, ENTRIES);
    var c' := PutSlot(PutSlot(c, pde, s), pde + KERNEL_PDE, s);
    forall i: nat | i < ENTRIES ensures SlotOf(c', i) == BootSlot(start, page + ENTRIES, i) {
      assert SlotOf(c, i) == BootSlot(start, page, i);
    }
  }

  lemma SmallStep(c: Config, start: nat, page: nat)
    requires BootMapped(c, start, page) && start < 256 * ENTRIES
    requires start / ENTRIES * ENTRIES <= page < FinalBound(start)
    ensures var pde := page / ENTRIES;
            var s := Slot(Small(start, false), start * PAGE + HIGHER, page + 1 - pde * ENTRIES);
            && pde == start / ENTRIES && pde + KERNEL_PDE < ENTRIES
            && SlotOf(c, pde) == SlotOf(c, pde + KERNEL_PDE)
            && SlotOf(c, pde) == (if page % ENTRIES == 0 then Slot(Empty, NULL, 0) else s.(used := s.used - 1))
            && BootMapped(PutSlot(PutSlot(c, pde, s), pde + KERNEL_PDE, s), start, page + 1)
  {
    var pde := page / ENTRIES;
    var s := Slot(Small(start, false), start * PAGE + HIGHER, page + 1 - pde * ENTRIES);
    var c' := PutSlot(PutSlot(c, pde, s), pde + KERNEL_PDE, s);
    assert SlotOf(c, pde) == BootSlot(start, page, pde);
    assert SlotOf(c, pde + KERNEL_PDE) == BootSlot(start, page, pde + KERNEL_PDE);
    forall i: nat | i < ENTRIES ensures SlotOf(c', i) == BootSlot(start, page + 1, i) {
      assert SlotOf(c, i) == BootSlot(start, page, i);
    }
  }

  lemma TableStep(start: nat, page: nat)
    requires start / ENTRIES * ENTRIES <= page < FinalBound(start)
    ensures var base, t := start / ENTRIES * ENTRIES, start * PAGE + HIGHER;
            var before := if page == base then Table(start, NoEntries()) else BootTable(start, page);
            && page / ENTRIES == start / ENTRIES && page % ENTRIES == page - base
            && BootTables(start, page) == (if page == base then map[] else map[t := before])
            && BootTables(start, page + 1) == map[t := WithEntry(before, page % ENTRIES, Page(page, BOOT_ATTRS))]
  {
    var base := start / ENTRIES * ENTRIES;
    var before := if page == base then Table(start, NoEntries()) else BootTable(start, page);
    assert BootTable(start, page + 1).entries == WithEntry(before, page % ENTRIES, Page(page, BOOT_ATTRS)).entries;
  }

  class BootSpace {
    var config: Config
    var tables: map<nat, Table>

    /** The kernel's directory starts out all zero. */
    constructor ()
      ensures BootMapped(config, 0, 0) && config.next == NULL && tables == map[]
    {
      config := Config(seq(ENTRIES, i => Empty), seq(ENTRIES, i => NULL), seq(ENTRIES, i => 0), NULL);
      tables := map[];
    }

    /** Maps 4M at a directory index of both halves. */
    method MapLarge(ghost start: nat, page: nat)
      requires BootMapped(config, start, page) && start < 256 * ENTRIES && page % ENTRIES == 0
               && page + ENTRIES <= start
      modifies this`config
      ensures BootMapped(config, start, page + ENTRIES) && config.next == old(config.next)
    {
      LargeStep(config, start, page);
      var s := Slot(Large(page / ENTRIES, BOOT_ATTRS), NULL, ENTRIES);
      config := PutSlot(config, page / ENTRIES, s);
      config := PutSlot(config, page / ENTRIES + KERNEL_PDE, s);
    }

    /** Maps one page in both halves, in a table that is allocated at the bound if there is none. */
    method MapSmall(ghost start: nat, page: nat, bound: nat) returns (bound': nat)
      requires BootMapped(config, start, page) && tables == BootTables(start, page) && start < 256 * ENTRIES
      requires start / ENTRIES * ENTRIES <= page < FinalBound(start)
      requires page % ENTRIES == 0 ==> bound == start
      modifies this
      ensures BootMapped(config, start, page + 1) && tables == BootTables(start, page + 1)
              && config.next == old(config.next)
      ensures bound' == if page % ENTRIES == 0 then bound + 1 else bound
    {
      SmallStep(config, start, page);
      TableStep(start, page);
      hide BootMapped, BootTables, BootTable;
      var pde, pte, upper := page / ENTRIES, page % ENTRIES, page / ENTRIES + KERNEL_PDE;
      var lo, hi := SlotOf(config, pde), SlotOf(config, upper);
      bound' := bound;
      if lo.pt == NULL {
        lo := lo.(pde := Small(bound, false), pt := bound * PAGE + HIGHER);
        hi := hi.(pde := lo.pde, pt := lo.pt);
        tables := tables[lo.pt := Table(bound, NoEntries())];
        bound' := bound + 1;
      }
      tables := tables[lo.pt := WithEntry(tables[lo.pt], pte, Page(page, BOOT_ATTRS))];
      config := PutSlot(config, pde, lo.(used := lo.used + 1));
      config := PutSlot(config, upper, hi.(used := hi.used + 1));
    }

    /** Maps pages 0 to `start`, and the page table allocated after them. */
    method MapMemory(start: nat) returns (bound: nat)
      requires BootMapped(config, 0, 0) && tables == map[] && start < 256 * ENTRIES
      modifies this
      ensures bound == (if start % 1024 == 0 then start else start + 1)
      ensures bound == FinalBound(start) && BootMapped(config, start, bound) && tables == BootTables(start, bound)
      ensures config.next == old(config.next)
    {
      bound := start;
      var page := 0;
      NothingYet(config, start);
      hide BootMapped, BootTables, BootTable;
      while page < bound
        invariant page <= bound && Bounds(start, page, bound)
        invariant BootMapped(config, start, page) && tables == BootTables(start, page)
        invariant config.next == old(config.next)
        decreases FinalBound(start) - page
      {
        OneRound(start, page, bound);
        if page % ENTRIES == 0 && page + ENTRIES <= bound {
          MapLarge(start, page);
          page := page + ENTRIES;
        } else {
          bound := MapSmall(start, page, bound);
          page := page + 1;
        }
      }
    }

    /** Takes the lower half away again, up to the first empty directory index. */
    method DropIdentity(ghost start: nat)
      requires BootMapped(config, start, FinalBound(start)) && start < 256 * ENTRIES
      modifies this`config
      ensures Booted(config, start) && config.next == old(config.next)
    {
      ghost var bound := FinalBound(start);
      var pde := 0;
      while pde < KERNEL_PDE
        invariant pde <= KERNEL_PDE && ShapeOk(config) && config.next == old(config.next)
        invariant forall i: nat :: i < ENTRIES ==> DroppedTo(config, start, pde, i)
      {
        assert DroppedTo(config, start, pde, pde);
        if config.pd[pde] == Empty { break; }
        var cleared, next := PutSlot(config, pde, Slot(Empty, NULL, 0)), pde + 1;
        forall i: nat | i < ENTRIES ensures DroppedTo(cleared, start, next, i) {
          assert DroppedTo(config, start, pde, i);
        }
        config, pde := cleared, next;
      }
      forall i: nat | i < ENTRIES
        ensures SlotOf(config, i) == if i < KERNEL_PDE then Slot(Empty, NULL, 0) else BootSlot(start, bound, i)
      {
        assert DroppedTo(config, start, pde, i);
        if pde <= i < KERNEL_PDE { MappedIsPrefix(start, pde, i); }
      }
    }
  }

  /** The moving bound: still where it was as long as only 4M pages were mapped, then one further. */
  predicate Bounds(start: nat, page: nat, bound: nat) {
    var base := start / ENTRIES * ENTRIES;
    && bound == (if base < page then start + 1 else start) && page <= bound <= FinalBound(start)
    && (page < base ==> page % ENTRIES == 0)
  }

  lemma OneRound(start: nat, page: nat, bound: nat)
    requires Bounds(start, page, bound) && page < bound
    ensures page < FinalBound(start)
    ensures page % ENTRIES == 0 && page + ENTRIES <= bound ==>
      page + ENTRIES <= start && Bounds(start, page + ENTRIES, bound)
      && BootTables(start, page + ENTRIES) == BootTables(start, page)
    ensures !(page % ENTRIES == 0 && page + ENTRIES <= bound) ==>
      && start / ENTRIES * ENTRIES <= page && (page % ENTRIES == 0 ==> bound == start)
      && Bounds(start, page + 1, if page % ENTRIES == 0 then bound + 1 else bound)
  {
  }

  lemma NothingYet(c: Config, start: nat)
    requires BootMapped(c, 0, 0)
    ensures BootMapped(c, start, 0) && BootTables(start, 0) == map[] && Bounds(start, 0, start)
  {
    forall i: nat | i < ENTRIES ensures SlotOf(c, i) == BootSlot(start, 0, i) {
      assert SlotOf(c, i) == BootSlot(0, 0, i);
    }
  }

  /** The kernel's directory once the lower half is gone. */
  ghost predicate Booted(c: Config, start: nat) {
    && ShapeOk(c)
    && forall i: nat :: i < ENTRIES ==>
         SlotOf(c, i) == if i < KERNEL_PDE then Slot(Empty, NULL, 0) else BootSlot(start, FinalBound(start), i)
  }

  ghost predicate DroppedTo(c: Config, start: nat, pde: nat, i: nat)
    requires ShapeOk(c) && i < ENTRIES
  {
    SlotOf(c, i) == if i < pde then Slot(Empty, NULL, 0) else BootSlot(start, FinalBound(start), i)
  }

  /** In the lower half the directory indices in use come first. */
  lemma MappedIsPrefix(start: nat, i: nat, j: nat)
    requires i <= j < KERNEL_PDE && BootSlot(start, FinalBound(start), i).pde == Empty
    ensures BootSlot(start, FinalBound(start), j) == Slot(Empty, NULL, 0)
  {
  }

  /** The virtual memory manager starts in a consistent state, with just the memory in use mapped, in the upper half. */
  lemma BootedIsConsistent(c: Config, start: nat)
    requires Booted(c, start) && c.next == NULL && start < 256 * ENTRIES
    ensures var configs, tables := map[KERNEL := c], BootTables(start, FinalBound(start));
            && Consistent(configs, tables, [KERNEL]) && Counted(configs, tables, [KERNEL])
  {
    var configs, tables := map[KERNEL := c], BootTables(start, FinalBound(start));
    hide BootSlot, BootTables, CountOk, SlotOk;
    forall j: nat | j < ENTRIES ensures SlotOk(SlotOf(c, j), tables) && CountOk(SlotOf(c, j), tables) {
      if j < KERNEL_PDE { NothingOk(tables); } else { BootSlotOk(start, FinalBound(start), j); }
    }
    forall d, j, e, k ensures Apart(configs, d, j, e, k) { BootedApart(c, start, j, k); }
  }

  lemma BootedApart(c: Config, start: nat, j: nat, k: nat)
    requires Booted(c, start)
    ensures j < |c.pt| && k < |c.pt| && j != k ==> c.pt[j] == NULL || c.pt[j] != c.pt[k]
  {
    if j < ENTRIES && k < ENTRIES {
      assert SlotOf(c, j).pt == c.pt[j] && SlotOf(c, k).pt == c.pt[k];
    }
  }

  lemma BootedTranslations(c: Config, start: nat, v: nat)
    requires Booted(c, start) && start < 256 * ENTRIES && v < PAGES
    ensures Lookup(map[KERNEL := c], BootTables(start, FinalBound(start)), KERNEL, v)
         == UpperHalf(v, FinalBound(start))
  {
    BootTranslations(start, v);
    hide BootTables, BootSlot;
    assert SlotOf(c, v / ENTRIES) == if v / ENTRIES < KERNEL_PDE then Slot(Empty, NULL, 0)
                                     else BootSlot(start, FinalBound(start), v / ENTRIES);
  }

  /** Below 3G nothing is mapped, and from there on just the memory up to the bound; no table is open to user code. */
  ghost predicate KernelMapped(configs: map<nat, Config>, tables: map<nat, Table>, bound: nat) {
    && KERNEL in configs && ShapeOk(configs[KERNEL])
    && (forall i: nat :: i < 1024 && configs[KERNEL].pd[i].Small? ==> !configs[KERNEL].pd[i].user)
    && (forall v: nat :: v < 0xC_0000 ==> Lookup(configs, tables, KERNEL, v) == None)
    && (forall v: nat :: 0xC_0000 <= v < 0x10_0000 ==>
         BootPage(Lookup(configs, tables, KERNEL, v), v - 0xC_0000, bound))
  }

  lemma UpperHalfMapped(c: Config, tables: map<nat, Table>, start: nat, bound: nat)
    requires Booted(c, start)
    requires forall v: nat :: v < PAGES ==> Lookup(map[KERNEL := c], tables, KERNEL, v) == UpperHalf(v, bound)
    ensures KernelMapped(map[KERNEL := c], tables, bound)
  {
    hide Lookup;
    forall i: nat | i < 1024 && c.pd[i].Small? ensures !c.pd[i].user { assert SlotOf(c, i).pde == c.pd[i]; }
    forall v: nat | v < PAGES
      ensures if v < 0xC_0000 then UpperHalf(v, bound) == None else BootPage(UpperHalf(v, bound), v - 0xC_0000, bound)
    {
    }
  }

  lemma FirstPage(end: nat)
    requires end % PAGE == 0 && HIGHER <= end < HIGHER + 256 * LARGE_PAGE
    ensures (end - HIGHER) / PAGE * PAGE == end - HIGHER && (end - HIGHER) / PAGE < 256 * ENTRIES
  {
  }

  /** The memory up to page `first` is in use: maps it and leaves only the upper half. */
  method StartPaging(first: nat) returns (spaces: AddressSpaces)
    requires first < 256 * ENTRIES
    ensures fresh(spaces) && spaces.Valid() && spaces.chain == [KERNEL]
            && Counted(spaces.configs, spaces.tables, spaces.chain)
    ensures forall v: nat :: v < PAGES ==>
      Lookup(spaces.configs, spaces.tables, KERNEL, v) == UpperHalf(v, FinalBound(first))
    ensures KernelMapped(spaces.configs, spaces.tables, if first % 1024 == 0 then first else first + 1)
  {
    var boot := new BootSpace();
    var bound := boot.MapMemory(first);
    boot.DropIdentity(first);
    var config, tables := boot.config, boot.tables;
    BootedIsConsistent(config, first);
    forall v: nat | v < PAGES ensures Lookup(map[KERNEL := config], tables, KERNEL, v) == UpperHalf(v, bound) {
      BootedTranslations(config, first, v);
    }
    UpperHalfMapped(config, tables, first, bound);
    hide KernelMapped;
    hide Consistent, Counted, Lookup, UpperHalf;
    spaces := new AddressSpaces(config, tables);
  }

  /** From the end of the kernel image to a running memory manager: the bitmaps of the frame allocator lie in
      memory that is mapped in the upper half. */
  method Boot(start: nat, memSize: nat) returns (spaces: AddressSpaces, ghost bound: nat)
    requires HIGHER <= start
             && AlignUp(AlignUp(start) + BitmapBytes(Pmm.NumFrames(memSize), 0)) < HIGHER + 256 * LARGE_PAGE
    ensures fresh(spaces) && spaces.Valid() && spaces.chain == [KERNEL]
            && Counted(spaces.configs, spaces.tables, spaces.chain)
    ensures forall v: nat :: v < PAGES ==> Lookup(spaces.configs, spaces.tables, KERNEL, v) == UpperHalf(v, bound)
    ensures KernelMapped(spaces.configs, spaces.tables, bound)
    ensures var end := AlignUp(start) + BitmapBytes(Pmm.NumFrames(memSize), 0);
            end <= 0xC000_0000 + 4096 * bound < end + 2 * 4096
  {
    var size := ProjectBitmapSize(start, memSize);
    ProjectionFits(start, memSize, size);
    FirstPage(start + size);
    hide BitmapBytes, Pmm.NumFrames, AlignUp, Consistent, Counted, Lookup, UpperHalf, KernelMapped;
    var first := (start + size - HIGHER) / PAGE;
    bound := FinalBound(first);
    spaces := StartPaging(first);
  }

  ghost function UpperHalf(v: nat, bound: nat): Option<Mapping> {
    if v / ENTRIES >= KERNEL_PDE && PhysicalPage(v) < bound then Some(Mapping(PhysicalPage(v), BOOT_ATTRS)) else None
  }
}
