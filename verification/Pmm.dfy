/** The physical frame allocator: four levels of bitmaps, each bit of a level summing up two of the
    level below. */
module Pmm {
  import opened Options
  import opened Words
  import opened Bitmaps

  const FRAME_SIZE: nat := 4096
  const LEVELS: nat := 4

  function BlockLen(level: nat): nat {
    if level == 0 then FRAME_SIZE else 2 * BlockLen(level - 1)
  }

  function NumFrames(size: nat): nat {
    (size + FRAME_SIZE - 1) / FRAME_SIZE
  }

  /** Frame i has bytes of a range, as far as there is memory; a range of no bytes counts for the frame it lies in. */
  predicate HasBytes(addr: nat, len: nat, max: nat, i: nat) {
    addr <= max && addr < 4096 * i + 4096 && 4096 * i < addr + len && 4096 * i < max
  }

  lemma FramesOf(addr: nat, len: nat, max: nat, i: nat)
    requires addr <= max
    ensures HasBytes(addr, len, max, i) <==>
            addr / FRAME_SIZE <= i < NumFrames(if addr + len > max then max else addr + len)
  {
    InFrames(addr, i);
    InFrames(if addr + len > max then max else addr + len, i);
  }

  lemma InFrames(a: nat, i: nat)
    ensures a / FRAME_SIZE <= i <==> a < 4096 * i + 4096
    ensures i < NumFrames(a) <==> 4096 * i < a
  {
  }

  /** Just the frames with bytes of a range are taken in addition. */
  ghost predicate BytesTaken(before: seq<bool>, after: seq<bool>, addr: nat, len: nat, max: nat) {
    && |after| == |before|
    && forall i: nat :: i < |before| ==> (after[i] <==> before[i] || HasBytes(addr, len, max, i))
  }

  /** Just the frames with bytes of a range are free in addition. */
  ghost predicate BytesFreed(before: seq<bool>, after: seq<bool>, addr: nat, len: nat, max: nat) {
    && |after| == |before|
    && forall i: nat :: i < |before| ==> (after[i] <==> before[i] && !HasBytes(addr, len, max, i))
  }

  /** The bytes of a range lie in whole frames of the memory that were all free, and just those are taken now. */
  ghost predicate BytesGiven(before: seq<bool>, after: seq<bool>, addr: nat, len: nat, max: nat) {
    && addr % 4096 == 0 && len > 0 && BytesTaken(before, after, addr, len, max)
    && forall i: nat :: addr <= 4096 * i < addr + len ==> 4096 * i < max && i < |before| && !before[i]
  }

  /** Bits needed at a level, and words allocated for them. */
  function LevelBits(frames: nat, level: nat): nat {
    if level == 0 then frames else (LevelBits(frames, level - 1) + 1) / 2
  }

  function LevelWords(frames: nat, level: nat): nat {
    (LevelBits(frames, level) + 31) / 32
  }

  /** A level has a bit for each block of 2, 4 or 8 frames, the last one included if it is not whole, and just the words
      that hold them. */
  lemma LevelSize(frames: nat, k: nat)
    requires k < 4
    ensures var n := if k == 0 then 1 else if k == 1 then 2 else if k == 2 then 4 else 8;
            frames <= n * LevelBits(frames, k) < frames + n
    ensures LevelBits(frames, k) <= 32 * LevelWords(frames, k) < LevelBits(frames, k) + 32
  {
    assert LevelBits(frames, 1) == (frames + 1) / 2 && LevelBits(frames, 0) == frames;
    assert LevelBits(frames, 2) == (LevelBits(frames, 1) + 1) / 2;
    assert LevelBits(frames, 3) == (LevelBits(frames, 2) + 1) / 2;
  }

  // ---------------------------------------------------------------- the levels as values

  /** Bits without storage count as set. */
  predicate Used(b: seq<bool>, i: nat) {
    i < |b| ==> b[i]
  }

  predicate Summed(lo: seq<bool>, hi: seq<bool>, i: nat) {
    i < |hi| ==> (hi[i] <==> Used(lo, 2 * i) || Used(lo, 2 * i + 1))
  }

  /** Every bit of `hi` is set iff one of its two children in `lo` is. */
  ghost predicate Summary(lo: seq<bool>, hi: seq<bool>) {
    forall i: nat :: Summed(lo, hi, i)
  }

  ghost predicate SummaryAt(levels: seq<seq<bool>>, k: nat) {
    k + 1 < |levels| ==> Summary(levels[k], levels[k + 1])
  }

  ghost predicate Consistent(levels: seq<seq<bool>>) {
    forall k: nat :: SummaryAt(levels, k)
  }

  /** The first and one past the last block of a level that a frame range [f, e) touches. */
  function StartAt(f: nat, level: nat): nat {
    if level == 0 then f else StartAt(f, level - 1) / 2
  }

  function EndAt(e: nat, level: nat): nat {
    if level == 0 then e else (EndAt(e, level - 1) + 1) / 2
  }

  lemma {:induction false} RangeAt(f: nat, e: nat, frames: nat, level: nat)
    requires f <= e <= frames
    ensures StartAt(f, level) <= EndAt(e, level) <= LevelBits(frames, level)
    ensures f < e ==> StartAt(f, level) < EndAt(e, level)
  {
    if level > 0 { RangeAt(f, e, frames, level - 1); }
  }

  function CoverAll(levels: seq<seq<bool>>, exact: bool, f: nat, e: nat): seq<seq<bool>>
    requires f <= e
  {
    seq(|levels|, k requires 0 <= k < |levels| => CoverLevel(levels[k], exact, f, e, k))
  }

  function CoverLevel(b: seq<bool>, exact: bool, f: nat, e: nat, k: nat): seq<bool>
    requires f <= e
  {
    RangeAt(f, e, e, k);
    Cover(b, exact, StartAt(f, k), EndAt(e, k) - StartAt(f, k))
  }

  /** Covering a non-empty range at one level and its blocks at the next keeps the summary. */
  lemma CoverKeepsSummary(lo: seq<bool>, hi: seq<bool>, f: nat, e: nat)
    requires Summary(lo, hi) && f < e <= |lo|
    ensures Summary(Cover(lo, true, f, e - f), Cover(hi, true, f / 2, (e + 1) / 2 - f / 2))
  {
    var lo', hi' := Cover(lo, true, f, e - f), Cover(hi, true, f / 2, (e + 1) / 2 - f / 2);
    forall i: nat ensures Summed(lo', hi', i) {
      assert Summed(lo, hi, i);
      if i < |hi| && f / 2 <= i < (e + 1) / 2 {
        assert Used(lo', if f <= 2 * i then 2 * i else 2 * i + 1);
      }
    }
  }

  ghost predicate EndFits(levels: seq<seq<bool>>, e: nat, k: nat) {
    k < |levels| ==> EndAt(e, k) <= |levels[k]|
  }

  lemma CoverLevelKeepsSummary(lo: seq<bool>, hi: seq<bool>, f: nat, e: nat, k: nat)
    requires Summary(lo, hi) && f < e && EndAt(e, k) <= |lo|
    ensures Summary(CoverLevel(lo, true, f, e, k), CoverLevel(hi, true, f, e, k + 1))
  {
    hide Summary, Cover;
    RangeAt(f, e, e, k);
    CoverKeepsSummary(lo, hi, StartAt(f, k), EndAt(e, k));
  }

  lemma CoverAllAt(levels: seq<seq<bool>>, f: nat, e: nat, k: nat)
    requires SummaryAt(levels, k) && f < e && EndFits(levels, e, k)
    ensures SummaryAt(CoverAll(levels, true, f, e), k)
  {
    hide Summary, CoverLevel;
    if k + 1 < |levels| {
      CoverLevelKeepsSummary(levels[k], levels[k + 1], f, e, k);
    }
  }

  lemma CoverAllKeepsConsistent(levels: seq<seq<bool>>, f: nat, e: nat)
    requires Consistent(levels) && f < e && forall k: nat :: EndFits(levels, e, k)
    ensures Consistent(CoverAll(levels, true, f, e))
  {
    hide SummaryAt;
    forall k: nat ensures SummaryAt(CoverAll(levels, true, f, e), k) {
      CoverAllAt(levels, f, e, k);
    }
  }

  /** All levels are a function of level 0. */
  lemma {:induction false} LevelsDetermined(a: seq<seq<bool>>, b: seq<seq<bool>>, k: nat)
    requires Consistent(a) && Consistent(b) && |a| == |b| && k < |a| && a[0] == b[0]
    requires forall i: nat :: i < |a| ==> |a[i]| == |b[i]|
    ensures a[k] == b[k]
  {
    if k > 0 {
      LevelsDetermined(a, b, k - 1);
      assert SummaryAt(a, k - 1) && SummaryAt(b, k - 1);
      forall i: nat | i < |a[k]| ensures a[k][i] == b[k][i] {
        assert Summed(a[k - 1], a[k], i) && Summed(b[k - 1], b[k], i);
      }
    }
  }

  lemma HalveRun(lo: seq<bool>, hi: seq<bool>, s: nat, n: nat)
    requires Summary(lo, hi) && ClearRun(hi, s, n) && n > 0
    ensures ClearRun(lo, 2 * s, 2 * n)
  {
    assert Summed(lo, hi, s + n - 1);
    forall i | 2 * s <= i < 2 * s + 2 * n ensures !lo[i] {
      assert Summed(lo, hi, i / 2) && !hi[i / 2];
    }
  }

  /** The frames of `n` blocks of a level. */
  function Frames(n: nat, level: nat): nat
    decreases level
  {
    if level == 0 then n else Frames(2 * n, level - 1)
  }

  /** A run of clear blocks is a run of clear frames. */
  lemma {:induction false} CoarseRun(levels: seq<seq<bool>>, k: nat, s: nat, n: nat)
    requires Consistent(levels) && k < |levels| && n > 0 && ClearRun(levels[k], s, n)
    ensures ClearRun(levels[0], Frames(s, k), Frames(n, k))
  {
    hide Summary, ClearRun;
    if k > 0 {
      assert SummaryAt(levels, k - 1);
      HalveRun(levels[k - 1], levels[k], s, n);
      CoarseRun(levels, k - 1, 2 * s, 2 * n);
    }
  }

  /** Rounding a byte range out to blocks of a level, and from there to the next level. */
  lemma BlockRounding(start: nat, end: nat, level: nat)
    requires level < LEVELS && start <= end
    ensures var len := BlockLen(level);
            && len > 0
            && start % len <= start
            && (start - start % len) / len == start / len
            && (start - start % len) / (2 * len) == start / len / 2
            && (end + 2 * len - 1) / (2 * len) == ((end + len - 1) / len + 1) / 2
            && (end - (start - start % len) + len - 1) / len == (end + len - 1) / len - start / len
  {
    BlockLens();
    hide BlockLen;
    if level == 0 {
      RoundedBlocks(start, end, 4096);
    } else if level == 1 {
      RoundedBlocks(start, end, 8192);
    } else if level == 2 {
      RoundedBlocks(start, end, 16384);
    } else {
      RoundedBlocks(start, end, 32768);
    }
  }

  /** Quotients by one of the block lengths and by twice that length. */
  lemma RoundedBlocks(start: nat, end: nat, len: nat)
    requires len in {4096, 8192, 16384, 32768} && start <= end
    ensures && start % len <= start
            && (start - start % len) / len == start / len
            && (start - start % len) / (2 * len) == start / len / 2
            && (end + 2 * len - 1) / (2 * len) == ((end + len - 1) / len + 1) / 2
            && (end - (start - start % len) + len - 1) / len == (end + len - 1) / len - start / len
  {
    if len == 4096 {
    } else if len == 8192 {
    } else if len == 16384 {
    }
  }

  lemma BlockLens()
    ensures BlockLen(0) == 4096 && BlockLen(1) == 8192 && BlockLen(2) == 16384 && BlockLen(3) == 32768
  {
  }

  ghost function FrameBits(levels: seq<seq<bool>>): seq<bool> {
    if levels == [] then [] else levels[0]
  }

  ghost predicate TailSet(b: seq<bool>, frames: nat) {
    forall i :: frames <= i < |b| ==> b[i]
  }

  /** The smallest level whose blocks hold `len` bytes, or the highest. */
  function TopLevel(len: nat): nat {
    if len <= BlockLen(0) then 0 else if len <= BlockLen(1) then 1 else if len <= BlockLen(2) then 2 else 3
  }

  function BlocksFor(len: nat, level: nat): nat
    requires level < LEVELS
  {
    BlockLens();
    (len + BlockLen(level) - 1) / BlockLen(level)
  }

  /** Block `s` of level `k` starts the level's first run for `len`, and no higher level up to the top
      one has a run. */
  ghost predicate IsSpot(levels: seq<seq<bool>>, len: nat, k: nat, s: nat) {
    && k < |levels| && k < LEVELS
    && FirstRun(levels[k], BlocksFor(len, k), s) && ClearRun(levels[k], s, BlocksFor(len, k))
    && NoRunAbove(levels, len, k)
  }

  lemma NoFrameRun(levels: seq<seq<bool>>, len: nat)
    requires NoRunAt(levels, len, 0) && levels != []
    ensures !exists s: nat :: ClearRun(FrameBits(levels), s, NumFrames(len))
  {
    BlocksCover(len, 0, 0);
  }

  /** The search loop stops with the run of blocks at `s` of level `k`, given the words of the level. */
  ghost predicate HitAt(reset: bool, words: seq<Word>, len: nat, k: nat, s: nat) {
    k < LEVELS && IsHit(reset, words, BlocksFor(len, k), s + BlocksFor(len, k))
  }

  lemma HitNotEmpty(reset: bool, words: seq<Word>, len: nat, k: nat, s: nat)
    requires k < LEVELS && HitAt(reset, words, len, k, s)
    ensures len > 0
  {
    BlocksCover(len, 0, k);
    BlockLens();
  }

  lemma FrameOrder(addr: nat, len: nat, max: nat)
    requires addr <= max
    ensures addr / FRAME_SIZE <= NumFrames(if addr + len > max then max else addr + len)
  {
  }

  ghost predicate NoRunAbove(levels: seq<seq<bool>>, len: nat, k: nat) {
    forall j: nat :: k < j <= TopLevel(len) ==> NoRunAt(levels, len, j)
  }

  ghost predicate NoRunAt(levels: seq<seq<bool>>, len: nat, j: nat) {
    j < |levels| && j < LEVELS ==> forall t: nat :: !ClearRun(levels[j], t, BlocksFor(len, j))
  }

  lemma BlocksCover(len: nat, s: nat, k: nat)
    requires k < LEVELS
    ensures s * BlockLen(k) == Frames(s, k) * FRAME_SIZE
    ensures NumFrames(len) <= Frames(BlocksFor(len, k), k)
    ensures BlocksFor(len, 0) == NumFrames(len)
    ensures len > 0 <==> BlocksFor(len, k) > 0
  {
    BlockLens();
    if k == 0 {
    } else if k == 1 {
    } else if k == 2 {
      assert Frames(s, 2) == Frames(2 * s, 1);
      assert Frames(BlocksFor(len, k), 2) == Frames(2 * BlocksFor(len, k), 1);
    } else {
      assert Frames(s, 3) == Frames(2 * s, 2) == Frames(2 * (2 * s), 1);
      assert Frames(BlocksFor(len, 3), 3) == Frames(2 * BlocksFor(len, 3), 2) == Frames(2 * (2 * BlocksFor(len, 3)), 1);
    }
  }

  ghost predicate Sized(levels: seq<seq<bool>>, frames: nat) {
    && |levels| == (if frames == 0 then 0 else LEVELS)
    && forall k: nat :: k < |levels| ==> |levels[k]| == 32 * LevelWords(frames, k)
  }

  /** A run found at level `k` is a run of free frames of the memory, and the range that is reserved
      for it covers it exactly. */
  lemma FoundIsFree(levels: seq<seq<bool>>, len: nat, k: nat, s: nat, max: nat)
    requires Sized(levels, NumFrames(max)) && Consistent(levels) && TailSet(FrameBits(levels), NumFrames(max))
    requires k < |levels| && len > 0 && ClearRun(levels[k], s, BlocksFor(len, k))
    ensures var addr := s * BlockLen(k);
            var f, n := addr / FRAME_SIZE, NumFrames(len);
            && addr % FRAME_SIZE == 0 && addr <= max && n > 0 && f == Frames(s, k)
            && f + n <= NumFrames(max) && ClearRun(FrameBits(levels), f, n)
            && f + n == NumFrames(if addr + len > max then max else addr + len)
  {
    BlocksCover(len, s, k);
    CoarseRun(levels, k, s, BlocksFor(len, k));
    var f, n := Frames(s, k), NumFrames(len);
    hide Frames, BlocksFor, BlockLen, Consistent, ClearRun, Sized;
    ShorterRun(levels[0], f, Frames(BlocksFor(len, k), k), n);
    RunInMemory(levels[0], f, n, NumFrames(max));
    AlignedRange(f, len, max);
  }

  lemma ShorterRun(b: seq<bool>, s: nat, n: nat, m: nat)
    requires ClearRun(b, s, n) && m <= n
    ensures ClearRun(b, s, m)
  {
  }

  lemma RunInMemory(b: seq<bool>, s: nat, n: nat, frames: nat)
    requires ClearRun(b, s, n) && TailSet(b, frames) && n > 0
    ensures s + n <= frames
  {
    assert !b[s + n - 1];
  }

  lemma AlignedRange(f: nat, len: nat, max: nat)
    requires len > 0 && f + NumFrames(len) <= NumFrames(max)
    ensures var addr := f * FRAME_SIZE;
            && addr % FRAME_SIZE == 0 && addr / FRAME_SIZE == f && addr <= max && NumFrames(len) > 0
            && f + NumFrames(len) == NumFrames(if addr + len > max then max else addr + len)
  {
  }

  lemma TakenIsReady(levels: seq<seq<bool>>, f: nat, e: nat, frames: nat)
    requires Sized(levels, frames) && Consistent(levels) && TailSet(FrameBits(levels), frames) && f < e <= frames
    ensures var after := CoverAll(levels, true, f, e);
            Consistent(after) && TailSet(FrameBits(after), frames)
  {
    forall k: nat ensures EndFits(levels, e, k) {
      RangeAt(f, e, frames, k);
    }
    CoverAllKeepsConsistent(levels, f, e);
  }

  /** Frames [f, e) of the memory were all free and are now the only ones newly taken. */
  ghost predicate Taken(before: seq<seq<bool>>, after: seq<seq<bool>>, f: nat, e: nat, frames: nat) {
    && f < e <= frames && ClearRun(FrameBits(before), f, e - f)
    && after == CoverAll(before, true, f, e)
  }

  /** The frames of a request at an address were all free, and are now the only ones newly taken. */
  ghost predicate TakesFrames(before: seq<seq<bool>>, after: seq<seq<bool>>, addr: nat, len: nat, max: nat) {
    addr % FRAME_SIZE == 0
    && Taken(before, after, addr / FRAME_SIZE, addr / FRAME_SIZE + NumFrames(len), NumFrames(max))
  }

  ghost predicate TakesRun(before: seq<seq<bool>>, after: seq<seq<bool>>, f: nat, n: nat, max: nat) {
    Taken(before, after, f, f + n, NumFrames(max))
  }

  lemma RunTaken(before: seq<seq<bool>>, after: seq<seq<bool>>, addr: nat, len: nat, n: nat, max: nat)
    requires TakesFrames(before, after, addr, len, max) && NumFrames(len) == n
    ensures addr % FRAME_SIZE == 0 && TakesRun(before, after, addr / FRAME_SIZE, n, max)
  {
  }

  lemma RangeTaken(levels: seq<seq<bool>>, addr: nat, len: nat, max: nat)
    requires addr <= max
    ensures addr / FRAME_SIZE <= NumFrames(if addr + len > max then max else addr + len)
    ensures var end := NumFrames(if addr + len > max then max else addr + len);
            BytesTaken(FrameBits(levels), FrameBits(CoverAll(levels, true, addr / FRAME_SIZE, end)), addr, len, max)
  {
    FrameOrder(addr, len, max);
    hide NumFrames, HasBytes;
    var f, e := addr / FRAME_SIZE, NumFrames(if addr + len > max then max else addr + len);
    CoverFrames(levels, f, e);
    hide CoverAll, FrameBits;
    forall i: nat | i < |FrameBits(levels)| ensures HasBytes(addr, len, max, i) <==> f <= i < e {
      FramesOf(addr, len, max, i);
    }
  }

  lemma CoverFrames(levels: seq<seq<bool>>, f: nat, e: nat)
    requires f <= e
    ensures var before, after := FrameBits(levels), FrameBits(CoverAll(levels, true, f, e));
            |after| == |before| && forall i: nat :: i < |before| ==> (after[i] <==> before[i] || f <= i < e)
  {
  }

  lemma RangeFreed(before: seq<bool>, addr: nat, len: nat, max: nat)
    requires addr <= max
    ensures var end := NumFrames(if addr + len > max then max else addr + len);
            BytesFreed(before, Uncover(before, addr / FRAME_SIZE, end), addr, len, max)
  {
    hide NumFrames, HasBytes;
    var f, e := addr / FRAME_SIZE, NumFrames(if addr + len > max then max else addr + len);
    forall i: nat | i < |before| ensures HasBytes(addr, len, max, i) <==> f <= i < e {
      FramesOf(addr, len, max, i);
    }
  }

  /** Taking the frames of a request, in bytes. */
  lemma RangeGiven(before: seq<seq<bool>>, after: seq<seq<bool>>, addr: nat, len: nat, max: nat)
    requires TakesFrames(before, after, addr, len, max)
    ensures BytesGiven(FrameBits(before), FrameBits(after), addr, len, max)
  {
    var f, n := addr / FRAME_SIZE, NumFrames(len);
    CoverFrames(before, f, f + n);
    hide CoverAll, FrameBits;
    forall i: nat ensures f <= i < f + n <==> addr < 4096 * i + 4096 && 4096 * i < addr + len {
      if i >= f { InFrames(len, i - f); }
    }
    forall i: nat | f <= i < f + n ensures 4096 * i < max { InFrames(max, i); }
  }

  lemma SizeOf(n: nat)
    ensures NumFrames(n * FRAME_SIZE) == n && (n > 0 ==> n * FRAME_SIZE > 0)
  {
  }

  /** One more than the largest 32-bit number. */
  const ADDRESSES: nat := 0x1_0000_0000

  /** The address computed for a block of a level, as a product of 32-bit numbers or a wide one. */
  function BlockAddress(wide: bool, s: nat, k: nat): nat {
    if wide then s * BlockLen(k) else s * BlockLen(k) % ADDRESSES
  }

  /** The address is the one computed for where the search loop stopped at level k. */
  ghost predicate AtHit(build: Build, words: seq<Word>, len: nat, k: nat, addr: nat) {
    exists s: nat :: addr == BlockAddress(build.wideAddress, s, k) && HitAt(build.resetOnSkip, words, len, k, s)
  }

  /** The search loop stops at a block from 4G on, whose address does not fit 32 bits. */
  ghost predicate Strays(build: Build, words: seq<Word>, len: nat, k: nat) {
    !build.wideAddress && exists s: nat :: s * BlockLen(k) >= ADDRESSES && HitAt(build.resetOnSkip, words, len, k, s)
  }

  /** The frames of a request at an address are in the memory and free. */
  ghost predicate FreeRange(levels: seq<seq<bool>>, addr: nat, len: nat, max: nat) {
    && addr / FRAME_SIZE + NumFrames(len) <= NumFrames(max)
    && ClearRun(FrameBits(levels), addr / FRAME_SIZE, NumFrames(len))
  }

  /** The address is that of the first run of level k. */
  ghost predicate AtSpot(levels: seq<seq<bool>>, wide: bool, len: nat, k: nat, addr: nat) {
    k < |levels| && k <= TopLevel(len) && exists s: nat :: addr == BlockAddress(wide, s, k) && IsSpot(levels, len, k, s)
  }

  /** The address is that of the first run of the highest level, from the smallest covering one downwards, that has
      any. */
  ghost predicate SpotAt(levels: seq<seq<bool>>, wide: bool, len: nat, addr: nat) {
    exists k: nat :: AtSpot(levels, wide, len, k, addr)
  }

  /** Reserving a found spot takes free frames of the memory and nothing else, and keeps the invariant. */
  lemma FoundIsTaken(levels: seq<seq<bool>>, len: nat, k: nat, s: nat, max: nat)
    requires Sized(levels, NumFrames(max)) && Consistent(levels) && TailSet(FrameBits(levels), NumFrames(max))
    requires len > 0 && IsSpot(levels, len, k, s)
    ensures s * BlockLen(k) % FRAME_SIZE == 0 && s * BlockLen(k) <= max
    ensures var after := Claim(levels, true, s * BlockLen(k), len, max);
            && Consistent(after) && TailSet(FrameBits(after), NumFrames(max))
            && TakesFrames(levels, after, s * BlockLen(k), len, max)
    ensures exists t: nat :: ClearRun(FrameBits(levels), t, NumFrames(len))
  {
    hide Sized, Consistent, TailSet, BlockLen, NumFrames, CoverAll, ClearRun, FirstRun;
    FoundIsFree(levels, len, k, s, max);
    var f := s * BlockLen(k) / FRAME_SIZE;
    TakenIsReady(levels, f, f + NumFrames(len), NumFrames(max));
  }

  /** Consistent, except that block `bit` of `level` may still be set although both its children are free. */
  ghost predicate AlmostConsistent(levels: seq<seq<bool>>, level: nat, bit: nat)
    requires level > 0
  {
    && (forall k: nat :: k != level - 1 ==> SummaryAt(levels, k))
    && (level < |levels| ==>
          && SummaryExcept(levels[level - 1], levels[level], bit)
          && (bit < |levels[level]| && (Used(levels[level - 1], 2 * bit) || Used(levels[level - 1], 2 * bit + 1))
              ==> levels[level][bit]))
  }

  ghost predicate SummaryExcept(lo: seq<bool>, hi: seq<bool>, bit: nat) {
    forall i: nat :: i != bit ==> Summed(lo, hi, i)
  }

  lemma FreeBottom(levels: seq<seq<bool>>, frame: nat)
    requires Consistent(levels) && |levels| > 1 && frame < |levels[0]|
    ensures AlmostConsistent(levels[0 := levels[0][frame := false]], 1, frame / 2)
  {
    var levels' := levels[0 := levels[0][frame := false]];
    assert SummaryAt(levels, 0);
    var lo, hi := levels'[0], levels'[1];
    forall i: nat ensures i != frame / 2 ==> Summed(lo, hi, i) {
      assert Summed(levels[0], levels[1], i);
    }
    assert Summed(levels[0], levels[1], frame / 2);
    forall k: nat | k != 0 ensures SummaryAt(levels', k) {
      assert SummaryAt(levels, k);
    }
  }

  lemma FreeStep(levels: seq<seq<bool>>, level: nat, bit: nat)
    requires 0 < level < |levels| && bit < |levels[level]| && AlmostConsistent(levels, level, bit)
    requires !Used(levels[level - 1], 2 * bit) && !Used(levels[level - 1], 2 * bit + 1)
    ensures AlmostConsistent(levels[level := levels[level][bit := false]], level + 1, bit / 2)
  {
    var levels' := levels[level := levels[level][bit := false]];
    var lo, mid := levels'[level - 1], levels'[level];
    forall i: nat ensures Summed(lo, mid, i) {
      assert i != bit ==> Summed(levels[level - 1], levels[level], i);
    }
    if level + 1 < |levels| {
      assert SummaryAt(levels, level);
      var hi := levels'[level + 1];
      forall i: nat ensures i != bit / 2 ==> Summed(mid, hi, i) {
        assert Summed(levels[level], hi, i);
      }
      assert Summed(levels[level], levels[level + 1], bit / 2);
    }
    forall k: nat | k != level ensures SummaryAt(levels', k) {
      assert k != level - 1 ==> SummaryAt(levels, k);
      assert k == level - 1 ==> Summary(lo, mid);
    }
  }

  lemma FreeDone(levels: seq<seq<bool>>, level: nat, bit: nat)
    requires level > 0 && AlmostConsistent(levels, level, bit)
    requires level < |levels| && bit < |levels[level]| ==>
      Used(levels[level - 1], 2 * bit) || Used(levels[level - 1], 2 * bit + 1)
    ensures Consistent(levels)
  {
    forall k: nat ensures SummaryAt(levels, k) {
      if k == level - 1 && level < |levels| {
        var lo, hi := levels[level - 1], levels[level];
        forall i: nat ensures Summed(lo, hi, i) {
          assert i != bit ==> Summed(lo, hi, i);
        }
      }
    }
  }

  function Uncover(b: seq<bool>, f: nat, e: nat): seq<bool> {
    seq(|b|, i requires 0 <= i < |b| => b[i] && !(f <= i < e))
  }

  /** Freeing what was just taken restores every bitmap exactly. */
  lemma FreeUndoesTake(before: seq<seq<bool>>, freed: seq<seq<bool>>, f: nat, e: nat, frames: nat)
    requires Sized(before, frames) && Sized(freed, frames) && Consistent(before) && Consistent(freed)
    requires f < e && before != [] && Taken(before, CoverAll(before, true, f, e), f, e, frames)
    requires FrameBits(freed) == Uncover(FrameBits(CoverAll(before, true, f, e)), f, e)
    ensures freed == before
  {
    forall i: nat | i < |before[0]| ensures freed[0][i] == before[0][i] {
      assert f <= i < f + (e - f) ==> !before[0][i];
    }
    forall k: nat | k < |before| ensures freed[k] == before[k] {
      LevelsDetermined(freed, before, k);
    }
  }

  /** A range of no frames touches at most one block of a level. */
  lemma {:induction false} OneBlock(f: nat, k: nat)
    ensures StartAt(f, k) <= EndAt(f, k) <= StartAt(f, k) + 1
  {
    if k > 0 { OneBlock(f, k - 1); }
  }

  /** The block of a level, if any, that a range of no frames at `f` touches was set already. */
  ghost predicate TouchesOnlySet(levels: seq<seq<bool>>, f: nat, k: nat) {
    k < |levels| && StartAt(f, k) < EndAt(f, k) && StartAt(f, k) < |levels[k]| ==> levels[k][StartAt(f, k)]
  }

  lemma EmptyLevel(b: seq<bool>, f: nat, k: nat)
    ensures CoverLevel(b, true, f, f, k) == b <==>
      (StartAt(f, k) < EndAt(f, k) && StartAt(f, k) < |b| ==> b[StartAt(f, k)])
  {
    OneBlock(f, k);
    var i, after := StartAt(f, k), CoverLevel(b, true, f, f, k);
    if i < EndAt(f, k) && i < |b| {
      assert after[i];
    }
  }

  /** A reserve call that covers no frame can still set blocks of higher levels: the summaries stay right exactly
      when each such block was set before. Frame numbers that are multiples of 8 touch none. */
  lemma EmptyReserve(levels: seq<seq<bool>>, f: nat)
    requires Consistent(levels) && |levels| <= LEVELS
    ensures Consistent(CoverAll(levels, true, f, f)) <==> forall k: nat :: TouchesOnlySet(levels, f, k)
    ensures (forall k: nat :: TouchesOnlySet(levels, f, k)) ==> CoverAll(levels, true, f, f) == levels
    ensures f % 8 == 0 ==> forall k: nat :: TouchesOnlySet(levels, f, k)
  {
    var after := CoverAll(levels, true, f, f);
    if levels != [] { assert after[0] == levels[0]; }
    if Consistent(after) {
      forall k: nat ensures TouchesOnlySet(levels, f, k) {
        if k < |levels| {
          LevelsDetermined(after, levels, k);
          EmptyLevel(levels[k], f, k);
        }
      }
    }
    if forall k: nat :: TouchesOnlySet(levels, f, k) {
      forall k: nat | k < |levels| ensures after[k] == levels[k] {
        assert TouchesOnlySet(levels, f, k);
        EmptyLevel(levels[k], f, k);
      }
      assert after == levels;
    }
    forall k: nat | f % 8 == 0 ensures TouchesOnlySet(levels, f, k) {
      if k < LEVELS { EmptyAt(f, k); }
    }
  }

  lemma EmptyAt(f: nat, k: nat)
    requires f % 8 == 0 && k < LEVELS
    ensures StartAt(f, k) == EndAt(f, k)
  {
    var eighth := f / 8;
    assert f == 8 * eighth;
    if k > 0 { assert StartAt(f, 1) == 4 * eighth == EndAt(f, 1); }
    if k > 1 { assert StartAt(f, 2) == 2 * eighth == EndAt(f, 2); }
    if k > 2 { assert StartAt(f, 3) == eighth == EndAt(f, 3); }
  }

  ghost function ClearLevels(frames: nat): seq<seq<bool>> {
    seq(if frames == 0 then 0 else LEVELS, k requires 0 <= k < LEVELS => seq(32 * LevelWords(frames, k), i => false))
  }

  lemma ClearBits(words: seq<Word>)
    requires forall x :: 0 <= x < |words| ==> words[x] == 0
    ensures Bits(words) == seq(32 * |words|, i => false)
  {
    forall i: nat | i < 32 * |words| ensures !Bits(words)[i] { ZeroTest(i % 32); }
  }

  /** A level with every bit set that stands for anything beyond `frames`. */
  function TailLevel(b: seq<bool>, exact: bool, frames: nat, level: nat): seq<bool> {
    Cover(b, exact, StartAt(frames, level), if |b| < StartAt(frames, level) then 0 else |b| - StartAt(frames, level))
  }

  function TailTaken(levels: seq<seq<bool>>, exact: bool, frames: nat): seq<seq<bool>> {
    seq(|levels|, k requires 0 <= k < |levels| => TailLevel(levels[k], exact, frames, k))
  }

  lemma TailFits(frames: nat, level: nat)
    ensures StartAt(frames, level) <= LevelBits(frames, level) <= 32 * LevelWords(frames, level)
  {
    RangeAt(frames, frames, frames, level);
  }

  /** The intended start: everything beyond the memory taken at all levels, everything else free. */
  lemma TailIsReady(frames: nat)
    ensures var levels := TailTaken(ClearLevels(frames), true, frames);
            Consistent(levels) && TailSet(FrameBits(levels), frames)
  {
    var levels := TailTaken(ClearLevels(frames), true, frames);
    forall k: nat ensures SummaryAt(levels, k) {
      if k + 1 < |levels| {
        TailFits(frames, k);
        TailFits(frames, k + 1);
        var lo, hi := levels[k], levels[k + 1];
        assert StartAt(frames, k + 1) == StartAt(frames, k) / 2;
        forall i: nat ensures Summed(lo, hi, i) {
        }
      }
    }
  }

  /** With all words of a level in use, the next level has words for just as many blocks only if the
      number of words is even. */
  lemma FullWordsEven(levels: seq<seq<bool>>, f: nat, frames: nat, k: nat, m: nat)
    requires f <= frames && k + 1 < LEVELS && frames > 0 && LevelBits(frames, k) == 32 * m
    requires levels == CoverAll(ClearLevels(frames), true, f, frames) && Consistent(levels)
    ensures m % 2 == 0 && LevelBits(frames, k + 1) == 32 * (m / 2)
  {
    if m % 2 != 0 { OddWords(levels, f, frames, k, m); }
    assert SummaryAt(levels, k);
  }

  lemma OddWords(levels: seq<seq<bool>>, f: nat, frames: nat, k: nat, m: nat)
    requires f <= frames && k + 1 < LEVELS && frames > 0 && LevelBits(frames, k) == 32 * m && m % 2 != 0
    requires levels == CoverAll(ClearLevels(frames), true, f, frames)
    ensures !SummaryAt(levels, k)
  {
    var i := 16 * m + 15;
    RangeAt(f, frames, frames, k + 1);
    OddHalf(frames, k, m);
    assert |levels[k + 1]| == 16 * m + 16 && |levels[k]| == 32 * m;
    hide LevelBits, LevelWords, StartAt, EndAt;
    assert !levels[k + 1][i] && Used(levels[k], 2 * i);
    assert !Summed(levels[k], levels[k + 1], i);
  }

  lemma OddHalf(frames: nat, k: nat, m: nat)
    requires LevelBits(frames, k) == 32 * m && m % 2 != 0
    ensures LevelBits(frames, k + 1) == 16 * m
    ensures 32 * LevelWords(frames, k + 1) == 16 * m + 16 && 32 * LevelWords(frames, k) == 32 * m
  {
  }

  lemma ClearIsConsistent(frames: nat)
    requires frames % 256 == 0
    ensures Consistent(ClearLevels(frames))
  {
    var levels := ClearLevels(frames);
    forall k: nat ensures SummaryAt(levels, k) {
      if k + 1 < |levels| {
        ClearWords(frames, k);
        var lo, hi := levels[k], levels[k + 1];
        forall i: nat ensures Summed(lo, hi, i) {}
      }
    }
  }

  /** Reserving no bytes at frame 1 of a free memory of 256 frames takes no frame, but a block at each higher level. */
  lemma EmptyReserveTakesBlocks()
    ensures var levels := ClearLevels(256);
            var after := CoverAll(levels, true, 1, 1);
            Consistent(levels) && FrameBits(after) == FrameBits(levels) && !Consistent(after)
  {
    var levels := ClearLevels(256);
    ClearIsConsistent(256);
    assert StartAt(1, 0) == EndAt(1, 0) == 1 && StartAt(1, 1) == 0 && EndAt(1, 1) == 1;
    assert CoverLevel(levels[0], true, 1, 1, 0) == levels[0];
    assert |levels[1]| > 0 && !levels[1][0];
    hide ClearLevels, LevelWords;
    EmptyReserve(levels, 1);
    assert !TouchesOnlySet(levels, 1, 1);
  }

  /** A block with a frame in use, or a frame that is not stored, is in use. */
  lemma {:induction false} UsedUp(levels: seq<seq<bool>>, x: nat, k: nat)
    requires Consistent(levels) && k < |levels| && Used(levels[0], x)
    ensures Used(levels[k], StartAt(x, k))
  {
    if k > 0 {
      UsedUp(levels, x, k - 1);
      assert SummaryAt(levels, k - 1) && Summed(levels[k - 1], levels[k], StartAt(x, k));
    }
  }

  /** What reserving a range of frames leaves of the invariant. */
  ghost predicate KeepsReady(levels: seq<seq<bool>>, f: nat, e: nat) {
    f < e || forall k: nat :: TouchesOnlySet(levels, f, k)
  }

  lemma ReservedIsReady(levels: seq<seq<bool>>, f: nat, e: nat, frames: nat)
    requires Sized(levels, frames) && Consistent(levels) && TailSet(FrameBits(levels), frames) && f <= e <= frames
    ensures var after := CoverAll(levels, true, f, e);
            Consistent(after) && TailSet(FrameBits(after), frames) <==> KeepsReady(levels, f, e)
    ensures f == frames ==> KeepsReady(levels, f, e)
  {
    assert |levels| <= LEVELS;
    if f < e {
      hide Sized, Consistent, TailSet, CoverAll;
      TakenIsReady(levels, f, e, frames);
    } else {
      EmptyTail(levels, f, frames);
      hide Sized, Consistent, TailSet, CoverAll, FrameBits, TouchesOnlySet;
      EmptyReserve(levels, f);
      if f == frames { TouchesTail(levels, frames); }
    }
  }

  lemma EmptyTail(levels: seq<seq<bool>>, f: nat, frames: nat)
    requires TailSet(FrameBits(levels), frames)
    ensures TailSet(FrameBits(CoverAll(levels, true, f, f)), frames)
  {
  }

  /** What a range of no frames at the end of the memory touches stands for something beyond it. */
  lemma TouchesTail(levels: seq<seq<bool>>, frames: nat)
    requires Consistent(levels) && TailSet(FrameBits(levels), frames)
    ensures forall k: nat :: TouchesOnlySet(levels, frames, k)
  {
    forall k: nat ensures TouchesOnlySet(levels, frames, k) {
      if k < |levels| { UsedUp(levels, frames, k); }
    }
  }

  lemma ClearWords(frames: nat, k: nat)
    requires frames % 256 == 0 && k + 1 < LEVELS
    ensures LevelWords(frames, k) == 2 * LevelWords(frames, k + 1)
  {
    var m := frames / 256;
    assert LevelBits(frames, 0) == 256 * m && LevelBits(frames, 1) == 128 * m;
    assert LevelBits(frames, 2) == 64 * m && LevelBits(frames, 3) == 32 * m;
    assert k == 0 || k == 1 || k == 2;
  }

  lemma NoTailNeeded(frames: nat, f: nat)
    requires frames % 256 == 0 && f <= frames
    ensures var levels := CoverAll(ClearLevels(frames), true, f, frames);
            Consistent(levels) && TailSet(FrameBits(levels), frames)
  {
    NoTailBits(frames, f);
    ClearIsConsistent(frames);
    if f == frames { NoTailAtAll(frames); } else { NoTailPart(frames, f); }
  }

  lemma NoTailAtAll(frames: nat)
    requires frames % 256 == 0
    ensures CoverAll(ClearLevels(frames), true, frames, frames) == ClearLevels(frames)
  {
    assert |ClearLevels(frames)| <= LEVELS;
    assert frames % 8 == 0 by { assert frames == 8 * (frames / 256 * 32); }
    hide Consistent, CoverAll, LevelWords, ClearLevels, TouchesOnlySet;
    ClearIsConsistent(frames);
    EmptyReserve(ClearLevels(frames), frames);
  }

  lemma NoTailPart(frames: nat, f: nat)
    requires frames % 256 == 0 && f < frames
    ensures Consistent(CoverAll(ClearLevels(frames), true, f, frames))
  {
    hide Consistent, SummaryAt, CoverAll, ClearLevels, EndFits;
    ClearIsConsistent(frames);
    forall k: nat ensures EndFits(ClearLevels(frames), frames, k) { ClearFits(f, frames, k); }
    CoverAllKeepsConsistent(ClearLevels(frames), f, frames);
  }

  lemma NoTailBits(frames: nat, f: nat)
    requires frames % 256 == 0 && f <= frames
    ensures TailSet(FrameBits(CoverAll(ClearLevels(frames), true, f, frames)), frames)
  {
    WholeWords(frames, frames / 256);
    assert LevelBits(frames, 0) == frames;
    hide LevelWords, LevelBits, CoverLevel;
    var levels := CoverAll(ClearLevels(frames), true, f, frames);
    assert levels != [] ==> |levels[0]| == frames by { CoverLength(ClearLevels(frames), f, frames); }
  }

  lemma CoverLength(levels: seq<seq<bool>>, f: nat, e: nat)
    requires f <= e
    ensures |CoverAll(levels, true, f, e)| == |levels|
    ensures forall k :: 0 <= k < |levels| ==> |CoverAll(levels, true, f, e)[k]| == |levels[k]|
  {
  }

  lemma WholeWords(frames: nat, n: nat)
    requires n == frames / 256 && frames % 256 == 0
    ensures 32 * LevelWords(frames, 0) == frames
  {
    FullBytes(frames, n);
    hide LevelWords;
    WordsOf(frames, 8 * n);
  }

  lemma FullBytes(frames: nat, n: nat)
    requires n == frames / 256 && frames % 256 == 0
    ensures frames == 32 * (8 * n)
  {
  }

  lemma WordsOf(frames: nat, m: nat)
    requires frames == 32 * m
    ensures LevelWords(frames, 0) == m
  {
  }

  lemma ClearFits(f: nat, frames: nat, k: nat)
    requires f <= frames
    ensures EndFits(ClearLevels(frames), frames, k)
  {
    RangeAt(f, frames, frames, k);
  }

  lemma TailInWords(frames: nat, f: nat)
    requires 0 < frames && f <= frames
    requires TailSet(FrameBits(CoverAll(ClearLevels(frames), true, f, frames)), frames)
    ensures frames % 32 == 0
  {
    if frames % 32 != 0 { ClearBeyond(frames, f); }
  }

  lemma ClearBeyond(frames: nat, f: nat)
    requires f <= frames && frames % 32 != 0
    ensures !TailSet(FrameBits(CoverAll(ClearLevels(frames), true, f, frames)), frames)
  {
    assert !CoverAll(ClearLevels(frames), true, f, frames)[0][frames];
  }

  lemma EvenThrice(m: nat, half: nat, quarter: nat)
    requires half == m / 2 && quarter == half / 2
    requires m % 2 == 0 && half % 2 == 0 && quarter % 2 == 0
    ensures 32 * m % 256 == 0
  {
    Twice(m, half);
    Twice(half, quarter);
    Twice(quarter, quarter / 2);
    WholeBlocks(quarter / 2);
  }

  lemma Twice(m: nat, half: nat)
    requires half == m / 2 && m % 2 == 0
    ensures m == 2 * half
  {
  }

  lemma WholeBlocks(n: nat)
    ensures 256 * n % 256 == 0
  {
  }

  lemma TailNeeded(frames: nat, f: nat)
    requires f <= frames
    requires var levels := CoverAll(ClearLevels(frames), true, f, frames);
             Consistent(levels) && TailSet(FrameBits(levels), frames)
    ensures frames % 256 == 0
  {
    hide Consistent, TailSet, Cover, ClearLevels, CoverAll, FrameBits;
    if frames > 0 {
      var levels := CoverAll(ClearLevels(frames), true, f, frames);
      TailInWords(frames, f);
      var m := frames / 32;
      FullWordsEven(levels, f, frames, 0, m);
      FullWordsEven(levels, f, frames, 1, m / 2);
      FullWordsEven(levels, f, frames, 2, m / 2 / 2);
      EvenThrice(m, m / 2, m / 2 / 2);
    }
  }

  /** As written, the clamped tail reservation leaves a correct start exactly when there is no tail at
      any level, that is when the number of frames is a multiple of 256. */
  lemma ClampedTail(size: nat)
    ensures var frames := NumFrames(size);
            size / FRAME_SIZE <= frames &&
            var levels := CoverAll(ClearLevels(frames), true, size / FRAME_SIZE, frames);
            Consistent(levels) && TailSet(FrameBits(levels), frames) <==> frames % 256 == 0
  {
    var frames, f := NumFrames(size), size / FRAME_SIZE;
    assert f <= frames;
    hide Consistent, TailSet, CoverAll, NumFrames;
    var levels := CoverAll(ClearLevels(frames), true, f, frames);
    if Consistent(levels) && TailSet(FrameBits(levels), frames) { TailNeeded(frames, f); }
    if frames % 256 == 0 { NoTailNeeded(frames, f); }
  }

  /** With a single frame of memory, frames beyond it are free at the start. */
  lemma ClampedTailOfOneFrame()
    ensures var levels := CoverAll(ClearLevels(1), true, FRAME_SIZE / FRAME_SIZE, 1);
            !(Consistent(levels) && TailSet(FrameBits(levels), 1))
  {
    ClampedTail(FRAME_SIZE);
  }

  // ---------------------------------------------------------------- the allocator as written

  /** The search as written stops at level k: it is the highest, from the smallest covering one downwards, with a run of
      clear blocks or a window that passes for one. */
  ghost predicate StopsAt(levels: seq<seq<bool>>, len: nat, k: nat) {
    && k < |levels| && k < LEVELS && k <= TopLevel(len)
    && Reached(levels[k], BlocksFor(len, k))
    && NoneReachedAbove(levels, len, k)
  }

  ghost predicate NoneReachedAbove(levels: seq<seq<bool>>, len: nat, k: nat) {
    forall j: nat :: k < j <= TopLevel(len) ==> NotReached(levels, len, j)
  }

  ghost predicate NotReached(levels: seq<seq<bool>>, len: nat, j: nat) {
    j < |levels| && j < LEVELS ==> !Reached(levels[j], BlocksFor(len, j))
  }

  /** The masks as written set just the blocks of a frame range at a level. */
  ghost predicate ExactAt(levels: seq<seq<bool>>, f: nat, e: nat, j: nat) {
    j < |levels| ==>
      && StartAt(f, j) <= EndAt(e, j) <= |levels[j]| && |levels[j]| % 32 == 0
      && ExactlySet(levels[j], StartAt(f, j), EndAt(e, j) - StartAt(f, j))
  }

  /** What the allocator as written needs of the levels to take the right frames: at the level where the search stops
      no window passes for a run before the first run ends, and for the first run the masks are exact at all levels. */
  ghost predicate Proper(levels: seq<seq<bool>>, len: nat, k: nat) {
    k < |levels| && k < LEVELS && !Misled(levels[k], BlocksFor(len, k)) && exists s: nat :: ProperAt(levels, len, k, s)
  }

  ghost predicate ProperAt(levels: seq<seq<bool>>, len: nat, k: nat, s: nat)
    requires k < |levels| && k < LEVELS
  {
    FirstRun(levels[k], BlocksFor(len, k), s) && ExactFrom(levels, Frames(s, k), Frames(s, k) + NumFrames(len))
  }

  ghost predicate ExactFrom(levels: seq<seq<bool>>, f: nat, e: nat) {
    forall j: nat :: ExactAt(levels, f, e, j)
  }

  lemma {:induction false} FramesLinear(a: nat, b: nat, k: nat)
    ensures Frames(a + b, k) == Frames(a, k) + Frames(b, k)
    decreases k
  {
    if k > 0 { FramesLinear(2 * a, 2 * b, k - 1); }
  }

  /** Blocks beyond the bits of a level are frames beyond the memory. */
  lemma {:induction false} BeyondLevel(frames: nat, x: nat, k: nat)
    requires x >= LevelBits(frames, k)
    ensures Frames(x, k) >= frames
    decreases k
  {
    if k > 0 { BeyondLevel(frames, 2 * x, k - 1); }
  }

  /** A block in use has a frame in use, or one beyond the memory. */
  lemma {:induction false} UsedDown(levels: seq<seq<bool>>, frames: nat, k: nat, i: nat) returns (x: nat)
    requires Sized(levels, frames) && Consistent(levels) && k < |levels| && Used(levels[k], i)
    ensures Frames(i, k) <= x < Frames(i + 1, k) && (x >= frames || (x < |levels[0]| && levels[0][x]))
    decreases k
  {
    FramesLinear(i, 1, k);
    OneFrameAtLeast(k);
    if i >= |levels[k]| {
      BeyondLevel(frames, i, k);
      x := Frames(i, k);
    } else if k == 0 {
      x := i;
    } else {
      assert SummaryAt(levels, k - 1) && Summed(levels[k - 1], levels[k], i);
      hide Summary, Consistent, Sized;
      FramesLinear(2 * i, 1, k - 1);
      FramesLinear(2 * i + 1, 1, k - 1);
      OneFrameAtLeast(k - 1);
      x := UsedDown(levels, frames, k - 1, if Used(levels[k - 1], 2 * i) then 2 * i else 2 * i + 1);
    }
  }

  lemma {:induction false} OneFrameAtLeast(k: nat)
    ensures Frames(1, k) > 0
  {
    if k > 0 {
      OneFrameAtLeast(k - 1);
      FramesLinear(1, 1, k - 1);
    }
  }

  /** All blocks but the last one needed for `len` bytes are smaller together than those. */
  lemma AllButLast(len: nat, k: nat)
    requires k < LEVELS && len > 0
    ensures BlocksFor(len, k) > 0 && Frames(BlocksFor(len, k) - 1, k) < NumFrames(len)
  {
    LastBlock(len, k);
    BlocksCover(len, BlocksFor(len, k) - 1, k);
  }

  lemma LastBlock(len: nat, k: nat)
    requires k < LEVELS && len > 0
    ensures BlocksFor(len, k) > 0 && (BlocksFor(len, k) - 1) * BlockLen(k) < len
  {
    BlockLens();
    if k == 0 {
    } else if k == 1 {
    } else if k == 2 {
    }
  }

  /** If a block before the last one is in use, the frames of the request are not all free. */
  lemma UsedInRange(levels: seq<seq<bool>>, frames: nat, len: nat, k: nat, s: nat, i: nat)
    requires Sized(levels, frames) && Consistent(levels) && k < |levels| && k < LEVELS && len > 0
    requires s <= i && i + 1 < s + BlocksFor(len, k) && Used(levels[k], i)
    requires Frames(s, k) + NumFrames(len) <= frames
    ensures !ClearRun(FrameBits(levels), Frames(s, k), NumFrames(len))
  {
    hide Consistent, Sized, NumFrames, BlocksFor, Frames;
    var x := UsedDown(levels, frames, k, i);
    AllButLast(len, k);
    var n := BlocksFor(len, k);
    FramesLinear(s, i - s, k);
    FramesLinear(s, i + 1 - s, k);
    FramesLinear(i + 1 - s, n - 1 - (i + 1 - s), k);
    assert s + (i + 1 - s) == i + 1 && s + (i - s) == i && (i + 1 - s) + (n - 1 - (i + 1 - s)) == n - 1;
  }

  lemma FirstIsOne(b: seq<bool>, n: nat, s: nat, t: nat)
    requires FirstRun(b, n, s) && FirstRun(b, n, t)
    ensures s == t
  {
    assert s < t ==> !ClearRun(b, s, n);
    assert t < s ==> !ClearRun(b, t, n);
  }

  /** The masks as written take just a range of frames exactly if they are exact at all levels. */
  lemma ExactLevels(levels: seq<seq<bool>>, f: nat, e: nat, frames: nat)
    requires Sized(levels, frames) && f < e <= frames
    ensures CoverAll(levels, false, f, e) == CoverAll(levels, true, f, e) <==> ExactFrom(levels, f, e)
  {
    var w, x := CoverAll(levels, false, f, e), CoverAll(levels, true, f, e);
    forall j: nat | j < |levels| ensures w[j] == x[j] <==> ExactAt(levels, f, e, j) {
      ExactLevel(levels, f, e, frames, j);
    }
    if w == x {
      forall j: nat ensures ExactAt(levels, f, e, j) {
        if j < |levels| { assert w[j] == x[j]; }
      }
    }
  }

  lemma ExactLevel(levels: seq<seq<bool>>, f: nat, e: nat, frames: nat, j: nat)
    requires Sized(levels, frames) && f < e <= frames && j < |levels|
    ensures CoverLevel(levels[j], false, f, e, j) == CoverLevel(levels[j], true, f, e, j) <==> ExactAt(levels, f, e, j)
  {
    RangeAt(f, e, frames, j);
    hide Cover, ExactlySet;
    WrittenIsExact(levels[j], StartAt(f, j), EndAt(e, j) - StartAt(f, j));
  }

  lemma StopsNowhere(levels: seq<seq<bool>>, len: nat)
    requires NotReached(levels, len, 0) && NoneReachedAbove(levels, len, 0)
    ensures forall j: nat :: !StopsAt(levels, len, j)
  {
    forall j: nat ensures !StopsAt(levels, len, j) {
      assert NotReached(levels, len, j) || j > TopLevel(len);
    }
  }

  lemma NoLevels(levels: seq<seq<bool>>, len: nat)
    requires levels == []
    ensures forall j: nat :: !StopsAt(levels, len, j)
  {
  }

  /** The levels after a byte range was reserved, as far as there is memory. */
  ghost function Claim(levels: seq<seq<bool>>, exact: bool, addr: nat, len: nat, max: nat): seq<seq<bool>> {
    if addr > max then levels
    else
      FrameOrder(addr, len, max);
      CoverAll(levels, exact, addr / FRAME_SIZE, NumFrames(if addr + len > max then max else addr + len))
  }

  /** The search as written returned block s of level k. */
  ghost predicate Returned(b: seq<bool>, n: nat, s: nat) {
    && n > 0 && s + n <= |b| && !b[s + n - 1]
    && (FirstRun(b, n, s) || exists i: nat :: s <= i < s + n && b[i])
    && (FirstRun(b, n, s) <==> !Misled(b, n))
  }

  /** The frames taken, for block s of level k. */
  ghost predicate TakesRight(levels: seq<seq<bool>>, len: nat, k: nat, s: nat, max: nat) {
    Taken(levels, Claim(levels, false, Frames(s, k) * FRAME_SIZE, len, max), Frames(s, k),
          Frames(s, k) + NumFrames(len), NumFrames(max))
  }

  lemma ProperTakes(levels: seq<seq<bool>>, len: nat, k: nat, s: nat, max: nat)
    requires Sized(levels, NumFrames(max)) && Consistent(levels) && TailSet(FrameBits(levels), NumFrames(max))
    requires k < |levels| && k < LEVELS && len > 0 && Returned(levels[k], BlocksFor(len, k), s)
    requires Proper(levels, len, k)
    ensures TakesRight(levels, len, k, s, max)
  {
    var n, frames, f := NumFrames(len), NumFrames(max), Frames(s, k);
    BlocksCover(len, s, k);
    AtFrame(f, n, len, max);
    hide Sized, Consistent, TailSet, BlockLen, NumFrames, CoverAll, ClearRun, FirstRun, Misled, Frames, ExactFrom,
      BlocksFor;
    var t: nat :| ProperAt(levels, len, k, t);
    FirstIsOne(levels[k], BlocksFor(len, k), s, t);
    FirstIsClear(levels[k], BlocksFor(len, k), s);
    FoundIsFree(levels, len, k, s, max);
    ExactLevels(levels, f, f + n, frames);
  }

  lemma TakesProper(levels: seq<seq<bool>>, len: nat, k: nat, s: nat, max: nat)
    requires Sized(levels, NumFrames(max)) && Consistent(levels)
    requires k < |levels| && k < LEVELS && len > 0 && Returned(levels[k], BlocksFor(len, k), s)
    requires TakesRight(levels, len, k, s, max)
    ensures Proper(levels, len, k)
  {
    var n, frames, f := NumFrames(len), NumFrames(max), Frames(s, k);
    AtFrame(f, n, len, max);
    hide Sized, Consistent, BlockLen, NumFrames, CoverAll, ClearRun, FirstRun, Misled, Frames, ExactFrom, BlocksFor;
    ExactLevels(levels, f, f + n, frames);
    if !FirstRun(levels[k], BlocksFor(len, k), s) {
      var i: nat :| s <= i < s + BlocksFor(len, k) && levels[k][i];
      UsedInRange(levels, frames, len, k, s, i);
    } else {
      assert ProperAt(levels, len, k, s);
    }
  }

  lemma HitReturned(words: seq<Word>, n: nat, s: nat)
    requires IsHit(false, words, n, s + n)
    ensures n > 0 && Returned(Bits(words), n, s) && Reached(Bits(words), n)
  {
    hide Misled, Reached, FirstRun, Bits, IsHit;
    HitNotZero(false, words, n, s + n);
    WrittenScan(words, n, s);
    HitEnds(words, n, s);
  }

  /** Exactly then are the frames taken those of the request, all free before, and no others. */
  lemma WrittenTakes(levels: seq<seq<bool>>, len: nat, k: nat, s: nat, addr: nat, max: nat)
    requires Sized(levels, NumFrames(max)) && Consistent(levels) && TailSet(FrameBits(levels), NumFrames(max))
    requires k < |levels| && k < LEVELS && len > 0 && Returned(levels[k], BlocksFor(len, k), s)
    requires addr == s * BlockLen(k)
    ensures addr % FRAME_SIZE == 0
    ensures Taken(levels, Claim(levels, false, addr, len, max), addr / FRAME_SIZE, addr / FRAME_SIZE + NumFrames(len),
                  NumFrames(max))
       <==> Proper(levels, len, k)
  {
    BlocksCover(len, s, k);
    hide *;
    assert TakesRight(levels, len, k, s, max) <==> Proper(levels, len, k) by {
      if Proper(levels, len, k) { ProperTakes(levels, len, k, s, max); }
      if TakesRight(levels, len, k, s, max) { TakesProper(levels, len, k, s, max); }
    }
    AtFrame(Frames(s, k), NumFrames(len), len, max);
    TakesRightIs(levels, len, k, s, max);
  }

  lemma TakesRightIs(levels: seq<seq<bool>>, len: nat, k: nat, s: nat, max: nat)
    ensures TakesRight(levels, len, k, s, max)
         == Taken(levels, Claim(levels, false, Frames(s, k) * FRAME_SIZE, len, max), Frames(s, k),
                  Frames(s, k) + NumFrames(len), NumFrames(max))
  {
  }

  lemma FirstIsClear(b: seq<bool>, n: nat, s: nat)
    requires FirstRun(b, n, s)
    ensures ClearRun(b, s, n)
  {
  }

  lemma AtFrame(f: nat, n: nat, len: nat, max: nat)
    requires n == NumFrames(len) && len > 0
    ensures n > 0 && f * FRAME_SIZE % FRAME_SIZE == 0 && f * FRAME_SIZE / FRAME_SIZE == f
    ensures f + n <= NumFrames(max) ==>
      f * FRAME_SIZE <= max && NumFrames(if f * FRAME_SIZE + len > max then max else f * FRAME_SIZE + len) == f + n
  {
  }

  // ---------------------------------------------------------------- addresses of 32 bits

  /** What a request takes at any aligned address: free frames and nothing else exactly if the frames are there and
      free, and the masks, as far as they are not put right, happen to be exact. */
  lemma ClaimTakes(levels: seq<seq<bool>>, exact: bool, addr: nat, len: nat, max: nat)
    requires Sized(levels, NumFrames(max)) && addr % FRAME_SIZE == 0 && len > 0
    ensures TakesFrames(levels, Claim(levels, exact, addr, len, max), addr, len, max) <==>
            FreeRange(levels, addr, len, max)
            && (exact || ExactFrom(levels, addr / FRAME_SIZE, addr / FRAME_SIZE + NumFrames(len)))
  {
    var f, n, frames := addr / FRAME_SIZE, NumFrames(len), NumFrames(max);
    AtFrame(f, n, len, max);
    hide Sized, CoverAll, ClearRun, NumFrames, ExactFrom, FrameBits;
    if f + n <= frames {
      if !exact { ExactLevels(levels, f, f + n, frames); }
    }
  }

  /** The address of a block is a multiple of the frame size, also when it does not fit 32 bits. */
  lemma AddressAligned(wide: bool, s: nat, k: nat)
    requires k < LEVELS
    ensures BlockAddress(wide, s, k) % FRAME_SIZE == 0
    ensures s * BlockLen(k) < ADDRESSES ==> BlockAddress(wide, s, k) == s * BlockLen(k)
  {
    BlocksCover(0, s, k);
    hide BlockLen;
    WrapAligned(s * BlockLen(k), Frames(s, k));
  }

  lemma WrapAligned(a: nat, f: nat)
    requires a == f * FRAME_SIZE
    ensures a % ADDRESSES % FRAME_SIZE == 0 && a % FRAME_SIZE == 0
    ensures a < ADDRESSES ==> a % ADDRESSES == a
  {
  }

  /** The fewest blocks of a level that hold the request. */
  lemma FewestBlocks(len: nat, k: nat)
    requires k < 4
    ensures var block := if k == 0 then 4096 else if k == 1 then 8192 else if k == 2 then 16384 else 32768;
            len <= block * BlocksFor(len, k) < len + block
  {
    BlockLens();
  }

  /** The search starts at the smallest level whose blocks hold the request, or at the highest. */
  lemma SmallestLevel(len: nat)
    ensures TopLevel(len) <= 3 && (TopLevel(len) == 3 || len <= BlockLen(TopLevel(len)))
    ensures forall k: nat :: k < 4 && len <= BlockLen(k) ==> TopLevel(len) <= k
    ensures BlockLen(0) == 4096 && BlockLen(1) == 8192 && BlockLen(2) == 16384 && BlockLen(3) == 32768
  {
    BlockLens();
    hide BlockLen;
    forall k: nat | k < 4 && len <= BlockLen(k) ensures TopLevel(len) <= k {
      assert k == 0 || k == 1 || k == 2 || k == 3;
    }
  }

  /** A length of 1, 2, 4 or 8 frames, that of a block of some level. */
  predicate BlockSized(len: nat) { len == 4096 || len == 8192 || len == 16384 || len == 32768 }

  /** The t-th n frames, counted in n, are free. */
  ghost predicate FreeSlot(b: seq<bool>, n: nat, t: nat) { ClearRun(b, t * n, n) }

  /** Of the addresses that are multiples of the length, the lowest with free frames is number s. */
  ghost predicate LowestSlot(b: seq<bool>, n: nat, s: nat) {
    FreeSlot(b, n, s) && forall t: nat :: t < s ==> !FreeSlot(b, n, t)
  }

  /** The address is the lowest multiple of the length with free frames, cut to 32 bits unless that is put right. */
  ghost predicate NaturallyAligned(b: seq<bool>, wide: bool, len: nat, addr: nat) {
    addr % 4096 == 0 && (len > 0 ==> addr % len == 0)
    && exists s: nat :: LowestSlot(b, len / 4096, s) && addr == if wide then s * len else s * len % 0x1_0000_0000
  }

  lemma LevelOfBlock(len: nat)
    requires BlockSized(len)
    ensures TopLevel(len) < 4 && BlockLen(TopLevel(len)) == len && BlocksFor(len, TopLevel(len)) == 1
    ensures forall t: nat :: Frames(t, TopLevel(len)) == t * (len / 4096)
  {
    var k := TopLevel(len);
    BlockLens();
    forall t: nat ensures Frames(t, k) == t * (len / 4096) {
      BlocksCover(0, t, k);
    }
  }

  /** A block is free exactly if its frames are. */
  lemma SlotIsBlock(levels: seq<seq<bool>>, len: nat, t: nat, frames: nat)
    requires Sized(levels, frames) && Consistent(levels) && TailSet(FrameBits(levels), frames) && BlockSized(len)
    requires levels != []
    ensures TopLevel(len) < |levels|
    ensures FreeSlot(FrameBits(levels), len / 4096, t) <==> ClearRun(levels[TopLevel(len)], t, 1)
  {
    var k, b := TopLevel(len), FrameBits(levels);
    LevelOfBlock(len);
    assert Frames(1, k) == 1 * (len / 4096);
    assert Frames(t, k) == t * (len / 4096);
    assert |levels| == LEVELS;
    hide Sized, Consistent, TailSet, Frames, BlocksFor, TopLevel;
    if ClearRun(levels[k], t, 1) { CoarseRun(levels, k, t, 1); }
    if FreeSlot(b, len / 4096, t) {
      RunInMemory(b, Frames(t, k), Frames(1, k), frames);
      FreeBlock(levels, frames, k, t, 1, t);
    }
  }

  /** A hit for a length of one block is the first free block, if the search got no further down. */
  lemma OneBlockHit(build: Build, words: seq<Word>, len: nat, k: nat, s: nat)
    requires k < LEVELS && HitAt(build.resetOnSkip, words, len, k, s) && BlocksFor(len, k) == 1
    ensures FirstRun(Bits(words), 1, s)
  {
    if build.resetOnSkip {
      ResetScanIsPlainScan(words, 1, s);
    } else {
      HitReturned(words, 1, s);
      OneBitFound(Bits(words));
    }
  }

  /** If a block of the length of the request is free, the first one is found, whatever is to be put right. */
  lemma AlignedHit(levels: seq<seq<bool>>, build: Build, words: seq<Word>, len: nat, k: nat, s: nat, t: nat, max: nat)
    requires Sized(levels, NumFrames(max)) && Consistent(levels) && TailSet(FrameBits(levels), NumFrames(max))
    requires BlockSized(len) && FreeSlot(FrameBits(levels), len / 4096, t) && levels != []
    requires k < |levels| && k < LEVELS && k <= TopLevel(len) && levels[k] == Bits(words)
    requires HitAt(build.resetOnSkip, words, len, k, s) && NoRunAbove(levels, len, k)
    ensures NaturallyAligned(FrameBits(levels), build.wideAddress, len, BlockAddress(build.wideAddress, s, k))
  {
    var b, frames := FrameBits(levels), NumFrames(max);
    LevelOfBlock(len);
    SlotIsBlock(levels, len, t, frames);
    hide Sized, Consistent, TailSet, Frames, BlocksFor, TopLevel, HitAt, NumFrames, Bits, FreeSlot;
    if k < TopLevel(len) { NoneAt(levels, len, k, TopLevel(len)); }
    OneBlockHit(build, words, len, k, s);
    forall u: nat ensures FreeSlot(b, len / 4096, u) <==> ClearRun(levels[k], u, 1) {
      SlotIsBlock(levels, len, u, frames);
    }
    assert LowestSlot(b, len / 4096, s);
    Multiples(s, len);
  }

  lemma NoneAt(levels: seq<seq<bool>>, len: nat, k: nat, j: nat)
    requires NoRunAbove(levels, len, k) && k < j <= TopLevel(len)
    ensures NoRunAt(levels, len, j)
  {
  }

  lemma Multiples(s: nat, len: nat)
    requires BlockSized(len)
    ensures s * len % len == 0 && s * len % 0x1_0000_0000 % len == 0
    ensures s * len % 4096 == 0 && s * len % 0x1_0000_0000 % 4096 == 0
  {
    MultipleOf(s, len);
    var m := if len == 4096 then 0x10_0000 else if len == 8192 then 0x8_0000
      else if len == 16384 then 0x4_0000 else 0x2_0000;
    if s * len >= ADDRESSES {
      var t := Wrapped(s, m, len);
      MultipleOf(t, len);
    } else {
      Remainder(s * len, 0, s * len);
    }
  }

  lemma MultipleOf(s: nat, len: nat)
    requires BlockSized(len)
    ensures s * len % len == 0 && s * len % 4096 == 0
  {
    if len == 4096 {
      TimesMod(s, 4096);
    } else if len == 8192 {
      TimesMod(s, 8192);
    } else if len == 16384 {
      TimesMod(s, 16384);
    } else {
      TimesMod(s, 32768);
    }
    TimesMod(s * (len / 4096), 4096);
  }

  lemma TimesMod(s: nat, d: nat)
    requires d == 4096 || d == 8192 || d == 16384 || d == 32768
    ensures s * d % d == 0
  {
  }

  lemma SlotIsRun(b: seq<bool>, len: nat)
    requires BlockSized(len) && exists t: nat :: FreeSlot(b, len / 4096, t)
    ensures NumFrames(len) == len / 4096 && exists s: nat :: ClearRun(b, s, NumFrames(len))
  {
    var t: nat :| FreeSlot(b, len / 4096, t);
    assert ClearRun(b, t * (len / 4096), len / 4096);
  }

  /** What the search comes to for a request the size of a block, if one is free. */
  ghost predicate SlotFound(b: seq<bool>, wide: bool, len: nat, r: Option<nat>) {
    BlockSized(len) && (exists t: nat :: FreeSlot(b, len / 4096, t)) ==>
      r.Some? && NaturallyAligned(b, wide, len, r.value)
  }

  lemma SlotSearched(levels: seq<seq<bool>>, build: Build, words: seq<Word>, len: nat, k: nat, s: nat, max: nat)
    requires Sized(levels, NumFrames(max)) && Consistent(levels) && TailSet(FrameBits(levels), NumFrames(max))
    requires k < |levels| && k < LEVELS && k <= TopLevel(len) && levels[k] == Bits(words)
    requires HitAt(build.resetOnSkip, words, len, k, s) && NoRunAbove(levels, len, k)
    ensures SlotFound(FrameBits(levels), build.wideAddress, len, Some(BlockAddress(build.wideAddress, s, k)))
  {
    if BlockSized(len) && exists t: nat :: FreeSlot(FrameBits(levels), len / 4096, t) {
      var t: nat :| FreeSlot(FrameBits(levels), len / 4096, t);
      hide *;
      AlignedHit(levels, build, words, len, k, s, t, max);
    }
  }

  lemma SlotNotFound(b: seq<bool>, wide: bool, len: nat)
    requires len > 0 ==> !exists s: nat :: ClearRun(b, s, NumFrames(len))
    ensures SlotFound(b, wide, len, None)
  {
    if BlockSized(len) && exists t: nat :: FreeSlot(b, len / 4096, t) { SlotIsRun(b, len); }
  }

  /** Where the search stops, the last block is free. */
  lemma HitClear(reset: bool, words: seq<Word>, len: nat, k: nat, s: nat)
    requires k < LEVELS && HitAt(reset, words, len, k, s)
    ensures BlocksFor(len, k) > 0 && ClearRun(Bits(words), s + BlocksFor(len, k) - 1, 1)
  {
    var n := BlocksFor(len, k);
    HitNotZero(reset, words, n, s + n);
    hide Bits, IsHit, BlocksFor, FirstRun;
    if reset {
      ResetScanIsPlainScan(words, n, s);
      FirstIsClear(Bits(words), n, s);
    } else {
      HitEnds(words, n, s);
    }
  }

  /** In memory of up to 4G no address is too large. */
  lemma NoneStrays(levels: seq<seq<bool>>, words: seq<Word>, build: Build, len: nat, k: nat, max: nat)
    requires Sized(levels, NumFrames(max)) && Consistent(levels) && TailSet(FrameBits(levels), NumFrames(max))
    requires k < |levels| && k < LEVELS && levels[k] == Bits(words) && max <= ADDRESSES
    ensures !Strays(build, words, len, k)
  {
    forall s: nat | HitAt(build.resetOnSkip, words, len, k, s) ensures s * BlockLen(k) < ADDRESSES {
      HitClear(build.resetOnSkip, words, len, k, s);
      hide *;
      ClearBelow(levels, k, s, s + BlocksFor(len, k) - 1, max);
    }
  }

  lemma ClearBelow(levels: seq<seq<bool>>, k: nat, s: nat, last: nat, max: nat)
    requires Sized(levels, NumFrames(max)) && Consistent(levels) && TailSet(FrameBits(levels), NumFrames(max))
    requires k < |levels| && k < LEVELS && s <= last && ClearRun(levels[k], last, 1) && max <= ADDRESSES
    ensures s * BlockLen(k) < ADDRESSES
  {
    hide Sized, Consistent, TailSet, Frames, NumFrames, ClearRun, BlockLen;
    CoarseRun(levels, k, last, 1);
    OneFrameAtLeast(k);
    RunInMemory(levels[0], Frames(last, k), Frames(1, k), NumFrames(max));
    FramesLinear(s, last - s, k);
    assert s + (last - s) == last;
    BlocksCover(0, s, k);
    BelowMax(Frames(s, k), max);
  }

  lemma BelowMax(f: nat, max: nat)
    requires f < NumFrames(max) && max <= ADDRESSES
    ensures f * FRAME_SIZE < ADDRESSES
  {
  }

  /** A request for whole blocks of a level, such as any number of frames at level 0. */
  predicate WholeBlocksFor(len: nat, k: nat) {
    k < LEVELS && len == BlocksFor(len, k) * BlockLen(k)
  }

  /** A search for whole blocks that stops at a first run from 4G on. */
  ghost predicate StraysPlainly(build: Build, levels: seq<seq<bool>>, words: seq<Word>, len: nat, k: nat) {
    && Strays(build, words, len, k) && WholeBlocksFor(len, k)
    && (build.resetOnSkip || (k < |levels| && !Misled(levels[k], BlocksFor(len, k))))
  }

  lemma HitIsOne(build: Build, words: seq<Word>, len: nat, k: nat, s: nat)
    requires k < LEVELS && HitAt(build.resetOnSkip, words, len, k, s) && Strays(build, words, len, k)
    ensures s * BlockLen(k) >= ADDRESSES && !build.wideAddress
  {
    hide BlockLen;
    var t: nat :| t * BlockLen(k) >= ADDRESSES && HitAt(build.resetOnSkip, words, len, k, t);
    assert t + BlocksFor(len, k) == s + BlocksFor(len, k);
  }

  /** For whole blocks, where the search is not misled, an address that does not fit 32 bits never is that of free
      frames: the first run would have been found there. */
  lemma StraysNeverFree(levels: seq<seq<bool>>, len: nat, k: nat, s: nat, max: nat)
    requires Sized(levels, NumFrames(max)) && Consistent(levels) && k < |levels| && k < LEVELS
    requires len > 0 && WholeBlocksFor(len, k)
    requires FirstRun(levels[k], BlocksFor(len, k), s) && s * BlockLen(k) >= ADDRESSES
    ensures !FreeRange(levels, BlockAddress(false, s, k), len, max)
  {
    var n := BlocksFor(len, k);
    var t := WrappedBlock(s, k);
    BlocksCover(len, t, k);
    WholeFrames(len, k);
    var f := BlockAddress(false, s, k) / FRAME_SIZE;
    hide Sized, Consistent, BlocksFor, Frames, FirstRun, FrameBits;
    if FreeRange(levels, BlockAddress(false, s, k), len, max) {
      forall i: nat | t <= i < t + n ensures !Used(levels[k], i) {
        FreeBlock(levels, NumFrames(max), k, t, n, i);
      }
      EarlierRun(levels[k], n, s, t);
    }
  }

  /** Blocks of free frames of the memory are free. */
  lemma FreeBlock(levels: seq<seq<bool>>, frames: nat, k: nat, t: nat, n: nat, i: nat)
    requires Sized(levels, frames) && Consistent(levels) && k < |levels| && t <= i < t + n
    requires ClearRun(levels[0], Frames(t, k), Frames(n, k)) && Frames(t, k) + Frames(n, k) <= frames
    ensures !Used(levels[k], i)
  {
    hide Sized, Consistent, Frames;
    assert t + (i - t) == i && t + (i + 1 - t) == i + 1 && (i + 1 - t) + (n - (i + 1 - t)) == n;
    FramesLinear(t, i - t, k);
    FramesLinear(t, i + 1 - t, k);
    FramesLinear(i + 1 - t, n - (i + 1 - t), k);
    if Used(levels[k], i) {
      var x := UsedDown(levels, frames, k, i);
    }
  }

  lemma EarlierRun(b: seq<bool>, n: nat, s: nat, t: nat)
    requires FirstRun(b, n, s) && n > 0 && t < s
    ensures !forall i: nat :: t <= i < t + n ==> !Used(b, i)
  {
    if forall i: nat :: t <= i < t + n ==> !Used(b, i) {
      assert !Used(b, t + n - 1);
      assert ClearRun(b, t, n) by { forall i: nat | t <= i < t + n ensures !b[i] { assert !Used(b, i); } }
    }
  }

  /** The block at the address that a block from 4G on is given. */
  lemma WrappedBlock(s: nat, k: nat) returns (t: nat)
    requires k < LEVELS && s * BlockLen(k) >= ADDRESSES
    ensures t < s && BlockAddress(false, s, k) == t * BlockLen(k)
  {
    BlockLens();
    hide BlockLen;
    if k == 0 {
      t := Wrapped(s, 0x10_0000, 4096);
    } else if k == 1 {
      t := Wrapped(s, 0x8_0000, 8192);
    } else if k == 2 {
      t := Wrapped(s, 0x4_0000, 16384);
    } else {
      t := Wrapped(s, 0x2_0000, 32768);
    }
  }

  lemma Wrapped(s: nat, m: nat, len: nat) returns (t: nat)
    requires m > 0 && m * len == ADDRESSES && s * len >= ADDRESSES
    ensures t < s && s * len % ADDRESSES == t * len
  {
    var q := s / m;
    t := s % m;
    assert s == q * m + t;
    assert s * len == q * ADDRESSES + t * len;
    assert t * len < ADDRESSES by { assert (m - t) * len > 0; }
    assert q * ADDRESSES > 0;
    assert q * m >= 1 * m;
    Remainder(s * len, q, t * len);
  }

  lemma Remainder(x: nat, q: nat, r: nat)
    requires x == q * ADDRESSES + r && r < ADDRESSES
    ensures x % ADDRESSES == r
  {
  }

  lemma WholeFrames(len: nat, k: nat)
    requires len > 0 && WholeBlocksFor(len, k)
    ensures BlocksFor(len, k) > 0 && NumFrames(len) == Frames(BlocksFor(len, k), k)
  {
    BlocksCover(len, BlocksFor(len, k), k);
    SizeOf(Frames(BlocksFor(len, k), k));
  }

  /** The frames at an address are free, and the masks as written happen to set just those. */
  ghost predicate LuckyAt(levels: seq<seq<bool>>, addr: nat, len: nat, max: nat) {
    && FreeRange(levels, addr, len, max)
    && ExactFrom(levels, addr / FRAME_SIZE, addr / FRAME_SIZE + NumFrames(len))
  }

  /** What the allocator as written takes, wherever the search stops. */
  lemma WrittenAnywhere(levels: seq<seq<bool>>, build: Build, words: seq<Word>, len: nat, k: nat, s: nat, max: nat)
    requires Sized(levels, NumFrames(max)) && Consistent(levels) && TailSet(FrameBits(levels), NumFrames(max))
    requires k < |levels| && k < LEVELS && len > 0 && Returned(levels[k], BlocksFor(len, k), s)
    requires !build.resetOnSkip && HitAt(false, words, len, k, s)
    ensures var addr := BlockAddress(build.wideAddress, s, k);
            TakesFrames(levels, Claim(levels, false, addr, len, max), addr, len, max) <==>
            if Strays(build, words, len, k) then LuckyAt(levels, addr, len, max) else Proper(levels, len, k)
  {
    AddressAligned(build.wideAddress, s, k);
    hide Sized, Consistent, TailSet, FrameBits, BlockLen, HitAt, Returned, Proper, Claim, FreeRange, ExactFrom,
      NumFrames;
    var addr := BlockAddress(build.wideAddress, s, k);
    if Strays(build, words, len, k) {
      ClaimTakes(levels, false, addr, len, max);
    } else {
      WrittenTakes(levels, len, k, s, addr, max);
    }
  }

  /** Where it strays, for whole blocks, it takes frames in use unless the search was misled. */
  lemma WrittenPlainly(levels: seq<seq<bool>>, build: Build, words: seq<Word>, len: nat, k: nat, s: nat, max: nat)
    requires Sized(levels, NumFrames(max)) && Consistent(levels)
    requires k < |levels| && len > 0 && Returned(levels[k], BlocksFor(len, k), s)
    requires !build.resetOnSkip && k < LEVELS && HitAt(false, words, len, k, s)
    requires StraysPlainly(build, levels, words, len, k)
    ensures !LuckyAt(levels, BlockAddress(build.wideAddress, s, k), len, max)
  {
    hide Sized, Consistent, BlockLen, HitAt, Strays, FreeRange, ExactFrom, NumFrames, Misled, FirstRun, BlocksFor;
    HitIsOne(build, words, len, k, s);
    StraysNeverFree(levels, len, k, s, max);
  }

  /** And what it takes with the search and the masks put right. */
  lemma FoundAnywhere(levels: seq<seq<bool>>, build: Build, words: seq<Word>, len: nat, k: nat, s: nat, max: nat)
    requires Sized(levels, NumFrames(max)) && Consistent(levels) && TailSet(FrameBits(levels), NumFrames(max))
    requires len > 0 && IsSpot(levels, len, k, s) && build.resetOnSkip && HitAt(true, words, len, k, s)
    ensures var addr := BlockAddress(build.wideAddress, s, k);
            && (TakesFrames(levels, Claim(levels, true, addr, len, max), addr, len, max) <==>
                (Strays(build, words, len, k) ==> FreeRange(levels, addr, len, max)))
            && (StraysPlainly(build, levels, words, len, k) ==> !FreeRange(levels, addr, len, max))
            && exists t: nat :: ClearRun(FrameBits(levels), t, NumFrames(len))
  {
    var addr := BlockAddress(build.wideAddress, s, k);
    AddressAligned(build.wideAddress, s, k);
    FoundIsTaken(levels, len, k, s, max);
    ClaimTakes(levels, true, addr, len, max);
    if Strays(build, words, len, k) {
      HitIsOne(build, words, len, k, s);
      if WholeBlocksFor(len, k) { StraysNeverFree(levels, len, k, s, max); }
    } else {
      assert addr == s * BlockLen(k);
    }
  }

  lemma HalfRange(f: nat, k: nat, m: nat)
    requires StartAt(f, k) == 2 * m == EndAt(f, k)
    ensures StartAt(f, k + 1) == m == EndAt(f, k + 1)
  {
  }

  /** A multiple of 256 frames ends on a word at every level. */
  lemma EvenRange(f: nat, a: nat, k: nat) returns (m: nat)
    requires f == 256 * a && k < LEVELS
    ensures StartAt(f, k) == 32 * m == EndAt(f, k)
  {
    assert StartAt(f, 0) == 2 * (128 * a) == EndAt(f, 0);
    hide StartAt, EndAt;
    HalfRange(f, 0, 128 * a);
    HalfRange(f, 1, 64 * a);
    HalfRange(f, 2, 32 * a);
    m := if k == 0 then 8 * a else if k == 1 then 4 * a else if k == 2 then 2 * a else a;
  }

  /** For those the masks as written are never used, only full words. */
  lemma EvenCover(b: seq<bool>, f: nat, n: nat, x: nat, y: nat)
    requires f == 32 * x && n == 32 * y
    ensures Cover(b, false, f, n) == Cover(b, true, f, n)
  {
  }

  lemma EvenLevel(b: seq<bool>, f: nat, e: nat, k: nat)
    requires f % 256 == 0 && e % 256 == 0 && f <= e && k < LEVELS
    ensures CoverLevel(b, false, f, e, k) == CoverLevel(b, true, f, e, k)
  {
    var x := EvenRange(f, f / 256, k);
    var y := EvenRange(e, e / 256, k);
    RangeAt(f, e, e, k);
    hide StartAt, EndAt, Cover;
    EvenCover(b, StartAt(f, k), EndAt(e, k) - StartAt(f, k), x, y - x);
  }

  lemma EvenCoverAll(levels: seq<seq<bool>>, f: nat, e: nat)
    requires f % 256 == 0 && e % 256 == 0 && f <= e && |levels| <= LEVELS
    ensures CoverAll(levels, false, f, e) == CoverAll(levels, true, f, e)
  {
    forall k: nat | k < |levels| ensures CoverLevel(levels[k], false, f, e, k) == CoverLevel(levels[k], true, f, e, k) {
      EvenLevel(levels[k], f, e, k);
    }
    hide CoverLevel;
  }

  /** A range of bytes. */
  datatype Range = Range(addr: nat, len: nat)

  /** The memory of 256 frames, whose bits fill words at every level. */
  const MEGABYTE: nat := 0x10_0000

  /** A range that is reserved exactly: beyond the memory, or of some length and, with the masks as written, of whole
      megabytes in a memory of whole megabytes. */
  predicate Exactly(build: Build, max: nat, r: Range) {
    || r.addr > max
    || (r.len > 0 && (build.exactMasks || (max % MEGABYTE == 0 && r.addr % MEGABYTE == 0 && r.len % MEGABYTE == 0)))
  }

  /** The start is right as intended, and as written for whole megabytes. */
  predicate StartsRight(build: Build, max: nat) {
    (build.exactMasks && build.padTail) || (!build.exactMasks && !build.padTail && max % MEGABYTE == 0)
  }

  predicate AllExactly(build: Build, max: nat, ranges: seq<Range>) {
    forall k: nat :: k < |ranges| ==> Exactly(build, max, ranges[k])
  }

  lemma EvenFrames(addr: nat, a: nat)
    requires addr == MEGABYTE * a
    ensures addr / FRAME_SIZE == NumFrames(addr) == 256 * a && NumFrames(addr) % 256 == 0
  {
    assert addr == FRAME_SIZE * (256 * a);
  }

  lemma EvenRangeExact(levels: seq<seq<bool>>, addr: nat, end: nat)
    requires addr % MEGABYTE == 0 && end % MEGABYTE == 0 && addr <= end && |levels| <= LEVELS
    ensures addr / FRAME_SIZE <= NumFrames(end)
    ensures CoverAll(levels, false, addr / FRAME_SIZE, NumFrames(end))
          == CoverAll(levels, true, addr / FRAME_SIZE, NumFrames(end))
  {
    EvenFrames(addr, addr / MEGABYTE);
    EvenFrames(end, end / MEGABYTE);
    hide NumFrames, CoverAll;
    EvenCoverAll(levels, addr / FRAME_SIZE, NumFrames(end));
  }

  lemma ClearFrames(frames: nat)
    requires frames % 256 == 0
    ensures FrameBits(ClearLevels(frames)) == seq(frames, i => false)
  {
    WholeWords(frames, frames / 256);
    hide LevelWords;
  }

  /** As written, the start of a memory of whole megabytes is right: there is no tail. */
  lemma EvenStart(size: nat)
    requires size % MEGABYTE == 0
    ensures var frames := NumFrames(size);
            && size / FRAME_SIZE == frames
            && CoverAll(ClearLevels(frames), false, frames, frames) == ClearLevels(frames)
            && Consistent(ClearLevels(frames)) && TailSet(FrameBits(ClearLevels(frames)), frames)
            && forall i: nat :: i < |FrameBits(ClearLevels(frames))| ==>
                 i < frames && !FrameBits(ClearLevels(frames))[i]
  {
    var frames := NumFrames(size);
    EvenFrames(size, size / MEGABYTE);
    ClearFrames(frames);
    assert |ClearLevels(frames)| <= LEVELS;
    hide ClearLevels, CoverAll, Consistent, NumFrames;
    EvenCoverAll(ClearLevels(frames), frames, frames);
    NoTailAtAll(frames);
    ClearIsConsistent(frames);
  }

  lemma OneHeld(r: Range, max: nat)
    ensures forall i: nat :: Held([r], max, i) <==> HeldBy(r, max, i)
  {
    forall i: nat | HeldBy(r, max, i) ensures Held([r], max, i) { assert HeldBy([r][0], max, i); }
  }

  /** The first frame that is free. */
  ghost predicate FirstFree(b: seq<bool>, f: nat) {
    f < |b| && !b[f] && forall i: nat :: i < f ==> b[i]
  }

  /** As written, the search for one frame stops at the first one that is free. */
  lemma FrameHit(words: seq<Word>, s: nat, f: nat)
    requires HitAt(false, words, FRAME_SIZE, 0, s) && FirstFree(Bits(words), f)
    ensures s == f
  {
    var b := Bits(words);
    assert BlocksFor(FRAME_SIZE, 0) == 1 by { BlockLens(); }
    HitReturned(words, 1, s);
    OneBitFound(b);
    hide Bits;
    assert ClearRun(b, f, 1);
    assert s >= f by { assert !b[s]; }
  }

  /** With everything below frame f taken and nothing else, f is the first free frame. */
  lemma LowestFree(levels: seq<seq<bool>>, f: nat, max: nat)
    requires Sized(levels, NumFrames(max)) && 1 < f && f * FRAME_SIZE < max
    requires forall i: nat :: i < |FrameBits(levels)| ==>
               (FrameBits(levels)[i] <==> i >= NumFrames(max) || HeldBy(Range(0, f * FRAME_SIZE), max, i))
    ensures FirstFree(FrameBits(levels), f) && levels != [] && |levels[0]| > 1 && levels[0][0] && levels[0][1]
  {
  }

  lemma HighestIsZero()
    ensures BlockAddress(false, ADDRESSES / FRAME_SIZE, 0) == 0
  {
  }

  /** Reserving frame 0 as written changes no frame if it and frame 1 were in use. */
  lemma ClaimedAgain(levels: seq<seq<bool>>, max: nat)
    requires levels != [] && |levels[0]| > 1 && levels[0][0] && levels[0][1] && max >= FRAME_SIZE
    ensures FrameBits(Claim(levels, false, 0, FRAME_SIZE, max)) == FrameBits(levels)
  {
    assert FrameBits(Claim(levels, false, 0, FRAME_SIZE, max)) == Cover(levels[0], false, 0, 1);
  }

  /** Frame i has bytes of one of the ranges, as far as there is memory. */
  ghost predicate Held(ranges: seq<Range>, max: nat, i: nat) {
    exists k: nat :: k < |ranges| && HeldBy(ranges[k], max, i)
  }

  predicate HeldBy(r: Range, max: nat, i: nat) {
    r.addr <= max && r.addr / FRAME_SIZE <= i < NumFrames(if r.addr + r.len > max then max else r.addr + r.len)
  }

  lemma HeldByIs(r: Range, max: nat, i: nat)
    ensures HeldBy(r, max, i) <==> HasBytes(r.addr, r.len, max, i)
  {
    if r.addr <= max { FramesOf(r.addr, r.len, max, i); }
  }

  /** The frames of the ranges are taken, and what lies beyond the memory, and nothing else. */
  ghost predicate JustTaken(b: seq<bool>, ranges: seq<Range>, max: nat) {
    forall i: nat :: i < |b| ==> (b[i] <==> i >= NumFrames(max) || Held(ranges, max, i))
  }

  ghost predicate Added(before: seq<bool>, after: seq<bool>, ranges: seq<Range>, max: nat) {
    && |after| == |before|
    && forall i: nat :: i < |before| ==> (after[i] <==> before[i] || Held(ranges, max, i))
  }

  lemma AddedMore(before: seq<bool>, now: seq<bool>, after: seq<bool>, ranges: seq<Range>, k: nat, max: nat)
    requires k < |ranges| && Added(before, now, ranges[..k], max) && |after| == |now|
    requires forall i: nat :: i < |now| ==> (after[i] <==> now[i] || HeldBy(ranges[k], max, i))
    ensures Added(before, after, ranges[..k + 1], max)
  {
    hide HeldBy;
    var less, more := ranges[..k], ranges[..k + 1];
    assert more == less + [ranges[k]];
    forall i: nat | i < |before| ensures Held(more, max, i) <==> Held(less, max, i) || HeldBy(ranges[k], max, i) {
      if l: nat :| l < |less| && HeldBy(less[l], max, i) { assert more[l] == less[l]; }
      if HeldBy(ranges[k], max, i) { assert more[k] == ranges[k]; }
      if l: nat :| l < |more| && HeldBy(more[l], max, i) { assert l < k ==> less[l] == more[l]; }
    }
  }

  lemma TailBits(frames: nat)
    ensures var bits := FrameBits(TailTaken(ClearLevels(frames), true, frames));
            forall i: nat :: i < |bits| ==> (bits[i] <==> i >= frames)
  {
  }

  /** A range that is reserved exactly takes just its frames and keeps the invariant. */
  lemma ExactlyReserved(levels: seq<seq<bool>>, build: Build, r: Range, max: nat)
    requires Sized(levels, NumFrames(max)) && Consistent(levels) && TailSet(FrameBits(levels), NumFrames(max))
    requires Exactly(build, max, r)
    ensures var after := Claim(levels, build.exactMasks, r.addr, r.len, max);
            && Consistent(after) && TailSet(FrameBits(after), NumFrames(max))
            && |FrameBits(after)| == |FrameBits(levels)|
            && forall i: nat :: i < |FrameBits(levels)| ==>
                 (FrameBits(after)[i] <==> FrameBits(levels)[i] || HeldBy(r, max, i))
  {
    assert |levels| <= LEVELS;
    hide Sized, Consistent, TailSet, NumFrames, FrameBits, Claim, HeldBy;
    if r.addr <= max {
      if !build.exactMasks { EvenClaim(levels, r.addr, r.len, max); }
      ClaimKeeps(levels, r, max);
    } else {
      ClaimsNothing(levels, build.exactMasks, r, max);
    }
  }

  lemma EvenClaim(levels: seq<seq<bool>>, addr: nat, len: nat, max: nat)
    requires addr % MEGABYTE == 0 && len % MEGABYTE == 0 && max % MEGABYTE == 0 && |levels| <= LEVELS
    ensures Claim(levels, false, addr, len, max) == Claim(levels, true, addr, len, max)
  {
    if addr <= max { EvenRangeExact(levels, addr, if addr + len > max then max else addr + len); }
  }

  lemma ClaimsNothing(levels: seq<seq<bool>>, exact: bool, r: Range, max: nat)
    requires r.addr > max
    ensures Claim(levels, exact, r.addr, r.len, max) == levels && forall i: nat :: !HeldBy(r, max, i)
  {
  }

  lemma ClaimKeeps(levels: seq<seq<bool>>, r: Range, max: nat)
    requires Sized(levels, NumFrames(max)) && Consistent(levels) && TailSet(FrameBits(levels), NumFrames(max))
    requires r.addr <= max && r.len > 0
    ensures var after := Claim(levels, true, r.addr, r.len, max);
            && Consistent(after) && TailSet(FrameBits(after), NumFrames(max))
            && |FrameBits(after)| == |FrameBits(levels)|
            && forall i: nat :: i < |FrameBits(levels)| ==>
                 (FrameBits(after)[i] <==> FrameBits(levels)[i] || HeldBy(r, max, i))
  {
    var end := if r.addr + r.len > max then max else r.addr + r.len;
    hide Sized, Consistent, TailSet, NumFrames, KeepsReady, FrameBits, CoverAll;
    FirstBlocks(r.addr, end, max);
    CoveredBits(levels, r.addr / FRAME_SIZE, NumFrames(end));
    ReservedIsReady(levels, r.addr / FRAME_SIZE, NumFrames(end), NumFrames(max));
    NotEmpty(r.addr, r.len, max, levels);
  }

  lemma NothingHeld(b: seq<bool>, max: nat)
    ensures Added(b, b, [], max)
  {
  }

  lemma CoveredBits(levels: seq<seq<bool>>, f: nat, e: nat)
    requires f <= e
    ensures var b, after := FrameBits(levels), FrameBits(CoverAll(levels, true, f, e));
            |after| == |b| && forall i: nat :: i < |b| ==> (after[i] <==> b[i] || f <= i < e)
  {
  }

  class FrameAllocator {
    const build: Build
    const maxSize: nat
    const bitmaps: seq<array<Word>>
    ghost var levels: seq<seq<bool>>

    /** Four distinct bitmaps of the sizes laid out, or none for no memory. */
    ghost predicate Shaped() {
      && |bitmaps| == (if NumFrames(maxSize) == 0 then 0 else LEVELS)
      && (forall k: nat :: k < |bitmaps| ==> bitmaps[k].Length == LevelWords(NumFrames(maxSize), k))
      && (forall k, l :: 0 <= k < l < |bitmaps| ==> bitmaps[k] != bitmaps[l])
    }

    ghost predicate Valid()
      reads this, bitmaps
    {
      && Shaped() && |levels| == |bitmaps|
      && forall k: nat :: k < |bitmaps| ==> levels[k] == Bits(bitmaps[k][..])
    }

    /** The frames a byte range touches, as far as there is memory. */
    ghost function FirstFrame(addr: nat): nat { addr / FRAME_SIZE }

    ghost function EndFrame(addr: nat, len: nat): nat {
      NumFrames(if addr + len > maxSize then maxSize else addr + len)
    }

    /** The layout of `pmm_init`: cleared bitmaps for as many levels as there are bits. */
    constructor (size: nat, build: Build)
      ensures Valid() && this.maxSize == size && this.build == build && fresh(bitmaps)
      ensures levels == ClearLevels(NumFrames(size))
    {
      var bs := AllocateBitmaps(NumFrames(size));
      this.maxSize, this.build, bitmaps := size, build, bs;
      levels := ClearLevels(NumFrames(size));
      new;
      hide LevelWords, LevelBits;
      forall k: nat | k < |bitmaps| ensures levels[k] == Bits(bitmaps[k][..]) {
        ClearBits(bitmaps[k][..]);
      }
    }

    static method AllocateBitmaps(frames: nat) returns (bs: seq<array<Word>>)
      ensures fresh(bs) && |bs| == (if frames == 0 then 0 else LEVELS)
      ensures forall k: nat :: k < |bs| ==> bs[k].Length == LevelWords(frames, k)
      ensures forall k, l :: 0 <= k < l < |bs| ==> bs[k] != bs[l]
      ensures forall k: nat, x :: k < |bs| && 0 <= x < bs[k].Length ==> bs[k][x] == 0
    {
      bs := [];
      var level, bits := 0, frames;
      while level < LEVELS && bits != 0
        invariant |bs| == level <= LEVELS && bits == LevelBits(frames, level) && fresh(bs)
        invariant level > 0 ==> bits > 0
        invariant frames == 0 ==> level == 0
        invariant frames > 0 ==> bits > 0
        invariant forall k: nat :: k < |bs| ==> bs[k].Length == LevelWords(frames, k)
        invariant forall k, l :: 0 <= k < l < |bs| ==> bs[k] != bs[l]
        invariant forall k: nat, x :: k < |bs| && 0 <= x < bs[k].Length ==> bs[k][x] == 0
      {
        var a := new Word[(bits + 31) / 32](_ => 0);
        bs := bs + [a];
        level, bits := level + 1, (bits + 1) / 2;
      }
    }

    /** Takes what lies beyond the memory. As written, the call is clamped to the memory size and so
        reaches none of it. */
    method ReserveTail()
      requires Valid()
      modifies this, bitmaps
      ensures Valid()
      ensures build.padTail ==> levels == TailTaken(old(levels), build.exactMasks, NumFrames(maxSize))
      ensures !build.padTail ==>
        levels == CoverAll(old(levels), build.exactMasks, maxSize / FRAME_SIZE, NumFrames(maxSize))
    {
      hide Bits, Cover, LevelWords, LevelBits;
      if !build.padTail {
        var total := if |bitmaps| == 0 then 0 else bitmaps[0].Length * 32 * FRAME_SIZE;
        Reserve(maxSize, if total < maxSize then 0 else total - maxSize);
        return;
      }
      var level, start := 0, NumFrames(maxSize);
      while level < |bitmaps|
        invariant level <= |bitmaps| && start == StartAt(NumFrames(maxSize), level)
        invariant Valid()
        invariant forall k: nat :: k < |levels| ==>
          levels[k] == if k < level then TailLevel(old(levels)[k], build.exactMasks, NumFrames(maxSize), k)
                       else old(levels)[k]
      {
        TailFits(NumFrames(maxSize), level);
        SetRange(bitmaps[level], start, 32 * bitmaps[level].Length - start, build.exactMasks);
        levels := levels[level := TailLevel(levels[level], build.exactMasks, NumFrames(maxSize), level)];
        level, start := level + 1, start / 2;
      }
    }

    /** Takes a byte range at every level. Only a call for no bytes can break the invariant, at an address that is a
        multiple of the frame size. */
    method Reserve(addr: nat, len: nat)
      requires Valid()
      modifies this, bitmaps
      ensures Valid()
      ensures addr > maxSize ==> levels == old(levels)
      ensures addr <= maxSize ==> FirstFrame(addr) <= EndFrame(addr, len)
      ensures addr <= maxSize ==>
        levels == CoverAll(old(levels), build.exactMasks, FirstFrame(addr), EndFrame(addr, len))
      ensures build.exactMasks && addr <= maxSize ==>
        BytesTaken(FrameBits(old(levels)), FrameBits(levels), addr, len, maxSize)
      ensures build.exactMasks && old(Ready()) ==>
        (Ready() <==> addr > maxSize || KeepsReady(old(levels), FirstFrame(addr), EndFrame(addr, len)))
      ensures build.exactMasks && old(Ready()) && (len > 0 || addr % FRAME_SIZE != 0) ==> Ready()
    {
      if addr > maxSize { return; }
      hide Consistent, TailSet, KeepsReady, CoverAll, NumFrames, LevelWords, Bits, Sized, FrameBits;
      LevelsSized();
      FirstBlocks(addr, if addr + len > maxSize then maxSize else addr + len, maxSize);
      ReserveBlocks(addr, len);
      if build.exactMasks { RangeTaken(old(levels), addr, len, maxSize); }
      if build.exactMasks && old(Ready()) {
        ReservedIsReady(old(levels), FirstFrame(addr), EndFrame(addr, len), NumFrames(maxSize));
        NotEmpty(addr, len, maxSize, old(levels));
      }
    }

    /** The loop over the levels. */
    method ReserveBlocks(addr: nat, len: nat)
      requires Valid() && addr <= maxSize
      modifies this, bitmaps
      ensures Valid() && FirstFrame(addr) <= EndFrame(addr, len)
      ensures levels == CoverAll(old(levels), build.exactMasks, FirstFrame(addr), EndFrame(addr, len))
    {
      hide Bits, CoverLevel, LevelWords, BlockLen, NumFrames;
      var start: nat, rest: nat := addr, if addr + len > maxSize then maxSize - addr else len;
      ghost var end := start + rest;
      ghost var f, e := FirstFrame(addr), EndFrame(addr, len);
      var level, blockLen := 0, FRAME_SIZE;
      FirstBlocks(start, end, maxSize);
      while level < LEVELS && level < |bitmaps|
        invariant level <= |bitmaps| && start + rest == end
        invariant BlockLen(level) == blockLen > 0 && start / blockLen == StartAt(f, level)
        invariant (end + blockLen - 1) / blockLen == EndAt(e, level)
        invariant Valid()
        invariant forall k: nat :: k < |levels| ==>
          levels[k] == if k < level then CoverLevel(old(levels)[k], build.exactMasks, f, e, k) else old(levels)[k]
      {
        BlockRounding(start, end, level);
        RangeAt(f, e, NumFrames(maxSize), level);
        var remainder := start % blockLen;
        start, rest := start - remainder, rest + remainder;
        var frameIdx := start / blockLen;
        var frames := (rest + blockLen - 1) / blockLen;
        SetLevel(level, frameIdx, frames, f, e);
        level, blockLen := level + 1, 2 * blockLen;
        NextBlock(level);
      }
    }

    /** The invariant of the intended allocator: every level sums up the one below, and everything
        beyond the memory counts as taken. */
    ghost predicate Ready()
      reads this, bitmaps
    {
      Valid() && Consistent(levels) && TailSet(FrameBits(levels), NumFrames(maxSize))
    }

    /** Reserves one range after the other. */
    method ReserveAll(ranges: seq<Range>)
      requires Valid()
      modifies this, bitmaps
      ensures Valid()
      ensures old(Ready()) && AllExactly(build, maxSize, ranges) ==>
        Ready() && Added(FrameBits(old(levels)), FrameBits(levels), ranges, maxSize)
    {
      hide Consistent, TailSet, NumFrames, LevelWords, Bits, KeepsReady, HeldBy, Held, FrameBits, Exactly;
      ghost var ok := Ready() && AllExactly(build, maxSize, ranges);
      assert Added(FrameBits(levels), FrameBits(levels), ranges[..0], maxSize) by {
        NothingHeld(FrameBits(levels), maxSize);
      }
      for k := 0 to |ranges|
        invariant Valid() && (ok ==> Ready() && Added(FrameBits(old(levels)), FrameBits(levels), ranges[..k], maxSize))
      {
        ghost var now := levels;
        LevelsSized();
        Reserve(ranges[k].addr, ranges[k].len);
        if ok {
          ExactlyReserved(now, build, ranges[k], maxSize);
          AddedMore(FrameBits(old(levels)), FrameBits(now), FrameBits(levels), ranges, k, maxSize);
        }
      }
      assert ranges[..|ranges|] == ranges;
    }

    /** The start before ranges are reserved: right as intended, and as written for whole megabytes. */
    method Begin()
      requires Valid() && levels == ClearLevels(NumFrames(maxSize))
      modifies this, bitmaps
      ensures Valid()
      ensures StartsRight(build, maxSize) ==>
        Ready() && forall i: nat :: i < |FrameBits(levels)| ==> (FrameBits(levels)[i] <==> i >= NumFrames(maxSize))
    {
      hide Consistent, TailSet, NumFrames, LevelWords, Bits, FrameBits, TailTaken, ClearLevels, CoverAll;
      TailIsReady(NumFrames(maxSize));
      TailBits(NumFrames(maxSize));
      if maxSize % MEGABYTE == 0 { EvenStart(maxSize); }
      ReserveTail();
    }

    /** All of `pmm_init`: cleared bitmaps, then what lies beyond the memory is taken, and then some ranges. In the
        intended form, and as written for whole megabytes, just those frames are taken, and all summaries are right. */
    static method Init(size: nat, build: Build, ranges: seq<Range>) returns (a: FrameAllocator)
      ensures fresh(a) && fresh(a.bitmaps) && a.Valid() && a.maxSize == size && a.build == build
      ensures StartsRight(build, size) && AllExactly(build, size, ranges) ==>
        a.Ready() && JustTaken(FrameBits(a.levels), ranges, size)
    {
      hide Consistent, TailSet, NumFrames, LevelWords, Bits, Held, TailTaken, FrameBits, ClearLevels, CoverAll,
        AllExactly;
      a := new FrameAllocator(size, build);
      a.Begin();
      a.ReserveAll(ranges);
    }

    /** The search of one level. */
    method FindBlocks(level: nat, n: nat) returns (r: Option<nat>)
      requires Valid() && level < |bitmaps|
      ensures r.Some? ==> IsHit(build.resetOnSkip, bitmaps[level][..], n, r.value + n)
      ensures build.resetOnSkip && r.Some? ==> FirstRun(levels[level], n, r.value)
      ensures build.resetOnSkip && r.Some? ==> ClearRun(levels[level], r.value, n)
      ensures r.None? && n > 0 ==> forall t: nat :: !ClearRun(levels[level], t, n)
      ensures !build.resetOnSkip && n > 0 ==> (r.Some? <==> Reached(levels[level], n))
      ensures !build.resetOnSkip && r.Some? ==> Returned(levels[level], n, r.value)
    {
      r := FindRun(bitmaps[level], n, build.resetOnSkip);
      ghost var words := bitmaps[level][..];
      if !build.resetOnSkip {
        hide *;
        if r.Some? { HitReturned(words, n, r.value); }
        if r.None? && n > 0 {
          WrittenNone(words, n);
          WrittenMiss(words, n);
        }
        LevelIs(level);
        return;
      }
      if n > 0 {
        NoneCounted(words, n);
        if r.Some? { ResetScanIsPlainScan(words, n, r.value); }
      }
    }

    lemma LevelIs(level: nat)
      requires Valid() && level < |bitmaps|
      ensures level < |levels| && levels[level] == Bits(bitmaps[level][..])
    {
    }

    lemma LevelsSized()
      requires Valid()
      ensures Sized(levels, NumFrames(maxSize))
    {
    }

    /** The smallest level whose blocks hold `len` bytes. */
    method FindLevel(len: nat) returns (level: nat, blockLen: nat)
      requires Valid() && bitmaps != []
      ensures level == TopLevel(len) && level < |bitmaps| && blockLen == BlockLen(level)
    {
      hide Bits, LevelWords, BlockLen, NumFrames;
      level, blockLen := 0, FRAME_SIZE;
      BlockLens();
      while blockLen < len && level < LEVELS - 1 && level < |bitmaps|
        invariant level < LEVELS && level <= |bitmaps| && blockLen == BlockLen(level)
        invariant level > 0 ==> BlockLen(level - 1) < len
        decreases LEVELS - level
      {
        level, blockLen := level + 1, 2 * blockLen;
      }
    }

    /** Level by level downwards, until one has a run of enough clear bits. */
    method Search(len: nat) returns (s: Option<nat>, level: nat, blockLen: nat)
      requires Valid() && bitmaps != []
      ensures level < |bitmaps| && level <= TopLevel(len) && blockLen == BlockLen(level)
      ensures s.Some? ==>
        len > 0 && HitAt(build.resetOnSkip, bitmaps[level][..], len, level, s.value) && NoRunAbove(levels, len, level)
      ensures build.resetOnSkip && s.Some? ==> IsSpot(levels, len, level, s.value)
      ensures s.None? && len > 0 ==> NoRunAt(levels, len, 0)
      ensures !build.resetOnSkip && s.Some? ==>
        StopsAt(levels, len, level) && Returned(levels[level], BlocksFor(len, level), s.value)
      ensures !build.resetOnSkip && s.None? && len > 0 ==>
        level == 0 && NotReached(levels, len, 0) && NoneReachedAbove(levels, len, 0)
    {
      hide IsHit, Bits, LevelWords, BlockLen, NumFrames, FirstRun, ClearRun, TopLevel, Reached, Returned;
      level, blockLen := FindLevel(len);
      while true
        invariant level < |bitmaps| && blockLen == BlockLen(level) && level <= TopLevel(len)
        invariant len > 0 ==> NoRunAbove(levels, len, level)
        invariant len > 0 && !build.resetOnSkip ==> NoneReachedAbove(levels, len, level)
        decreases level
        modifies {}
      {
        BlockLens();
        BlocksCover(len, 0, level);
        s := FindBlocks(level, (len + blockLen - 1) / blockLen);
        if s.Some? { HitNotEmpty(build.resetOnSkip, bitmaps[level][..], len, level, s.value); }
        if s.Some? || level == 0 { return; }
        level, blockLen := level - 1, blockLen / 2;
      }
    }

    /** Takes a block of at least `len` bytes: blocks of the smallest level that covers `len` are tried
        first, then smaller ones. `k` is the level at which it was found. As written, it takes something exactly if the
        search stops at some level, and just free frames exactly if the levels are proper there. */
    method Alloc(len: nat) returns (r: Option<nat>, ghost k: nat)
      requires Valid()
      modifies this, bitmaps
      ensures Valid()
      ensures r.None? ==> levels == old(levels)
      ensures r.None? && len > 0 ==> !exists s: nat :: ClearRun(FrameBits(old(levels)), s, NumFrames(len))
      ensures r.Some? ==>
        && len > 0
        && k < |bitmaps|
        && NoRunAbove(old(levels), len, k)
        && levels == Claim(old(levels), build.exactMasks, r.value, len, maxSize)
      ensures r.Some? ==> AtHit(build, old(bitmaps[k][..]), len, k, r.value)
      ensures old(Ready()) ==> SlotFound(FrameBits(old(levels)), build.wideAddress, len, r)
      ensures r.Some? && TakesFrames(old(levels), levels, r.value, len, maxSize) ==>
        BytesGiven(FrameBits(old(levels)), FrameBits(levels), r.value, len, maxSize)
      ensures !build.resetOnSkip && r.Some? ==> StopsAt(old(levels), len, k)
      ensures !build.resetOnSkip && r.None? && len > 0 ==> forall j: nat :: !StopsAt(old(levels), len, j)
      ensures !build.resetOnSkip && !build.exactMasks && old(Ready()) && r.Some? ==>
        (TakesFrames(old(levels), levels, r.value, len, maxSize) <==>
         if Strays(build, old(bitmaps[k][..]), len, k) then LuckyAt(old(levels), r.value, len, maxSize)
         else Proper(old(levels), len, k))
      ensures build.exactMasks && build.resetOnSkip && old(Ready()) ==> Ready()
      ensures build.exactMasks && build.resetOnSkip && old(Ready()) ==>
        (r.Some? <==> len > 0 && exists s: nat :: ClearRun(FrameBits(old(levels)), s, NumFrames(len)))
      ensures build.exactMasks && build.resetOnSkip && old(Ready()) && r.Some? ==>
        && AtSpot(old(levels), build.wideAddress, len, k, r.value)
        && (TakesFrames(old(levels), levels, r.value, len, maxSize) <==>
            (Strays(build, old(bitmaps[k][..]), len, k) ==> FreeRange(old(levels), r.value, len, maxSize)))
      ensures build.exactMasks == build.resetOnSkip && old(Ready()) && r.Some? ==>
        StraysPlainly(build, old(levels), old(bitmaps[k][..]), len, k) ==>
          !TakesFrames(old(levels), levels, r.value, len, maxSize)
      ensures maxSize <= ADDRESSES && old(Ready()) && r.Some? ==> !Strays(build, old(bitmaps[k][..]), len, k)
    {
      hide Bits, CoverAll, LevelWords, Summary, Consistent, ClearRun, FirstRun, TailSet, BlockLen, NumFrames,
        NoRunAbove, Taken, NoRunAt, IsHit, HitAt, StopsAt, Proper, Returned, NotReached, NoneReachedAbove, KeepsReady,
        SlotFound, TakesFrames, BytesGiven, BytesTaken, HasBytes;
      k := 0;
      if |bitmaps| == 0 {
        if len > 0 { NoFrames(len); NoLevels(levels, len); }
        SlotNotFound(FrameBits(levels), build.wideAddress, len);
        return None, k;
      }
      var s, level, blockLen := Search(len);
      k := level;
      if s.None? {
        if len > 0 {
          NoFrameRun(levels, len);
          if !build.resetOnSkip { StopsNowhere(levels, len); }
        }
        SlotNotFound(FrameBits(levels), build.wideAddress, len);
        return None, k;
      }
      var addr := if build.wideAddress then s.value * blockLen else s.value * blockLen % ADDRESSES;
      ghost var before, words := levels, bitmaps[level][..];
      LevelsSized();
      AddressAligned(build.wideAddress, s.value, level);
      if !build.resetOnSkip && !build.exactMasks && Ready() {
        WrittenAnywhere(levels, build, words, len, level, s.value, maxSize);
        if StraysPlainly(build, levels, words, len, level) {
          WrittenPlainly(levels, build, words, len, level, s.value, maxSize);
        }
      }
      if build.exactMasks && build.resetOnSkip && Ready() {
        FoundAnywhere(levels, build, words, len, level, s.value, maxSize);
      }
      LevelIs(level);
      if Ready() { SlotSearched(levels, build, words, len, level, s.value, maxSize); }
      if maxSize <= ADDRESSES && Ready() {
        NoneStrays(levels, words, build, len, level, maxSize);
      }
      Reserve(addr, len);
      if TakesFrames(before, levels, addr, len, maxSize) { RangeGiven(before, levels, addr, len, maxSize); }
      r := Some(addr);
    }

    /** Frames in a row, from an allocator in the intended form or, in memory of up to 4G, one that computes addresses
        in 32 bits. */
    method AllocFrames(n: nat) returns (r: Option<nat>)
      requires Ready() && build.exactMasks && build.resetOnSkip && n > 0
      requires build.wideAddress || maxSize <= ADDRESSES
      modifies this, bitmaps
      ensures Ready()
      ensures r.Some? <==> exists s: nat :: ClearRun(FrameBits(old(levels)), s, n)
      ensures r.None? ==> levels == old(levels)
      ensures r.Some? ==> r.value % FRAME_SIZE == 0 && TakesRun(old(levels), levels, r.value / FRAME_SIZE, n, maxSize)
      ensures r.Some? ==> BytesGiven(FrameBits(old(levels)), FrameBits(levels), r.value, 4096 * n, maxSize)
      ensures r.Some? ==> SpotAt(old(levels), build.wideAddress, n * FRAME_SIZE, r.value)
      ensures SlotFound(FrameBits(old(levels)), build.wideAddress, n * FRAME_SIZE, r)
    {
      hide SlotFound, Bits, LevelWords, Consistent, ClearRun, TailSet, NumFrames, NoRunAbove, TakesFrames, TakesRun,
        AtHit, AtSpot, StopsAt, Proper, FrameBits, Claim, BytesGiven;
      SizeOf(n);
      var len := n * FRAME_SIZE;
      ghost var before := levels;
      ghost var k;
      r, k := Alloc(len);
      if r.Some? { RunTaken(before, levels, r.value, len, n, maxSize); }
    }

    lemma NoFrames(len: nat)
      requires Valid() && |bitmaps| == 0 && len > 0
      ensures !exists s: nat :: ClearRun(FrameBits(levels), s, NumFrames(len))
    {
    }

    /** The allocator as written, with first free frame f. */
    ghost predicate WrittenWith(f: nat)
      reads this, bitmaps
    {
      Ready() && build == AS_WRITTEN && FirstFree(FrameBits(levels), f)
    }

    /** One frame, as written: the address returned is that of the first free frame, as far as it fits 32 bits. */
    method AllocFirst(ghost f: nat) returns (r: Option<nat>)
      requires WrittenWith(f)
      modifies this, bitmaps
      ensures Valid() && r == Some(BlockAddress(false, f, 0))
      ensures levels == Claim(old(levels), false, r.value, FRAME_SIZE, maxSize)
    {
      assert levels != [];
      LevelIs(0);
      ghost var words, k := bitmaps[0][..], 0;
      assert ClearRun(FrameBits(levels), f, NumFrames(FRAME_SIZE)) && TopLevel(FRAME_SIZE) == 0;
      hide Consistent, TailSet, CoverAll, Bits, LevelWords, FrameBits, ClearRun, TopLevel, NumFrames, HitAt,
        BlockAddress, Proper, LuckyAt, Misled, Claim, NoRunAbove, NoneReachedAbove, AtSpot, FreeRange, StraysPlainly,
        FirstFree;
      assert FrameBits(levels) == Bits(words) by { FramesAre(words); }
      r, k := Alloc(FRAME_SIZE);
      ghost var s: nat :| r.value == BlockAddress(false, s, 0) && HitAt(false, words, FRAME_SIZE, 0, s);
      FrameHit(words, s, f);
    }

    lemma FramesAre(words: seq<Word>)
      requires Valid() && levels != [] && bitmaps[0][..] == words
      ensures FrameBits(levels) == Bits(words)
    {
    }

    /** A run as written, with memory that ends 1M above 4G and everything below 4G taken: a frame from 4G on is found,
        and the address returned is that of frame 0, which is in use. */
    static method FrameAbove4G() returns (a: FrameAllocator, ghost before: seq<bool>, r: Option<nat>)
      ensures a.build == AS_WRITTEN && a.maxSize == ADDRESSES + MEGABYTE && FirstFree(before, ADDRESSES / FRAME_SIZE)
      ensures r == Some(0) && before[0] && FrameBits(a.levels) == before
    {
      hide Consistent, TailSet, CoverAll, Bits, LevelWords, FrameBits, NumFrames, HeldBy;
      a := Init(ADDRESSES + MEGABYTE, AS_WRITTEN, [Range(0, ADDRESSES)]);
      OneHeld(Range(0, ADDRESSES), a.maxSize);
      before := FrameBits(a.levels);
      ghost var levels, f := a.levels, ADDRESSES / FRAME_SIZE;
      a.LevelsSized();
      hide *;
      LowestFree(levels, f, a.maxSize);
      r := a.AllocFirst(f);
      ClaimedAgain(levels, a.maxSize);
      assert BlockAddress(false, f, 0) == 0 by { HighestIsZero(); }
    }

    /** Frees a byte range frame by frame. */
    method Free(addr: nat, len: nat)
      requires Valid()
      modifies this, bitmaps
      ensures Valid()
      ensures addr > maxSize ==> levels == old(levels)
      ensures addr <= maxSize ==>
        FrameBits(levels) == Uncover(FrameBits(old(levels)), FirstFrame(addr), EndFrame(addr, len))
      ensures addr <= maxSize ==> BytesFreed(FrameBits(old(levels)), FrameBits(levels), addr, len, maxSize)
      ensures Consistent(old(levels)) ==> Consistent(levels)
      ensures old(Ready()) ==> Ready()
    {
      hide Consistent, Bits;
      if addr > maxSize { return; }
      var start, rest := addr, if addr + len > maxSize then maxSize - addr else len;
      var remainder := start % FRAME_SIZE;
      start, rest := start - remainder, rest + remainder;
      var frameIdx, frames := start / FRAME_SIZE, (rest + FRAME_SIZE - 1) / FRAME_SIZE;
      FirstBlocks(addr, if addr + len > maxSize then maxSize else addr + len, maxSize);
      ghost var f, bits := FirstFrame(addr), FrameBits(levels);
      RangeFreed(bits, addr, len, maxSize);
      hide BytesFreed;
      assert frameIdx == f && frameIdx + frames == EndFrame(addr, len) <= NumFrames(maxSize);
      for frame := 0 to frames
        invariant Valid() && frameIdx == f + frame
        invariant FrameBits(levels) == Uncover(bits, f, f + frame)
        invariant Consistent(old(levels)) ==> Consistent(levels)
      {
        FreeFrame(frameIdx);
        frameIdx := frameIdx + 1;
      }
    }

    method ClearBit(level: nat, i: nat)
      requires Valid() && level < |bitmaps| && i < 32 * bitmaps[level].Length
      modifies bitmaps[level], this`levels
      ensures Valid() && levels == old(levels)[level := old(levels)[level][i := false]]
    {
      hide Bits, LevelWords;
      WithoutBit(bitmaps[level][..], i);
      bitmaps[level][i / 32] := Without(bitmaps[level][i / 32], i % 32);
      assert bitmaps[level][..] == old(bitmaps[level][..])[i / 32 := Without(old(bitmaps[level][i / 32]), i % 32)];
      levels := levels[level := levels[level][i := false]];
    }

    /** Clears a frame's bit and then, level by level, the bits of the blocks that became free with it. */
    method FreeFrame(frame: nat)
      requires Valid() && frame < NumFrames(maxSize)
      modifies this, bitmaps
      ensures Valid() && FrameBits(levels) == FrameBits(old(levels))[frame := false]
      ensures Consistent(old(levels)) ==> Consistent(levels)
    {
      hide Bits, Summary, Consistent, TestPair, Test, NumFrames;
      ghost var was := Consistent(levels);
      FrameInRange(frame, 0);
      ClearBit(0, frame);
      if was { FreeBottom(old(levels), frame); }
      var level: nat, bit: nat := 1, frame / 2;
      while level < LEVELS && level < |bitmaps|
        invariant 1 <= level <= |bitmaps| == LEVELS && bit == StartAt(frame, level)
        invariant Valid() && levels[0] == old(levels)[0][frame := false]
        invariant was ==> AlmostConsistent(levels, level, bit)
      {
        FrameInRange(frame, level);
        FrameInRange(frame, level - 1);
        ChildrenStored(frame, level);
        ChildrenTest(frame, level);
        var child := 2 * bit;
        if TestPair(bitmaps[level - 1][child / 32], child % 32) { break; }
        if was { FreeStep(levels, level, bit); }
        ClearBit(level, bit);
        level, bit := level + 1, bit / 2;
      }
      if was { FreeDone(levels, level, bit); }
    }

    lemma FrameInRange(frame: nat, level: nat)
      requires Valid() && frame < NumFrames(maxSize) && level < LEVELS
      ensures |bitmaps| == LEVELS && StartAt(frame, level) < 32 * bitmaps[level].Length == |levels[level]|
    {
      RangeAt(frame, frame + 1, NumFrames(maxSize), level);
    }

    static lemma EvenInWord(i: nat, words: nat)
      requires 2 * i < 32 * words
      ensures 2 * i % 32 < 31 && 2 * i + 1 < 32 * words && (2 * i + 1) / 32 == 2 * i / 32
      ensures (2 * i + 1) % 32 == 2 * i % 32 + 1
    {
      assert 2 * i == 32 * (i / 16) + 2 * (i % 16);
    }

    /** Both children of a block are stored, in the same word. */
    lemma ChildrenStored(frame: nat, level: nat)
      requires Valid() && frame < NumFrames(maxSize) && 0 < level < LEVELS
      ensures |bitmaps| == LEVELS
      ensures var child := 2 * StartAt(frame, level);
              child % 32 < 31 && child + 1 < 32 * bitmaps[level - 1].Length && (child + 1) / 32 == child / 32
              && (child + 1) % 32 == child % 32 + 1
    {
      RangeAt(frame, frame + 1, NumFrames(maxSize), level - 1);
      EvenInWord(StartAt(frame, level), LevelWords(NumFrames(maxSize), level - 1));
    }

    lemma ChildrenTest(frame: nat, level: nat)
      requires Valid() && frame < NumFrames(maxSize) && 0 < level < LEVELS
      ensures |bitmaps| == |levels| == LEVELS
      ensures var child := 2 * StartAt(frame, level);
              child % 32 < 31 && child / 32 < bitmaps[level - 1].Length && child + 1 < |levels[level - 1]|
              && (TestPair(bitmaps[level - 1][child / 32], child % 32)
                  <==> levels[level - 1][child] || levels[level - 1][child + 1])
    {
      hide Bits, TestPair, Test, NumFrames;
      ChildrenStored(frame, level);
      FrameInRange(frame, level - 1);
      var child := 2 * StartAt(frame, level);
      PairTest(bitmaps[level - 1][child / 32], child % 32);
      BitsAt(bitmaps[level - 1][..], child);
      BitsAt(bitmaps[level - 1][..], child + 1);
    }

    /** One level of `Reserve`. */
    method SetLevel(level: nat, frameIdx: nat, frames: nat, ghost f: nat, ghost e: nat)
      requires Valid() && level < |bitmaps| && f <= e <= NumFrames(maxSize)
      requires frameIdx == StartAt(f, level) && frameIdx + frames == EndAt(e, level)
      modifies bitmaps[level], this`levels
      ensures Valid() && levels == old(levels)[level := CoverLevel(old(levels)[level], build.exactMasks, f, e, level)]
    {
      hide Bits, Cover;
      RangeAt(f, e, NumFrames(maxSize), level);
      SetRange(bitmaps[level], frameIdx, frames, build.exactMasks);
      levels := levels[level := CoverLevel(levels[level], build.exactMasks, f, e, level)];
    }
  }

  lemma FirstBlocks(start: nat, end: nat, max: nat)
    requires start <= end <= max
    ensures BlockLen(0) == FRAME_SIZE
    ensures StartAt(start / FRAME_SIZE, 0) == start / FRAME_SIZE
    ensures EndAt(NumFrames(end), 0) == (end + FRAME_SIZE - 1) / FRAME_SIZE
    ensures start / FRAME_SIZE <= NumFrames(end) <= NumFrames(max)
  {
  }

  lemma NotEmpty(addr: nat, len: nat, max: nat, levels: seq<seq<bool>>)
    requires addr <= max
    ensures var f, e := addr / FRAME_SIZE, NumFrames(if addr + len > max then max else addr + len);
            len > 0 || addr % FRAME_SIZE != 0 ==> f < e || f == NumFrames(max)
    ensures addr / FRAME_SIZE < NumFrames(if addr + len > max then max else addr + len) ==>
      KeepsReady(levels, addr / FRAME_SIZE, NumFrames(if addr + len > max then max else addr + len))
  {
  }

  lemma NextBlock(level: nat)
    requires level > 0
    ensures BlockLen(level) == 2 * BlockLen(level - 1)
  {
  }
}
