/** Ranges of a bitmap: setting one by word masks, and finding a run of clear bits word by word.
    Both can be built as the kernel has them or as the surrounding code intends them. */
module Bitmaps {
  import opened Options
  import opened Words

  /** Which of the four slips of the frame allocator are put right: masks with `count` instead of
      `count + 1` ones, the run counter reset when a full word is skipped, bits beyond the memory
      size reserved, and the address of a block multiplied out in 64 bits instead of 32. */
  datatype Build = Build(exactMasks: bool, resetOnSkip: bool, padTail: bool, wideAddress: bool)

  const AS_WRITTEN := Build(false, false, false, false)
  const INTENDED := Build(true, true, true, true)

  // ---------------------------------------------------------------- setting a range

  /** Bits set before the first word boundary of [f, f + n). */
  function HeadCount(f: nat, n: nat): nat {
    if f % 32 == 0 then 0 else if 32 - f % 32 > n then n else 32 - f % 32
  }

  /** Bits left over after the last full word. */
  function TailCount(f: nat, n: nat): nat {
    (n - HeadCount(f, n)) % 32
  }

  /** The bits that masks of `count + 1` ones set for [f, f + n): one bit too many after a range that
      does not end on a word boundary, and none of a 31-bit piece, whose mask wraps to zero. */
  predicate Written(f: nat, n: nat, i: nat) {
    && (f <= i < f + n || (i == f + n && i % 32 != 0))
    && !(HeadCount(f, n) == 31 && i < f + 31)
    && !(TailCount(f, n) == 31 && f + n - 31 <= i)
  }

  predicate Covered(exact: bool, f: nat, n: nat, i: nat) {
    if exact then f <= i < f + n else n > 0 && Written(f, n, i)
  }

  function Cover(b: seq<bool>, exact: bool, f: nat, n: nat): seq<bool> {
    seq(|b|, i requires 0 <= i < |b| => b[i] || Covered(exact, f, n, i))
  }

  ghost predicate ExactlySet(b: seq<bool>, f: nat, n: nat)
    requires f + n <= |b| && |b| % 32 == 0
  {
    && (HeadCount(f, n) == 31 ==> forall i :: f <= i < f + 31 && i < |b| ==> b[i])
    && (TailCount(f, n) == 31 ==> forall i :: f + n - 31 <= i < f + n && 0 <= i ==> b[i])
    && ((f + n) % 32 == 0 || TailCount(f, n) == 31 || b[f + n])
  }

  /** Masks of `count + 1` ones set exactly the range when, and only when, no piece has 31 bits that
      were not all set already, and the bit after an unaligned end was set already. */
  lemma WrittenIsExact(b: seq<bool>, f: nat, n: nat)
    requires 0 < n && f + n <= |b| && |b| % 32 == 0
    ensures Cover(b, false, f, n) == Cover(b, true, f, n) <==> ExactlySet(b, f, n)
  {
    var w, x := Cover(b, false, f, n), Cover(b, true, f, n);
    if w == x {
      forall i | HeadCount(f, n) == 31 && f <= i < f + 31 ensures b[i] { assert w[i] == x[i]; }
      forall i | TailCount(f, n) == 31 && f + n - 31 <= i < f + n ensures b[i] { assert w[i] == x[i]; }
      if (f + n) % 32 != 0 && TailCount(f, n) != 31 { assert w[f + n] == x[f + n]; }
    }
  }

  /** For a free range followed by a free bit, that leaves only word-aligned ends. */
  lemma WrittenOnFreeRange(b: seq<bool>, f: nat, n: nat)
    requires 0 < n && f + n < |b| && |b| % 32 == 0
    requires forall i :: f <= i <= f + n ==> !b[i]
    ensures Cover(b, false, f, n) == Cover(b, true, f, n) <==> (f + n) % 32 == 0 && f % 32 != 1
  {
    WrittenIsExact(b, f, n);
    PieceEnds(f, n);
    if HeadCount(f, n) == 31 { assert !b[f]; }
    if TailCount(f, n) == 31 { assert !b[f + n - 1]; }
  }

  /** Reserving one bit of an empty bitmap takes the next one too. */
  lemma WrittenTakesTwo()
    ensures var b := seq(64, i => false);
            Cover(b, false, 0, 1)[1] && !Cover(b, true, 0, 1)[1]
  {
    assert HeadCount(0, 1) == 0 && TailCount(0, 1) == 1;
  }

  /** Where the three pieces of a range meet. */
  lemma PieceEnds(f: nat, n: nat)
    ensures HeadCount(f, n) <= n && HeadCount(f, n) < 32
    ensures HeadCount(f, n) < n ==> (f + HeadCount(f, n)) % 32 == 0 && TailCount(f, n) == (f + n) % 32
    ensures HeadCount(f, n) == n ==> TailCount(f, n) == 0 && f % 32 + n <= 32
  {
    if f % 32 != 0 && HeadCount(f, n) < n {
      assert f + 32 - f % 32 == 32 * (f / 32 + 1);
      assert f + n == 32 * (f / 32 + 1) + (n - HeadCount(f, n));
    } else if f % 32 == 0 {
      assert f + n == 32 * (f / 32) + n;
    }
  }

  /** Bits start to start + count of word x, for a mask of at most 32 ones that does not wrap to zero. */
  predicate InPiece(i: nat, x: nat, start: nat, count: nat) {
    i / 32 == x && count < 32 && start <= i % 32 < start + count
  }

  /** `words[x] |= ((1 << count) - 1) << start`. */
  lemma OrMask(words: seq<Word>, x: nat, count: nat, start: nat, i: nat)
    requires x < |words| && count <= 32 && start < 32 && i < 32 * |words|
    ensures Bits(words[x := words[x] | Mask(count, start)])[i] == (Bits(words)[i] || InPiece(i, x, start, count))
  {
    OrWord(words, x, Mask(count, start), i);
    MaskTest(count, start, i % 32);
  }

  /** The three pieces together, in the form the masks produce them. */
  predicate InPieces(exact: bool, f: nat, n: nat, i: nat) {
    var extra := if exact then 0 else 1;
    var head, tail := HeadCount(f, n), TailCount(f, n);
    || (head != 0 && InPiece(i, f / 32, f % 32, head + extra))
    || (f + head <= i < f + n - tail)
    || (tail != 0 && InPiece(i, (f + n) / 32, 0, tail + extra))
  }

  lemma PiecesAreCovered(exact: bool, f: nat, n: nat, i: nat)
    ensures InPieces(exact, f, n, i) <==> Covered(exact, f, n, i)
  {
    PieceEnds(f, n);
    assert f == 32 * (f / 32) + f % 32 && i == 32 * (i / 32) + i % 32;
    assert f + n == 32 * ((f + n) / 32) + (f + n) % 32;
  }

  const FULL: Word := 0xFFFF_FFFF

  function FillSeq(words: seq<Word>, from: nat, count: nat): seq<Word> {
    seq(|words|, x requires 0 <= x < |words| => if from <= x < from + count then FULL else words[x])
  }

  function OrSeq(words: seq<Word>, x: nat, count: nat, start: nat): seq<Word>
    requires start < 32
  {
    if count != 0 && x < |words| then words[x := words[x] | Mask(count, start)] else words
  }

  lemma FillBit(words: seq<Word>, from: nat, count: nat, i: nat)
    requires i < 32 * |words|
    ensures Bits(FillSeq(words, from, count))[i] == (Bits(words)[i] || from <= i / 32 < from + count)
  {
    FullTest(FULL);
  }

  /** The first word that the range covers from its bit 0 on. */
  function FirstFull(f: nat): nat {
    if f % 32 == 0 then f / 32 else f / 32 + 1
  }

  /** The first partial word, the full words and the last partial word, in turn. */
  ghost function RangeWords(words: seq<Word>, f: nat, n: nat, exact: bool): seq<Word> {
    var extra := if exact then 0 else 1;
    var head, tail := HeadCount(f, n), TailCount(f, n);
    var from, count := FirstFull(f), (n - head) / 32;
    var w1 := OrSeq(words, f / 32, if head != 0 then head + extra else 0, f % 32);
    OrSeq(FillSeq(w1, from, count), from + count, if tail != 0 then tail + extra else 0, 0)
  }

  /** The full words are the bits between the two partial pieces. */
  lemma FullWords(f: nat, n: nat, len: nat, i: nat)
    requires f + n <= 32 * len
    ensures var head, tail := HeadCount(f, n), TailCount(f, n);
            var from, count := FirstFull(f), (n - head) / 32;
            && head <= n
            && (from <= i / 32 < from + count <==> f + head <= i < f + n - tail)
            && (tail != 0 ==> from + count == (f + n) / 32 < len)
            && (head != 0 ==> f / 32 < len)
  {
    PieceEnds(f, n);
    var head := HeadCount(f, n);
    if head < n {
      var from := FirstFull(f);
      assert f + head == 32 * from;
      assert f + n == 32 * from + (n - head);
    }
  }

  lemma RangeBit(words: seq<Word>, f: nat, n: nat, exact: bool, i: nat)
    requires f + n <= 32 * |words| && i < 32 * |words|
    ensures |RangeWords(words, f, n, exact)| == |words|
    ensures Bits(RangeWords(words, f, n, exact))[i] == (Bits(words)[i] || Covered(exact, f, n, i))
  {
    RangeLength(words, f, n, exact);
    hide Bits, Mask, FillSeq, OrSeq, HeadCount, TailCount, Covered, InPiece;
    var extra := if exact then 0 else 1;
    var head, tail := HeadCount(f, n), TailCount(f, n);
    PieceEnds(f, n);
    FullWords(f, n, |words|, i);
    PiecesAreCovered(exact, f, n, i);
    var from, count := FirstFull(f), (n - head) / 32;
    var w1 := OrSeq(words, f / 32, if head != 0 then head + extra else 0, f % 32);
    OrBit(words, f / 32, if head != 0 then head + extra else 0, f % 32, i);
    FillBit(w1, from, count, i);
    var w2 := FillSeq(w1, from, count);
    FillLength(w1, from, count);
    OrBit(w2, from + count, if tail != 0 then tail + extra else 0, 0, i);
  }

  lemma OrBit(words: seq<Word>, x: nat, count: nat, start: nat, i: nat)
    requires count <= 32 && start < 32 && i < 32 * |words| && (count != 0 ==> x < |words|)
    ensures |OrSeq(words, x, count, start)| == |words|
    ensures Bits(OrSeq(words, x, count, start))[i] == (Bits(words)[i] || (count != 0 && InPiece(i, x, start, count)))
  {
    if count != 0 { OrMask(words, x, count, start, i); }
  }

  lemma OrNone(words: seq<Word>, x: nat, start: nat)
    requires start < 32
    ensures OrSeq(words, x, 0, start) == words
  {
  }

  lemma RangeBits(words: seq<Word>, f: nat, n: nat, exact: bool)
    requires f + n <= 32 * |words|
    ensures Bits(RangeWords(words, f, n, exact)) == Cover(Bits(words), exact, f, n)
  {
    hide RangeWords, Covered;
    assert |RangeWords(words, f, n, exact)| == |words| by { RangeLength(words, f, n, exact); }
    forall i: nat | i < 32 * |words|
      ensures Bits(RangeWords(words, f, n, exact))[i] == Cover(Bits(words), exact, f, n)[i]
    {
      RangeBit(words, f, n, exact, i);
    }
  }

  lemma RangeLength(words: seq<Word>, f: nat, n: nat, exact: bool)
    ensures |RangeWords(words, f, n, exact)| == |words|
  {
  }

  lemma FillLength(words: seq<Word>, from: nat, count: nat)
    ensures |FillSeq(words, from, count)| == |words|
  {
  }

  /** The stores of one level of `pmm_reserve`: a mask in the first partial word, all-ones in the full
      words, and a mask in the last partial word. */
  method SetRange(a: array<Word>, f: nat, n: nat, exact: bool)
    requires f + n <= 32 * a.Length
    modifies a
    ensures Bits(a[..]) == Cover(old(Bits(a[..])), exact, f, n)
  {
    hide Bits, Mask, Cover, OrSeq, FillSeq;
    PieceEnds(f, n);
    var extra := if exact then 0 else 1;
    var frames, fillIdx, firstCount := n, f / 32, 0;
    if f % 32 != 0 {
      fillIdx := fillIdx + 1;
      firstCount := if 32 - f % 32 > n then n else 32 - f % 32;
      frames := n - firstCount;
    }
    var fillCnt := frames / 32;
    var lastCount := frames - fillCnt * 32;
    ghost var w0 := a[..];
    if firstCount != 0 {
      OrInto(a, f / 32, firstCount + extra, f % 32);
    }
    FillWords(a, fillIdx, fillCnt);
    ghost var w2 := a[..];
    if lastCount != 0 {
      OrInto(a, fillIdx + fillCnt, lastCount + extra, 0);
    }
    OrNone(w0, f / 32, f % 32);
    OrNone(w2, fillIdx + fillCnt, 0);
    RangeBits(w0, f, n, exact);
  }

  method OrInto(a: array<Word>, x: nat, count: nat, start: nat)
    requires x < a.Length && 0 < count <= 32 && start < 32
    modifies a
    ensures a[..] == OrSeq(old(a[..]), x, count, start)
  {
    a[x] := a[x] | Mask(count, start);
  }

  /** memset with 0xFF of `count` words from `from`. */
  method FillWords(a: array<Word>, from: nat, count: nat)
    requires from + count <= a.Length
    modifies a
    ensures a[..] == FillSeq(old(a[..]), from, count)
  {
    for i := 0 to count
      invariant a[..] == FillSeq(old(a[..]), from, i)
    {
      a[from + i] := FULL;
    }
  }

  // ---------------------------------------------------------------- finding a run of clear bits

  ghost predicate ClearRun(b: seq<bool>, s: nat, n: nat) {
    s + n <= |b| && forall i :: s <= i < s + n ==> !b[i]
  }

  /** The plain bit-by-bit search: `s` is the first place where `n` clear bits start. */
  ghost predicate FirstRun(b: seq<bool>, n: nat, s: nat) {
    ClearRun(b, s, n) && forall t: nat :: t < s ==> !ClearRun(b, t, n)
  }

  /** The run counter after the first `i` bits. A full word is skipped without a look at its bits, so
      the counter survives it unless it is reset. */
  function Count(reset: bool, words: seq<Word>, i: nat): (c: nat)
    requires i <= 32 * |words|
    ensures c <= i
  {
    if i == 0 then 0
    else if IsFull(words[(i - 1) / 32]) then if reset then 0 else Count(reset, words, i - 1)
    else if Bit(words, i - 1) then 0
    else Count(reset, words, i - 1) + 1
  }

  lemma {:induction false} CountFull(reset: bool, words: seq<Word>, w: nat, k: nat)
    requires w < |words| && IsFull(words[w]) && 0 < k <= 32
    ensures Count(reset, words, 32 * w + k) == if reset then 0 else Count(reset, words, 32 * w)
  {
    assert (32 * w + k - 1) / 32 == w;
    if k > 1 { CountFull(reset, words, w, k - 1); }
  }

  /** The counter first reaches `n` after `e` bits. */
  ghost predicate IsHit(reset: bool, words: seq<Word>, n: nat, e: nat) {
    && e <= 32 * |words| && Count(reset, words, e) == n > 0
    && forall i: nat :: i < e ==> Count(reset, words, i) < n
  }

  lemma CountStep(reset: bool, words: seq<Word>, w: nat, k: nat)
    requires w < |words| && k < 32 && !IsFull(words[w])
    ensures Count(reset, words, 32 * w + k + 1) ==
            if Test(words[w], k) then 0 else Count(reset, words, 32 * w + k) + 1
  {
    assert (32 * w + k) / 32 == w && (32 * w + k) % 32 == k;
  }

  /** Nothing was found in the first `i` bits. */
  ghost predicate Below(reset: bool, words: seq<Word>, n: nat, i: nat)
    requires i <= 32 * |words|
  {
    n > 0 ==> forall j: nat :: j <= i ==> Count(reset, words, j) < n
  }

  lemma BelowFull(reset: bool, words: seq<Word>, n: nat, w: nat)
    requires w < |words| && IsFull(words[w]) && Below(reset, words, n, 32 * w)
    ensures Below(reset, words, n, 32 * w + 32)
    ensures Count(reset, words, 32 * w + 32) == if reset then 0 else Count(reset, words, 32 * w)
  {
    hide Count, IsFull;
    forall j: nat | 32 * w < j <= 32 * w + 32 ensures n > 0 ==> Count(reset, words, j) < n {
      CountFull(reset, words, w, j - 32 * w);
    }
    CountFull(reset, words, w, 32);
  }

  lemma BelowStep(reset: bool, words: seq<Word>, n: nat, i: nat)
    requires i < 32 * |words| && Below(reset, words, n, i)
    ensures Count(reset, words, i + 1) < n ==> Below(reset, words, n, i + 1)
    ensures n == 0 ==> Below(reset, words, n, i + 1)
    ensures Count(reset, words, i + 1) == n > 0 ==> IsHit(reset, words, n, i + 1)
  {
  }

  /** One level of the search in `pmm_alloc`. */
  method FindRun(a: array<Word>, n: nat, reset: bool) returns (r: Option<nat>)
    ensures match r
      case Some(s) => IsHit(reset, a[..], n, s + n)
      case None => Below(reset, a[..], n, 32 * a.Length)
  {
    hide Count, IsFull, Test, IsHit;
    ghost var words := a[..];
    var total := 32 * a.Length;
    var bit, wordIdx, bitIdx, clear := 0, 0, 0, 0;
    EmptyCount(reset, words, n);
    while bit < total
      invariant bit == 32 * wordIdx + bitIdx <= total && bitIdx <= 32
      invariant 0 < bitIdx < 32 ==> !IsFull(words[wordIdx])
      invariant clear == Count(reset, words, bit) && Below(reset, words, n, bit)
      decreases total - bit
    {
      if bitIdx == 32 {
        bitIdx, wordIdx := 0, wordIdx + 1;
      }
      if bitIdx == 0 {  // on to the next word that has a bit to offer
        while IsFull(a[wordIdx])
          invariant wordIdx < a.Length && bit == 32 * wordIdx < total
          invariant clear == Count(reset, words, bit) && Below(reset, words, n, bit)
          decreases a.Length - wordIdx
        {
          BelowFull(reset, words, n, wordIdx);
          wordIdx, bit := wordIdx + 1, bit + 32;
          if reset { clear := 0; }
          if bit >= total { return None; }
        }
      }
      CountStep(reset, words, wordIdx, bitIdx);
      BelowStep(reset, words, n, bit);
      if !Test(a[wordIdx], bitIdx) {
        clear := clear + 1;
        if clear == n {
          return Some(bit - clear + 1);
        }
      } else {
        clear := 0;
      }
      bit, bitIdx := bit + 1, bitIdx + 1;
    }
    return None;
  }

  lemma EmptyCount(reset: bool, words: seq<Word>, n: nat)
    ensures Count(reset, words, 0) == 0 && Below(reset, words, n, 0)
  {
  }

  /** With the reset, the counter is the length of the run of clear bits that ends at `i`. */
  lemma {:induction false} CountIsRun(words: seq<Word>, i: nat)
    requires i <= 32 * |words|
    ensures var c := Count(true, words, i);
            ClearRun(Bits(words), i - c, c) && (i - c == 0 || Bits(words)[i - c - 1])
  {
    if i > 0 {
      CountIsRun(words, i - 1);
      FullTest(words[(i - 1) / 32]);
    }
  }

  lemma {:induction false} RunIsCounted(words: seq<Word>, s: nat, n: nat)
    requires ClearRun(Bits(words), s, n)
    ensures Count(true, words, s + n) >= n
  {
    if n > 0 {
      RunIsCounted(words, s, n - 1);
      assert !Bits(words)[s + n - 1];
      FullTest(words[(s + n - 1) / 32]);
    }
  }

  lemma NoneCounted(words: seq<Word>, n: nat)
    ensures (exists i: nat :: i <= 32 * |words| && Count(true, words, i) >= n) <==>
            (exists t: nat :: ClearRun(Bits(words), t, n))
  {
    if i: nat :| i <= 32 * |words| && Count(true, words, i) >= n {
      CountIsRun(words, i);
      assert ClearRun(Bits(words), i - n, n);
    }
    if t: nat :| ClearRun(Bits(words), t, n) {
      RunIsCounted(words, t, n);
      assert t + n <= 32 * |words| && Count(true, words, t + n) >= n;
    }
  }

  lemma LongerRun(words: seq<Word>, s: nat, n: nat)
    requires s + n <= 32 * |words| && Count(true, words, s + n) > n
    ensures s > 0 && ClearRun(Bits(words), s - 1, n)
  {
    CountIsRun(words, s + n);
  }

  /** The word-skipping search with the reset finds exactly what the plain search finds. */
  lemma ResetScanIsPlainScan(words: seq<Word>, n: nat, s: nat)
    requires n > 0
    ensures IsHit(true, words, n, s + n) <==> FirstRun(Bits(words), n, s)
  {
    if IsHit(true, words, n, s + n) {
      CountIsRun(words, s + n);
      forall t: nat | t < s ensures !ClearRun(Bits(words), t, n) {
        if ClearRun(Bits(words), t, n) { RunIsCounted(words, t, n); }
      }
    }
    if FirstRun(Bits(words), n, s) {
      forall i: nat | i < s + n ensures Count(true, words, i) < n {
        CountIsRun(words, i);
        if Count(true, words, i) >= n { assert ClearRun(Bits(words), i - n, n); }
      }
      RunIsCounted(words, s, n);
      CountIsRun(words, s + n);
      if Count(true, words, s + n) > n { LongerRun(words, s, n); }
    }
  }

  /** Without the reset the counter can only be larger. */
  lemma {:induction false} SkipCountsMore(words: seq<Word>, i: nat)
    requires i <= 32 * |words|
    ensures Count(true, words, i) <= Count(false, words, i)
  {
    if i > 0 { SkipCountsMore(words, i - 1); }
  }

  ghost predicate NoFullWord(words: seq<Word>, s: nat, n: nat)
    requires s + n <= 32 * |words|
  {
    forall i :: s <= i < s + n ==> !IsFull(words[i / 32])
  }

  lemma {:induction false} CountedBack(words: seq<Word>, s: nat, n: nat, t: nat)
    requires s + n <= 32 * |words| && Count(false, words, s + n) == n && t <= n && NoFullWord(words, s, n)
    ensures Count(false, words, s + n - t) == n - t
    ensures forall i :: s + n - t <= i < s + n ==> !Bits(words)[i]
  {
    if t > 0 {
      CountedBack(words, s, n, t - 1);
      var i := s + n - t;
      assert !IsFull(words[i / 32]);
      hide Test, IsFull;
      assert !Bit(words, i);
    }
  }

  /** What the search as written returns is the first run of clear bits exactly when it holds no full word. */
  lemma ReturnedRange(words: seq<Word>, n: nat, s: nat)
    requires IsHit(false, words, n, s + n)
    ensures FirstRun(Bits(words), n, s) <==> NoFullWord(words, s, n)
  {
    if NoFullWord(words, s, n) {
      CountedBack(words, s, n, n);
      forall t: nat | t < s ensures !ClearRun(Bits(words), t, n) {
        if ClearRun(Bits(words), t, n) { RunIsCounted(words, t, n); SkipCountsMore(words, t + n); }
      }
    }
    if FirstRun(Bits(words), n, s) {
      forall i | s <= i < s + n ensures !IsFull(words[i / 32]) {
        assert !Bits(words)[i];
        FullTest(words[i / 32]);
      }
    }
  }

  /** When the search as written returns nothing, there is no run. */
  lemma WrittenMiss(words: seq<Word>, n: nat)
    requires n > 0 && Below(false, words, n, 32 * |words|)
    ensures forall t: nat :: !ClearRun(Bits(words), t, n)
  {
    forall t: nat ensures !ClearRun(Bits(words), t, n) {
      if ClearRun(Bits(words), t, n) { RunIsCounted(words, t, n); SkipCountsMore(words, t + n); }
    }
  }

  /** Bit i lies in a word of set bits only. */
  ghost predicate FullAt(b: seq<bool>, i: nat) {
    i / 32 * 32 + 32 <= |b| && forall j :: i / 32 * 32 <= j < i / 32 * 32 + 32 ==> b[j]
  }

  lemma FullWordAt(words: seq<Word>, i: nat)
    requires i < 32 * |words|
    ensures IsFull(words[i / 32]) <==> FullAt(Bits(words), i)
  {
    var w := i / 32;
    hide Test, IsFull;
    FullTest(words[w]);
    forall k: nat | k < 32 ensures Bits(words)[32 * w + k] == Test(words[w], k) {
      BitsAt(words, 32 * w + k);
    }
    if FullAt(Bits(words), i) {
      forall k: nat | k < 32 ensures Test(words[w], k) { assert Bits(words)[32 * w + k]; }
    }
    if IsFull(words[w]) {
      forall j | 32 * w <= j < 32 * w + 32 ensures Bits(words)[j] { assert Test(words[w], j - 32 * w); }
    }
  }

  /** Clear bits of [t, e). */
  function ClearIn(b: seq<bool>, t: nat, e: nat): (c: nat)
    requires e <= |b|
    ensures t <= e ==> c <= e - t
    decreases e
  {
    if e <= t then 0 else ClearIn(b, t, e - 1) + (if b[e - 1] then 0 else 1)
  }

  /** Every bit of [t, e) is clear or in a full word, the first one is clear. */
  ghost predicate Window(b: seq<bool>, t: nat, e: nat) {
    t < e <= |b| && !b[t] && forall i: nat :: t <= i < e ==> !b[i] || FullAt(b, i)
  }

  ghost predicate HasFull(b: seq<bool>, t: nat, e: nat) { exists i: nat :: t <= i < e && FullAt(b, i) }

  /** A window of clear bits and at least one full word, from a clear bit to the n-th one. */
  ghost predicate Joined(b: seq<bool>, n: nat, t: nat, e: nat) {
    Window(b, t, e) && ClearIn(b, t, e) == n && !b[e - 1] && HasFull(b, t, e)
  }

  /** Such a window ends before the end of the first run of n clear bits, if there is one. */
  ghost predicate Misled(b: seq<bool>, n: nat) {
    exists t: nat, e: nat :: Joined(b, n, t, e) && forall s: nat :: FirstRun(b, n, s) ==> e <= s + n
  }

  /** Something the search as written stops at. */
  ghost predicate Reached(b: seq<bool>, n: nat) {
    || (exists t: nat :: ClearRun(b, t, n))
    || (exists t: nat, e: nat :: Joined(b, n, t, e))
  }

  lemma FullIsSet(b: seq<bool>, i: nat)
    requires FullAt(b, i)
    ensures i < |b| && b[i]
  {
  }

  /** The counter in terms of the bits. */
  lemma CountBit(words: seq<Word>, e: nat)
    requires 0 < e <= 32 * |words|
    ensures FullAt(Bits(words), e - 1) ==> Bits(words)[e - 1]
    ensures Count(false, words, e)
         == if FullAt(Bits(words), e - 1) then Count(false, words, e - 1)
            else if Bits(words)[e - 1] then 0 else Count(false, words, e - 1) + 1
  {
    FullWordAt(words, e - 1);
    BitsAt(words, e - 1);
    if FullAt(Bits(words), e - 1) { FullIsSet(Bits(words), e - 1); }
    hide FullAt, Test, IsFull, Bits;
  }

  lemma ShorterWindow(b: seq<bool>, t: nat, e: nat)
    requires Window(b, t, e)
    ensures t + 1 < e ==> Window(b, t, e - 1)
    ensures !b[e - 1] || FullAt(b, e - 1)
  {
    hide FullAt;
  }

  lemma LongerWindow(b: seq<bool>, t: nat, e: nat)
    requires e < |b| && (Window(b, t, e) || t == e) && (!b[e] || (t < e && FullAt(b, e)))
    ensures Window(b, t, e + 1)
  {
    hide FullAt;
  }

  /** In a window the counter is never reset. */
  lemma {:induction false} WindowCounted(words: seq<Word>, t: nat, e: nat)
    requires Window(Bits(words), t, e)
    ensures Count(false, words, e) >= ClearIn(Bits(words), t, e)
    decreases e
  {
    var b := Bits(words);
    CountBit(words, e);
    ShorterWindow(b, t, e);
    assert ClearIn(b, t, t) == 0;
    hide FullAt, Bits, Count;
    if e > t + 1 { WindowCounted(words, t, e - 1); }
  }

  /** Where a positive counter started. */
  lemma {:induction false} CountedFrom(words: seq<Word>, e: nat) returns (t: nat)
    requires e <= 32 * |words| && Count(false, words, e) > 0
    ensures Window(Bits(words), t, e) && ClearIn(Bits(words), t, e) == Count(false, words, e)
    decreases e
  {
    var b := Bits(words);
    assert Count(false, words, 0) == 0;
    CountBit(words, e);
    hide FullAt, Bits, Count, Window;
    if Count(false, words, e - 1) > 0 {
      t := CountedFrom(words, e - 1);
      assert t < e - 1 by { WindowStarts(b, t, e - 1); }
    } else {
      t := e - 1;
      assert ClearIn(b, t, t) == 0;
    }
    LongerWindow(b, t, e - 1);
  }

  lemma WindowStarts(b: seq<bool>, t: nat, e: nat)
    requires Window(b, t, e)
    ensures t < e
  {
  }

  /** With no full word in it, a window is a run. */
  lemma {:induction false} PlainWindow(b: seq<bool>, t: nat, e: nat)
    requires Window(b, t, e)
    ensures ClearIn(b, t, e) == e - t || HasFull(b, t, e)
    decreases e
  {
    ShorterWindow(b, t, e);
    hide FullAt;
    if e > t + 1 {
      PlainWindow(b, t, e - 1);
    } else {
      assert ClearIn(b, t, t) == 0;
    }
    assert FullAt(b, e - 1) ==> HasFull(b, t, e);
  }

  lemma {:induction false} FewerClear(b: seq<bool>, t: nat, s: nat, e: nat)
    requires t <= s <= e <= |b|
    ensures ClearIn(b, t, e) == ClearIn(b, t, s) + ClearIn(b, s, e)
    decreases e
  {
    if s < e { FewerClear(b, t, s, e - 1); }
  }

  lemma {:induction false} AllClear(b: seq<bool>, s: nat, e: nat)
    requires s <= e <= |b|
    ensures ClearIn(b, s, e) == e - s <==> forall i :: s <= i < e ==> !b[i]
    decreases e
  {
    if s < e { AllClear(b, s, e - 1); }
  }

  lemma SameStart(b: seq<bool>, t: nat, s: nat, e: nat)
    requires t < e <= |b| && s <= e && !b[t] && ClearIn(b, s, e) == ClearIn(b, t, e) == e - s
    ensures t == s
  {
    if t < s {
      assert ClearIn(b, t, t) == 0 && ClearIn(b, t, t + 1) == 1;
      FewerClear(b, t, t + 1, s);
      FewerClear(b, t, s, e);
    }
  }

  /** A window does not end with a run of as many clear bits as it has. */
  lemma JoinedEnd(b: seq<bool>, n: nat, t: nat, e: nat, s: nat)
    requires Joined(b, n, t, e) && ClearRun(b, s, n)
    ensures e != s + n
  {
    hide FullAt;
    if e == s + n {
      AllClear(b, s, e);
      SameStart(b, t, s, e);
      var i: nat :| t <= i < e && FullAt(b, i);
      FullIsSet(b, i);
    }
  }

  /** A range with a full word that the search returns ends a window. */
  lemma HitJoined(words: seq<Word>, n: nat, s: nat) returns (t: nat)
    requires IsHit(false, words, n, s + n) && !NoFullWord(words, s, n)
    ensures Joined(Bits(words), n, t, s + n)
  {
    var b, e := Bits(words), s + n;
    t := CountedFrom(words, e);
    var i: nat :| s <= i < s + n && IsFull(words[i / 32]);
    FullWordAt(words, i);
    FullWordAt(words, e - 1);
    BitsAt(words, e - 1);
    hide FullAt, Test, IsFull, Bits;
    assert Count(false, words, e - 1) < n;
    assert FullAt(b, i);
    PlainWindow(b, t, e);
  }

  /** A window is counted to its n-th clear bit, so the search stops there at the latest. */
  lemma JoinedHit(words: seq<Word>, n: nat, t: nat, e: nat, end: nat)
    requires Joined(Bits(words), n, t, e) && end <= 32 * |words| && forall i: nat :: i < end ==>
      Count(false, words, i) < n
    ensures end <= e
  {
    WindowCounted(words, t, e);
  }

  /** The search as written, which keeps counting across a skipped full word, finds the first run of clear bits
      exactly when no window of clear bits and full words has as many clear bits before that run ends. */
  lemma WrittenScan(words: seq<Word>, n: nat, s: nat)
    requires IsHit(false, words, n, s + n)
    ensures FirstRun(Bits(words), n, s) <==> !Misled(Bits(words), n)
    ensures Reached(Bits(words), n)
  {
    var b := Bits(words);
    ReturnedRange(words, n, s);
    hide Bits, Count, FullAt, IsFull, Window;
    if !NoFullWord(words, s, n) {
      var t := HitJoined(words, n, s);
      forall f: nat | FirstRun(b, n, f) ensures s + n <= f + n {
        RunIsCounted(words, f, n);
        SkipCountsMore(words, f + n);
      }
      assert Joined(b, n, t, s + n);
    } else if t: nat, e: nat :| Joined(b, n, t, e) && forall f: nat :: FirstRun(b, n, f) ==> e <= f + n {
      JoinedHit(words, n, t, e, s + n);
      JoinedEnd(b, n, t, e, s);
    }
  }

  /** The returned range ends with a clear bit, and holds a set one unless it is the first run. */
  lemma HitEnds(words: seq<Word>, n: nat, s: nat)
    requires IsHit(false, words, n, s + n)
    ensures s + n <= 32 * |words| && !Bits(words)[s + n - 1]
    ensures FirstRun(Bits(words), n, s) || exists i: nat :: s <= i < s + n && Bits(words)[i]
  {
    ReturnedRange(words, n, s);
    CountBit(words, s + n);
    assert Count(false, words, s + n - 1) < n;
    hide Count, FullAt, Test, FirstRun;
    if !NoFullWord(words, s, n) {
      var i: nat :| s <= i < s + n && IsFull(words[i / 32]);
      FullWordAt(words, i);
      FullIsSet(Bits(words), i);
    }
  }

  lemma HitNotZero(reset: bool, words: seq<Word>, n: nat, e: nat)
    requires IsHit(reset, words, n, e)
    ensures n > 0
  {
  }

  /** The search as written finds nothing exactly when there is neither a run nor a window. */
  lemma WrittenNone(words: seq<Word>, n: nat)
    requires n > 0
    ensures Below(false, words, n, 32 * |words|) <==> !Reached(Bits(words), n)
  {
    var b := Bits(words);
    hide Bits, Count, FullAt, IsFull, Window;
    if Below(false, words, n, 32 * |words|) {
      WrittenMiss(words, n);
      if t: nat, e: nat :| Joined(b, n, t, e) { JoinedTooFar(words, n, t, e); }
    } else {
      var e := FirstReached(words, n, 32 * |words|);
      WrittenScan(words, n, e - n);
    }
  }

  lemma JoinedTooFar(words: seq<Word>, n: nat, t: nat, e: nat)
    requires Joined(Bits(words), n, t, e) && n > 0
    ensures !Below(false, words, n, 32 * |words|)
  {
    WindowCounted(words, t, e);
  }

  /** The counter goes up by one at a time. */
  lemma {:induction false} FirstReached(words: seq<Word>, n: nat, i: nat) returns (e: nat)
    requires n > 0 && i <= 32 * |words| && !Below(false, words, n, i)
    ensures n <= e && IsHit(false, words, n, e)
  {
    if i == 0 {
      assert false;
    } else if Below(false, words, n, i - 1) {
      e := i;
      assert Count(false, words, i) <= Count(false, words, i - 1) + 1;
    } else {
      e := FirstReached(words, n, i - 1);
    }
  }

  /** A single clear bit is always found. */
  lemma OneBitFound(b: seq<bool>)
    ensures !Misled(b, 1)
  {
    forall t: nat, e: nat ensures !Joined(b, 1, t, e) {
      if Joined(b, 1, t, e) { JoinedEnd(b, 1, t, e, e - 1); }
    }
  }

  lemma {:induction false} SetBitsCountZero(words: seq<Word>, i: nat)
    requires i <= 31 && |words| > 0 && words[0] == LowOnes(31)
    ensures Count(false, words, i) == 0
  {
    if i > 0 {
      SetBitsCountZero(words, i - 1);
      MaskTest(31, 0, i - 1);
      assert Mask(31, 0) == LowOnes(31) by { ShiftEnds(); }
    }
  }

  /** Bit 31 clear, a full word, bit 64 clear: asked for two bits, the search as written answers 63,
      although bit 63 is set. */
  lemma WrittenScanJoinsRuns()
    ensures var words := [LowOnes(31), FULL, 0xFFFF_FFFE];
            IsHit(false, words, 2, 65) && Bits(words)[63] && !ClearRun(Bits(words), 63, 2)
  {
    var words: seq<Word> := [LowOnes(31), FULL, 0xFFFF_FFFE];
    SetBitsCountZero(words, 31);
    MaskTest(31, 0, 31);
    assert Mask(31, 0) == LowOnes(31) && !IsFull(LowOnes(31)) by { ShiftEnds(); }
    CountStep(false, words, 0, 31);
    assert Count(false, words, 32) == 1;
    CountFull(false, words, 1, 32);
    assert !Test(words[2], 0);
    CountStep(false, words, 2, 0);
    forall i: nat | i < 65 ensures Count(false, words, i) < 2 {
      if i <= 31 { SetBitsCountZero(words, i); } else if i > 32 { CountFull(false, words, 1, i - 32); }
    }
    FullTest(FULL);
    assert Bit(words, 63);
  }
}
