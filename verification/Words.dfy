/** 32-bit bitmap words: the mask arithmetic of the kernel's bitmaps, in terms of single bits. */
module Words {

  type Word = bv32

  function Shl(w: Word, s: nat): Word
    requires s < 32
  {
    w << s
  }

  predicate Meets(w: Word, mask: Word) { w & mask != 0 }

  predicate Test(w: Word, k: nat)
    requires k < 32
  {
    Meets(w, Shl(1, k))
  }

  /** `(1 << count) - 1` as i386 computes it: the shift count is taken modulo 32. */
  function LowOnes(count: nat): Word {
    Shl(1, count % 32) - 1
  }

  /** `((1 << count) - 1) << start`. */
  function Mask(count: nat, start: nat): Word
    requires start < 32
  {
    Shl(LowOnes(count), start)
  }

  /** `w & ~(1 << j)`. */
  function Without(w: Word, j: nat): Word
    requires j < 32
  {
    w & !Shl(1, j)
  }

  /** `w & (0b11 << j)` is not zero. */
  predicate TestPair(w: Word, j: nat)
    requires j < 31
  {
    Meets(w, Shl(3, j))
  }

  /** `!(~w)`. */
  predicate IsFull(w: Word) { !w == 0 }

  lemma OrTest(a: Word, b: Word, k: nat)
    requires k < 32
    ensures Test(a | b, k) <==> Test(a, k) || Test(b, k)
  {
    hide Shl, Meets;
    OrMeets(a, b, Shl(1, k));
  }

  lemma OrMeets(a: Word, b: Word, mask: Word)
    ensures Meets(a | b, mask) <==> Meets(a, mask) || Meets(b, mask)
  {
    RawAndOr(mask, a, b);
    RawOrZero(a & mask, b & mask);
  }

  lemma RawAndOr(w: Word, a: Word, b: Word)
    ensures w & (a | b) == (w & a) | (w & b) && (a | b) & w == (a & w) | (b & w)
  {
  }

  lemma RawOrZero(a: Word, b: Word)
    ensures a | b == 0 <==> a == 0 && b == 0
  {
  }

  lemma OneTest(j: nat, k: nat)
    requires j < 32 && k < 32
    ensures Test(Shl(1, j), k) <==> k == j
  {
  }

  lemma ZeroTest(k: nat)
    requires k < 32
    ensures !Test(0, k)
  {
  }

  lemma WithoutTest(w: Word, j: nat, k: nat)
    requires j < 32 && k < 32
    ensures Test(Without(w, j), k) <==> Test(w, k) && k != j
  {
    hide Shl, Meets;
    OneTest(j, k);
    WithoutMeets(w, Shl(1, j), Shl(1, k));
  }

  lemma WithoutMeets(w: Word, a: Word, b: Word)
    ensures !Meets(w & !a, a)
    ensures !Meets(a, b) ==> (Meets(w & !a, b) <==> Meets(w, b))
  {
    RawWithoutSelf(w, a);
    if a & b == 0 { RawWithoutOther(w, a, b); }
  }

  lemma RawWithoutSelf(w: Word, a: Word)
    ensures w & !a & a == 0
  {
  }

  lemma RawWithoutOther(w: Word, a: Word, b: Word)
    requires a & b == 0
    ensures w & !a & b == w & b
  {
  }

  lemma FullTest(w: Word)
    ensures IsFull(w) <==> forall k: nat :: k < 32 ==> Test(w, k)
  {
    hide Shl, Meets;
    if IsFull(w) {
      forall k: nat | k < 32 ensures Test(w, k) { FullMeets(w, k); }
    }
    if forall k: nat :: k < 32 ==> Test(w, k) {
      PowersOfTwo();
      assert Test(w, 0) && Test(w, 1) && Test(w, 2) && Test(w, 3) && Test(w, 4) && Test(w, 5) && Test(w, 6)
        && Test(w, 7) && Test(w, 8) && Test(w, 9) && Test(w, 10) && Test(w, 11) && Test(w, 12) && Test(w, 13)
        && Test(w, 14) && Test(w, 15) && Test(w, 16) && Test(w, 17) && Test(w, 18) && Test(w, 19) && Test(w, 20)
        && Test(w, 21) && Test(w, 22) && Test(w, 23) && Test(w, 24) && Test(w, 25) && Test(w, 26) && Test(w, 27)
        && Test(w, 28) && Test(w, 29) && Test(w, 30) && Test(w, 31);
      AllPowers(w);
    }
  }

  lemma FullMeets(w: Word, k: nat)
    requires IsFull(w) && k < 32
    ensures Test(w, k)
  {
    assert w == 0xFFFF_FFFF;
  }

  lemma PowersOfTwo()
    ensures Shl(1, 0) == 0x1 && Shl(1, 1) == 0x2 && Shl(1, 2) == 0x4 && Shl(1, 3) == 0x8
         && Shl(1, 4) == 0x10 && Shl(1, 5) == 0x20 && Shl(1, 6) == 0x40 && Shl(1, 7) == 0x80
         && Shl(1, 8) == 0x100 && Shl(1, 9) == 0x200 && Shl(1, 10) == 0x400 && Shl(1, 11) == 0x800
         && Shl(1, 12) == 0x1000 && Shl(1, 13) == 0x2000 && Shl(1, 14) == 0x4000 && Shl(1, 15) == 0x8000
         && Shl(1, 16) == 0x10000 && Shl(1, 17) == 0x20000 && Shl(1, 18) == 0x40000 && Shl(1, 19) == 0x80000
         && Shl(1, 20) == 0x100000 && Shl(1, 21) == 0x200000 && Shl(1, 22) == 0x400000 && Shl(1, 23) == 0x800000
         && Shl(1, 24) == 0x1000000 && Shl(1, 25) == 0x2000000 && Shl(1, 26) == 0x4000000 && Shl(1, 27) == 0x8000000
         && Shl(1, 28) == 0x10000000 && Shl(1, 29) == 0x20000000 && Shl(1, 30) == 0x40000000 && Shl(1, 31) == 0x80000000
  {
  }

  lemma AllPowers(w: Word)
    requires Meets(w, 0x1) && Meets(w, 0x2) && Meets(w, 0x4) && Meets(w, 0x8)
          && Meets(w, 0x10) && Meets(w, 0x20) && Meets(w, 0x40) && Meets(w, 0x80)
          && Meets(w, 0x100) && Meets(w, 0x200) && Meets(w, 0x400) && Meets(w, 0x800)
          && Meets(w, 0x1000) && Meets(w, 0x2000) && Meets(w, 0x4000) && Meets(w, 0x8000)
          && Meets(w, 0x10000) && Meets(w, 0x20000) && Meets(w, 0x40000) && Meets(w, 0x80000)
          && Meets(w, 0x100000) && Meets(w, 0x200000) && Meets(w, 0x400000) && Meets(w, 0x800000)
          && Meets(w, 0x1000000) && Meets(w, 0x2000000) && Meets(w, 0x4000000) && Meets(w, 0x8000000)
          && Meets(w, 0x10000000) && Meets(w, 0x20000000) && Meets(w, 0x40000000) && Meets(w, 0x80000000)
    ensures IsFull(w)
  {
    assert w == 0xFFFF_FFFF;
  }

  /** A word without a set bit is zero. */
  lemma NoBits(w: Word)
    requires forall k: nat :: k < 32 ==> !Test(w, k)
    ensures w == 0
  {
    var complement := !w;
    forall k: nat | k < 32 ensures Test(complement, k) { ComplementTest(w, k); }
    FullTest(complement);
    DoubleComplement(w);
  }

  lemma ComplementTest(w: Word, k: nat)
    requires k < 32
    ensures Test(!w, k) <==> !Test(w, k)
  {
    SingleMeets(w, k);
  }

  lemma SingleMeets(w: Word, k: nat)
    requires k < 32
    ensures Meets(!w, Shl(1, k)) <==> !Meets(w, Shl(1, k))
  {
  }

  lemma DoubleComplement(w: Word)
    ensures !!w == w && (IsFull(!w) ==> w == 0)
  {
  }

  function Or(a: Word, b: Word): Word { a | b }

  lemma OrOfTest(a: Word, b: Word, k: nat)
    requires k < 32
    ensures Test(Or(a, b), k) <==> Test(a, k) || Test(b, k)
  {
    hide Test;
    OrTest(a, b, k);
  }

  lemma {:induction false} OrShift(a: Word, b: Word, s: nat)
    requires s < 32
    ensures Shl(Or(a, b), s) == Or(Shl(a, s), Shl(b, s))
  {
    hide Shl, Or;
    ShiftEnds();
    if s > 0 {
      OrShift(a, b, s - 1);
      OrShiftOnce(Shl(a, s - 1), Shl(b, s - 1));
      ShiftStep(Or(a, b), s - 1);
      ShiftStep(a, s - 1);
      ShiftStep(b, s - 1);
    }
  }

  lemma OrShiftOnce(a: Word, b: Word)
    ensures Shl(Or(a, b), 1) == Or(Shl(a, 1), Shl(b, 1))
  {
    ShiftOnce(a);
    ShiftOnce(b);
    ShiftOnce(a | b);
    RawOrShift(a, b);
    hide Shl;
  }

  lemma ShiftOnce(w: Word)
    ensures Shl(w, 1) == w << 1
  {
  }

  lemma RawOrShift(a: Word, b: Word)
    ensures (a | b) << 1 == (a << 1) | (b << 1)
  {
  }

  lemma ShiftEnds()
    ensures forall w: Word :: Shl(w, 0) == w
    ensures Shl(0, 1) == 0 && Shl(Shl(1, 31), 1) == 0
    ensures Shl(1, 1) == 2
    ensures LowOnes(0) == 0 && LowOnes(32) == 0
    ensures forall s: nat :: s < 32 ==> Shl(0, s) == 0
  {
  }

  lemma ShiftStep(w: Word, s: nat)
    requires s < 31
    ensures Shl(w, s + 1) == Shl(Shl(w, s), 1)
  {
    RawShiftStep(w, s);
  }

  lemma RawShiftStep(w: Word, s: nat)
    requires s < 31
    ensures w << (s + 1) == (w << s) << 1
  {
    if s < 16 {
      LowShiftStep(w, s);
    } else {
      HighShiftStep(w, s);
    }
  }

  lemma LowShiftStep(w: Word, s: nat)
    requires s < 16
    ensures w << (s + 1) == (w << s) << 1
  {
    assert s == 0 || s == 1 || s == 2 || s == 3 || s == 4 || s == 5 || s == 6 || s == 7
        || s == 8 || s == 9 || s == 10 || s == 11 || s == 12 || s == 13 || s == 14 || s == 15;
  }

  lemma HighShiftStep(w: Word, s: nat)
    requires 16 <= s < 31
    ensures w << (s + 1) == (w << s) << 1
  {
    assert s == 16 || s == 17 || s == 18 || s == 19 || s == 20 || s == 21 || s == 22 || s == 23
        || s == 24 || s == 25 || s == 26 || s == 27 || s == 28 || s == 29 || s == 30;
  }

  /** A one shifted twice, dropped once it leaves the word. */
  lemma {:induction false} OneShifted(c: nat, s: nat)
    requires c < 32 && s < 32
    ensures Shl(Shl(1, c), s) == if c + s < 32 then Shl(1, c + s) else 0
  {
    hide Shl;
    ShiftEnds();
    if s > 0 {
      OneShifted(c, s - 1);
      ShiftStep(Shl(1, c), s - 1);
      if c + s < 32 { ShiftStep(1, c + s - 1); }
    }
  }

  lemma PairTest(w: Word, j: nat)
    requires j < 31
    ensures TestPair(w, j) <==> Test(w, j) || Test(w, j + 1)
  {
    hide Shl, Meets;
    ThreeShifted(j);
    MeetsOr(w, Shl(1, j), Shl(1, j + 1));
  }

  lemma ThreeShifted(j: nat)
    requires j < 31
    ensures Shl(3, j) == Shl(1, j) | Shl(1, j + 1)
  {
    RawThree(j);
  }

  lemma MeetsOr(w: Word, a: Word, b: Word)
    ensures Meets(w, a | b) <==> Meets(w, a) || Meets(w, b)
  {
    RawAndOr(w, a, b);
    RawOrZero(w & a, w & b);
  }

  lemma RawThree(j: nat)
    requires j < 31
    ensures (3 as Word) << j == (1 << j) | (1 << (j + 1))
  {
    if j < 16 {
      assert j == 0 || j == 1 || j == 2 || j == 3 || j == 4 || j == 5 || j == 6 || j == 7
          || j == 8 || j == 9 || j == 10 || j == 11 || j == 12 || j == 13 || j == 14 || j == 15;
    } else {
      assert j == 16 || j == 17 || j == 18 || j == 19 || j == 20 || j == 21 || j == 22 || j == 23
          || j == 24 || j == 25 || j == 26 || j == 27 || j == 28 || j == 29 || j == 30;
    }
  }

  lemma OnesStep(c: nat)
    requires c < 31
    ensures LowOnes(c + 1) == Or(LowOnes(c), Shl(1, c))
  {
    hide Shl, Or;
    ShiftStep(1, c);
    SingleBit(c);
    hide LowOnes;
    OnesBelow(Shl(1, c));
  }

  /** A word with a single bit, other than the highest, and the ones below it. */
  lemma SingleBit(c: nat)
    requires c < 31
    ensures Shl(1, c) & (Shl(1, c) - 1) == 0
  {
  }

  lemma OnesBelow(p: Word)
    requires p & (p - 1) == 0
    ensures Shl(p, 1) - 1 == Or(p - 1, p)
  {
  }

  lemma MaskStep(count: nat, start: nat, k: nat)
    requires count < 31 && start < 32 && k < 32
    ensures Test(Mask(count + 1, start), k) <==> Test(Mask(count, start), k) || Test(Shl(Shl(1, count), start), k)
  {
    hide Shl, Test, LowOnes, Or;
    OnesStep(count);
    OrShift(LowOnes(count), Shl(1, count), start);
    OrOfTest(Shl(LowOnes(count), start), Shl(Shl(1, count), start), k);
  }

  /** The mask `((1 << count) - 1) << start`: bits start to start + count, as far as they are in the
      word; none at all when `count` is 32, since the shift count wraps around. */
  lemma {:induction false} MaskTest(count: nat, start: nat, k: nat)
    requires count <= 32 && start < 32 && k < 32
    ensures Test(Mask(count, start), k) <==> count < 32 && start <= k < start + count
  {
    hide Shl, Test, LowOnes;
    ShiftEnds();
    ZeroTest(k);
    if 0 < count < 32 {
      MaskTest(count - 1, start, k);
      MaskStep(count - 1, start, k);
      OneShifted(count - 1, start);
      if count - 1 + start < 32 { OneTest(count - 1 + start, k); }
    }
  }

  // ---------------------------------------------------------------- bitmaps

  function Bit(words: seq<Word>, i: nat): bool
    requires i < 32 * |words|
  {
    Test(words[i / 32], i % 32)
  }

  /** The bits of a bitmap, lowest first. */
  function Bits(words: seq<Word>): (b: seq<bool>)
    ensures |b| == 32 * |words|
  {
    seq(32 * |words|, i requires 0 <= i < 32 * |words| => Bit(words, i))
  }

  lemma BitsAt(words: seq<Word>, i: nat)
    requires i < 32 * |words|
    ensures Bits(words)[i] == Bit(words, i)
  {
  }

  /** Or-ing a mask into one word. */
  lemma OrWord(words: seq<Word>, x: nat, mask: Word, i: nat)
    requires x < |words| && i < 32 * |words|
    ensures Bits(words[x := words[x] | mask])[i] == (Bits(words)[i] || (i / 32 == x && Test(mask, i % 32)))
  {
    hide Test;
    if i / 32 == x { OrTest(words[x], mask, i % 32); }
  }

  /** Clearing one bit of one word. */
  lemma WithoutBit(words: seq<Word>, i: nat)
    requires i < 32 * |words|
    ensures Bits(words[i / 32 := Without(words[i / 32], i % 32)]) == Bits(words)[i := false]
  {
    hide Test, Without;
    var words' := words[i / 32 := Without(words[i / 32], i % 32)];
    forall k: nat | k < 32 * |words| ensures Bits(words')[k] == Bits(words)[i := false][k] {
      if k / 32 == i / 32 { WithoutTest(words[i / 32], i % 32, k % 32); }
    }
  }
}
