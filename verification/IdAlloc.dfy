/** The ID allocator: a bitmap that grows by whole pages, and a counter of the next ID to try. */
module IdAlloc {
  import opened Options
  import opened Words

  /** Bitmaps are sized in pages. */
  const INCREMENT: nat := 4096

  /** No size computation wraps around in 32 bits below this. */
  const LIMIT: nat := 0xFFFF_0000

  function RoundTo(size: nat, unit: nat): (r: nat)
    requires unit > 0
    ensures size <= r
  {
    if size % unit == 0 then size else size + (unit - size % unit)
  }

  method RoundUp(size: nat, unit: nat) returns (r: nat)
    requires unit > 0
    ensures r == RoundTo(size, unit)
  {
    r := size;
    var remainder := size % unit;
    if remainder != 0 { r := r + (unit - remainder); }
  }

  /** Sizes are whole words. */
  lemma WholeWords(size: nat)
    ensures var r := RoundTo(RoundTo(size, 4), INCREMENT);
            r >= size && r % INCREMENT == 0 && r == 4 * (r / 4)
  {
    Multiple(RoundTo(size, 4), INCREMENT);
  }

  lemma Multiple(size: nat, unit: nat)
    requires unit == 4 || unit == INCREMENT
    ensures RoundTo(size, unit) % unit == 0 && RoundTo(size, unit) % 4 == RoundTo(size, unit) % unit % 4 == 0
    ensures size <= RoundTo(size, unit) < size + unit
  {
  }

  lemma RoundedWords(n: nat)
    ensures (n + 1 + 3) / 4 * 4 == RoundTo(n + 1, 4)
  {
  }

  /** The operations, whether the heap has memory for a larger bitmap, and stores of other code to the memory of a
      bitmap that was lost. */
  datatype Op = Alloc(granted: bool) | Free(id: nat) | Expand(maxId: nat, granted: bool) | Trim
    | Reuse(words: seq<Word>)

  /** The set bits of a bitmap. */
  ghost predicate SetBits(bitmap: seq<Word>, ids: set<nat>) {
    && (forall i :: i in ids ==> i < 32 * |bitmap|)
    && (forall i: nat :: i < 32 * |bitmap| ==> (Bits(bitmap)[i] <==> i in ids))
  }

  function Marked(bitmap: seq<Word>, id: nat): seq<Word>
    requires id < 32 * |bitmap|
  {
    bitmap[id / 32 := bitmap[id / 32] | Shl(1, id % 32)]
  }

  lemma MarkedBit(bitmap: seq<Word>, id: nat, i: nat)
    requires id < 32 * |bitmap| && i < 32 * |bitmap|
    ensures |Marked(bitmap, id)| == |bitmap|
    ensures Bits(Marked(bitmap, id))[i] <==> Bits(bitmap)[i] || i == id
  {
    hide Test, Shl;
    OrWord(bitmap, id / 32, Shl(1, id % 32), i);
    OneTest(id % 32, i % 32);
  }

  lemma SetOne(bitmap: seq<Word>, ids: set<nat>, id: nat)
    requires SetBits(bitmap, ids) && id < 32 * |bitmap|
    ensures SetBits(Marked(bitmap, id), ids + {id})
  {
    hide Bits, Marked;
    MarkedBit(bitmap, id, id);
    forall i: nat | i < 32 * |bitmap| ensures Bits(Marked(bitmap, id))[i] <==> i in ids + {id} {
      MarkedBit(bitmap, id, i);
    }
  }

  lemma ClearOne(bitmap: seq<Word>, ids: set<nat>, id: nat)
    requires SetBits(bitmap, ids) && id < 32 * |bitmap|
    ensures SetBits(bitmap[id / 32 := Without(bitmap[id / 32], id % 32)], ids - {id})
  {
    WithoutBit(bitmap, id);
  }

  lemma Zeroes(n: nat)
    ensures SetBits(seq(n, i => 0), {})
  {
    var zeroes := seq(n, i => 0 as Word);
    forall i: nat | i < 32 * n ensures !Bits(zeroes)[i] { ZeroTest(i % 32); }
  }

  lemma Extended(bitmap: seq<Word>, ids: set<nat>, n: nat)
    requires SetBits(bitmap, ids)
    ensures SetBits(bitmap + seq(n, i => 0), ids)
  {
    hide Test;
    var longer := bitmap + seq(n, i => 0);
    forall i: nat | i < 32 * |longer| ensures Bits(longer)[i] == (i in ids) {
      if i < 32 * |bitmap| {
        assert longer[i / 32] == bitmap[i / 32];
        assert Bits(bitmap)[i] == Bits(longer)[i];
      } else {
        ZeroTest(i % 32);
      }
    }
  }

  /** Words that are zero hold no ID. */
  lemma Shortened(bitmap: seq<Word>, ids: set<nat>, n: nat)
    requires SetBits(bitmap, ids) && n <= |bitmap| && forall x :: n <= x < |bitmap| ==> bitmap[x] == 0
    ensures SetBits(bitmap[..n], ids)
  {
    forall i | i in ids ensures i < 32 * n {
      assert Bits(bitmap)[i];
      ZeroTest(i % 32);
    }
    forall i: nat | i < 32 * n ensures Bits(bitmap[..n])[i] <==> i in ids {
      assert Bits(bitmap)[i] == Bits(bitmap[..n])[i];
    }
  }

  lemma InBitmap(id: nat, words: nat)
    ensures id / 32 * 4 < 4 * words <==> id < 32 * words
  {
  }

  /** What growing the bitmap makes of its size. */
  lemma GrownSize(maxId: nat, size: nat)
    requires size % INCREMENT == 0 && size == 4 * (size / 4)
    ensures maxId < RoundTo(maxId + 1, 4)
    ensures var r := RoundTo(RoundTo(maxId + 1, 4), INCREMENT);
            && r % INCREMENT == 0 && r > 0 && RoundTo(maxId + 1, 4) <= r && r == 4 * (r / 4)
            && (size <= r ==> r - size == 4 * ((r - size) / 4))
  {
    WholeWords(maxId + 1);
    Multiple(maxId + 1, 4);
    Multiple(RoundTo(maxId + 1, 4), INCREMENT);
    var r := RoundTo(RoundTo(maxId + 1, 4), INCREMENT);
    hide RoundTo;
    if size <= r { FoursDiffer(r, size, r / 4, size / 4); }
  }

  lemma FoursDiffer(a: nat, b: nat, x: nat, y: nat)
    requires a == 4 * x && b == 4 * y && b <= a
    ensures a - b == 4 * ((a - b) / 4)
  {
    assert a - b == 4 * (x - y);
  }

  /** The trimmed size does not exceed the old one, and is a whole number of words. */
  lemma TrimmedSize(words: nat, all: nat)
    requires words <= all && all > 0 && 4 * all % INCREMENT == 0
    ensures var r := if 4 * words < INCREMENT then INCREMENT else RoundTo(4 * words, INCREMENT);
            words <= r / 4 <= all && r == 4 * (r / 4) && r % INCREMENT == 0 && INCREMENT <= r
            && (r > INCREMENT ==> 32 * (words - 1) >= 8 * (r - INCREMENT))
  {
  }

  /** A word that is not zero holds an ID. */
  lemma LastWord(bitmap: seq<Word>, ids: set<nat>, n: nat)
    requires SetBits(bitmap, ids) && n <= |bitmap|
    ensures n > 0 && bitmap[n - 1] != 0 ==> exists id :: id in ids && id >= 32 * (n - 1)
  {
    if n > 0 && bitmap[n - 1] != 0 {
      var k := SomeBit(bitmap[n - 1]);
      var id := 32 * (n - 1) + k;
      assert id / 32 == n - 1 && id % 32 == k && Bits(bitmap)[id] && id in ids;
    }
  }

  lemma AllBelow(bitmap: seq<Word>, ids: set<nat>)
    requires SetBits(bitmap, ids)
    ensures forall id :: id in ids ==> id < 32 * |bitmap|
  {
  }

  lemma SomeBit(w: Word) returns (k: nat)
    requires w != 0
    ensures k < 32 && Test(w, k)
  {
    if exists j: nat :: j < 32 && Test(w, j) {
      k :| k < 32 && Test(w, k);
    } else {
      NoBits(w);
      assert false;
    }
  }

  /** The IDs in use after a run, given what each operation issued. */
  function InUse(ops: seq<Op>, ids: seq<Option<nat>>): set<nat>
    requires |ids| == |ops|
  {
    if ops == [] then {}
    else
      var n := |ops| - 1;
      var before := InUse(ops[..n], ids[..n]);
      if ops[n].Free? then before - {ops[n].id} else if ids[n].Some? then before + {ids[n].value} else before
  }

  lemma NoneInUse()
    ensures InUse([], []) == {}
  {
  }

  lemma InUseNext(ops: seq<Op>, ids: seq<Option<nat>>, k: nat, id: Option<nat>)
    requires |ids| == k < |ops|
    ensures var before := InUse(ops[..k], ids);
            InUse(ops[..k + 1], ids + [id])
            == if ops[k].Free? then before - {ops[k].id} else if id.Some? then before + {id.value} else before
  {
    assert ops[..k + 1][..k] == ops[..k] && (ids + [id])[..k] == ids;
  }

  ghost predicate IssuedAt(ops: seq<Op>, ids: seq<Option<nat>>, i: nat, k: nat)
    requires |ids| == |ops|
  {
    k < |ops| && ids[k] == Some(i) && !ops[k].Free? && forall l :: k < l < |ops| ==> ops[l] != Free(i)
  }

  /** In use are exactly the IDs that were issued and not freed since. */
  lemma {:induction false} IssuedAndNotFreed(ops: seq<Op>, ids: seq<Option<nat>>, i: nat)
    requires |ids| == |ops|
    ensures i in InUse(ops, ids) <==> exists k: nat :: IssuedAt(ops, ids, i, k)
  {
    if ops != [] {
      var n := |ops| - 1;
      IssuedAndNotFreed(ops[..n], ids[..n], i);
      if k: nat :| IssuedAt(ops[..n], ids[..n], i, k) {
        assert ops[n] != Free(i) ==> IssuedAt(ops, ids, i, k);
      }
      if k: nat :| IssuedAt(ops, ids, i, k) {
        assert k == n || IssuedAt(ops[..n], ids[..n], i, k);
      }
      assert !ops[n].Free? && ids[n] == Some(i) ==> IssuedAt(ops, ids, i, n);
    }
  }

  /** Every ID that a run issues is larger than all before. */
  ghost predicate Increasing(ids: seq<Option<nat>>) {
    forall j, k :: 0 <= j < k < |ids| && ids[j].Some? && ids[k].Some? ==> ids[j].value < ids[k].value
  }

  ghost predicate Below(ids: seq<Option<nat>>, bound: nat) {
    forall j :: 0 <= j < |ids| && ids[j].Some? ==> ids[j].value < bound
  }

  /** The size of a bitmap for IDs up to `maxId`: as many bytes as IDs, although eight IDs fit a byte. */
  function SizeFor(maxId: nat): nat { RoundTo(RoundTo(maxId + 1, 4), INCREMENT) }

  /** The fewest pages with that many bytes; with it, growing is needed exactly if the size does not exceed `maxId`. */
  lemma SizeForIs(maxId: nat, size: nat)
    requires size % 4096 == 0
    ensures SizeFor(maxId) % 4096 == 0 && maxId < SizeFor(maxId) <= maxId + 4096
    ensures SizeFor(maxId) > size <==> maxId >= size
    ensures RoundTo(maxId + 1, 4) < size <==> maxId + 4 < size
  {
    FewestWords(maxId, size);
    FewestPages(RoundTo(maxId + 1, 4), maxId);
  }

  lemma FewestWords(maxId: nat, size: nat)
    requires size % 4096 == 0
    ensures RoundTo(maxId + 1, 4) % 4 == 0 && maxId < RoundTo(maxId + 1, 4) <= maxId + 4
    ensures RoundTo(maxId + 1, 4) < size <==> maxId + 4 < size
  {
  }

  lemma FewestPages(n: nat, maxId: nat)
    requires n % 4 == 0 && maxId < n <= maxId + 4
    ensures RoundTo(n, 4096) % 4096 == 0 && maxId < RoundTo(n, 4096) <= maxId + 4096
  {
  }

  /** Whether an operation asks for a larger bitmap that cannot be had. */
  ghost predicate IsRefused(op: Op, size: nat, next: nat) {
    match op
    case Alloc(granted) => next >= 8 * size && !granted
    case Expand(maxId, granted) => SizeFor(maxId) > size && !granted
    case _ => false
  }

  lemma RefusedIs(op: Op, size: nat, next: nat)
    requires size % 4096 == 0
    ensures IsRefused(op, size, next) <==> match op
                                           case Alloc(granted) => !granted && next >= 8 * size
                                           case Expand(maxId, granted) => !granted && maxId >= size
                                           case _ => false
  {
    if op.Expand? { SizeForIs(op.maxId, size); }
  }

  /** A bitmap at its end has to grow; one that has to grow is too small for the size it checks first. */
  lemma MustGrow(maxId: nat, size: nat)
    requires size > 0
    ensures RoundTo(maxId + 1, 4) <= SizeFor(maxId)
    ensures maxId >= 8 * size ==> SizeFor(maxId) > size
  {
  }

  /** Growing is needed exactly if the size is not checked to be enough, or just enough. */
  lemma GrowthNeeded(maxId: nat, size: nat)
    requires size % INCREMENT == 0 && size == 4 * (size / 4)
    ensures (maxId + 1 + 3) / 4 * 4 == RoundTo(maxId + 1, 4) > maxId
    ensures var r := SizeFor(maxId);
            && r % INCREMENT == 0 && r > 0 && RoundTo(maxId + 1, 4) <= r && r == 4 * (r / 4)
            && (size > RoundTo(maxId + 1, 4) ==> r <= size)
            && (size <= RoundTo(maxId + 1, 4) ==> size <= r && r - size == 4 * ((r - size) / 4))
  {
    RoundedWords(maxId);
    GrownSize(maxId, size);
    if size > RoundTo(maxId + 1, 4) { SmallEnough(RoundTo(maxId + 1, 4), size); }
  }

  lemma SmallEnough(n: nat, size: nat)
    requires n < size && size % INCREMENT == 0
    ensures RoundTo(n, INCREMENT) <= size
  {
  }

  /** What the allocator promises of its state: the size of the bitmap, the next ID, and the IDs in use. */
  datatype Ids = Ids(size: nat, next: nat, live: set<nat>)

  /** An operation, or none if it loses the bitmap. */
  ghost function After(m: Ids, op: Op): Option<Ids> {
    if IsRefused(op, m.size, m.next) then None
    else
      match op
      case Alloc(_) => Some(Ids(if m.next < 8 * m.size then m.size else SizeFor(m.next), m.next + 1, m.live + {m.next}))
      case Free(id) => Some(m.(live := m.live - {id}))
      case Expand(maxId, _) => Some(if SizeFor(maxId) <= m.size then m else m.(size := SizeFor(maxId)))
      case Trim => Some(m.(size := TrimmedTo(m.live, m.size)))
      case Reuse(_) => Some(m)
  }

  ghost function AfterAll(m: Ids, ops: seq<Op>): Option<Ids> {
    if ops == [] then Some(m)
    else match AfterAll(m, ops[..|ops| - 1])
      case None => None
      case Some(before) => After(before, ops[|ops| - 1])
  }

  lemma NotRefused(op: Op, size: nat, next: nat)
    ensures IsRefused(op, size, next) ==> op.Alloc? || op.Expand?
  {
  }

  lemma NothingDone(m: Ids)
    ensures AfterAll(m, []) == Some(m)
  {
  }

  lemma AfterNext(m: Ids, ops: seq<Op>, k: nat)
    requires k < |ops|
    ensures AfterAll(m, ops[..k + 1]) == match AfterAll(m, ops[..k])
                                         case None => None
                                         case Some(before) => After(before, ops[k])
  {
    assert ops[..k + 1][..k] == ops[..k];
  }

  /** The fewest pages, but at least one, that hold all IDs in use. */
  ghost function TrimmedTo(live: set<nat>, size: nat): nat {
    if size <= INCREMENT || InLastPage(live, size) then size else TrimmedTo(live, size - INCREMENT)
  }

  ghost predicate InLastPage(live: set<nat>, size: nat) { exists id :: id in live && id >= 8 * (size - INCREMENT) }

  lemma {:induction false} TrimmedIs(live: set<nat>, size: nat, r: nat)
    requires size % INCREMENT == r % INCREMENT == 0 && INCREMENT <= r <= size
    requires forall id :: id in live ==> id < 8 * r
    requires r > INCREMENT ==> InLastPage(live, r)
    ensures TrimmedTo(live, size) == r
  {
    if r < size {
      TrimmedIs(live, size - INCREMENT, r);
    }
  }

  class IdAllocator {
    var size: nat
    var bitmap: seq<Word>
    var nextToAllocate: nat
    ghost var live: set<nat>

    /** Whether the heap holds the bitmap for this allocator. `realloc` that cannot grow it releases it and returns
        null; the allocator goes on with the old address. */
    var owned: bool

    /** The set bits of a bitmap that is owned are exactly the IDs in use, and no ID from the next one on was ever
        issued. */
    ghost predicate Shaped()
      reads this
    {
      && size > 0 && size % INCREMENT == 0 && size == 4 * |bitmap|
      && (owned ==> SetBits(bitmap, live))
      && forall i :: i in live ==> i < nextToAllocate
    }

    ghost predicate Valid()
      reads this
    {
      Shaped() && owned
    }

    constructor (size: nat)
      requires size > 0 && size % INCREMENT == 0
      ensures Valid() && nextToAllocate == 0 && live == {} && this.size == size
    {
      this.size, nextToAllocate, bitmap, owned := size, 0, seq(size / 4, i => 0), true;
      live := {};
      Zeroes(size / 4);
    }

    /** A bitmap of at least `size` bytes, in whole pages, or none if `calloc` fails. */
    static method Init(size: nat, granted: bool) returns (a: IdAllocator?)
      requires size > 0
      ensures a != null <==> granted
      ensures a != null ==> fresh(a) && a.Valid() && a.nextToAllocate == 0 && a.live == {}
      ensures a != null ==> a.size % 4096 == 0 && size <= a.size < size + 4096
    {
      WholeWords(size);
      SizeForIs(size - 1, 0);
      hide RoundTo;
      var rounded := RoundUp(size, 4);
      rounded := RoundUp(rounded, INCREMENT);
      if !granted { return null; }
      a := new IdAllocator(rounded);
    }

    /** The first clear bit from a given one on, or a number beyond the bitmap. */
    method FirstClear(from: nat) returns (id: nat)
      requires size == 4 * |bitmap|
      ensures from <= id && (from >= 32 * |bitmap| ==> id == from)
      ensures id < 32 * |bitmap| ==> !Bits(bitmap)[id]
      ensures forall j :: from <= j < id && j < 32 * |bitmap| ==> Bits(bitmap)[j]
    {
      id := from;
      while id / 32 * 4 < size
        invariant from <= id && (from >= 32 * |bitmap| ==> id == from)
        invariant forall j :: from <= j < id && j < 32 * |bitmap| ==> Bits(bitmap)[j]
        decreases 32 * |bitmap| - id
      {
        assert id < 32 * |bitmap| && Bits(bitmap)[id] == Bit(bitmap, id);
        hide Bits;
        if !Test(bitmap[id / 32], id % 32) { break; }
        id := id + 1;
      }
    }

    /** The next ID. The scan starts at the counter, which no ID in use reaches; after growing the bitmap the
        method calls itself once. An ID is never issued twice, not even after the bitmap was lost. */
    method Alloc(granted: bool) returns (r: Option<nat>)
      requires Shaped() && (owned ==> nextToAllocate < LIMIT)
      modifies this
      ensures Shaped() && owned == (old(owned) && (granted || old(nextToAllocate) < 8 * old(size)))
      ensures old(owned) ==> (r.Some? <==> owned)
      ensures old(owned) && r.Some? ==> r.value == old(nextToAllocate)
      ensures r.Some? ==> r.value >= old(nextToAllocate) && r.value !in old(live)
      ensures r.Some? ==> nextToAllocate == r.value + 1 && live == old(live) + {r.value}
      ensures r.None? ==> nextToAllocate == old(nextToAllocate) && live == old(live) && bitmap == old(bitmap)
      ensures size == if r.Some? && old(owned) && old(nextToAllocate) >= 8 * old(size) then SizeFor(old(nextToAllocate))
                      else old(size)
      ensures size != old(size) ==> size % 4096 == 0 && old(nextToAllocate) < size <= old(nextToAllocate) + 4096
      ensures forall j :: old(nextToAllocate) <= j < 32 * |old(bitmap)| && (r.Some? ==> j < r.value) ==>
        Bits(old(bitmap))[j]
      ensures r.Some? && size == old(size) ==> r.value < 32 * |bitmap| && bitmap == Marked(old(bitmap), r.value)
      decreases if nextToAllocate < 8 * size then 0 else 1
    {
      var id := FirstClear(nextToAllocate);
      InBitmap(id, |bitmap|);
      assert owned && nextToAllocate < 32 * |bitmap| ==> !Bits(bitmap)[nextToAllocate];
      assert owned ==> id == nextToAllocate;
      hide SetBits, RoundTo;
      if id / 32 * 4 < size {
        if owned { SetOne(bitmap, live, id); }
        bitmap := Marked(bitmap, id);
        nextToAllocate, live := id + 1, live + {id};
        return Some(id);
      }
      MustGrow(id, size);
      var ok := Grow(id, granted);
      if !ok { return None; }
      nextToAllocate := id;
      r := Alloc(granted);
    }

    /** Takes an ID back; one beyond the bitmap is ignored. */
    method Free(id: nat)
      requires Shaped()
      modifies this
      ensures Shaped() && owned == old(owned)
      ensures nextToAllocate == old(nextToAllocate) && size == old(size)
      ensures owned ==> live == old(live) - {id}
      ensures live == if id < 8 * size then old(live) - {id} else old(live)
    {
      InBitmap(id, |bitmap|);
      if id / 32 * 4 >= size { return; }
      if owned { ClearOne(bitmap, live, id); }
      bitmap := bitmap[id / 32 := Without(bitmap[id / 32], id % 32)];
      live := live - {id};
    }

    /** Makes room for IDs up to `maxId`. A growth that is refused loses the bitmap. */
    method Grow(maxId: nat, granted: bool) returns (ok: bool)
      requires Shaped() && (owned ==> maxId < LIMIT)
      modifies this
      ensures Shaped() && live == old(live) && nextToAllocate == old(nextToAllocate)
      ensures owned == (old(owned) && (granted || maxId < old(size)))
      ensures ok <==> maxId + 4 < old(size) || owned
      ensures ok ==> maxId < 8 * size
      ensures size == if ok && maxId >= old(size) then SizeFor(maxId) else old(size)
      ensures ok && maxId >= old(size) ==> size % 4096 == 0 && maxId < size <= maxId + 4096
      ensures !ok ==> bitmap == old(bitmap)
    {
      GrowthNeeded(maxId, size);
      SizeForIs(maxId, size);
      hide RoundTo, SetBits;
      var newSize := (maxId + 1 + 3) / 4 * 4;
      if size > newSize { return true; }
      newSize := RoundUp(newSize, INCREMENT);
      if !owned || (newSize > size && !granted) {
        owned := false;
        return false;
      }
      Extended(bitmap, live, (newSize - size) / 4);
      bitmap, size := bitmap + seq((newSize - size) / 4, i => 0), newSize;
      return true;
    }

    /** Gives memory back that holds no ID in use. */
    method Trim()
      requires Shaped()
      modifies this
      ensures Shaped() && owned == old(owned) && live == old(live) && nextToAllocate == old(nextToAllocate)
      ensures INCREMENT <= size <= old(size)
      ensures !owned ==> size == old(size) && bitmap == old(bitmap)
      ensures owned ==> size == TrimmedTo(live, old(size))
      ensures owned ==> size == 4096 || exists id :: id in live && id >= 8 * (size - 4096)
      ensures owned ==> size % 4096 == 0 && forall id :: id in live ==> id < 8 * size
    {
      var i := size / 4 - 1;
      while i >= 0 && bitmap[i] == 0
        invariant -1 <= i < |bitmap|
        invariant forall x :: i < x < |bitmap| ==> bitmap[x] == 0
      {
        i := i - 1;
      }
      i := i + 1;
      var newSize := i * 4;
      Multiple(newSize, INCREMENT);
      TrimmedSize(i, |bitmap|);
      if owned { LastWord(bitmap, live, i); }
      hide RoundTo, SetBits;
      if newSize < INCREMENT {
        newSize := INCREMENT;
      } else {
        newSize := RoundUp(newSize, INCREMENT);
      }
      // shrinking in place is never refused
      if !owned { return; }
      Shortened(bitmap, live, newSize / 4);
      bitmap, size := bitmap[..newSize / 4], newSize;
      AllBelow(bitmap, live);
      TrimmedIs(live, old(size), size);
    }

    /** Other code's stores to the memory where the bitmap was. */
    method Reuse(words: seq<Word>)
      requires Shaped()
      modifies this`bitmap
      ensures Shaped()
      ensures bitmap == if !owned && |words| == |old(bitmap)| then words else old(bitmap)
    {
      if !owned && |words| == |bitmap| { bitmap := words; }
    }

    method Do(op: Op) returns (id: Option<nat>)
      requires Shaped() && (owned ==> nextToAllocate < LIMIT && (op.Expand? ==> op.maxId < LIMIT))
      modifies this
      ensures Shaped() && old(nextToAllocate) <= nextToAllocate
      ensures owned ==> nextToAllocate <= old(nextToAllocate) + 1
      ensures old(owned) ==> (if owned then Some(Ids(size, nextToAllocate, live)) else None)
                             == After(Ids(old(size), old(nextToAllocate), old(live)), op)
      ensures !old(owned) ==> !owned
      ensures id.Some? ==> op.Alloc? && old(nextToAllocate) <= id.value < nextToAllocate
      ensures owned ==> live == if op.Free? then old(live) - {op.id} else if id.Some? then old(live) + {id.value}
          else old(live)
    {
      if op.Expand? { SizeForIs(op.maxId, size); }
      RefusedIs(op, size, nextToAllocate);
      NotRefused(op, size, nextToAllocate);
      hide SetBits, RoundTo, SizeFor, TrimmedTo, IsRefused;
      id := None;
      match op {
        case Alloc(granted) => id := Alloc(granted);
        case Free(i) => Free(i);
        case Expand(maxId, granted) => var _ := Grow(maxId, granted);
        case Trim => Trim();
        case Reuse(words) => Reuse(words);
      }
    }

    /** Any run of operations from the start: no ID is issued twice. The bitmap stays right, and the IDs in use are
        those issued and not freed, if and only if no growth of it was refused. */
    method Run(ops: seq<Op>) returns (ids: seq<Option<nat>>)
      requires Valid() && nextToAllocate == 0 && live == {} && |ops| < LIMIT
      requires forall k :: 0 <= k < |ops| && ops[k].Expand? ==> ops[k].maxId < LIMIT
      modifies this
      ensures |ids| == |ops| && Increasing(ids)
      ensures var r := AfterAll(Ids(old(size), 0, {}), ops);
              && (Valid() <==> r.Some?)
              && (Valid() ==> r.value == Ids(size, nextToAllocate, InUse(ops, ids)) && live == InUse(ops, ids))
    {
      hide SetBits, InUse, After, AfterAll;
      ghost var start := Ids(size, 0, {});
      ids := [];
      NoneInUse();
      assert ops[..0] == [];
      assert AfterAll(start, []) == Some(start) by { NothingDone(start); }
      for k := 0 to |ops|
        invariant Shaped() && |ids| == k && (owned ==> nextToAllocate <= k)
        invariant Increasing(ids) && Below(ids, nextToAllocate) && (owned ==> live == InUse(ops[..k], ids))
        invariant AfterAll(start, ops[..k]) == if owned then Some(Ids(size, nextToAllocate, live)) else None
      {
        AfterNext(start, ops, k);
        var id := Do(ops[k]);
        InUseNext(ops, ids, k, id);
        ids := ids + [id];
      }
      assert ops[..|ops|] == ops;
    }
  }

  /** A refused growth, after which the memory of the bitmap is used by other code: the ID issued before is no longer
      marked, and issuing the next one writes to memory that is not the allocator's. */
  method RefusedGrowth() returns (a: IdAllocator, before: seq<Word>)
    ensures fresh(a) && !a.Valid() && a.live == {0, 1}
    ensures |before| == |a.bitmap| > 0 && a.bitmap == Marked(before, 1) && !Bits(a.bitmap)[0]
  {
    assert SizeFor(40000) == 40960 && RoundTo(40001, 4) == 40004;
    before := seq(1024, i => 0);
    Zeroes(1024);
    assert SetBits(before, {});
    SetOne(before, {}, 1);
    assert !Bits(before)[1] && !Bits(Marked(before, 1))[0];
    hide RoundTo, SizeFor, SetBits, Bits, Marked;
    a := new IdAllocator(4096);
    var first := a.Alloc(false);
    var ok := a.Grow(40000, false);
    a.Reuse(before);
    var second := a.Alloc(false);
  }
}
