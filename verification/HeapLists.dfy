/** The two-level doubly linked list of the kernel heap in header memory. Headers live at
    computed addresses, so header memory is a map from addresses to structs; a pointer
    is an address and 0 is NULL. */
module HeapLists {
  import opened Sequences
  import opened HeapLayout

  const NULL: nat := 0

  /** `struct liballoc_major`: header of one region obtained from the system. */
  datatype Major = Major(prev: nat, next: nat, size: nat, usage: int, first: nat)

  /** `struct liballoc_minor`: header of one allocation. */
  datatype Minor = Minor(prev: nat, next: nat, block: nat, size: nat, req: nat)

  // ---------------------------------------------------------------- what the lists must hold

  function CellAddr(b: Block, i: int): nat {
    if 0 <= i < |b.cells| then b.cells[i].addr else NULL
  }

  function BlockAddr(bs: seq<Block>, k: int): nat {
    if 0 <= k < |bs| then bs[k].addr else NULL
  }

  function MinorOf(b: Block, i: nat): Minor
    requires i < |b.cells|
  {
    Minor(CellAddr(b, i - 1), CellAddr(b, i + 1), b.addr, b.cells[i].size, b.cells[i].req)
  }

  function MajorOf(bs: seq<Block>, k: nat): Major
    requires k < |bs|
  {
    Major(BlockAddr(bs, k - 1), BlockAddr(bs, k + 1), bs[k].size, bs[k].usage, CellAddr(bs[k], 0))
  }

  ghost predicate MinorOk(mi: map<nat, Minor>, b: Block, i: nat) {
    i < |b.cells| ==> b.cells[i].addr in mi && mi[b.cells[i].addr] == MinorOf(b, i)
  }

  ghost predicate MajorOk(ma: map<nat, Major>, bs: seq<Block>, k: nat) {
    k < |bs| ==> bs[k].addr in ma && ma[bs[k].addr] == MajorOf(bs, k)
  }

  ghost predicate MinorsOk(mi: map<nat, Minor>, bs: seq<Block>) {
    forall k: nat, i: nat {:trigger MinorOk(mi, bs[k], i)} :: k < |bs| ==> MinorOk(mi, bs[k], i)
  }

  ghost predicate MajorsOk(ma: map<nat, Major>, bs: seq<Block>) {
    forall k: nat {:trigger MajorOk(ma, bs, k)} :: k < |bs| ==> MajorOk(ma, bs, k)
  }

  ghost predicate CellAt(bs: seq<Block>, k: nat, i: nat, a: int) {
    k < |bs| && i < |bs[k].cells| && bs[k].cells[i].addr == a
  }

  ghost predicate Owned(bs: seq<Block>, a: int) {
    exists k: nat, i: nat :: CellAt(bs, k, i, a)
  }

  /** Header memory holds exactly the two-level list of `bs`, links included. */
  ghost predicate Mirrors(ma: map<nat, Major>, mi: map<nat, Minor>, bs: seq<Block>) {
    && MajorsOk(ma, bs)
    && MinorsOk(mi, bs)
    && (forall a :: a in mi ==> Owned(bs, a))
  }

  /** Memory bytes; untouched bytes read as zero. */
  function Byte(mem: map<int, int>, a: int): int {
    if a in mem then mem[a] else 0
  }

  ghost predicate TagOk(mem: map<int, int>, c: Cell) {
    Byte(mem, c.User() - ALIGN_INFO) == AlignTag(c.Raw())
  }

  /** Every live allocation still has its alignment tag below the aligned area. */
  ghost predicate Tagged(mem: map<int, int>, bs: seq<Block>) {
    forall k: nat, i: nat {:trigger TagOk(mem, bs[k].cells[i])} :: k < |bs| && i < |bs[k].cells| ==>
      TagOk(mem, bs[k].cells[i])
  }

  // ---------------------------------------------------------------- list surgery on values

  /** The cell at (l, i) after placing a new one at (k, j), if it is not the new one. */
  lemma OldCell(bs: seq<Block>, k: nat, j: nat, size: nat, req: nat, l: nat, i: nat)
    requires k < |bs| && l < |bs| && j <= |bs[k].cells| && !(l == k && i == j)
    requires i < |bs[k := Place(bs[k], j, size, req)][l].cells|
    ensures var o := if l == k && i >= j then i - 1 else i;
            o < |bs[l].cells| && bs[k := Place(bs[k], j, size, req)][l].cells[i] == bs[l].cells[o]
  {
  }

  /** The new tag byte lies in the new allocation, so no other tag is disturbed. */
  lemma PlacedTag(mem: map<int, int>, bs: seq<Block>, k: nat, j: nat, size: nat, req: nat, l: nat, i: nat)
    requires HeapOk(bs) && k < |bs| && FitsAt(bs[k], j, size + MINOR_HEADER)
    requires size >= req + ALIGNMENT + ALIGN_INFO
    requires Tagged(mem, bs)
    ensures var raw := GapStart(bs[k], j) + MINOR_HEADER;
            var bs' := bs[k := Place(bs[k], j, size, req)];
            l < |bs'| && i < |bs'[l].cells| ==>
              TagOk(mem[Align(raw) - ALIGN_INFO := AlignTag(raw)], bs'[l].cells[i])
  {
    hide Sorted, CellBytes, GapStart, GapEnd;
    var bs' := bs[k := Place(bs[k], j, size, req)];
    assert bs'[k].cells[j] == Cell(GapStart(bs[k], j), size, req);
    if l < |bs'| && i < |bs'[l].cells| && !(l == k && i == j) {
      PlaceKeepsHeap(bs, k, j, size, req);
      CellsApart(bs', k, j, l, i);
      OldCell(bs, k, j, size, req, l, i);
      assert TagOk(mem, bs[l].cells[if l == k && i >= j then i - 1 else i]);
      assert BlockOk(bs'[l]) && BlockOk(bs'[k]);
      UserInsideCell(bs'[k].cells[j]);
      UserInsideCell(bs'[l].cells[i]);
    }
  }

  lemma PlaceKeepsTags(mem: map<int, int>, bs: seq<Block>, k: nat, j: nat, size: nat, req: nat)
    requires HeapOk(bs) && k < |bs| && FitsAt(bs[k], j, size + MINOR_HEADER)
    requires size >= req + ALIGNMENT + ALIGN_INFO
    requires Tagged(mem, bs)
    ensures var raw := GapStart(bs[k], j) + MINOR_HEADER;
            Tagged(mem[Align(raw) - ALIGN_INFO := AlignTag(raw)], bs[k := Place(bs[k], j, size, req)])
  {
    var raw := GapStart(bs[k], j) + MINOR_HEADER;
    var mem' := mem[Align(raw) - ALIGN_INFO := AlignTag(raw)];
    var bs' := bs[k := Place(bs[k], j, size, req)];
    forall l: nat, i: nat | l < |bs'| && i < |bs'[l].cells| ensures TagOk(mem', bs'[l].cells[i]) {
      PlacedTag(mem, bs, k, j, size, req, l, i);
    }
  }

  /** The minors after linking a new one at `addr` between `prev` and `next`. */
  function LinkMinor(mi: map<nat, Minor>, addr: nat, m: Minor): map<nat, Minor>
    requires m.prev != NULL ==> m.prev in mi
    requires m.next != NULL ==> m.next in mi
  {
    var mi1 := mi[addr := m];
    var mi2 := if m.next != NULL then mi1[m.next := mi1[m.next].(prev := addr)] else mi1;
    if m.prev != NULL then mi2[m.prev := mi2[m.prev].(next := addr)] else mi2
  }

  /** The nodes around gap `j` are allocated headers, different from the new one. */
  lemma Neighbours(mi: map<nat, Minor>, bs: seq<Block>, k: nat, j: nat, size: nat)
    requires HeapOk(bs) && k < |bs| && FitsAt(bs[k], j, size + MINOR_HEADER) && MinorsOk(mi, bs)
    ensures var b := bs[k];
            var addr, prev, next := GapStart(b, j), CellAddr(b, j - 1), CellAddr(b, j);
            && addr != NULL && prev != addr && next != addr && (prev != NULL ==> prev != next)
            && (prev != NULL <==> j > 0) && (next != NULL <==> j < |b.cells|)
            && (prev != NULL ==> prev in mi && mi[prev] == MinorOf(b, j - 1))
            && (next != NULL ==> next in mi && mi[next] == MinorOf(b, j))
  {
    var b := bs[k];
    assert BlockOk(b) && Gap(b, j) >= size + MINOR_HEADER;
    if j > 0 { assert MinorOk(mi, b, j - 1); CellInside(b, j - 1); }
    if j < |b.cells| { assert MinorOk(mi, b, j); CellInside(b, j); }
    if 0 < j < |b.cells| { SortedPairs(b, j - 1, j); }
  }

  lemma LinkedNear(mi: map<nat, Minor>, bs: seq<Block>, k: nat, j: nat, size: nat, req: nat, i: nat)
    requires HeapOk(bs) && k < |bs| && FitsAt(bs[k], j, size + MINOR_HEADER)
    requires size >= req + ALIGNMENT + ALIGN_INFO && MinorsOk(mi, bs)
    requires j - 1 <= i <= j + 1
    ensures var b := bs[k];
            var addr, prev, next := GapStart(b, j), CellAddr(b, j - 1), CellAddr(b, j);
            && (prev != NULL ==> prev in mi)
            && (next != NULL ==> next in mi)
            && MinorOk(LinkMinor(mi, addr, Minor(prev, next, b.addr, size, req)), Place(b, j, size, req), i)
  {
    Neighbours(mi, bs, k, j, size);
  }

  lemma LinkedFar(mi: map<nat, Minor>, bs: seq<Block>, k: nat, j: nat, size: nat, req: nat, i: nat)
    requires HeapOk(bs) && k < |bs| && FitsAt(bs[k], j, size + MINOR_HEADER)
    requires size >= req + ALIGNMENT + ALIGN_INFO && MinorsOk(mi, bs)
    requires i < j - 1 || j + 1 < i
    ensures var b := bs[k];
            var addr, prev, next := GapStart(b, j), CellAddr(b, j - 1), CellAddr(b, j);
            && (prev != NULL ==> prev in mi)
            && (next != NULL ==> next in mi)
            && MinorOk(LinkMinor(mi, addr, Minor(prev, next, b.addr, size, req)), Place(b, j, size, req), i)
  {
    var b, b' := bs[k], Place(bs[k], j, size, req);
    Neighbours(mi, bs, k, j, size);
    PlaceKeepsBlock(b, j, size, req);
    hide HeapOk, FitsAt, BlockOk;
    if i < |b'.cells| {
      assert MinorOk(mi, b, if i > j then i - 1 else i);
      if i < j {
        SortedPairs(b', i, j - 1);
        SortedPairs(b', i, j);
        if j < |b.cells| { SortedPairs(b', i, j + 1); }
      } else {
        SortedPairs(b', j + 1, i);
        SortedPairs(b', j, i);
        if j > 0 { SortedPairs(b', j - 1, i); }
      }
    }
  }

  lemma LinkedElsewhere(mi: map<nat, Minor>, bs: seq<Block>, k: nat, j: nat, size: nat, req: nat, l: nat, i: nat)
    requires HeapOk(bs) && k < |bs| && FitsAt(bs[k], j, size + MINOR_HEADER)
    requires size >= req + ALIGNMENT + ALIGN_INFO && MinorsOk(mi, bs)
    requires l < |bs| && l != k
    ensures var b := bs[k];
            var addr, prev, next := GapStart(b, j), CellAddr(b, j - 1), CellAddr(b, j);
            && (prev != NULL ==> prev in mi)
            && (next != NULL ==> next in mi)
            && MinorOk(LinkMinor(mi, addr, Minor(prev, next, b.addr, size, req)), bs[l], i)
  {
    Neighbours(mi, bs, k, j, size);
    assert MinorOk(mi, bs[l], i);
    if i < |bs[l].cells| {
      CellInside(bs[l], i);
      if j > 0 { CellInside(bs[k], j - 1); }
      if j < |bs[k].cells| { CellInside(bs[k], j); }
      assert Apart(bs[k], bs[l]) || Apart(bs[l], bs[k]);
      GapInside(bs[k], j);
    }
  }

  /** The majors after block `maj` took a new minor, which is its first one if nothing precedes it. */
  function ChargeMajor(ma: map<nat, Major>, maj: nat, bytes: nat, prev: nat, addr: nat): map<nat, Major>
    requires maj in ma
  {
    ma[maj := ma[maj].(usage := ma[maj].usage + bytes, first := if prev == NULL then addr else ma[maj].first)]
  }

  lemma ChargedMajors(ma: map<nat, Major>, mi: map<nat, Minor>, bs: seq<Block>, k: nat, j: nat, size: nat, req: nat)
    requires HeapOk(bs) && k < |bs| && FitsAt(bs[k], j, size + MINOR_HEADER) && Mirrors(ma, mi, bs)
    ensures bs[k].addr in ma
    ensures var b := bs[k];
            MajorsOk(ChargeMajor(ma, b.addr, size + MINOR_HEADER, CellAddr(b, j - 1), GapStart(b, j)),
                     bs[k := Place(b, j, size, req)])
  {
    var b := bs[k];
    assert MajorOk(ma, bs, k);
    if j > 0 { CellInside(b, j - 1); }
    var bs' := bs[k := Place(b, j, size, req)];
    var ma' := ChargeMajor(ma, b.addr, size + MINOR_HEADER, CellAddr(b, j - 1), GapStart(b, j));
    forall l: nat | l < |bs'| ensures MajorOk(ma', bs', l) {
      assert MajorOk(ma, bs, l);
      if l != k { BlocksDistinct(bs, k, l); }
    }
  }

  lemma LinkedMinors(mi: map<nat, Minor>, bs: seq<Block>, k: nat, j: nat, size: nat, req: nat)
    requires HeapOk(bs) && k < |bs| && FitsAt(bs[k], j, size + MINOR_HEADER)
    requires size >= req + ALIGNMENT + ALIGN_INFO && MinorsOk(mi, bs)
    ensures var b := bs[k];
            var addr, prev, next := GapStart(b, j), CellAddr(b, j - 1), CellAddr(b, j);
            && (prev != NULL ==> prev in mi)
            && (next != NULL ==> next in mi)
            && MinorsOk(LinkMinor(mi, addr, Minor(prev, next, b.addr, size, req)), bs[k := Place(b, j, size, req)])
  {
    var b := bs[k];
    var bs' := bs[k := Place(b, j, size, req)];
    Neighbours(mi, bs, k, j, size);
    var mi' := LinkMinor(mi, GapStart(b, j), Minor(CellAddr(b, j - 1), CellAddr(b, j), b.addr, size, req));
    forall l: nat, i: nat | l < |bs'| ensures MinorOk(mi', bs'[l], i) {
      if l != k {
        LinkedElsewhere(mi, bs, k, j, size, req, l, i);
      } else if j - 1 <= i <= j + 1 {
        LinkedNear(mi, bs, k, j, size, req, i);
      } else {
        LinkedFar(mi, bs, k, j, size, req, i);
      }
    }
  }

  lemma PlacedOwned(bs: seq<Block>, k: nat, j: nat, size: nat, req: nat, a: nat)
    requires k < |bs| && j <= |bs[k].cells|
    requires a == GapStart(bs[k], j) || Owned(bs, a)
    ensures Owned(bs[k := Place(bs[k], j, size, req)], a)
  {
    var bs' := bs[k := Place(bs[k], j, size, req)];
    if a == GapStart(bs[k], j) {
      assert CellAt(bs', k, j, a);
    } else {
      var l: nat, i: nat :| CellAt(bs, l, i, a);
      assert CellAt(bs', l, if l == k && i >= j then i + 1 else i, a);
    }
  }

  /** Linking the new minor and charging its block keeps header memory in step with the layout. */
  lemma LinkKeepsMirrors(ma: map<nat, Major>, mi: map<nat, Minor>, bs: seq<Block>, k: nat, j: nat, size: nat, req: nat)
    requires HeapOk(bs) && k < |bs| && FitsAt(bs[k], j, size + MINOR_HEADER)
    requires size >= req + ALIGNMENT + ALIGN_INFO && Mirrors(ma, mi, bs)
    ensures var b := bs[k];
            var addr, prev, next := GapStart(b, j), CellAddr(b, j - 1), CellAddr(b, j);
            && (prev != NULL ==> prev in mi)
            && (next != NULL ==> next in mi)
            && b.addr in ma
            && Mirrors(ChargeMajor(ma, b.addr, size + MINOR_HEADER, prev, addr),
                       LinkMinor(mi, addr, Minor(prev, next, b.addr, size, req)),
                       bs[k := Place(b, j, size, req)])
  {
    var b := bs[k];
    ChargedMajors(ma, mi, bs, k, j, size, req);
    LinkedMinors(mi, bs, k, j, size, req);
    var addr := GapStart(b, j);
    var mi' := LinkMinor(mi, addr, Minor(CellAddr(b, j - 1), CellAddr(b, j), b.addr, size, req));
    forall a | a in mi' ensures Owned(bs[k := Place(b, j, size, req)], a) {
      PlacedOwned(bs, k, j, size, req, a);
    }
  }

  lemma BlocksDistinct(bs: seq<Block>, k: nat, l: nat)
    requires HeapOk(bs) && k < |bs| && l < |bs| && k != l
    ensures bs[k].addr != bs[l].addr
  {
    assert Apart(bs[k], bs[l]) || Apart(bs[l], bs[k]);
    BlockNotEmpty(bs[k]);
    BlockNotEmpty(bs[l]);
  }

  // ---------------------------------------------------------------- unlinking a minor

  /** The minors after unlinking the one at `a`. */
  function UnlinkMinor(mi: map<nat, Minor>, a: nat): map<nat, Minor>
    requires a in mi
    requires mi[a].prev != NULL ==> mi[a].prev in mi && mi[a].prev != a
    requires mi[a].next != NULL ==> mi[a].next in mi && mi[a].next != a && mi[a].next != mi[a].prev
  {
    var m := mi[a];
    var mi1 := mi - {a};
    var mi2 := if m.next != NULL then mi1[m.next := mi1[m.next].(prev := m.prev)] else mi1;
    if m.prev != NULL then mi2[m.prev := mi2[m.prev].(next := m.next)] else mi2
  }

  function DischargeMajor(ma: map<nat, Major>, maj: nat, bytes: nat, m: Minor): map<nat, Major>
    requires maj in ma
  {
    ma[maj := ma[maj].(usage := ma[maj].usage - bytes, first := if m.prev == NULL then m.next else ma[maj].first)]
  }

  /** A listed minor and the headers it points to. */
  lemma Neighbourhood(mi: map<nat, Minor>, bs: seq<Block>, k: nat, j: nat)
    requires HeapOk(bs) && k < |bs| && j < |bs[k].cells| && MinorsOk(mi, bs)
    ensures var a := bs[k].cells[j].addr;
            && a != NULL && a in mi && mi[a] == MinorOf(bs[k], j)
            && (mi[a].prev != NULL <==> j > 0)
            && (mi[a].next != NULL <==> j < |bs[k].cells| - 1)
            && (j > 0 ==> mi[a].prev in mi && mi[a].prev < a && mi[mi[a].prev] == MinorOf(bs[k], j - 1))
            && (j < |bs[k].cells| - 1 ==> mi[a].next in mi && a < mi[a].next && mi[mi[a].next] == MinorOf(bs[k], j + 1))
  {
    var b := bs[k];
    assert MinorOk(mi, b, j);
    CellInside(b, j);
    if j > 0 { assert MinorOk(mi, b, j - 1); CellInside(b, j - 1); SortedPairs(b, j - 1, j); }
    if j < |b.cells| - 1 { assert MinorOk(mi, b, j + 1); CellInside(b, j + 1); SortedPairs(b, j, j + 1); }
  }

  lemma UnlinkedNear(mi: map<nat, Minor>, bs: seq<Block>, k: nat, j: nat, i: nat)
    requires HeapOk(bs) && k < |bs| && j < |bs[k].cells| && MinorsOk(mi, bs)
    requires j - 1 <= i <= j
    ensures var a := bs[k].cells[j].addr;
            && a in mi
            && (mi[a].prev != NULL ==> mi[a].prev in mi && mi[a].prev != a)
            && (mi[a].next != NULL ==> mi[a].next in mi && mi[a].next != a && mi[a].next != mi[a].prev)
            && MinorOk(UnlinkMinor(mi, a), Release(bs[k], j), i)
  {
    Neighbourhood(mi, bs, k, j);
  }

  lemma UnlinkedFar(mi: map<nat, Minor>, bs: seq<Block>, k: nat, j: nat, i: nat)
    requires HeapOk(bs) && k < |bs| && j < |bs[k].cells| && MinorsOk(mi, bs)
    requires i < j - 1 || j < i
    ensures var a := bs[k].cells[j].addr;
            && a in mi
            && (mi[a].prev != NULL ==> mi[a].prev in mi && mi[a].prev != a)
            && (mi[a].next != NULL ==> mi[a].next in mi && mi[a].next != a && mi[a].next != mi[a].prev)
            && MinorOk(UnlinkMinor(mi, a), Release(bs[k], j), i)
  {
    var b := bs[k];
    Neighbourhood(mi, bs, k, j);
    if i < |b.cells| - 1 {
      var o := if i < j then i else i + 1;
      assert MinorOk(mi, b, o);
      assert Release(b, j).cells[i] == b.cells[o];
      if o < j {
        SortedPairs(b, o, j - 1);
        SortedPairs(b, o, j);
        if j < |b.cells| - 1 { SortedPairs(b, o, j + 1); }
      } else {
        SortedPairs(b, j, o);
        SortedPairs(b, j + 1, o);
        if j > 0 { SortedPairs(b, j - 1, o); }
      }
    }
  }

  lemma UnlinkedElsewhere(mi: map<nat, Minor>, bs: seq<Block>, k: nat, j: nat, l: nat, i: nat)
    requires HeapOk(bs) && k < |bs| && j < |bs[k].cells| && MinorsOk(mi, bs)
    requires l < |bs| && l != k
    ensures var a := bs[k].cells[j].addr;
            && a in mi
            && (mi[a].prev != NULL ==> mi[a].prev in mi && mi[a].prev != a)
            && (mi[a].next != NULL ==> mi[a].next in mi && mi[a].next != a && mi[a].next != mi[a].prev)
            && MinorOk(UnlinkMinor(mi, a), bs[l], i)
  {
    Neighbourhood(mi, bs, k, j);
    assert MinorOk(mi, bs[l], i);
    if i < |bs[l].cells| {
      CellsApart(bs, k, j, l, i);
      if j > 0 { CellsApart(bs, k, j - 1, l, i); }
      if j < |bs[k].cells| - 1 { CellsApart(bs, k, j + 1, l, i); }
    }
  }

  lemma UnlinkedOwned(bs: seq<Block>, k: nat, j: nat, a: nat)
    requires HeapOk(bs) && k < |bs| && j < |bs[k].cells|
    requires Owned(bs, a) && a != bs[k].cells[j].addr
    ensures Owned(bs[k := Release(bs[k], j)], a)
  {
    var l: nat, i: nat :| CellAt(bs, l, i, a);
    assert CellAt(bs[k := Release(bs[k], j)], l, if l == k && i > j then i - 1 else i, a);
  }

  lemma DischargedMajor(ma: map<nat, Major>, bs: seq<Block>, k: nat, j: nat, l: nat)
    requires k < |bs| && l < |bs| && j < |bs[k].cells| && MajorOk(ma, bs, k) && MajorOk(ma, bs, l)
    requires l != k ==> bs[l].addr != bs[k].addr
    requires CellAddr(bs[k], j - 1) == NULL <==> j == 0
    ensures var b := bs[k];
            MajorOk(DischargeMajor(ma, b.addr, b.cells[j].size + MINOR_HEADER, MinorOf(b, j)), bs[k := Release(b, j)],
                    l)
  {
    SameAddr(bs, k, Release(bs[k], j), l - 1);
    SameAddr(bs, k, Release(bs[k], j), l + 1);
  }

  lemma DischargedMajors(ma: map<nat, Major>, mi: map<nat, Minor>, bs: seq<Block>, k: nat, j: nat)
    requires HeapOk(bs) && k < |bs| && j < |bs[k].cells| && Mirrors(ma, mi, bs)
    ensures bs[k].addr in ma
    ensures var b := bs[k];
            MajorsOk(DischargeMajor(ma, b.addr, b.cells[j].size + MINOR_HEADER, MinorOf(b, j)), bs[k := Release(b, j)])
  {
    var b := bs[k];
    assert MajorOk(ma, bs, k);
    Neighbourhood(mi, bs, k, j);
    var bs' := bs[k := Release(b, j)];
    var ma' := DischargeMajor(ma, b.addr, b.cells[j].size + MINOR_HEADER, MinorOf(b, j));
    forall l: nat | l < |bs'| ensures MajorOk(ma', bs', l) {
      assert MajorOk(ma, bs, l);
      if l != k { BlocksDistinct(bs, k, l); }
      DischargedMajor(ma, bs, k, j, l);
    }
  }

  lemma SameAddr(bs: seq<Block>, k: nat, b: Block, i: int)
    requires k < |bs| && b.addr == bs[k].addr
    ensures BlockAddr(bs[k := b], i) == BlockAddr(bs, i)
  {
  }

  lemma RemovedAddr(bs: seq<Block>, k: nat, i: int)
    requires k < |bs|
    ensures BlockAddr(RemoveAt(bs, k), i) == BlockAddr(bs, if i < k then i else i + 1)
  {
  }

  /** Unlinking a minor and discharging its block keeps header memory in step with the layout. */
  lemma UnlinkKeepsMirrors(ma: map<nat, Major>, mi: map<nat, Minor>, bs: seq<Block>, k: nat, j: nat)
    requires HeapOk(bs) && k < |bs| && j < |bs[k].cells| && Mirrors(ma, mi, bs)
    ensures var b := bs[k];
            var a := b.cells[j].addr;
            && a in mi && mi[a] == MinorOf(b, j)
            && (mi[a].prev != NULL ==> mi[a].prev in mi && mi[a].prev != a)
            && (mi[a].next != NULL ==> mi[a].next in mi && mi[a].next != a && mi[a].next != mi[a].prev)
            && b.addr in ma
            && Mirrors(DischargeMajor(ma, b.addr, b.cells[j].size + MINOR_HEADER, mi[a]), UnlinkMinor(mi, a),
                       bs[k := Release(b, j)])
  {
    var bs' := bs[k := Release(bs[k], j)];
    Neighbourhood(mi, bs, k, j);
    DischargedMajors(ma, mi, bs, k, j);
    var mi' := UnlinkMinor(mi, bs[k].cells[j].addr);
    forall l: nat, i: nat | l < |bs'| ensures MinorOk(mi', bs'[l], i) {
      if l != k {
        UnlinkedElsewhere(mi, bs, k, j, l, i);
      } else if j - 1 <= i <= j {
        UnlinkedNear(mi, bs, k, j, i);
      } else {
        UnlinkedFar(mi, bs, k, j, i);
      }
    }
    forall a | a in mi' ensures Owned(bs', a) {
      UnlinkedOwned(bs, k, j, a);
    }
  }

  lemma ReleaseKeepsTags(mem: map<int, int>, bs: seq<Block>, k: nat, j: nat)
    requires k < |bs| && j < |bs[k].cells|
    requires Tagged(mem, bs)
    ensures Tagged(mem, bs[k := Release(bs[k], j)])
  {
    var bs' := bs[k := Release(bs[k], j)];
    forall l: nat, i: nat | l < |bs'| && i < |bs'[l].cells| ensures TagOk(mem, bs'[l].cells[i]) {
      assert TagOk(mem, bs[l].cells[if l == k && i >= j then i + 1 else i]);
    }
  }

  // ---------------------------------------------------------------- adding and removing a block

  /** The majors after appending an empty block behind `last` (or as the root). */
  function AppendMajor(ma: map<nat, Major>, last: nat, addr: nat, size: nat): map<nat, Major>
    requires last != NULL ==> last in ma
  {
    var ma1 := if last != NULL then ma[last := ma[last].(next := addr)] else ma;
    ma1[addr := Major(last, NULL, size, MAJOR_HEADER, NULL)]
  }

  lemma AppendKeepsMirrors(ma: map<nat, Major>, mi: map<nat, Minor>, bs: seq<Block>, b: Block)
    requires HeapOk(bs + [b]) && b.cells == [] && b.usage == MAJOR_HEADER && Mirrors(ma, mi, bs)
    ensures var last := BlockAddr(bs, |bs| - 1);
            && (last != NULL ==> last in ma)
            && Mirrors(AppendMajor(ma, last, b.addr, b.size), mi, bs + [b])
  {
    var n := |bs|;
    var last := BlockAddr(bs, n - 1);
    var bs' := bs + [b];
    if n > 0 {
      assert MajorOk(ma, bs, n - 1);
      assert BlockOk(bs'[n - 1]);
    }
    var ma' := AppendMajor(ma, last, b.addr, b.size);
    forall l: nat | l < |bs'| ensures MajorOk(ma', bs', l) {
      if l < n {
        assert MajorOk(ma, bs, l);
        BlocksDistinct(bs', l, n);
        if l < n - 1 { BlocksDistinct(bs', l, n - 1); }
      }
    }
    forall l: nat, i: nat | l < |bs'| ensures MinorOk(mi, bs'[l], i) {
      if l < n { assert MinorOk(mi, bs[l], i); }
    }
    forall a | a in mi ensures Owned(bs', a) {
      var l: nat, i: nat :| CellAt(bs, l, i, a);
      assert CellAt(bs', l, i, a);
    }
  }

  /** The majors after unlinking the block at `a`, whose memory goes back to the system. */
  function UnlinkMajor(ma: map<nat, Major>, a: nat): map<nat, Major>
    requires a in ma
    requires ma[a].prev != NULL ==> ma[a].prev in ma && ma[a].prev != a
    requires ma[a].next != NULL ==> ma[a].next in ma && ma[a].next != a && ma[a].next != ma[a].prev
  {
    var m := ma[a];
    var ma1 := if m.prev != NULL then ma[m.prev := ma[m.prev].(next := m.next)] else ma;
    var ma2 := if m.next != NULL then ma1[m.next := ma1[m.next].(prev := m.prev)] else ma1;
    ma2 - {a}
  }

  lemma MajorNeighbourhood(ma: map<nat, Major>, bs: seq<Block>, k: nat)
    requires HeapOk(bs) && k < |bs| && MajorsOk(ma, bs)
    ensures var a := bs[k].addr;
            && a != NULL && a in ma && ma[a] == MajorOf(bs, k)
            && (ma[a].prev != NULL <==> k > 0)
            && (ma[a].next != NULL <==> k < |bs| - 1)
            && (k > 0 ==> ma[a].prev in ma && ma[a].prev != a && ma[ma[a].prev] == MajorOf(bs, k - 1))
            && (k < |bs| - 1 ==> ma[a].next in ma && ma[a].next != a && ma[ma[a].next] == MajorOf(bs, k + 1))
            && (0 < k < |bs| - 1 ==> ma[a].next != ma[a].prev)
  {
    assert BlockOk(bs[k]) && MajorOk(ma, bs, k);
    if k > 0 { assert BlockOk(bs[k - 1]) && MajorOk(ma, bs, k - 1); BlocksDistinct(bs, k, k - 1); }
    if k < |bs| - 1 { assert BlockOk(bs[k + 1]) && MajorOk(ma, bs, k + 1); BlocksDistinct(bs, k, k + 1); }
    if 0 < k < |bs| - 1 { BlocksDistinct(bs, k - 1, k + 1); }
  }

  lemma UnlinkMajorFrame(ma: map<nat, Major>, a: nat, x: nat)
    requires a in ma && x in ma && x != a && x != ma[a].prev && x != ma[a].next
    requires ma[a].prev != NULL ==> ma[a].prev in ma && ma[a].prev != a
    requires ma[a].next != NULL ==> ma[a].next in ma && ma[a].next != a && ma[a].next != ma[a].prev
    ensures x in UnlinkMajor(ma, a) && UnlinkMajor(ma, a)[x] == ma[x]
  {
  }

  lemma UnlinkedMajorNear(ma: map<nat, Major>, bs: seq<Block>, k: nat, l: nat)
    requires HeapOk(bs) && k < |bs| && MajorsOk(ma, bs)
    requires k - 1 <= l <= k
    ensures var a := bs[k].addr;
            && a in ma
            && (ma[a].prev != NULL ==> ma[a].prev in ma && ma[a].prev != a)
            && (ma[a].next != NULL ==> ma[a].next in ma && ma[a].next != a && ma[a].next != ma[a].prev)
            && MajorOk(UnlinkMajor(ma, a), RemoveAt(bs, k), l)
  {
    MajorNeighbourhood(ma, bs, k);
    if l < |bs| - 1 {
      assert RemoveAt(bs, k)[l] == bs[if l < k then l else l + 1];
    }
  }

  lemma UnlinkedMajorCore(ma: map<nat, Major>, bs: seq<Block>, k: nat, l: nat)
    requires k < |bs| && l < |bs| - 1 && !(k - 1 <= l <= k)
    requires var a, o := bs[k].addr, bs[if l < k then l else l + 1].addr;
             && a in ma && o in ma && o != a && o != ma[a].prev && o != ma[a].next
             && (ma[a].prev != NULL ==> ma[a].prev in ma && ma[a].prev != a)
             && (ma[a].next != NULL ==> ma[a].next in ma && ma[a].next != a && ma[a].next != ma[a].prev)
    requires MajorOk(ma, bs, if l < k then l else l + 1)
    ensures MajorOk(UnlinkMajor(ma, bs[k].addr), RemoveAt(bs, k), l)
  {
    var o := if l < k then l else l + 1;
    assert RemoveAt(bs, k)[l] == bs[o];
    RemovedAddr(bs, k, l - 1);
    RemovedAddr(bs, k, l + 1);
    UnlinkMajorFrame(ma, bs[k].addr, bs[o].addr);
  }

  lemma UnlinkedMajorFar(ma: map<nat, Major>, bs: seq<Block>, k: nat, l: nat)
    requires HeapOk(bs) && k < |bs| && MajorsOk(ma, bs)
    requires l < k - 1 || k < l < |bs| - 1
    ensures var a := bs[k].addr;
            && a in ma
            && (ma[a].prev != NULL ==> ma[a].prev in ma && ma[a].prev != a)
            && (ma[a].next != NULL ==> ma[a].next in ma && ma[a].next != a && ma[a].next != ma[a].prev)
            && MajorOk(UnlinkMajor(ma, a), RemoveAt(bs, k), l)
  {
    MajorNeighbourhood(ma, bs, k);
    var o := if l < k then l else l + 1;
    assert MajorOk(ma, bs, o) && BlockOk(bs[o]);
    BlocksDistinct(bs, k, o);
    if k > 0 { BlocksDistinct(bs, k - 1, o); }
    if k < |bs| - 1 { BlocksDistinct(bs, k + 1, o); }
    UnlinkedMajorCore(ma, bs, k, l);
  }

  lemma UnlinkMajorKeepsMirrors(ma: map<nat, Major>, mi: map<nat, Minor>, bs: seq<Block>, k: nat)
    requires HeapOk(bs) && k < |bs| && Mirrors(ma, mi, bs) && bs[k].cells == []
    ensures var a := bs[k].addr;
            && a in ma && ma[a] == MajorOf(bs, k)
            && (ma[a].prev != NULL ==> ma[a].prev in ma && ma[a].prev != a)
            && (ma[a].next != NULL ==> ma[a].next in ma && ma[a].next != a && ma[a].next != ma[a].prev)
            && Mirrors(UnlinkMajor(ma, a), mi, RemoveAt(bs, k))
  {
    var bs' := RemoveAt(bs, k);
    MajorNeighbourhood(ma, bs, k);
    forall l: nat | l < |bs'| ensures MajorOk(UnlinkMajor(ma, bs[k].addr), bs', l) {
      if k - 1 <= l <= k { UnlinkedMajorNear(ma, bs, k, l); } else { UnlinkedMajorFar(ma, bs, k, l); }
    }
    forall l: nat, i: nat | l < |bs'| ensures MinorOk(mi, bs'[l], i) {
      assert MinorOk(mi, bs[if l < k then l else l + 1], i);
    }
    forall a | a in mi ensures Owned(bs', a) {
      RemovedOwned(bs, k, a);
    }
  }

  lemma RemovedOwned(bs: seq<Block>, k: nat, a: nat)
    requires k < |bs| && bs[k].cells == [] && Owned(bs, a)
    ensures Owned(RemoveAt(bs, k), a)
  {
    var l: nat, i: nat :| CellAt(bs, l, i, a);
    assert CellAt(RemoveAt(bs, k), if l < k then l else l - 1, i, a);
  }

  // ---------------------------------------------------------------- shrinking a request in place

  function SetReq(b: Block, j: nat, req: nat): Block
    requires j < |b.cells|
  {
    b.(cells := b.cells[j := b.cells[j].(req := req)])
  }

  lemma {:induction false} SetReqBytes(cells: seq<Cell>, j: nat, req: nat)
    requires j < |cells|
    ensures CellBytes(cells[j := cells[j].(req := req)]) == CellBytes(cells)
  {
    var cells' := cells[j := cells[j].(req := req)];
    var n := |cells| - 1;
    if j < n {
      assert cells'[..n] == cells[..n][j := cells[..n][j].(req := req)];
      SetReqBytes(cells[..n], j, req);
    } else {
      assert cells'[..n] == cells[..n];
    }
  }

  lemma SetReqKeepsBlock(b: Block, j: nat, req: nat)
    requires BlockOk(b) && j < |b.cells| && req <= b.cells[j].req
    ensures BlockOk(SetReq(b, j, req)) && InUse(SetReq(b, j, req)) == InUse(b)
  {
    SetReqBytes(b.cells, j, req);
    assert forall i: nat :: i <= |b.cells| ==> Gap(SetReq(b, j, req), i) == Gap(b, i) >= 0;
  }

  lemma SetReqKeepsHeap(bs: seq<Block>, k: nat, j: nat, req: nat)
    requires HeapOk(bs) && k < |bs| && j < |bs[k].cells| && req <= bs[k].cells[j].req
    ensures var bs' := bs[k := SetReq(bs[k], j, req)];
            HeapOk(bs') && TotalSize(bs') == TotalSize(bs) && TotalInUse(bs') == TotalInUse(bs)
  {
    SetReqKeepsBlock(bs[k], j, req);
    TotalsUpdate(bs, k, SetReq(bs[k], j, req));
  }

  lemma SetReqMajors(ma: map<nat, Major>, bs: seq<Block>, k: nat, j: nat, req: nat)
    requires k < |bs| && j < |bs[k].cells| && MajorsOk(ma, bs)
    ensures MajorsOk(ma, bs[k := SetReq(bs[k], j, req)])
  {
    var bs' := bs[k := SetReq(bs[k], j, req)];
    forall l: nat | l < |bs'| ensures MajorOk(ma, bs', l) {
      assert MajorOk(ma, bs, l);
      SameAddr(bs, k, bs'[k], l - 1);
      SameAddr(bs, k, bs'[k], l + 1);
    }
  }

  lemma SetReqMinor(mi: map<nat, Minor>, bs: seq<Block>, k: nat, j: nat, req: nat, l: nat, i: nat)
    requires HeapOk(bs) && k < |bs| && j < |bs[k].cells| && l < |bs|
    requires MinorOk(mi, bs[k], j) && MinorOk(mi, bs[l], i)
    ensures var a := bs[k].cells[j].addr;
            a in mi && MinorOk(mi[a := mi[a].(req := req)], bs[k := SetReq(bs[k], j, req)][l], i)
  {
    if i < |bs[l].cells| && !(l == k && i == j) { CellsApart(bs, k, j, l, i); }
  }

  lemma SetReqKeepsMirrors(ma: map<nat, Major>, mi: map<nat, Minor>, mem: map<int, int>, bs: seq<Block>,
                           k: nat, j: nat, req: nat)
    requires HeapOk(bs) && k < |bs| && j < |bs[k].cells| && Mirrors(ma, mi, bs) && Tagged(mem, bs)
    ensures var a := bs[k].cells[j].addr;
            var bs' := bs[k := SetReq(bs[k], j, req)];
            a in mi && Mirrors(ma, mi[a := mi[a].(req := req)], bs') && Tagged(mem, bs')
  {
    hide HeapOk, MajorOk;
    var b, a := bs[k], bs[k].cells[j].addr;
    var bs' := bs[k := SetReq(b, j, req)];
    SetReqMajors(ma, bs, k, j, req);
    assert MinorOk(mi, b, j);
    var mi' := mi[a := mi[a].(req := req)];
    forall l: nat, i: nat | l < |bs'| ensures MinorOk(mi', bs'[l], i) {
      assert MinorOk(mi, bs[l], i);
      SetReqMinor(mi, bs, k, j, req, l, i);
    }
    forall x | x in mi' ensures Owned(bs', x) {
      assert Owned(bs, x);
      var l: nat, i: nat :| CellAt(bs, l, i, x);
      assert CellAt(bs', l, i, x);
    }
    forall l: nat, i: nat | l < |bs'| && i < |bs'[l].cells| ensures TagOk(mem, bs'[l].cells[i]) {
      assert TagOk(mem, bs[l].cells[i]);
    }
  }

  lemma LiveSetReq(bs: seq<Block>, k: nat, j: nat, req: nat)
    requires HeapOk(bs) && k < |bs| && j < |bs[k].cells|
    ensures var c := bs[k].cells[j];
            Live(bs[k := SetReq(bs[k], j, req)]) == Live(bs) - {c} + {c.(req := req)}
  {
    var bs' := bs[k := SetReq(bs[k], j, req)];
    var c := bs[k].cells[j];
    forall d | d in Live(bs') ensures d in Live(bs) - {c} + {c.(req := req)} {
      var l, i := LiveIndex(bs', d);
      if !(l == k && i == j) { LiveAt(bs, l, i); CellsApart(bs, l, i, k, j); }
    }
    forall d | d in Live(bs) - {c} + {c.(req := req)} ensures d in Live(bs') {
      if d == c.(req := req) {
        LiveAt(bs', k, j);
      } else {
        var l, i := LiveIndex(bs, d);
        LiveAt(bs', l, i);
      }
    }
  }

  // ---------------------------------------------------------------- payload bytes

  /** Only bytes of [lo, hi) differ. */
  ghost predicate SameOutside(before: map<int, int>, after: map<int, int>, lo: int, hi: int) {
    forall a: int {:trigger Byte(after, a)} :: !(lo <= a < hi) ==> Byte(after, a) == Byte(before, a)
  }

  /** Bytes written to one user range, or below the heap, disturb no tag and no other user range. */
  lemma WriteIsLocal(before: map<int, int>, after: map<int, int>, bs: seq<Block>, c: Cell, lo: int, hi: int, d: Cell)
    requires HeapOk(bs) && SameOutside(before, after, lo, hi) && d in Live(bs)
    requires hi <= HEAP_START || (c in Live(bs) && c.User() <= lo && hi <= c.User() + c.req)
    requires TagOk(before, d)
    ensures TagOk(after, d)
    ensures d != c || hi <= HEAP_START ==>
      forall a :: d.User() <= a < d.User() + d.req ==> Byte(after, a) == Byte(before, a)
  {
    var l, i := LiveIndex(bs, d);
    CellInside(bs[l], i);
    assert BlockOk(bs[l]) && HasPadding(d);
    UserInsideCell(d);
    if hi > HEAP_START {
      var k, j := LiveIndex(bs, c);
      assert BlockOk(bs[k]) && HasPadding(c);
      UserInsideCell(c);
      if d != c { CellsApart(bs, k, j, l, i); }
    }
  }

  lemma WriteKeepsTags(before: map<int, int>, after: map<int, int>, bs: seq<Block>, c: Cell, lo: int, hi: int)
    requires HeapOk(bs) && SameOutside(before, after, lo, hi) && Tagged(before, bs)
    requires hi <= HEAP_START || (c in Live(bs) && c.User() <= lo && hi <= c.User() + c.req)
    ensures Tagged(after, bs)
  {
    forall k: nat, i: nat | k < |bs| && i < |bs[k].cells| ensures TagOk(after, bs[k].cells[i]) {
      assert TagOk(before, bs[k].cells[i]);
      LiveAt(bs, k, i);
      WriteIsLocal(before, after, bs, c, lo, hi, bs[k].cells[i]);
    }
  }
}
