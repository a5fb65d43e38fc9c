/** Unmapping: what the loop makes of each directory index of a range, and when that is right. */
module Unmapping {
  import opened Options
  import opened Paging

  /** Two places of the unmapping code, as written or as intended: the last entry of a partly unmapped
      4M page is found by a shift of 12 or, as written, of 22 bits; the use count of a table goes down only
      for an entry in use or, as written, for any entry. */
  datatype UnmapBuild = UnmapBuild(exactShift: bool, onlyMapped: bool)

  const UNMAP_AS_WRITTEN := UnmapBuild(false, false)
  const UNMAP_INTENDED := UnmapBuild(true, true)

  /** The last entry that a range ending at `end` covers in the table of page v. */
  function WantedTo(v: nat, end: nat): nat
    requires end > 0
  {
    var last := (end - 1) / PAGE;
    if last / ENTRIES != v / ENTRIES then ENTRIES - 1 else last % ENTRIES
  }

  /** The code's test whether the rest of the 4M page at v goes, on 32-bit addresses. */
  predicate Whole(v: nat, end: nat) {
    v % ENTRIES == 0 && (v / ENTRIES + 1) * LARGE_PAGE % SPACE <= end % SPACE
  }

  /** The last entry that the code unmaps of the 4M page at v. */
  function WrittenTo(build: UnmapBuild, v: nat, end: nat): nat
    requires end > 0
  {
    var last := (end - 1) / PAGE;
    if Whole(v, end) || last / ENTRIES != v / ENTRIES then ENTRIES - 1
    else if build.exactShift then last % ENTRIES
    else v / ENTRIES
  }

  lemma EntryBounds(build: UnmapBuild, v: nat, end: nat)
    requires v * PAGE < end <= SPACE
    ensures v / ENTRIES < ENTRIES && v % ENTRIES <= WantedTo(v, end) < ENTRIES && WrittenTo(build, v, end) < ENTRIES
    ensures Whole(v, end) ==> v % ENTRIES == 0 && WrittenTo(build, v, end) == ENTRIES - 1
    ensures Whole(v, end) <==> v % ENTRIES == 0 && (v / ENTRIES + 1) * ENTRIES * PAGE % SPACE <= end % SPACE
  {
  }

  /** The index found by the shift as written is the wanted one exactly when the range passes the end of the 4M page, or
      covers all of it, or its last page has in the table the same index as the table has in the directory; but from the
      start of the last 4M page everything goes. */
  lemma WrittenShift(v: nat, end: nat)
    requires v * PAGE < end <= SPACE
    ensures WrittenTo(UNMAP_AS_WRITTEN, v, end) == WantedTo(v, end) <==>
            var next, last := (v / ENTRIES + 1) * LARGE_PAGE, (end - 1) / PAGE;
            if v % ENTRIES == 0 && (v / ENTRIES == ENTRIES - 1 || end >= next) then end > next - PAGE
            else end > next || last % ENTRIES == v / ENTRIES
  {
  }

  // one directory index

  /** A 4M page goes as a whole if all of it lies in the range, and the range does not end with the space, where the end
      wraps to zero; the last one of the space always does. */
  lemma WholeIs(v: nat, end: nat)
    requires v * 0x1000 < end <= 0x1_0000_0000
    ensures Whole(v, end) <==>
            v % 1024 == 0 && (v / 1024 == 1023 || ((v / 1024 + 1) * 0x40_0000 <= end && end < 0x1_0000_0000))
  {
  }

  ghost predicate DirOk(d: Dir) { d.pde.Small? ==> |d.entries| == ENTRIES }

  const NOTHING := Dir(Empty, 0, [])

  function UsedAfter(build: UnmapBuild, d: Dir, p: nat): nat
    requires p < |d.entries|
  {
    if d.used > 0 && (!build.onlyMapped || d.entries[p].Page?) then d.used - 1 else d.used
  }

  /** Unmapping one page of a table. */
  function ClearedDir(build: UnmapBuild, d: Dir, p: nat): (r: Dir)
    requires DirOk(d) && p < ENTRIES
    ensures DirOk(r) && (r.pde == d.pde || r.pde.Empty?) && (!d.pde.Small? ==> r == d)
  {
    if !d.pde.Small? then d
    else
      var used := UsedAfter(build, d, p);
      if used == 0 then NOTHING else Dir(d.pde, used, d.entries[p := NoPage])
  }

  /** Unmapping pages a to a + n of a table, one after the other, until the table is given up. */
  function ClearedRun(build: UnmapBuild, d: Dir, a: nat, n: nat): (r: Dir)
    requires DirOk(d) && a + n <= ENTRIES
    ensures DirOk(r) && (r.pde == d.pde || r.pde.Empty?)
  {
    if n == 0 then d else ClearedDir(build, ClearedRun(build, d, a, n - 1), a + n - 1)
  }

  /** Unmapping the part of a 4M page from page v on: all of it, or all but what a new table keeps. */
  function UnmappedLarge(build: UnmapBuild, d: Dir, v: nat, end: nat, g: Option<Grant>): (r: Dir)
    requires d.pde.Large? && v * PAGE < end <= SPACE
    ensures DirOk(r)
  {
    EntryBounds(build, v, end);
    if Whole(v, end) then NOTHING
    else if g.None? then d
    else
      var to := WrittenTo(build, v, end);
      Dir(Small(g.value.frame, true), ENTRIES - (to - v % ENTRIES + 1), Split(d.pde.addr, d.pde.attrs, v % ENTRIES, to))
  }

  /** Pages a to a + n are gone, the others as before, and the count is exact. */
  ghost predicate Removed(d: Dir, d': Dir, a: nat, n: nat) {
    CountedDir(d') && forall q: nat :: q < ENTRIES ==> WalkDir(d', q) == if a <= q < a + n then None else WalkDir(d, q)
  }

  /** Unmapping one page of a table is right exactly when the entry was in use, or none was; or when
      only entries in use are counted down. */
  lemma ClearedExact(build: UnmapBuild, d: Dir, p: nat)
    requires DirOk(d) && CountedDir(d) && d.pde.Small? && p < ENTRIES
    ensures Removed(d, ClearedDir(build, d, p), p, 1) <==> build.onlyMapped || d.entries[p] != NoPage || d.used == 0
  {
    var e := d.entries;
    var e' := e[p := NoPage];
    CountUpdate(e, p, NoPage);
    CountZero(e);
    CountZero(e');
    var d' := ClearedDir(build, d, p);
    if build.onlyMapped || e[p] != NoPage || d.used == 0 {
      forall q: nat | q < ENTRIES ensures WalkDir(d', q) == if p <= q < p + 1 then None else WalkDir(d, q) {
        assert q != p ==> e'[q] == e[q];
      }
    } else if d.used == 1 {
      var q: nat :| q < ENTRIES && e[q] != NoPage;
      assert WalkDir(d', q) == None && WalkDir(d, q).Some? && q != p;
    } else {
      assert d'.entries == e' && !CountedDir(d');
    }
  }

  lemma RemovedOn(d: Dir, d1: Dir, d2: Dir, a: nat, n: nat)
    requires Removed(d, d1, a, n) && Removed(d1, d2, a + n, 1)
    ensures Removed(d, d2, a, n + 1)
  {
    hide WalkDir, CountedDir;
  }

  /** As intended, every run of pages is unmapped rightly. */
  lemma {:induction false} IntendedRun(build: UnmapBuild, d: Dir, a: nat, n: nat)
    requires build.onlyMapped && DirOk(d) && CountedDir(d) && a + n <= ENTRIES
    ensures d.pde.Small? || d.pde.Empty? ==> Removed(d, ClearedRun(build, d, a, n), a, n)
  {
    if n > 0 && (d.pde.Small? || d.pde.Empty?) {
      IntendedRun(build, d, a, n - 1);
      var d1 := ClearedRun(build, d, a, n - 1);
      if d1.pde.Small? { ClearedExact(build, d1, a + n - 1); }
      hide ClearedDir, Count;
      assert !d1.pde.Small? ==> Removed(d1, d1, a + n - 1, 1);
      RemovedOn(d, d1, ClearedDir(build, d1, a + n - 1), a, n - 1);
    }
  }

  /** Entries of a table after a run of them was cleared. */
  function Holed(e: seq<Pte>, a: nat, n: nat): seq<Pte> {
    seq(|e|, i requires 0 <= i < |e| => if a <= i < a + n then NoPage else e[i])
  }

  lemma {:induction false} CountHoled(e: seq<Pte>, a: nat, n: nat)
    requires a + n <= |e|
    ensures Count(Holed(e, a, n)) + Count(e[a..a + n]) == Count(e)
  {
    if n == 0 {
      assert Holed(e, a, n) == e;
    } else {
      CountHoled(e, a, n - 1);
      var before := Holed(e, a, n - 1);
      assert Holed(e, a, n) == before[a + n - 1 := NoPage];
      CountUpdate(before, a + n - 1, NoPage);
      assert e[a..a + n][..n - 1] == e[a..a + n - 1];
    }
  }

  /** As written, the run takes one off the count for each page, and ends when the count does. */
  lemma {:induction false} WrittenRun(build: UnmapBuild, d: Dir, a: nat, n: nat)
    requires !build.onlyMapped && DirOk(d) && d.pde.Small? && a + n <= ENTRIES && n > 0
    ensures ClearedRun(build, d, a, n) == if d.used <= n then NOTHING
                                          else Dir(d.pde, d.used - n, Holed(d.entries, a, n))
  {
    if n == 1 {
      assert ClearedRun(build, d, a, 0) == d;
      assert Holed(d.entries, a, 1) == d.entries[a := NoPage];
    } else {
      WrittenRun(build, d, a, n - 1);
      assert Holed(d.entries, a, n - 1)[a + n - 1 := NoPage] == Holed(d.entries, a, n);
    }
  }

  /** All pages of a run are in use. */
  ghost predicate AllUsed(d: Dir, a: nat,
                          n: nat)
  {
    forall q: nat :: a <= q < a + n && q < |d.entries| ==> d.entries[q] != NoPage
  }

  /** No page outside a run is in use. */
  ghost predicate NoneElse(d: Dir, a: nat,
                           n: nat)
  {
    forall q: nat :: q < |d.entries| && !(a <= q < a + n) ==> d.entries[q] == NoPage
  }

  /** Unmapping a run of pages of one table as written is right exactly when all of them were mapped, or no
      other page of the table was. */
  lemma WrittenRunExact(build: UnmapBuild, d: Dir, a: nat, n: nat)
    requires !build.onlyMapped && DirOk(d) && CountedDir(d) && d.pde.Small? && a + n <= ENTRIES && n > 0
    ensures Removed(d, ClearedRun(build, d, a, n), a, n) <==> AllUsed(d, a, n) || NoneElse(d, a, n)
  {
    var e := d.entries;
    WrittenRun(build, d, a, n);
    CountHoled(e, a, n);
    AllInSlice(d, a, n);
    NoneOutside(d, a, n);
    hide ClearedRun, Count, Holed, AllUsed, NoneElse;
    if d.used <= n { RunFreed(d, a, n); } else { RunKept(d, a, n); }
  }

  lemma AllInSlice(d: Dir, a: nat, n: nat)
    requires a + n <= |d.entries|
    ensures Count(d.entries[a..a + n]) == n <==> AllUsed(d, a, n)
  {
    var slice := d.entries[a..a + n];
    CountFull(slice);
    if forall i :: 0 <= i < n ==> slice[i] != NoPage {
      assert forall q :: a <= q < a + n ==> d.entries[q] == slice[q - a];
    }
  }

  lemma NoneOutside(d: Dir, a: nat, n: nat)
    requires a + n <= |d.entries|
    ensures Count(Holed(d.entries, a, n)) == 0 <==> NoneElse(d, a, n)
  {
    var e, h := d.entries, Holed(d.entries, a, n);
    CountZero(h);
    if forall q :: 0 <= q < |e| ==> h[q] == NoPage {
      assert forall q :: 0 <= q < |e| && !(a <= q < a + n) ==> e[q] == h[q];
    }
  }

  lemma RunFreed(d: Dir, a: nat, n: nat)
    requires DirOk(d) && d.pde.Small? && a + n <= ENTRIES
    ensures Removed(d, NOTHING, a, n) <==> NoneElse(d, a, n)
  {
    if q: nat :| q < ENTRIES && !(a <= q < a + n) && d.entries[q] != NoPage {
      assert WalkDir(NOTHING, q) != WalkDir(d, q);
    }
  }

  lemma RunKept(d: Dir, a: nat, n: nat)
    requires DirOk(d) && d.pde.Small? && a + n <= ENTRIES && n < d.used
    ensures Removed(d, Dir(d.pde, d.used - n, Holed(d.entries, a, n)), a, n) <==>
      d.used - n == Count(Holed(d.entries, a, n))
  {
  }

  /** Unmapping the part of a 4M page from page v on is right exactly when the last entry is the wanted one, whether all
      of it goes or a table is left. */
  lemma PartialUnmapExact(build: UnmapBuild, d: Dir, v: nat, end: nat, g: Option<Grant>)
    requires d.pde.Large? && v * PAGE < end <= SPACE && (g.Some? || Whole(v, end))
    ensures v % ENTRIES <= WantedTo(v, end)
    ensures Removed(d, UnmappedLarge(build, d, v, end, g), v % ENTRIES, WantedTo(v, end) + 1 - v % ENTRIES)
       <==> WrittenTo(build, v, end) == WantedTo(v, end)
  {
    EntryBounds(build, v, end);
    var from, to, wanted := v % ENTRIES, WrittenTo(build, v, end), WantedTo(v, end);
    var whole := Whole(v, end);
    hide WantedTo, WrittenTo, Whole;
    if whole {
      WholeGone(d, from, wanted);
    } else {
      HoleLeft(d, g.value, from, to, wanted);
    }
  }

  lemma WholeGone(d: Dir, from: nat, wanted: nat)
    requires d.pde.Large? && from == 0 && wanted < ENTRIES
    ensures Removed(d, NOTHING, from, wanted + 1 - from) <==> wanted == ENTRIES - 1
  {
    if wanted < ENTRIES - 1 { assert WalkDir(NOTHING, wanted + 1) != WalkDir(d, wanted + 1); }
  }

  lemma HoleLeft(d: Dir, g: Grant, from: nat, to: nat, wanted: nat)
    requires d.pde.Large? && from <= wanted < ENTRIES && to < ENTRIES
    ensures Removed(d, Dir(Small(g.frame, true), ENTRIES - (to - from + 1), Split(d.pde.addr, d.pde.attrs, from, to)),
                    from, wanted + 1 - from)
       <==> to == wanted
  {
    var d' := Dir(Small(g.frame, true), ENTRIES - (to - from + 1), Split(d.pde.addr, d.pde.attrs, from, to));
    if to == wanted {
      CountHole(d'.entries, from, to);
    } else if to < wanted {
      assert WalkDir(d', wanted).Some?;
    } else {
      assert WalkDir(d', to) == None && WalkDir(d, to).Some?;
    }
  }

  /** A table with one page in use: unmapping another of its pages takes the table, and that page with it. */
  lemma UnmapLosesPage(frame: nat, attrs: Attrs)
    ensures var d := Dir(Small(1, true), 1, NoEntries()[5 := Page(frame, attrs)]);
            && CountedDir(d) && WalkDir(d, 5).Some? && DirOk(d)
            && WalkDir(ClearedDir(UNMAP_AS_WRITTEN, d, 3), 5) == None
  {
    CountZero(NoEntries());
    CountUpdate(NoEntries(), 5, Page(frame, attrs));
  }

  /** Unmapping the first 100 pages of the 4M page at directory index 5 as written takes six: the page after them is
      still there. */
  lemma PartialUnmapMisses(addr: nat, attrs: Attrs, g: Grant)
    ensures var d, v := Dir(Large(addr, attrs), ENTRIES, []), 5 * ENTRIES;
            var d' := UnmappedLarge(UNMAP_AS_WRITTEN, d, v, (v + 100) * PAGE, Some(g));
            && WantedTo(v, (v + 100) * PAGE) == 99 && WalkDir(d', 5) == None && WalkDir(d', 6) == WalkDir(d, 6) != None
  {
  }

  /** Unmapping the first page of the last 4M page takes all of it, in either form. */
  lemma LastLargePageGoes(build: UnmapBuild, addr: nat, attrs: Attrs, g: Option<Grant>)
    ensures var d, v := Dir(Large(addr, attrs), ENTRIES, []), (ENTRIES - 1) * ENTRIES;
            var d' := UnmappedLarge(build, d, v, (v + 1) * PAGE, g);
            && WantedTo(v, (v + 1) * PAGE) == 0 && WalkDir(d, 1023).Some? && WalkDir(d', 1023) == None
  {
  }

  // a range of pages

  function Max(a: nat, b: nat): nat { if a < b then b else a }

  /** Where the pages of a range end that a step going on at `next` has done. */
  function StopAt(next: nat, end: nat): nat { Smaller(next, PagesFor(end)) }

  /** The pages of a range [lo, hi) at directory index j. */
  function FirstIn(lo: nat, j: nat): nat { Max(lo, j * ENTRIES) }

  function EndIn(hi: nat, j: nat): nat { Smaller(hi, (j + 1) * ENTRIES) }

  /** A directory index after the pages [lo, hi) of a range up to `end` were unmapped. */
  function Progress(build: UnmapBuild, d: Dir, j: nat, lo: nat, hi: nat, end: nat, g: Option<Grant>): Dir
    requires DirOk(d) && end <= SPACE && hi <= PagesFor(end)
  {
    var first, stop := FirstIn(lo, j), EndIn(hi, j);
    if stop <= first then d
    else
      match d.pde
      case Empty => d
      case Large(_, _) => InRange(first, hi, end); UnmappedLarge(build, d, first, end, g)
      case Small(_, _) => ClearedRun(build, d, first - j * ENTRIES, stop - first)
  }

  lemma InRange(v: nat, hi: nat, end: nat)
    requires v < hi <= PagesFor(end)
    ensures v * PAGE < end
  {
  }

  /** What the code needs of a directory index to unmap its part of a range [lo, hi) rightly: of a 4M page the last
      entry has to be the wanted one; of a table, all pages of the range have to be in use or no others. */
  ghost predicate SoundDir(build: UnmapBuild, d: Dir, j: nat, lo: nat, hi: nat, end: nat) {
    var first, stop := FirstIn(lo, j), EndIn(hi, j);
    first < stop ==>
      match d.pde
      case Empty => true
      case Large(_, _) => end > 0 && WrittenTo(build, first, end) == WantedTo(first, end)
      case Small(_, _) =>
        || build.onlyMapped
        || AllUsed(d, first - j * ENTRIES, stop - first)
        || NoneElse(d, first - j * ENTRIES, stop - first)
  }

  ghost predicate StepDone(d: Dir, j: nat, lo: nat, hi: nat, end: nat, g: Option<Grant>) {
    var first := FirstIn(lo, j);
    d.pde.Large? && first < EndIn(hi, j) ==>
      hi >= Smaller((j + 1) * ENTRIES, PagesFor(end)) && (g.Some? || Whole(first, end))
  }

  /** For one directory index, the pages of the range are gone and the others as before exactly if it is sound. */
  lemma ProgressExact(build: UnmapBuild, d: Dir, j: nat, lo: nat, hi: nat, end: nat, g: Option<Grant>)
    requires DirOk(d) && CountedDir(d) && end <= SPACE && hi <= PagesFor(end) && StepDone(d, j, lo, hi, end, g)
    requires FirstIn(lo, j) < EndIn(hi, j)
    ensures var first, stop := FirstIn(lo, j), EndIn(hi, j);
            Removed(d, Progress(build, d, j, lo, hi, end, g), first - j * ENTRIES, stop - first) <==>
              SoundDir(build, d, j, lo, hi, end)
  {
    var first, stop := FirstIn(lo, j), EndIn(hi, j);
    var a := first - j * ENTRIES;
    match d.pde
    case Empty =>
    case Large(_, _) =>
      InRange(first, hi, end);
      LargeRange(lo, hi, j, end);
      hide Whole, WrittenTo, WantedTo, UnmappedLarge, Removed;
      PartialUnmapExact(build, d, first, end, g);
    case Small(_, _) =>
      hide Removed, ClearedRun, AllUsed, NoneElse;
      if build.onlyMapped {
        IntendedRun(build, d, a, stop - first);
      } else {
        WrittenRunExact(build, d, a, stop - first);
      }
  }

  lemma LargeRange(lo: nat, hi: nat, j: nat, end: nat)
    requires FirstIn(lo, j) < EndIn(hi, j) && Smaller((j + 1) * ENTRIES, PagesFor(end)) <= hi <= PagesFor(end)
    ensures var first, stop := FirstIn(lo, j), EndIn(hi, j);
            && first % ENTRIES == first - j * ENTRIES && end > 0
            && WantedTo(first, end) + 1 - first % ENTRIES == stop - first
  {
  }

  /** As intended, a range is unmapped rightly unless it covers only the first part of a 4M page at the last directory
      index: the address after that page is zero in 32 bits, so all of it goes. */
  lemma IntendedIsSound(d: Dir, j: nat, lo: nat, end: nat)
    requires j < ENTRIES && end <= SPACE
    ensures SoundDir(UNMAP_INTENDED, d, j, lo, PagesFor(end), end) <==>
            !(d.pde.Large? && j == ENTRIES - 1 && lo <= j * ENTRIES && j * ENTRIES * PAGE < end <= SPACE - PAGE)
  {
    var first, stop := FirstIn(lo, j), EndIn(PagesFor(end), j);
    if first < stop { IntendedTo(first, j, end); }
    EndsBeyond(j, end);
    hide WrittenTo, WantedTo, PagesFor;
  }

  lemma EndsBeyond(j: nat, end: nat)
    ensures PagesFor(end) > j * ENTRIES <==> j * ENTRIES * PAGE < end
  {
  }

  lemma IntendedTo(w: nat, j: nat, end: nat)
    requires w < PagesFor(end) && end <= SPACE && j * ENTRIES <= w < (j + 1) * ENTRIES
    ensures end > 0
    ensures WrittenTo(UNMAP_INTENDED, w, end) == WantedTo(w, end) <==>
      !(j == ENTRIES - 1 && w == j * ENTRIES && end <= SPACE - PAGE)
  {
  }

  // one step

  /** One step of the unmapping loop, at page v. */
  function StepDir(build: UnmapBuild, d: Dir, v: nat, end: nat, g: Option<Grant>): Dir
    requires DirOk(d) && v * PAGE < end <= SPACE
  {
    match d.pde
    case Empty => d
    case Large(_, _) => UnmappedLarge(build, d, v, end, g)
    case Small(_, _) => ClearedDir(build, d, v % ENTRIES)
  }

  function NextPageOf(d: Dir, v: nat): nat { if d.pde.Small? then v + 1 else (v / ENTRIES + 1) * ENTRIES }

  lemma {:induction false} StaysEmpty(build: UnmapBuild, d: Dir, a: nat, n: nat, m: nat)
    requires DirOk(d) && n <= m && a + m <= ENTRIES && ClearedRun(build, d, a, n).pde.Empty?
    ensures ClearedRun(build, d, a, m) == ClearedRun(build, d, a, n)
  {
    if n < m { StaysEmpty(build, d, a, n, m - 1); }
  }

  /** The step at page v takes its directory index on. */
  lemma ProgressStep(build: UnmapBuild, d: Dir, lo: nat, v: nat, end: nat, g: Option<Grant>)
    requires DirOk(d) && lo <= v && v * PAGE < end <= SPACE && v <= PagesFor(end)
    requires d.pde.Large? ==> v == FirstIn(lo, v / ENTRIES)
    ensures var j := v / ENTRIES;
            var cur := Progress(build, d, j, lo, v, end, g);
            && DirOk(cur) && (cur.pde.Large? ==> cur == d) && (cur.pde.Empty? || cur.pde == d.pde)
            && Progress(build, d, j, lo, StopAt(NextPageOf(cur, v), end), end, g) == StepDir(build, cur, v, end, g)
  {
    var j := v / ENTRIES;
    var first := FirstIn(lo, j);
    var cur := Progress(build, d, j, lo, v, end, g);
    StepPages(lo, v, end);
    if d.pde.Small? {
      var a, n := first - j * ENTRIES, v - first;
      assert cur == ClearedRun(build, d, a, n);
      hide PagesFor, ClearedDir;
      if cur.pde.Small? {
        assert ClearedRun(build, d, a, n + 1) == ClearedDir(build, cur, a + n);
      } else {
        StaysEmpty(build, d, a, n, EndIn(StopAt((j + 1) * ENTRIES, end), j) - first);
      }
    }
    hide UnmappedLarge, ClearedRun, PagesFor;
  }

  lemma StepPages(lo: nat, v: nat, end: nat)
    requires lo <= v && v * PAGE < end
    ensures var j := v / ENTRIES;
            && FirstIn(lo, j) <= v < (j + 1) * ENTRIES && EndIn(v, j) == v && v % ENTRIES == v - j * ENTRIES
            && v < StopAt(v + 1, end) == v + 1 == EndIn(v + 1, j)
            && v < StopAt((j + 1) * ENTRIES, end) == EndIn(StopAt((j + 1) * ENTRIES, end), j)
  {
  }

  /** The step leaves all other directory indices alone. */
  lemma ProgressElsewhere(build: UnmapBuild, d: Dir, j: nat, lo: nat, v: nat, next: nat, end: nat, g: Option<Grant>)
    requires DirOk(d) && lo <= v && v * PAGE < end <= SPACE && j != v / ENTRIES
             && v < next <= (v / ENTRIES + 1) * ENTRIES
    requires v <= PagesFor(end)
    ensures Progress(build, d, j, lo, StopAt(next, end), end, g) == Progress(build, d, j, lo, v, end, g)
  {
    OtherPages(j, lo, v, next, end);
    hide UnmappedLarge, ClearedRun, PagesFor;
  }

  lemma OtherPages(j: nat, lo: nat, v: nat, next: nat, end: nat)
    requires lo <= v && v * PAGE < end && j != v / ENTRIES && v < next <= (v / ENTRIES + 1) * ENTRIES
    ensures EndIn(StopAt(next, end), j) == EndIn(v, j)
            || (EndIn(StopAt(next, end), j) <= FirstIn(lo, j) && EndIn(v, j) <= FirstIn(lo, j))
  {
  }

  // the whole state

  ghost function DirAt(configs: map<nat, Config>, tables: map<nat, Table>, d: nat, j: nat): Dir {
    if d in configs && ShapeOk(configs[d]) && j < ENTRIES then DirOf(SlotOf(configs[d], j), tables) else NOTHING
  }

  /** Whether an edit of a directory index of a space shows in space d. */
  predicate Shows(chain: seq<nat>, id: nat, d: nat, j: nat) { d == id || (j >= KERNEL_PDE && d in chain) }

  /** One directory index of a space becomes d', with its copies; all others that are kept up to date stay. */
  ghost predicate DirEdited(configs: map<nat, Config>, tables: map<nat, Table>, configs': map<nat, Config>,
                            tables': map<nat, Table>,
                            chain: seq<nat>, id: nat, i: nat, d': Dir)
  {
    && configs'.Keys == configs.Keys
    && forall d, j: nat :: d in configs && j < ENTRIES && Live(chain, d, j) ==>
         DirAt(configs', tables', d, j) == if j == i && Shows(chain, id, d, j) then d' else DirAt(configs, tables, d, j)
  }

  lemma EditDirs(configs: map<nat, Config>, tables: map<nat, Table>, chain: seq<nat>, id: nat, i: nat, s: Slot,
                 tables': map<nat, Table>)
    requires Consistent(configs, tables, chain) && CanEdit(configs, chain, id, i)
    requires TableEdit(tables, tables', configs[id].pt[i], s.pt) && SlotOk(s, tables')
    ensures DirEdited(configs, tables, Edited(configs, chain, id, i, s), tables', chain, id, i, DirOf(s, tables'))
  {
    var cs' := Edited(configs, chain, id, i, s);
    assert cs'.Keys == configs.Keys;
    forall d, j: nat | d in configs && j < ENTRIES && Live(chain, d, j)
      ensures DirAt(cs', tables', d, j) == if j == i && Shows(chain, id, d, j) then DirOf(s, tables')
                                           else DirAt(configs, tables, d, j)
    {
      EditDirAt(configs, tables, chain, id, i, s, tables', d, j);
    }
  }

  lemma EditDirAt(configs: map<nat, Config>, tables: map<nat, Table>, chain: seq<nat>, id: nat, i: nat, s: Slot,
                  tables': map<nat, Table>,
                  d: nat, j: nat)
    requires Consistent(configs, tables, chain) && CanEdit(configs, chain, id, i)
    requires TableEdit(tables, tables', configs[id].pt[i], s.pt) && SlotOk(s, tables')
    requires d in configs && j < ENTRIES && Live(chain, d, j)
    ensures DirAt(Edited(configs, chain, id, i, s), tables', d, j)
         == if j == i && Shows(chain, id, d, j) then DirOf(s, tables') else DirAt(configs, tables, d, j)
  {
    EditedAt(configs, chain, id, i, s, d, j);
    if !Touched(chain, id, i, d, j) {
      OwnedSlot(configs, tables, chain, d, j);
      EditElsewhere(configs, tables, chain, id, i, s, tables', d, j);
    }
  }

  lemma LookupIs(configs: map<nat, Config>, tables: map<nat, Table>, d: nat, v: nat)
    requires v < PAGES
    ensures v / ENTRIES < ENTRIES
            && Lookup(configs, tables, d, v) == WalkDir(DirAt(configs, tables, d, v / ENTRIES), v % ENTRIES)
  {
  }

  lemma LiveDir(configs: map<nat, Config>, tables: map<nat, Table>, chain: seq<nat>, d: nat, j: nat)
    requires Consistent(configs, tables, chain) && d in configs && j < ENTRIES && Live(chain, d, j)
    ensures DirOk(DirAt(configs, tables, d, j))
    ensures CountAt(configs, tables, chain, d, j) <==> CountedDir(DirAt(configs, tables, d, j))
  {
    OwnedSlot(configs, tables, chain, d, j);
  }

  lemma ShownDir(configs: map<nat, Config>, tables: map<nat, Table>, chain: seq<nat>, id: nat, d: nat, j: nat)
    requires Consistent(configs, tables, chain) && CanEdit(configs, chain, id, j) && d in configs
             && Shows(chain, id, d, j)
    ensures DirAt(configs, tables, d, j) == DirAt(configs, tables, id, j)
  {
    OwnedSlot(configs, tables, chain, d, j);
    OwnedSlot(configs, tables, chain, id, j);
  }

  /** The pages [lo, hi) of a range were unmapped, one directory index after the other. */
  ghost predicate UnmappedTo(build: UnmapBuild, cs0: map<nat, Config>, ts0: map<nat, Table>, cs: map<nat, Config>,
                             ts: map<nat, Table>,
                             chain: seq<nat>, id: nat, lo: nat, hi: nat, end: nat, grants: map<nat, Grant>)
    requires end <= SPACE && hi <= PagesFor(end)
  {
    && cs.Keys == cs0.Keys
    && forall d, j: nat :: d in cs0 && j < ENTRIES && Live(chain, d, j) ==>
         UnmappedAt(build, cs0, ts0, cs, ts, chain, id, lo, hi, end, grants, d, j)
  }

  ghost predicate UnmappedAt(build: UnmapBuild, cs0: map<nat, Config>, ts0: map<nat, Table>, cs: map<nat, Config>,
                             ts: map<nat, Table>, chain: seq<nat>, id: nat, lo: nat, hi: nat, end: nat,
                             grants: map<nat, Grant>, d: nat, j: nat)
    requires end <= SPACE && hi <= PagesFor(end)
  {
    && DirOk(DirAt(cs0, ts0, d, j))
    && DirAt(cs, ts, d, j)
       == if Shows(chain, id, d, j) then Progress(build, DirAt(cs0, ts0, d, j), j, lo, hi, end, GrantFor(grants, j))
                              else DirAt(cs0, ts0, d, j)
  }

  /** The loop passes a 4M page in one step, which needs a table if part of it is left. */
  ghost predicate Passed(cs0: map<nat, Config>, ts0: map<nat, Table>, id: nat, lo: nat, v: nat, end: nat,
                         grants: map<nat, Grant>, j: nat)
  {
    j < ENTRIES && DirAt(cs0, ts0, id, j).pde.Large? && FirstIn(lo, j) < EndIn(v, j) ==>
      v >= (j + 1) * ENTRIES && (j in grants || Whole(FirstIn(lo, j), end))
  }

  ghost predicate AllPassed(cs0: map<nat, Config>, ts0: map<nat, Table>, id: nat, lo: nat, v: nat, end: nat,
                            grants: map<nat, Grant>)
  {
    forall j: nat :: Passed(cs0, ts0, id, lo, v, end, grants, j)
  }

  /** What the code needs to unmap the pages [lo, hi) of a range up to `end` rightly. */
  ghost predicate SoundRange(build: UnmapBuild, configs: map<nat, Config>, tables: map<nat, Table>, id: nat, lo: nat,
                             hi: nat, end: nat)
  {
    forall j: nat :: j < ENTRIES ==> SoundDir(build, DirAt(configs, tables, id, j), j, lo, hi, end)
  }

  ghost predicate UnmapsFor(chain: seq<nat>, id: nat, end: nat) { end <= KERNEL_PDE * LARGE_PAGE || id in chain }

  lemma TouchedLive(chain: seq<nat>, id: nat, lo: nat, hi: nat, end: nat, j: nat)
    requires UnmapsFor(chain, id, end) && FirstIn(lo, j) < EndIn(hi, j) && hi <= PagesFor(end)
    ensures Live(chain, id, j)
  {
  }

  /** For each directory index: its pages of the range are gone, the others as before, and its count is exact. */
  ghost predicate RemovedAt(cs0: map<nat, Config>, ts0: map<nat, Table>, cs: map<nat, Config>, ts: map<nat, Table>,
                            chain: seq<nat>, id: nat, lo: nat, hi: nat, d: nat, j: nat)
  {
    var first, stop := FirstIn(lo, j), EndIn(hi, j);
    var d0, d1 := DirAt(cs0, ts0, d, j), DirAt(cs, ts, d, j);
    if Shows(chain, id, d, j) && first < stop then Removed(d0, d1, first - j * ENTRIES, stop - first)
    else CountedDir(d1) && forall q: nat :: q < ENTRIES ==> WalkDir(d1, q) == WalkDir(d0, q)
  }

  lemma RemovedAtIs(cs0: map<nat, Config>, ts0: map<nat, Table>, cs: map<nat, Config>, ts: map<nat, Table>,
                    chain: seq<nat>, id: nat, lo: nat, hi: nat, d: nat, j: nat)
    requires Consistent(cs, ts, chain) && d in cs && j < ENTRIES && Live(chain, d, j)
    ensures RemovedAt(cs0, ts0, cs, ts, chain, id, lo, hi, d, j) <==>
            && CountAt(cs, ts, chain, d, j)
            && forall q: nat :: q < ENTRIES ==> RemappedAt(cs0, ts0, cs, ts, chain, id, lo, hi, d, j, q)
  {
    LiveDir(cs, ts, chain, d, j);
    hide Consistent, CountAt, WalkDir, CountedDir, DirAt, Lookup, RemappedAt, Shows;
    forall q: nat | q < ENTRIES
      ensures RemappedAt(cs0, ts0, cs, ts, chain, id, lo, hi, d, j, q) <==>
              WalkDir(DirAt(cs, ts, d, j), q)
              == if Shows(chain, id, d, j) && lo <= j * ENTRIES + q < hi then None
                 else WalkDir(DirAt(cs0, ts0, d, j), q)
    {
      RemappedAtIs(cs0, ts0, cs, ts, chain, id, lo, hi, d, j, q);
    }
  }

  lemma RemappedAtIs(cs0: map<nat, Config>, ts0: map<nat, Table>, cs: map<nat, Config>, ts: map<nat, Table>,
                     chain: seq<nat>, id: nat, lo: nat, hi: nat, d: nat, j: nat, q: nat)
    requires j < ENTRIES && q < ENTRIES
    ensures RemappedAt(cs0, ts0, cs, ts, chain, id, lo, hi, d, j, q) <==>
            WalkDir(DirAt(cs, ts, d, j), q)
            == if Shows(chain, id, d, j) && lo <= j * ENTRIES + q < hi then None else WalkDir(DirAt(cs0, ts0, d, j), q)
  {
    var w := j * ENTRIES + q;
    PageOf(j, q);
    LookupIs(cs, ts, d, w);
    LookupIs(cs0, ts0, d, w);
    hide WalkDir, DirAt, Lookup;
  }

  lemma PageOf(j: nat, q: nat)
    requires j < ENTRIES && q < ENTRIES
    ensures var w := j * ENTRIES + q; w < PAGES && w / ENTRIES == j && w % ENTRIES == q
  {
  }

  ghost predicate RemappedAt(cs0: map<nat, Config>, ts0: map<nat, Table>, cs: map<nat, Config>, ts: map<nat, Table>,
                             chain: seq<nat>, id: nat, lo: nat, hi: nat, d: nat, j: nat, q: nat)
  {
    var w := j * ENTRIES + q;
    Lookup(cs, ts, d, w) == if lo <= w < hi && Reaches(chain, id, d, w) then None else Lookup(cs0, ts0, d, w)
  }

  /** The pages of a range are gone, all others as before, and all counts exact, exactly if that is so for each
      directory index. */
  lemma RemappedByDir(cs0: map<nat, Config>, ts0: map<nat, Table>, cs: map<nat, Config>, ts: map<nat, Table>,
                      chain: seq<nat>, id: nat, lo: nat, hi: nat)
    requires Consistent(cs0, ts0, chain) && Consistent(cs, ts, chain) && cs.Keys == cs0.Keys
    ensures Counted(cs, ts, chain) && Remapped(cs0, ts0, cs, ts, chain, id, lo, hi, None) <==>
            forall d, j: nat :: d in cs0 && j < ENTRIES && Live(chain, d, j) ==>
              RemovedAt(cs0, ts0, cs, ts, chain, id, lo, hi, d, j)
  {
    hide Consistent, CountAt, Lookup, RemovedAt, Reaches;
    if Counted(cs, ts, chain) && Remapped(cs0, ts0, cs, ts, chain, id, lo, hi, None) {
      forall d, j: nat | d in cs0 && j < ENTRIES && Live(chain, d, j)
        ensures RemovedAt(cs0, ts0, cs, ts, chain, id, lo, hi, d, j)
      {
        assert CountAt(cs, ts, chain, d, j);
        forall q: nat | q < ENTRIES ensures RemappedAt(cs0, ts0, cs, ts, chain, id, lo, hi, d, j, q) { PageOf(j, q); }
        RemovedAtIs(cs0, ts0, cs, ts, chain, id, lo, hi, d, j);
      }
    }
    if forall d, j: nat :: d in cs0 && j < ENTRIES && Live(chain, d, j) ==>
      RemovedAt(cs0, ts0, cs, ts, chain, id, lo, hi, d, j) {
      forall d: nat, j: nat ensures CountAt(cs, ts, chain, d, j) {
        if d in cs && j < ENTRIES && Live(chain, d, j) {
          RemovedAtIs(cs0, ts0, cs, ts, chain, id, lo, hi, d, j);
        } else {
          NotCounted(cs, ts, chain, d, j);
        }
      }
      forall d: nat, w: nat | d in cs0 && w < PAGES && Live(chain, d, w / ENTRIES)
        ensures Lookup(cs, ts, d, w) == if lo <= w < hi && Reaches(chain, id, d, w) then None
                                        else Lookup(cs0, ts0, d, w)
      {
        var j: nat := w / ENTRIES;
        assert j < ENTRIES && j * ENTRIES + w % ENTRIES == w;
        RemovedAtIs(cs0, ts0, cs, ts, chain, id, lo, hi, d, j);
        assert RemappedAt(cs0, ts0, cs, ts, chain, id, lo, hi, d, j, w % ENTRIES);
      }
    }
  }

  lemma NotCounted(configs: map<nat, Config>, tables: map<nat, Table>, chain: seq<nat>, d: nat, j: nat)
    requires !(d in configs && j < ENTRIES && Live(chain, d, j))
    ensures CountAt(configs, tables, chain, d, j)
  {
  }

  /** Unmapping, exactly: the pages that the loop has done are gone, in every space the change reaches, all other pages
      of all spaces are as before, and all counts exact, if and only if every directory index of the range is sound. */
  lemma UnmapExact(build: UnmapBuild, cs0: map<nat, Config>, ts0: map<nat, Table>, cs: map<nat, Config>,
                   ts: map<nat, Table>,
                   chain: seq<nat>, id: nat, lo: nat, v: nat, end: nat, grants: map<nat, Grant>)
    requires Consistent(cs0, ts0, chain) && Consistent(cs, ts, chain) && Counted(cs0, ts0, chain) && id in cs0
             && end <= SPACE
    requires UnmappedTo(build, cs0, ts0, cs, ts, chain, id, lo, StopAt(v, end), end, grants)
             && UnmapsFor(chain, id, end)
    requires AllPassed(cs0, ts0, id, lo, v, end, grants)
    ensures Counted(cs, ts, chain) && Remapped(cs0, ts0, cs, ts, chain, id, lo, StopAt(v, end), None) <==>
            SoundRange(build, cs0, ts0, id, lo, StopAt(v, end), end)
  {
    var hi := StopAt(v, end);
    RemappedByDir(cs0, ts0, cs, ts, chain, id, lo, hi);
    hide Consistent, Counted, RemovedAt, SoundDir, DirAt, Remapped, UnmapsFor;
    forall d, j: nat | d in cs0 && j < ENTRIES && Live(chain, d, j)
      ensures RemovedAt(cs0, ts0, cs, ts, chain, id, lo, hi, d, j)
         <==> !Shows(chain, id, d, j) || SoundDir(build, DirAt(cs0, ts0, id, j), j, lo, hi, end)
    {
      assert UnmappedAt(build, cs0, ts0, cs, ts, chain, id, lo, hi, end, grants, d, j);
      assert Passed(cs0, ts0, id, lo, v, end, grants, j);
      UnmapExactAt(build, cs0, ts0, cs, ts, chain, id, lo, v, end, grants, d, j);
    }
    forall j: nat | j < ENTRIES && !Live(chain, id, j) ensures SoundDir(build, DirAt(cs0, ts0, id, j), j, lo, hi, end) {
      SoundOutside(build, chain, DirAt(cs0, ts0, id, j), id, j, lo, hi, end);
    }
    if SoundRange(build, cs0, ts0, id, lo, hi, end) {
      assert forall j: nat :: j < ENTRIES ==> SoundDir(build, DirAt(cs0, ts0, id, j), j, lo, hi, end);
    } else {
      var j: nat :| j < ENTRIES && !SoundDir(build, DirAt(cs0, ts0, id, j), j, lo, hi, end);
      assert !RemovedAt(cs0, ts0, cs, ts, chain, id, lo, hi, id, j);
    }
  }

  lemma SoundOutside(build: UnmapBuild, chain: seq<nat>, d: Dir, id: nat, j: nat, lo: nat, hi: nat, end: nat)
    requires UnmapsFor(chain, id, end) && hi <= PagesFor(end) && !Live(chain, id, j)
    ensures SoundDir(build, d, j, lo, hi, end)
  {
    if FirstIn(lo, j) < EndIn(hi, j) { TouchedLive(chain, id, lo, hi, end, j); }
  }

  lemma UnmapExactAt(build: UnmapBuild, cs0: map<nat, Config>, ts0: map<nat, Table>, cs: map<nat, Config>,
                     ts: map<nat, Table>,
                     chain: seq<nat>, id: nat, lo: nat, v: nat, end: nat, grants: map<nat, Grant>, d: nat, j: nat)
    requires Consistent(cs0, ts0, chain) && Counted(cs0, ts0, chain) && id in cs0 && end <= SPACE
    requires d in cs0 && j < ENTRIES && Live(chain, d, j)
    requires UnmappedAt(build, cs0, ts0, cs, ts, chain, id, lo, StopAt(v, end), end, grants, d, j)
    requires Passed(cs0, ts0, id, lo, v, end, grants, j) && UnmapsFor(chain, id, end)
    ensures RemovedAt(cs0, ts0, cs, ts, chain, id, lo, StopAt(v, end), d, j)
       <==> !Shows(chain, id, d, j) || SoundDir(build, DirAt(cs0, ts0, id, j), j, lo, StopAt(v, end), end)
  {
    var hi, d0 := StopAt(v, end), DirAt(cs0, ts0, d, j);
    assert CountAt(cs0, ts0, chain, d, j);
    LiveDir(cs0, ts0, chain, d, j);
    if Shows(chain, id, d, j) {
      if FirstIn(lo, j) < EndIn(hi, j) {
        TouchedLive(chain, id, lo, hi, end, j);
        ShownDir(cs0, ts0, chain, id, d, j);
        hide Consistent, Counted, CountAt, DirAt, Whole, Removed, CountedDir, PagesFor, SoundDir, Progress;
        PassedReached(d0, j, lo, v, end, GrantFor(grants, j));
        ProgressExact(build, d0, j, lo, hi, end, GrantFor(grants, j));
      } else {
        hide Consistent, Counted, CountAt, DirAt, Removed, CountedDir, PagesFor, WalkDir;
      }
    } else {
      hide Consistent, Counted, CountAt, DirAt, Removed, CountedDir, PagesFor, WalkDir;
    }
  }

  lemma PassedReached(d: Dir, j: nat, lo: nat, v: nat, end: nat, g: Option<Grant>)
    requires d.pde.Large? && FirstIn(lo, j) < EndIn(v, j) ==>
      v >= (j + 1) * ENTRIES && (g.Some? || Whole(FirstIn(lo, j), end))
    ensures StepDone(d, j, lo, StopAt(v, end), end, g)
  {
  }

  // the slots and tables behind it

  function ClearedSlot(build: UnmapBuild, s: Slot, tables: map<nat, Table>, p: nat): Slot
    requires HasTable(s, tables) && s.pde.Small? && p < ENTRIES
  {
    var used := UsedAfter(build, DirOf(s, tables), p);
    if used == 0 then Slot(Empty, NULL, 0) else s.(used := used)
  }

  function ClearedTables(build: UnmapBuild, s: Slot, tables: map<nat, Table>, p: nat): map<nat, Table>
    requires HasTable(s, tables) && s.pde.Small? && p < ENTRIES
  {
    var cleared := tables[s.pt := WithEntry(tables[s.pt], p, NoPage)];
    if UsedAfter(build, DirOf(s, tables), p) == 0 then cleared - {s.pt} else cleared
  }

  /** A 4M page replaced by a table with a hole. */
  function HoleSlot(g: Grant, from: nat, to: nat): Slot
    requires to - from < ENTRIES
  {
    Slot(Small(g.frame, true), g.table, ENTRIES - (to - from + 1))
  }

  function HoleTables(s: Slot, tables: map<nat, Table>, g: Grant, from: nat, to: nat): map<nat, Table>
    requires s.pde.Large?
  {
    tables[g.table := Table(g.frame, Split(s.pde.addr, s.pde.attrs, from, to))]
  }

  /** What a step makes of a slot is well formed and stands for the directory index that the step makes. */
  ghost predicate StepReady(build: UnmapBuild, s: Slot, tables: map<nat, Table>, v: nat, end: nat, g: Option<Grant>,
                            s': Slot, tables': map<nat, Table>)
    requires v * PAGE < end <= SPACE
  {
    && TableEdit(tables, tables', s.pt, s'.pt) && SlotOk(s', tables') && DirOk(DirOf(s, tables))
    && DirOf(s', tables') == StepDir(build, DirOf(s, tables), v, end, g)
  }

  lemma EmptyReady(build: UnmapBuild, s: Slot, tables: map<nat, Table>, v: nat, end: nat, g: Option<Grant>)
    requires v * PAGE < end <= SPACE && SlotOk(s, tables) && s.pde.Empty?
    ensures StepReady(build, s, tables, v, end, g, s, tables)
  {
  }

  lemma DropReady(build: UnmapBuild, s: Slot, tables: map<nat, Table>, v: nat, end: nat, g: Option<Grant>)
    requires v * PAGE < end <= SPACE && SlotOk(s, tables) && s.pde.Large? && Whole(v, end)
    ensures StepReady(build, s, tables, v, end, g, Slot(Empty, s.pt, 0), tables)
  {
    hide Whole, WrittenTo;
  }

  lemma HoleReady(build: UnmapBuild, s: Slot, tables: map<nat, Table>, v: nat, end: nat, g: Grant, to: nat)
    requires v * PAGE < end <= SPACE && SlotOk(s, tables) && s.pde.Large? && !Whole(v, end)
    requires GrantOk(tables, Some(g)) && to == WrittenTo(build, v, end) < ENTRIES
    ensures StepReady(build, s, tables, v, end, Some(g), HoleSlot(g, v % ENTRIES, to),
                      HoleTables(s, tables, g, v % ENTRIES, to))
  {
    hide Whole, WrittenTo;
  }

  lemma ClearReady(build: UnmapBuild, s: Slot, tables: map<nat, Table>, v: nat, end: nat, g: Option<Grant>)
    requires v * PAGE < end <= SPACE && SlotOk(s, tables) && s.pde.Small?
    ensures HasTable(s, tables)
    ensures StepReady(build, s, tables, v, end, g, ClearedSlot(build, s, tables, v % ENTRIES),
                      ClearedTables(build, s, tables, v % ENTRIES))
  {
  }

  lemma StepEdits(configs: map<nat, Config>, tables: map<nat, Table>, chain: seq<nat>, build: UnmapBuild, id: nat,
                  v: nat, end: nat, g: Option<Grant>, s': Slot, tables': map<nat, Table>)
    requires Consistent(configs, tables, chain) && v * PAGE < end <= SPACE && CanEdit(configs, chain, id, v / ENTRIES)
    requires StepReady(build, SlotOf(configs[id], v / ENTRIES), tables, v, end, g, s', tables')
    ensures var i := v / ENTRIES;
            var cs', d := Edited(configs, chain, id, i, s'), DirAt(configs, tables, id, i);
            && DirOk(d) && Consistent(cs', tables', chain)
            && DirEdited(configs, tables, cs', tables', chain, id, i, StepDir(build, d, v, end, g))
  {
    hide SlotOk, TableEdit, Edited, StepDir, DirEdited;
    EditKeepsConsistent(configs, tables, chain, id, v / ENTRIES, s', tables');
    EditDirs(configs, tables, chain, id, v / ENTRIES, s', tables');
    hide Consistent;
  }

  // the loop

  /** Whether the unmapping loop, arriving at page v, has not looked at directory index j before. */
  predicate Ahead(lo: nat, v: nat, j: nat) { v == lo || j * ENTRIES >= v }

  ghost predicate AllFresh(tables: map<nat, Table>, grants: map<nat, Grant>, lo: nat, v: nat) {
    && (forall j :: j in grants && Ahead(lo, v, j) ==> GrantOk(tables, Some(grants[j])))
    && (forall i, j :: i in grants && j in grants && i != j ==> grants[i].table != grants[j].table)
  }

  /** The 4M page at v has to be split to go on, and there is no table for it. */
  ghost predicate NoTableFor(configs: map<nat, Config>, id: nat, v: nat, end: nat, grants: map<nat, Grant>) {
    && id in configs && ShapeOk(configs[id]) && v / ENTRIES < ENTRIES
    && configs[id].pd[v / ENTRIES].Large? && v / ENTRIES !in grants && !Whole(v, end)
  }

  /** The state after the pages from `lo` to v of a range were unmapped. */
  ghost predicate Removing(build: UnmapBuild, cs0: map<nat, Config>, ts0: map<nat, Table>, cs: map<nat, Config>,
                           ts: map<nat, Table>,
                           chain: seq<nat>, id: nat, lo: nat, v: nat, end: nat, grants: map<nat, Grant>)
  {
    && Consistent(cs, ts, chain) && AllFresh(ts, grants, lo, v) && end <= SPACE
    && UnmappedTo(build, cs0, ts0, cs, ts, chain, id, lo, StopAt(v, end), end, grants)
    && AllPassed(cs0, ts0, id, lo, v, end, grants)
  }

  lemma RemovingStart(build: UnmapBuild, cs: map<nat, Config>, ts: map<nat, Table>, chain: seq<nat>, id: nat, lo: nat,
                      end: nat,
                      grants: map<nat, Grant>)
    requires Consistent(cs, ts, chain) && id in cs && AllFresh(ts, grants, lo, lo) && lo * PAGE <= end <= SPACE
    ensures Removing(build, cs, ts, cs, ts, chain, id, lo, lo, end, grants)
  {
    forall d, j: nat | d in cs && j < ENTRIES && Live(chain, d, j)
      ensures UnmappedAt(build, cs, ts, cs, ts, chain, id, lo, StopAt(lo, end), end, grants, d, j)
    {
      LiveDir(cs, ts, chain, d, j);
      hide Consistent, DirAt, AllFresh, UnmappedLarge, ClearedRun;
    }
  }

  lemma RemovingState(build: UnmapBuild, cs0: map<nat, Config>, ts0: map<nat, Table>, cs: map<nat, Config>,
                      ts: map<nat, Table>,
                      chain: seq<nat>, id: nat, lo: nat, v: nat, end: nat, grants: map<nat, Grant>)
    requires Removing(build, cs0, ts0, cs, ts, chain, id, lo, v, end, grants)
    ensures end <= SPACE && StopAt(v, end) <= PagesFor(end) && Consistent(cs, ts, chain)
    ensures UnmappedTo(build, cs0, ts0, cs, ts, chain, id, lo, StopAt(v, end), end, grants)
    ensures AllPassed(cs0, ts0, id, lo, v, end, grants)
  {
  }

  /** What unmapping a range up to `end` from page `lo` on does, when it has got to page v: the effect on each directory
      index; whether that is right; and why it may have stopped early. */
  ghost predicate UnmapIs(build: UnmapBuild, cs0: map<nat, Config>, ts0: map<nat, Table>, cs: map<nat, Config>,
                          ts: map<nat, Table>,
                          chain: seq<nat>, id: nat, lo: nat, v: nat, end: nat, grants: map<nat, Grant>)
  {
    var hi := StopAt(v, end);
    && end <= SPACE && UnmappedTo(build, cs0, ts0, cs, ts, chain, id, lo, hi, end, grants)
    && (Counted(cs0, ts0, chain) ==>
          (Counted(cs, ts, chain) && Remapped(cs0, ts0, cs, ts, chain, id, lo, hi, None) <==>
           SoundRange(build, cs0, ts0, id, lo, hi, end)))
    && (v * PAGE < end ==> NoTableFor(cs0, id, v, end, grants)) && AllPassed(cs0, ts0, id, lo, v, end, grants)
  }

  lemma UnmapDone(build: UnmapBuild, cs0: map<nat, Config>, ts0: map<nat, Table>, cs: map<nat, Config>,
                  ts: map<nat, Table>, chain: seq<nat>, id: nat, lo: nat, v: nat, end: nat, grants: map<nat, Grant>)
    requires Consistent(cs0, ts0, chain) && id in cs0 && UnmapsFor(chain, id, end)
    requires Removing(build, cs0, ts0, cs, ts, chain, id, lo, v, end, grants)
    requires v * PAGE < end ==> NoTableFor(cs0, id, v, end, grants)
    ensures Consistent(cs, ts, chain) && UnmapIs(build, cs0, ts0, cs, ts, chain, id, lo, v, end, grants)
  {
    RemovingState(build, cs0, ts0, cs, ts, chain, id, lo, v, end, grants);
    hide Removing, Consistent, Counted, Remapped, SoundRange, UnmappedTo, UnmapsFor, AllPassed, NoTableFor, StopAt,
      PagesFor;
    if Counted(cs0, ts0, chain) { UnmapExact(build, cs0, ts0, cs, ts, chain, id, lo, v, end, grants); }
  }

  lemma RemovingAt(build: UnmapBuild, cs0: map<nat, Config>, ts0: map<nat, Table>, cs: map<nat, Config>,
                   ts: map<nat, Table>,
                   chain: seq<nat>, id: nat, lo: nat, v: nat, end: nat, grants: map<nat, Grant>)
    requires Removing(build, cs0, ts0, cs, ts, chain, id, lo, v, end, grants)
    requires lo <= v && v * PAGE < end && UnmapsFor(chain, id, end) && id in cs0
    ensures Consistent(cs, ts, chain) && CanEdit(cs, chain, id, v / ENTRIES) && ShapeOk(cs[id])
    ensures StopAt(v, end) == v
    ensures cs[id].pd[v / ENTRIES].Large? ==>
              && GrantOk(ts, GrantFor(grants, v / ENTRIES))
              && DirAt(cs0, ts0, id, v / ENTRIES).pde.Large? && v == FirstIn(lo, v / ENTRIES)
  {
    var i := v / ENTRIES;
    PageInRange(lo, v, end);
    TouchedLive(chain, id, lo, v + 1, end, i);
    assert UnmappedAt(build, cs0, ts0, cs, ts, chain, id, lo, v, end, grants, id, i);
    assert Passed(cs0, ts0, id, lo, v, end, grants, i);
    assert DirAt(cs, ts, id, i).pde == cs[id].pd[i];
    if cs[id].pd[i].Large? {
      hide Consistent, Whole, DirAt, Passed;
      LargeStart(build, DirAt(cs0, ts0, id, i), lo, v, end, GrantFor(grants, i));
      assert Passed(cs0, ts0, id, lo, v, end, grants, i);
      LargeIsFirst(cs0, ts0, id, lo, v, end, grants);
      assert Ahead(lo, v, i);
    }
  }

  lemma LargeIsFirst(cs0: map<nat, Config>, ts0: map<nat, Table>, id: nat, lo: nat, v: nat, end: nat,
                     grants: map<nat, Grant>)
    requires lo <= v && v / ENTRIES < ENTRIES && Passed(cs0, ts0, id, lo, v, end, grants, v / ENTRIES)
    requires DirAt(cs0, ts0, id, v / ENTRIES).pde.Large?
    ensures v == FirstIn(lo, v / ENTRIES)
  {
  }

  lemma PageInRange(lo: nat, v: nat, end: nat)
    requires lo <= v && v * PAGE < end <= SPACE
    ensures v / ENTRIES < ENTRIES && StopAt(v, end) == v && v + 1 <= PagesFor(end)
    ensures FirstIn(lo, v / ENTRIES) < EndIn(v + 1, v / ENTRIES)
  {
  }

  /** Only a 4M page that was there from the start is met. */
  lemma LargeStart(build: UnmapBuild, d: Dir, lo: nat, v: nat, end: nat, g: Option<Grant>)
    requires DirOk(d) && end <= SPACE && v <= PagesFor(end) && Progress(build, d, v / ENTRIES, lo, v, end, g).pde.Large?
    ensures d.pde.Large?
  {
    hide UnmappedLarge, ClearedRun;
  }

  lemma RemovingOn(build: UnmapBuild, cs0: map<nat, Config>, ts0: map<nat, Table>, cs: map<nat, Config>,
                   ts: map<nat, Table>,
                   cs': map<nat, Config>, ts': map<nat, Table>,
                   chain: seq<nat>, id: nat, lo: nat, v: nat, next: nat, end: nat, grants: map<nat, Grant>)
    requires Removing(build, cs0, ts0, cs, ts, chain, id, lo, v, end, grants) && id in cs0
    requires lo <= v && v * PAGE < end && UnmapsFor(chain, id, end) && v / ENTRIES < ENTRIES
    requires Consistent(cs0, ts0, chain) && Consistent(cs', ts', chain)
    requires var d := DirAt(cs, ts, id, v / ENTRIES);
             && DirOk(d) && DirEdited(cs, ts, cs', ts', chain, id, v / ENTRIES,
                                      StepDir(build, d, v, end, GrantFor(grants, v / ENTRIES)))
             && next == NextPageOf(d, v) && (d.pde.Large? ==> v / ENTRIES in grants || Whole(v, end))
    requires forall t :: t in ts' ==>
               t in ts || (v / ENTRIES in grants && t == grants[v / ENTRIES].table && cs[id].pd[v / ENTRIES].Large?)
    ensures Removing(build, cs0, ts0, cs', ts', chain, id, lo, next, end, grants)
  {
    var i := v / ENTRIES;
    RemovingAt(build, cs0, ts0, cs, ts, chain, id, lo, v, end, grants);
    assert DirAt(cs, ts, id, i).pde == cs[id].pd[i];
    PageInRange(lo, v, end);
    NextInRange(v, DirAt(cs, ts, id, i));
    hide Consistent, Whole, DirAt, StepDir, NextPageOf, Progress, DirOk, GrantOk;
    assert CanEdit(cs0, chain, id, i);
    assert Passed(cs0, ts0, id, lo, v, end, grants, i);
    if DirAt(cs0, ts0, id, i).pde.Large? { LargeIsFirst(cs0, ts0, id, lo, v, end, grants); }
    StillFresh(ts, ts', grants, lo, v, next, cs[id].pd[i].Large?);
    hide AllFresh, UnmappedTo, UnmappedAt, DirEdited, UnmapsFor, PagesFor;
    forall d, j: nat | d in cs0 && j < ENTRIES && Live(chain, d, j)
      ensures UnmappedAt(build, cs0, ts0, cs', ts', chain, id, lo, StopAt(next, end), end, grants, d, j)
    {
      UnmappedOn(build, cs0, ts0, cs, ts, cs', ts', chain, id, lo, v, next, end, grants, d, j);
    }
    forall j: nat ensures Passed(cs0, ts0, id, lo, next, end, grants, j) {
      assert Passed(cs0, ts0, id, lo, v, end, grants, j);
      if j < ENTRIES && DirAt(cs0, ts0, id, j).pde.Large? && v <= FirstIn(lo, j) < EndIn(next, j) {
        PassedNow(build, cs0, ts0, cs, ts, chain, id, lo, v, next, end, grants, j);
      }
    }
  }

  lemma NextInRange(v: nat, d: Dir)
    ensures v < NextPageOf(d, v) <= (v / ENTRIES + 1) * ENTRIES
    ensures d.pde.Large? ==> NextPageOf(d, v) == (v / ENTRIES + 1) * ENTRIES
  {
  }

  /** Addition of 32-bit numbers. */
  function Add32(a: nat, b: nat): nat { (a + b) % SPACE }

  /** A 32-bit count of the bytes from page lo on is exact up to the end of the address space, and there only for a
      range that starts at page 0 back at zero. */
  lemma CountWraps(lo: nat, v: nat, next: nat)
    requires lo <= v < next && v < PAGES && next <= (v / ENTRIES + 1) * ENTRIES
    ensures next <= PAGES
    ensures Add32((v - lo) * PAGE, (next - v) * PAGE) == if lo == 0 && next == PAGES then 0 else (next - lo) * PAGE
    ensures next > lo
  {
  }

  /** A 4M page whose part of the range is reached now is the current one. */
  lemma PassedNow(build: UnmapBuild, cs0: map<nat, Config>, ts0: map<nat, Table>, cs: map<nat, Config>,
                  ts: map<nat, Table>, chain: seq<nat>, id: nat, lo: nat, v: nat, next: nat, end: nat,
                  grants: map<nat, Grant>, j: nat)
    requires lo <= v && v / ENTRIES < ENTRIES && end <= SPACE && v <= PagesFor(end)
    requires v <= FirstIn(lo, j) < EndIn(next, j) && next <= (v / ENTRIES + 1) * ENTRIES
    requires id in cs0 && Live(chain, id, v / ENTRIES) && j < ENTRIES && DirAt(cs0, ts0, id, j).pde.Large?
    requires UnmappedTo(build, cs0, ts0, cs, ts, chain, id, lo, v, end, grants)
    requires next == NextPageOf(DirAt(cs, ts, id, v / ENTRIES), v)
    requires DirAt(cs, ts, id, v / ENTRIES).pde.Large? ==> v / ENTRIES in grants || Whole(v, end)
    ensures Passed(cs0, ts0, id, lo, next, end, grants, j)
  {
    SameDirectory(lo, v, next, j);
    assert UnmappedAt(build, cs0, ts0, cs, ts, chain, id, lo, v, end, grants, id, j);
    hide DirAt, Whole, UnmappedLarge, ClearedRun, PagesFor;
    assert DirAt(cs, ts, id, j) == DirAt(cs0, ts0, id, j);
    NextInRange(v, DirAt(cs, ts, id, j));
    hide NextPageOf, FirstIn, UnmappedTo, UnmappedAt;
    assert DirAt(cs, ts, id, v / ENTRIES) == DirAt(cs, ts, id, j);
    assert next >= (j + 1) * ENTRIES;
    assert j in grants || Whole(FirstIn(lo, j), end);
  }

  lemma SameDirectory(lo: nat, v: nat, next: nat, j: nat)
    requires lo <= v <= FirstIn(lo, j) < EndIn(next, j) && next <= (v / ENTRIES + 1) * ENTRIES
    ensures j == v / ENTRIES && v == FirstIn(lo, j)
  {
  }

  lemma UnmappedOn(build: UnmapBuild, cs0: map<nat, Config>, ts0: map<nat, Table>, cs: map<nat, Config>,
                   ts: map<nat, Table>, cs': map<nat, Config>, ts': map<nat, Table>, chain: seq<nat>, id: nat, lo: nat,
                   v: nat, next: nat, end: nat, grants: map<nat, Grant>, d: nat, j: nat)
    requires end <= SPACE && lo <= v && v * PAGE < end && v <= PagesFor(end) && v / ENTRIES < ENTRIES
    requires UnmappedTo(build, cs0, ts0, cs, ts, chain, id, lo, v, end, grants) && id in cs0
             && Live(chain, id, v / ENTRIES)
    requires Consistent(cs0, ts0, chain) && CanEdit(cs0, chain, id, v / ENTRIES)
    requires var cur := DirAt(cs, ts, id, v / ENTRIES);
             && DirOk(cur)
             && DirEdited(cs, ts, cs', ts', chain, id, v / ENTRIES,
                          StepDir(build, cur, v, end, GrantFor(grants, v / ENTRIES)))
             && next == NextPageOf(cur, v) && v < next <= (v / ENTRIES + 1) * ENTRIES
             && (cur.pde.Large? ==> v == FirstIn(lo, v / ENTRIES))
    requires DirAt(cs0, ts0, id, v / ENTRIES).pde.Large? ==> v == FirstIn(lo, v / ENTRIES)
    requires d in cs0 && j < ENTRIES && Live(chain, d, j)
    ensures UnmappedAt(build, cs0, ts0, cs', ts', chain, id, lo, StopAt(next, end), end, grants, d, j)
  {
    var i, d0 := v / ENTRIES, DirAt(cs0, ts0, d, j);
    assert UnmappedAt(build, cs0, ts0, cs, ts, chain, id, lo, v, end, grants, d, j);
    assert UnmappedAt(build, cs0, ts0, cs, ts, chain, id, lo, v, end, grants, id, i);
    if Shows(chain, id, d, j) {
      if j == i {
        ShownDir(cs0, ts0, chain, id, d, j);
        hide Consistent, DirAt, Progress, StepDir, NextPageOf, PagesFor;
        ProgressStep(build, d0, lo, v, end, GrantFor(grants, j));
      } else {
        hide Consistent, DirAt, Progress, StepDir, NextPageOf, PagesFor;
        ProgressElsewhere(build, d0, j, lo, v, next, end, GrantFor(grants, j));
      }
    } else {
      hide Consistent, DirAt, Progress, StepDir, NextPageOf, PagesFor;
    }
  }

  lemma StillFresh(ts: map<nat, Table>, ts': map<nat, Table>, grants: map<nat, Grant>, lo: nat, v: nat, next: nat,
                   large: bool)
    requires AllFresh(ts, grants, lo, v) && lo <= v < next
    requires large ==> next == (v / ENTRIES + 1) * ENTRIES
    requires forall t :: t in ts' ==> t in ts || (v / ENTRIES in grants && t == grants[v / ENTRIES].table && large)
    ensures AllFresh(ts', grants, lo, next)
  {
    forall j | j in grants && Ahead(lo, next, j) ensures GrantOk(ts', Some(grants[j])) {
      assert Ahead(lo, v, j);
    }
  }

  /** A range of unused pages was mapped, and unmapped again. */
  ghost predicate MappedAndUnmapped(cs0: map<nat, Config>, ts0: map<nat, Table>, cs1: map<nat, Config>,
                                    ts1: map<nat, Table>, cs2: map<nat, Config>, ts2: map<nat, Table>, chain: seq<nat>,
                                    id: nat, lo: nat, hi: nat, frame: nat, flags: Flags)
  {
    && Consistent(cs0, ts0, chain) && Mapped(cs0, ts0, cs1, ts1, chain, id, lo, hi, frame, flags)
    && Remapped(cs1, ts1, cs2, ts2, chain, id, lo, hi, None)
    && (hi <= KERNEL_PDE * ENTRIES || id in chain)
    && forall w: nat :: lo <= w < hi ==> Lookup(cs0, ts0, id, w) == None
  }

  /** Unmapping undoes mapping: all pages of all spaces translate as before if nothing was mapped in the range. */
  lemma UnmapUndoesMap(cs0: map<nat, Config>, ts0: map<nat, Table>, cs1: map<nat, Config>, ts1: map<nat, Table>,
                       cs2: map<nat, Config>, ts2: map<nat, Table>, chain: seq<nat>,
                       id: nat, lo: nat, hi: nat, frame: nat, flags: Flags, d: nat, v: nat)
    requires MappedAndUnmapped(cs0, ts0, cs1, ts1, cs2, ts2, chain, id, lo, hi, frame, flags)
    requires d in cs0 && v < PAGES && Live(chain, d, v / ENTRIES)
    ensures Lookup(cs2, ts2, d, v) == Lookup(cs0, ts0, d, v)
  {
    if lo <= v < hi && Reaches(chain, id, d, v) {
      SameLookup(cs0, ts0, chain, id, d, v);
      assert Lookup(cs0, ts0, id, v) == None;
    }
    hide Lookup, RunMapping, Consistent, Reaches;
  }

  lemma SameLookup(configs: map<nat, Config>, tables: map<nat, Table>, chain: seq<nat>, id: nat, d: nat, v: nat)
    requires Consistent(configs, tables, chain) && v < PAGES && CanEdit(configs, chain, id, v / ENTRIES)
    requires d in configs && Reaches(chain, id, d, v)
    ensures Lookup(configs, tables, d, v) == Lookup(configs, tables, id, v)
  {
    SameSlot(configs, tables, chain, id, d, v);
  }
}
