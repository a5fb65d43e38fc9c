/** Allocation of virtual memory in chunks of physical frames, over the frame allocator and the address spaces. Page
    tables take frames from the same allocator. Sizes are multiples of the frame size. */
module VmmAlloc {
  import opened Options
  import opened Bitmaps
  import opened Paging
  import opened Unmapping
  import opened Spaces
  import Pmm

  /** `UINTPTR_MAX`, which the frame allocator returns on failure on a 32-bit machine. */
  const NO_MEMORY: nat := 0xFFFF_FFFF

  /** `UINT64_MAX`, which callers compare with as written. */
  const NEVER: nat := 0xFFFF_FFFF_FFFF_FFFF

  // ---------------------------------------------------------------- free frames

  function FreeCount(b: seq<bool>): nat {
    if b == [] then 0 else FreeCount(b[..|b| - 1]) + (if b[|b| - 1] then 0 else 1)
  }

  /** The bits with a run set. */
  function WithRun(b: seq<bool>, f: nat, n: nat): seq<bool> {
    seq(|b|, i requires 0 <= i < |b| => b[i] || f <= i < f + n)
  }

  lemma {:induction false} FreeCountSet(b: seq<bool>, i: nat)
    requires i < |b| && !b[i]
    ensures FreeCount(b[i := true]) == FreeCount(b) - 1
  {
    var n := |b| - 1;
    if i == n {
      assert b[i := true][..n] == b[..n];
    } else {
      assert b[i := true][..n] == b[..n][i := true];
      FreeCountSet(b[..n], i);
    }
  }

  lemma {:induction false} FreeCountRun(b: seq<bool>, f: nat, n: nat)
    requires ClearRun(b, f, n)
    ensures FreeCount(WithRun(b, f, n)) == FreeCount(b) - n
  {
    if n == 0 {
      assert WithRun(b, f, 0) == b;
    } else {
      FreeCountRun(b, f, n - 1);
      assert WithRun(b, f, n) == WithRun(b, f, n - 1)[f + n - 1 := true];
      FreeCountSet(WithRun(b, f, n - 1), f + n - 1);
    }
  }

  ghost predicate HasRun(b: seq<bool>, n: nat) {
    exists s: nat :: ClearRun(b, s, n)
  }

  lemma {:induction false} FreeCountZero(b: seq<bool>)
    ensures FreeCount(b) == 0 <==> !HasRun(b, 1)
  {
    if b != [] {
      var n := |b| - 1;
      FreeCountZero(b[..n]);
      assert b[n] || ClearRun(b, n, 1);
      if FreeCount(b) == 0 {
        forall s: nat ensures !ClearRun(b, s, 1) {
          if s < n { assert !ClearRun(b[..n], s, 1); }
        }
      } else if b[n] {
        var s: nat :| ClearRun(b[..n], s, 1);
        assert ClearRun(b, s, 1);
      }
    }
  }

  lemma RunIsFree(b: seq<bool>, n: nat)
    requires HasRun(b, n)
    ensures FreeCount(b) >= n
  {
    var s: nat :| ClearRun(b, s, n);
    FreeCountRun(b, s, n);
  }

  ghost predicate Distinct(list: seq<nat>) {
    forall i, j :: 0 <= i < j < |list| ==> list[i] != list[j]
  }

  /** Exactly the frames of the list, all free before, were reserved. */
  ghost predicate Reserved(before: seq<bool>, after: seq<bool>, list: seq<nat>) {
    && Distinct(list) && |after| == |before|
    && (forall x :: x in list ==> x < |before| && !before[x])
    && (forall i :: 0 <= i < |before| ==> after[i] == (before[i] || i in list))
    && FreeCount(after) + |list| == FreeCount(before)
  }

  lemma NoneReserved(b: seq<bool>)
    ensures Reserved(b, b, [])
  {
  }

  function Consecutive(f: nat, n: nat): seq<nat> { seq(n, i requires 0 <= i < n => f + i) }

  /** One more chunk. */
  lemma ReservedMore(before: seq<bool>, now: seq<bool>, list: seq<nat>, f: nat, n: nat)
    requires Reserved(before, now, list) && ClearRun(now, f, n)
    ensures Reserved(before, WithRun(now, f, n), list + Consecutive(f, n))
  {
    var chunk := Consecutive(f, n);
    FreeCountRun(now, f, n);
    forall x ensures x in chunk <==> f <= x < f + n {
      if f <= x < f + n { assert chunk[x - f] == x; }
    }
    forall i, j | 0 <= i < j < |list + chunk| ensures (list + chunk)[i] != (list + chunk)[j] {
      if j >= |list| && i < |list| { assert list[i] in list && chunk[j - |list|] in chunk; }
    }
  }

  /** The order of the list does not matter. */
  lemma ReservedSwap(before: seq<bool>, after: seq<bool>, a: seq<nat>, b: seq<nat>, c: seq<nat>)
    requires Reserved(before, after, (a + b) + c)
    ensures Reserved(before, after, (a + c) + b)
  {
    var was, now := (a + b) + c, (a + c) + b;
    forall x ensures x in now <==> x in was {
      assert x in was <==> x in a || x in b || x in c;
      assert x in now <==> x in a || x in b || x in c;
    }
    forall i, j | 0 <= i < j < |now| ensures now[i] != now[j] {
      assert now[i] == was[Place(i, |a|, |b|, |c|)] && now[j] == was[Place(j, |a|, |b|, |c|)];
      assert Place(i, |a|, |b|, |c|) != Place(j, |a|, |b|, |c|);
      SomewhereElse(was, Place(i, |a|, |b|, |c|), Place(j, |a|, |b|, |c|));
    }
  }

  function Place(i: nat, a: nat, b: nat, c: nat): nat {
    if i < a then i else if i < a + c then i + b else i - c
  }

  lemma SomewhereElse(list: seq<nat>, i: nat, j: nat)
    requires Distinct(list) && i < |list| && j < |list| && i != j
    ensures list[i] != list[j]
  {
    assert i < j || j < i;
  }

  // ---------------------------------------------------------------- what an allocation does

  /** A page table that was made for a directory index, and its frame. */
  datatype Tab = Tab(dir: nat, frame: nat)

  function TabFrames(tabs: seq<Tab>): seq<nat> { seq(|tabs|, k requires 0 <= k < |tabs| => tabs[k].frame) }

  ghost predicate IsTab(tabs: seq<Tab>, j: nat, frame: nat) {
    exists k :: 0 <= k < |tabs| && tabs[k] == Tab(j, frame)
  }

  ghost predicate HasTab(tabs: seq<Tab>, j: nat) {
    exists frame: nat :: IsTab(tabs, j, frame)
  }

  /** The start of an allocation: the address spaces and the frames then, and the range and flags asked for. */
  datatype Job = Job(configs: map<nat, Config>, tables: map<nat, Table>, chain: seq<nat>, bits: seq<bool>, id: nat,
    v: nat, flags: Flags)

  datatype State = State(configs: map<nat, Config>, tables: map<nat, Table>, bits: seq<bool>)

  /** Directory index j has one of the n pages from v on. */
  predicate InDirs(v: nat, n: nat, j: nat) { FirstIn(v, j) < EndIn(v + n, j) }

  /** The directory indices of a range for which a space has no table. */
  ghost function Missing(configs: map<nat, Config>, id: nat, v: nat, n: nat): set<nat>
    requires id in configs && ShapeOk(configs[id])
  {
    set j: nat | j < ENTRIES && InDirs(v, n, j) && configs[id].pt[j] == NULL
  }

  lemma MissingNext(configs: map<nat, Config>, id: nat, v: nat, k: nat)
    requires id in configs && ShapeOk(configs[id]) && v + k < PAGES
    ensures var i := (v + k) / ENTRIES;
            && i < ENTRIES
            && Missing(configs, id, v, k + 1)
               == Missing(configs, id, v, k) + (if configs[id].pt[i] == NULL then {i} else {})
  {
    forall j: nat ensures InDirs(v, k + 1, j) <==> InDirs(v, k, j) || j == (v + k) / ENTRIES {
      DirsNext(v, k, j);
    }
  }

  lemma DirsNext(v: nat, k: nat, j: nat)
    ensures InDirs(v, k + 1, j) <==> InDirs(v, k, j) || j == (v + k) / ENTRIES
  {
  }

  lemma MissingNone(configs: map<nat, Config>, id: nat, v: nat)
    requires id in configs && ShapeOk(configs[id])
    ensures Missing(configs, id, v, 0) == {}
  {
  }

  lemma Bigger(a: set<nat>, x: nat)
    ensures |a + {x}| == if x in a then |a| else |a| + 1
  {
    if x in a { assert a + {x} == a; }
  }

  lemma Fewer(a: set<nat>, b: set<nat>)
    requires a <= b
    ensures |a| <= |b|
  {
    assert b == a + (b - a);
  }

  lemma MissingMore(configs: map<nat, Config>, id: nat, v: nat, k: nat, n: nat)
    requires id in configs && ShapeOk(configs[id]) && k <= n
    ensures Missing(configs, id, v, k) <= Missing(configs, id, v, n)
    ensures |Missing(configs, id, v, k)| <= |Missing(configs, id, v, n)|
  {
    Fewer(Missing(configs, id, v, k), Missing(configs, id, v, n));
  }

  /** The bits of a page besides its frame, for a page that was not in use. */
  function PageAttrs(job: Job, p: nat): Attrs
    requires job.id in job.configs && ShapeOk(job.configs[job.id]) && p < PAGES
  {
    Requested(SlotOf(job.configs[job.id], p / ENTRIES), job.tables, p % ENTRIES, 0, job.flags).attrs
  }

  ghost predicate JobOk(job: Job, n: nat) {
    && job.id in job.configs && Consistent(job.configs, job.tables, job.chain)
    && Counted(job.configs, job.tables, job.chain)
    && job.v + n <= PAGES && (job.v + n <= KERNEL_PDE * ENTRIES || job.id in job.chain)
    && forall p: nat :: job.v <= p < job.v + n ==> Lookup(job.configs, job.tables, job.id, p) == None
  }

  ghost predicate PageIs(job: Job, cs: map<nat, Config>, ts: map<nat, Table>, data: seq<nat>, k: nat, d: nat, p: nat)
    requires job.id in job.configs && ShapeOk(job.configs[job.id]) && p < PAGES && k <= |data|
  {
    Lookup(cs, ts, d, p) == if job.v <= p < job.v + k && Reaches(job.chain, job.id, d, p)
                            then Some(Mapping(data[p - job.v], PageAttrs(job, p)))
                            else Lookup(job.configs, job.tables, d, p)
  }

  /** The first k pages of the range translate to the frames of the list, every other page of every space as before. */
  ghost predicate FramesMapped(job: Job, cs: map<nat, Config>, ts: map<nat, Table>, data: seq<nat>, k: nat) {
    && job.id in job.configs && ShapeOk(job.configs[job.id]) && k <= |data|
    && forall d, p: nat :: d in job.configs && p < PAGES && Live(job.chain, d, p / ENTRIES) ==>
         PageIs(job, cs, ts, data, k, d, p)
  }

  ghost predicate EntryIs(job: Job, cs: map<nat, Config>, ts: map<nat, Table>, tabs: seq<Tab>, j: nat) {
    var was, now := DirAt(job.configs, job.tables, job.id, j).pde, DirAt(cs, ts, job.id, j).pde;
    && (HasTab(tabs, j) ==> was.Empty? && now.Small? && IsTab(tabs, j, now.frame))
    && (!HasTab(tabs, j) ==> now == was)
  }

  /** Just the directory indices of the range that had no table got one. */
  ghost predicate TablesMade(job: Job, cs: map<nat, Config>, ts: map<nat, Table>, k: nat, tabs: seq<Tab>) {
    && job.id in job.configs && ShapeOk(job.configs[job.id])
    && |tabs| == |Missing(job.configs, job.id, job.v, k)|
    && (forall j: nat :: HasTab(tabs, j) <==> j in Missing(job.configs, job.id, job.v, k))
    && (forall j: nat :: j < ENTRIES ==> EntryIs(job, cs, ts, tabs, j))
    && (forall l, m :: 0 <= l < m < |tabs| ==> tabs[l].dir != tabs[m].dir)
  }

  /** An allocation on its way: the frames of the list are reserved, the first k of them mapped, and so are the frames
      of the tables made for that; nothing else has changed. */
  ghost predicate Picture(job: Job, st: State, data: seq<nat>, k: nat, tabs: seq<Tab>) {
    && Consistent(st.configs, st.tables, job.chain) && Counted(st.configs, st.tables, job.chain)
    && st.configs.Keys == job.configs.Keys && UsesKept(job.configs, st.configs, job.id)
    && FramesMapped(job, st.configs, st.tables, data, k) && TablesMade(job, st.configs, st.tables, k, tabs)
    && Reserved(job.bits, st.bits, data + TabFrames(tabs))
  }

  /** The range is mapped onto pairwise distinct, newly reserved frames, as are the tables it needs, and nothing else
      changed. */
  ghost predicate Allocated(job: Job, st: State, n: nat) {
    exists data: seq<nat>, tabs: seq<Tab> :: |data| == n && Picture(job, st, data, n, tabs)
  }

  /** Every page of an allocated range has a frame of its own that was free before, and just the flags asked for. */
  lemma AllocatedPage(job: Job, st: State, n: nat, p: nat)
    requires Allocated(job, st, n) && JobOk(job, n) && job.v <= p < job.v + n
    ensures ShapeOk(job.configs[job.id]) && p / ENTRIES < ENTRIES
    ensures var now := Lookup(st.configs, st.tables, job.id, p);
            && now.Some? && now.value.frame < |job.bits| == |st.bits|
            && !job.bits[now.value.frame] && st.bits[now.value.frame]
            && AsAsked(None, now, now.value.frame, job.flags,
                       job.configs[job.id].pd[p / ENTRIES].Small? ==> job.configs[job.id].pd[p / ENTRIES].user)
  {
    var data: seq<nat>, tabs: seq<Tab> :| |data| == n && Picture(job, st, data, n, tabs);
    PicturePage(job, st, data, n, tabs, n, p);
  }

  lemma PicturePage(job: Job, st: State, data: seq<nat>, k: nat, tabs: seq<Tab>, n: nat, p: nat)
    requires Picture(job, st, data, k, tabs) && JobOk(job, n) && job.v <= p < job.v + k && k <= |data| <= n
    ensures ShapeOk(job.configs[job.id]) && p / ENTRIES < ENTRIES
    ensures var now := Lookup(st.configs, st.tables, job.id, p);
            && now.Some? && now.value.frame == data[p - job.v] < |job.bits| == |st.bits|
            && !job.bits[now.value.frame] && st.bits[now.value.frame]
            && AsAsked(None, now, now.value.frame, job.flags,
                       job.configs[job.id].pd[p / ENTRIES].Small? ==> job.configs[job.id].pd[p / ENTRIES].user)
  {
    var s := SlotOf(job.configs[job.id], p / ENTRIES);
    assert Lookup(job.configs, job.tables, job.id, p) == None;
    assert Walk(s, job.tables, p % ENTRIES) == None;
    RequestedIs(s, job.tables, p % ENTRIES, data[p - job.v], job.flags);
    assert PageIs(job, st.configs, st.tables, data, k, job.id, p);
    assert data[p - job.v] == (data + TabFrames(tabs))[p - job.v] && data[p - job.v] in data + TabFrames(tabs);
    hide Consistent, Counted, Walk, Lookup;
  }

  /** The pages of a range have frames that follow each other. */
  ghost predicate InARow(st: State, id: nat, v: nat, n: nat) {
    forall p: nat :: v <= p < v + n ==>
      && Lookup(st.configs, st.tables, id, v).Some? && Lookup(st.configs, st.tables, id, p).Some?
      && Lookup(st.configs, st.tables, id, p).value.frame == Lookup(st.configs, st.tables, id, v).value.frame + (p - v)
  }

  lemma RowMapped(job: Job, st: State, data: seq<nat>, tabs: seq<Tab>, n: nat, f: nat)
    requires Picture(job, st, data, n, tabs) && JobOk(job, n) && |data| == n && data == Consecutive(f, n)
    ensures InARow(st, job.id, job.v, n)
  {
    hide Picture, JobOk, AsAsked, Lookup;
    forall p: nat | job.v <= p < job.v + n
      ensures Lookup(st.configs, st.tables, job.id, job.v).Some? && Lookup(st.configs, st.tables, job.id, p).Some?
      ensures Lookup(st.configs, st.tables, job.id, p).value.frame
           == Lookup(st.configs, st.tables, job.id, job.v).value.frame + (p - job.v)
    {
      PicturePage(job, st, data, n, tabs, n, job.v);
      PicturePage(job, st, data, n, tabs, n, p);
    }
  }

  /** Frames an allocation needs, with those for tables. */
  ghost function Need(job: Job, n: nat): nat
    requires job.id in job.configs && ShapeOk(job.configs[job.id])
  {
    n + |Missing(job.configs, job.id, job.v, n)|
  }

  lemma AllocatedNeeds(job: Job, st: State, n: nat)
    requires Allocated(job, st, n) && job.id in job.configs && ShapeOk(job.configs[job.id])
    ensures FreeCount(st.bits) + Need(job, n) == FreeCount(job.bits)
  {
    var data: seq<nat>, tabs: seq<Tab> :| |data| == n && Picture(job, st, data, n, tabs);
    assert |data + TabFrames(tabs)| == n + |tabs|;
  }

  lemma PictureStart(job: Job, n: nat)
    requires JobOk(job, n)
    ensures Picture(job, State(job.configs, job.tables, job.bits), [], 0, [])
  {
    var cs := job.configs;
    assert ShapeOk(cs[job.id]);
    assert [] + TabFrames([]) == [];
    NoneReserved(job.bits);
    MissingNone(cs, job.id, job.v);
    forall j: nat | j < ENTRIES ensures UseKept(SlotOf(cs[job.id], j), SlotOf(cs[job.id], j)) {}
    hide Missing, Consistent, Counted, Lookup, DirAt, Reserved;
  }

  lemma PictureShape(job: Job, st: State, data: seq<nat>, k: nat, tabs: seq<Tab>)
    requires Picture(job, st, data, k, tabs)
    ensures job.id in job.configs && ShapeOk(job.configs[job.id]) && job.id in st.configs && ShapeOk(st.configs[job.id])
            && k <= |data|
    ensures Consistent(st.configs, st.tables, job.chain)
  {
  }

  /** The chunk of frames that was found comes to the list. */
  lemma PictureChunk(job: Job, st: State, data: seq<nat>, tabs: seq<Tab>, f: nat, n: nat, bits: seq<bool>)
    requires Picture(job, st, data, |data|, tabs) && ClearRun(st.bits, f, n) && bits == WithRun(st.bits, f, n)
    ensures Picture(job, st.(bits := bits), data + Consecutive(f, n), |data|, tabs)
  {
    var more := data + Consecutive(f, n);
    ReservedMore(job.bits, st.bits, data + TabFrames(tabs), f, n);
    ReservedSwap(job.bits, bits, data, TabFrames(tabs), Consecutive(f, n));
    hide Reserved, Consistent, Counted, Lookup, TablesMade, Consecutive, WithRun, PageAttrs;
    forall d, p: nat | d in job.configs && p < PAGES && Live(job.chain, d, p / ENTRIES)
      ensures PageIs(job, st.configs, st.tables, more, |data|, d, p)
    {
      assert PageIs(job, st.configs, st.tables, data, |data|, d, p);
    }
  }

  /** A table takes a frame. */
  lemma PictureTable(job: Job, st: State, data: seq<nat>, tabs: seq<Tab>, k: nat, i: nat, x: nat, bits: seq<bool>)
    requires Picture(job, st, data, k, tabs) && ClearRun(st.bits, x, 1) && bits == WithRun(st.bits, x, 1)
    ensures Reserved(job.bits, bits, data + TabFrames(tabs + [Tab(i, x)]))
  {
    ReservedMore(job.bits, st.bits, data + TabFrames(tabs), x, 1);
    assert data + TabFrames(tabs) + Consecutive(x, 1) == data + TabFrames(tabs + [Tab(i, x)]);
  }

  /** The tables as they are after page v + k was mapped. */
  function TabsAfter(tabs: seq<Tab>, made: bool, i: nat, g: Option<Grant>): seq<Tab> {
    if made && g.Some? then tabs + [Tab(i, g.value.frame)] else tabs
  }

  lemma TabAppend(tabs: seq<Tab>, t: Tab)
    ensures forall j: nat, frame: nat :: IsTab(tabs + [t], j, frame) <==> IsTab(tabs, j, frame) || t == Tab(j, frame)
    ensures forall j: nat :: HasTab(tabs + [t], j) <==> HasTab(tabs, j) || t.dir == j
  {
    var more := tabs + [t];
    forall j: nat, frame: nat ensures IsTab(more, j, frame) <==> IsTab(tabs, j, frame) || t == Tab(j, frame) {
      if IsTab(tabs, j, frame) {
        var k :| 0 <= k < |tabs| && tabs[k] == Tab(j, frame);
        assert more[k] == Tab(j, frame);
      }
      if t == Tab(j, frame) { assert more[|tabs|] == t; }
      if IsTab(more, j, frame) {
        var k :| 0 <= k < |more| && more[k] == Tab(j, frame);
        assert k < |tabs| ==> tabs[k] == Tab(j, frame);
      }
    }
    forall j: nat ensures HasTab(more, j) <==> HasTab(tabs, j) || t.dir == j {
      if HasTab(tabs, j) { var frame: nat :| IsTab(tabs, j, frame); assert IsTab(more, j, frame); }
      if t.dir == j { assert IsTab(more, j, t.frame); }
    }
  }

  lemma DirOfTab(tabs: seq<Tab>, k: nat)
    requires k < |tabs|
    ensures HasTab(tabs, tabs[k].dir)
  {
    assert IsTab(tabs, tabs[k].dir, tabs[k].frame);
  }

  /** Whether a directory index has a table can be seen from its entry. */
  lemma TableSeen(configs: map<nat, Config>, tables: map<nat, Table>, chain: seq<nat>, id: nat, j: nat)
    requires Consistent(configs, tables, chain) && id in configs && j < ENTRIES && Live(chain, id, j)
    ensures ShapeOk(configs[id]) && (configs[id].pt[j] == NULL <==> !DirAt(configs, tables, id, j).pde.Small?)
  {
    OwnedSlot(configs, tables, chain, id, j);
  }

  /** The entry of each directory index after a page was mapped. */
  lemma MappedEntries(cs: map<nat, Config>, ts: map<nat, Table>, cs': map<nat, Config>, ts': map<nat, Table>,
                      chain: seq<nat>, id: nat, p: nat, frame: nat, flags: Flags, g: Option<Grant>, j: nat)
    requires PageMapped(cs, ts, cs', ts', chain, id, p, frame, flags, g) && CanMap(SlotOf(cs[id], p / ENTRIES), ts, g)
             && j < ENTRIES
    ensures DirAt(cs', ts', id, j).pde
         == if j == p / ENTRIES && cs[id].pt[j] == NULL && g.Some? then Small(g.value.frame, true)
            else DirAt(cs, ts, id, j).pde
  {
    var s, i := SlotOf(cs[id], p / ENTRIES), p / ENTRIES;
    EditedAt(cs, chain, id, i, MappedSlot(Opened(s, g), OpenedTables(s, ts, g), p % ENTRIES), id, j);
    hide Edited, MappedTables, OpenedTables;
  }

  /** A directory index that has no table yet is one of those that are missing, and a new one. */
  lemma NoTableYet(job: Job, cs: map<nat, Config>, ts: map<nat, Table>, k: nat, tabs: seq<Tab>)
    requires TablesMade(job, cs, ts, k, tabs) && job.v + k < PAGES && Live(job.chain, job.id, (job.v + k) / ENTRIES)
    requires Consistent(job.configs, job.tables, job.chain) && Consistent(cs, ts, job.chain) && job.id in cs
    requires Lookup(job.configs, job.tables, job.id, job.v + k) == None
    ensures ShapeOk(cs[job.id])
    ensures var i, missing := (job.v + k) / ENTRIES, Missing(job.configs, job.id, job.v, k);
            var missing' := Missing(job.configs, job.id, job.v, k + 1);
            if cs[job.id].pt[i] == NULL then
              missing' == missing + {i} && i !in missing && !HasTab(tabs, i)
              && DirAt(job.configs, job.tables, job.id, i).pde.Empty?
            else missing' == missing
  {
    hide Consistent, Lookup, Missing, DirAt, HasTab, IsTab;
    var i := (job.v + k) / ENTRIES;
    TableSeen(cs, ts, job.chain, job.id, i);
    UnusedDir(job.configs, job.tables, job.chain, job.id, job.v + k);
    MissingNext(job.configs, job.id, job.v, k);
    assert EntryIs(job, cs, ts, tabs, i);
    var missing := Missing(job.configs, job.id, job.v, k);
    assert HasTab(tabs, i) <==> i in missing;
    if cs[job.id].pt[i] != NULL && job.configs[job.id].pt[i] == NULL { assert missing + {i} == missing; }
  }

  /** Where a page is not in use there is a table or nothing. */
  lemma UnusedDir(configs: map<nat, Config>, tables: map<nat, Table>, chain: seq<nat>, id: nat, p: nat)
    requires Consistent(configs, tables, chain) && id in configs && p < PAGES && Live(chain, id, p / ENTRIES)
    requires Lookup(configs, tables, id, p) == None
    ensures ShapeOk(configs[id]) && p / ENTRIES < ENTRIES
    ensures var d := DirAt(configs, tables, id, p / ENTRIES); if configs[id].pt[p / ENTRIES] == NULL then d.pde.Empty?
                                                              else d.pde.Small?
  {
    OwnedSlot(configs, tables, chain, id, p / ENTRIES);
  }

  lemma TabsApart(tabs: seq<Tab>, t: Tab)
    requires (forall l, m :: 0 <= l < m < |tabs| ==> tabs[l].dir != tabs[m].dir) && !HasTab(tabs, t.dir)
    ensures var more := tabs + [t]; forall l, m :: 0 <= l < m < |more| ==> more[l].dir != more[m].dir
  {
    forall l | 0 <= l < |tabs| ensures tabs[l].dir != t.dir { DirOfTab(tabs, l); }
  }

  /** The tables after one more page. */
  lemma TablesNext(job: Job, cs: map<nat, Config>, ts: map<nat, Table>, cs': map<nat, Config>, ts': map<nat, Table>,
                   k: nat, tabs: seq<Tab>, frame: nat, g: Option<Grant>)
    requires TablesMade(job, cs, ts, k, tabs) && job.v + k < PAGES && Live(job.chain, job.id, (job.v + k) / ENTRIES)
    requires Consistent(job.configs, job.tables, job.chain) && Consistent(cs, ts, job.chain) && job.id in cs
    requires Lookup(job.configs, job.tables, job.id, job.v + k) == None
    requires PageMapped(cs, ts, cs', ts', job.chain, job.id, job.v + k, frame, job.flags, g)
    requires CanMap(SlotOf(cs[job.id], (job.v + k) / ENTRIES), ts, g)
    ensures ShapeOk(cs[job.id])
    ensures TablesMade(job, cs', ts', k + 1,
                       TabsAfter(tabs, cs[job.id].pt[(job.v + k) / ENTRIES] == NULL, (job.v + k) / ENTRIES, g))
  {
    hide Consistent, Lookup, DirAt, Missing, PageMapped, CanMap, HasTab, IsTab, EntryIs;
    var i := (job.v + k) / ENTRIES;
    NoTableYet(job, cs, ts, k, tabs);
    var made := cs[job.id].pt[i] == NULL;
    if made { NeedsGrant(SlotOf(cs[job.id], i), ts, g); }
    var tabs' := TabsAfter(tabs, made, i, g);
    if made {
      TabAppend(tabs, Tab(i, g.value.frame));
      TabsApart(tabs, Tab(i, g.value.frame));
      Bigger(Missing(job.configs, job.id, job.v, k), i);
    }
    forall j: nat | j < ENTRIES ensures EntryIs(job, cs', ts', tabs', j) {
      assert EntryIs(job, cs, ts, tabs, j);
      EntryNext(job, cs, ts, cs', ts', k, tabs, frame, g, j);
    }
  }

  lemma NeedsGrant(s: Slot, tables: map<nat, Table>, g: Option<Grant>)
    requires CanMap(s, tables, g) && s.pt == NULL
    ensures g.Some?
  {
  }

  lemma EntryNext(job: Job, cs: map<nat, Config>, ts: map<nat, Table>, cs': map<nat, Config>, ts': map<nat, Table>,
                  k: nat, tabs: seq<Tab>, frame: nat, g: Option<Grant>, j: nat)
    requires EntryIs(job, cs, ts, tabs, j) && job.v + k < PAGES && j < ENTRIES && job.id in cs && ShapeOk(cs[job.id])
    requires PageMapped(cs, ts, cs', ts', job.chain, job.id, job.v + k, frame, job.flags, g)
    requires CanMap(SlotOf(cs[job.id], (job.v + k) / ENTRIES), ts, g)
    requires cs[job.id].pt[(job.v + k) / ENTRIES] == NULL ==>
               !HasTab(tabs, (job.v + k) / ENTRIES)
               && DirAt(job.configs, job.tables, job.id, (job.v + k) / ENTRIES).pde.Empty?
    ensures EntryIs(job, cs', ts',
                    TabsAfter(tabs, cs[job.id].pt[(job.v + k) / ENTRIES] == NULL, (job.v + k) / ENTRIES, g), j)
  {
    MappedEntries(cs, ts, cs', ts', job.chain, job.id, job.v + k, frame, job.flags, g, j);
    if g.Some? { TabAppend(tabs, Tab((job.v + k) / ENTRIES, g.value.frame)); }
    hide Lookup, DirAt, PageMapped, CanMap, HasTab, IsTab;
  }

  /** The translations after one more page. */
  lemma FramesNext(job: Job, cs: map<nat, Config>, ts: map<nat, Table>, cs': map<nat, Config>, ts': map<nat, Table>,
                   data: seq<nat>, k: nat)
    requires FramesMapped(job, cs, ts, data, k) && k < |data| && job.v + k < PAGES
             && Live(job.chain, job.id, (job.v + k) / ENTRIES)
    requires cs.Keys == job.configs.Keys && UsesKept(job.configs, cs, job.id)
    requires Lookup(job.configs, job.tables, job.id, job.v + k) == None
    requires Remapped(cs, ts, cs', ts', job.chain, job.id, job.v + k, job.v + k + 1,
               Some(Requested(SlotOf(cs[job.id], (job.v + k) / ENTRIES), ts, (job.v + k) % ENTRIES, data[k],
                              job.flags)))
    ensures FramesMapped(job, cs', ts', data, k + 1)
  {
    var p0 := job.v + k;
    assert PageIs(job, cs, ts, data, k, job.id, p0);
    assert UseKept(SlotOf(job.configs[job.id], p0 / ENTRIES), SlotOf(cs[job.id], p0 / ENTRIES));
    assert Requested(SlotOf(cs[job.id], p0 / ENTRIES), ts, p0 % ENTRIES, data[k], job.flags)
      == Mapping(data[k], PageAttrs(job, p0));
    hide Lookup, Requested, PageAttrs, Reaches;
    forall d, p: nat | d in job.configs && p < PAGES && Live(job.chain, d, p / ENTRIES)
      ensures PageIs(job, cs', ts', data, k + 1, d, p)
    {
      assert PageIs(job, cs, ts, data, k, d, p);
    }
  }

  /** One more page of an allocation on its way. */
  lemma PictureNext(job: Job, st: State, st': State, data: seq<nat>, k: nat, tabs: seq<Tab>, g: Option<Grant>, n: nat)
    requires Picture(job, st, data, k, tabs) && JobOk(job, n) && k < |data| <= n
             && Live(job.chain, job.id, (job.v + k) / ENTRIES)
    requires PageMapped(st.configs, st.tables, st'.configs, st'.tables, job.chain, job.id, job.v + k, data[k],
                        job.flags, g)
    requires CanMap(SlotOf(st.configs[job.id], (job.v + k) / ENTRIES), st.tables, g)
    requires Remapped(st.configs, st.tables, st'.configs, st'.tables, job.chain, job.id, job.v + k, job.v + k + 1,
               Some(Requested(SlotOf(st.configs[job.id], (job.v + k) / ENTRIES), st.tables, (job.v + k) % ENTRIES,
                              data[k], job.flags)))
    requires Consistent(st'.configs, st'.tables, job.chain) && Counted(st'.configs, st'.tables, job.chain)
    requires SameUses(st.configs, st'.configs, job.id, (job.v + k) / ENTRIES) && st'.configs.Keys == st.configs.Keys
    requires Reserved(job.bits, st'.bits,
               data + TabFrames(TabsAfter(tabs, st.configs[job.id].pt[(job.v + k) / ENTRIES] == NULL,
                                          (job.v + k) / ENTRIES, g)))
    ensures Picture(job, st', data, k + 1,
              TabsAfter(tabs, st.configs[job.id].pt[(job.v + k) / ENTRIES] == NULL, (job.v + k) / ENTRIES, g))
  {
    hide Consistent, Counted, FramesMapped, TablesMade, Reserved, PageMapped, CanMap, Remapped, UsesKept, SameUses,
      Lookup, Requested, TabsAfter;
    FramesNext(job, st.configs, st.tables, st'.configs, st'.tables, data, k);
    TablesNext(job, st.configs, st.tables, st'.configs, st'.tables, k, tabs, data[k], g);
    UsesStillKept(job.configs, st.configs, st'.configs, job.id, (job.v + k) / ENTRIES);
  }

  lemma TotalReserved(before: seq<bool>, after: seq<bool>, data: seq<nat>, tabs: seq<Tab>)
    requires Reserved(before, after, data + TabFrames(tabs))
    ensures FreeCount(after) + |data| + |tabs| == FreeCount(before)
  {
    assert |data + TabFrames(tabs)| == |data| + |tabs|;
  }

  /** Without a free frame for the table that the next page needs, the frames do not suffice. */
  lemma TooFew(job: Job, st: State, data: seq<nat>, k: nat, tabs: seq<Tab>, n: nat)
    requires Picture(job, st, data, k, tabs) && JobOk(job, n) && k < |data| <= n
             && Live(job.chain, job.id, (job.v + k) / ENTRIES)
    requires st.configs[job.id].pt[(job.v + k) / ENTRIES] == NULL && FreeCount(st.bits) == 0
    ensures job.id in job.configs && ShapeOk(job.configs[job.id]) && FreeCount(job.bits) < Need(job, n)
    ensures Missing(job.configs, job.id, job.v, n) != {}
  {
    hide Consistent, Counted, Lookup, DirAt, HasTab, EntryIs, FramesMapped, UsesKept, Reserved, Missing;
    NoTableYet(job, st.configs, st.tables, k, tabs);
    TotalReserved(job.bits, st.bits, data, tabs);
    var i, missing := (job.v + k) / ENTRIES, Missing(job.configs, job.id, job.v, k);
    Bigger(missing, i);
    MissingMore(job.configs, job.id, job.v, k + 1, n);
    assert i in Missing(job.configs, job.id, job.v, n);
  }

  // ---------------------------------------------------------------- taking it back

  ghost predicate FrameAt(cs: map<nat, Config>, ts: map<nat, Table>, id: nat, p: nat, i: nat) {
    Lookup(cs, ts, id, p).Some? && Lookup(cs, ts, id, p).value.frame == i
  }

  /** Frame i is behind a mapped page of a range. */
  ghost predicate MapsTo(cs: map<nat, Config>, ts: map<nat, Table>, id: nat, v: nat, n: nat, i: nat) {
    exists p: nat :: v <= p < v + n && FrameAt(cs, ts, id, p, i)
  }

  /** Just the frames of the memory that are behind mapped pages of a range were freed. */
  ghost predicate FreedTo(before: seq<bool>, after: seq<bool>, cs: map<nat, Config>, ts: map<nat, Table>, id: nat,
                          v: nat, n: nat, frames: nat)
  {
    && |after| == |before|
    && forall i: nat :: i < |before| ==> (after[i] <==> before[i] && !(i < frames && MapsTo(cs, ts, id, v, n, i)))
  }

  lemma NothingFreed(b: seq<bool>, cs: map<nat, Config>, ts: map<nat, Table>, id: nat, v: nat, frames: nat)
    ensures FreedTo(b, b, cs, ts, id, v, 0, frames)
  {
  }

  lemma FreedMore(before: seq<bool>, now: seq<bool>, after: seq<bool>, cs: map<nat, Config>, ts: map<nat, Table>,
                  id: nat, v: nat, n: nat, frames: nat)
    requires FreedTo(before, now, cs, ts, id, v, n, frames) && |after| == |now|
    requires forall i: nat :: i < |now| ==> (after[i] <==> now[i] && !(i < frames && FrameAt(cs, ts, id, v + n, i)))
    ensures FreedTo(before, after, cs, ts, id, v, n + 1, frames)
  {
    hide FrameAt;
    forall i: nat | i < |before| ensures after[i] <==> before[i] && !(i < frames && MapsTo(cs, ts, id, v, n + 1, i)) {
      if MapsTo(cs, ts, id, v, n + 1, i) {
        var p: nat :| v <= p < v + (n + 1) && FrameAt(cs, ts, id, p, i);
        assert p < v + n ==> MapsTo(cs, ts, id, v, n, i);
      }
      if FrameAt(cs, ts, id, v + n, i) { assert MapsTo(cs, ts, id, v, n + 1, i); }
      if MapsTo(cs, ts, id, v, n, i) {
        var p: nat :| v <= p < v + n && FrameAt(cs, ts, id, p, i);
        assert MapsTo(cs, ts, id, v, n + 1, i);
      }
    }
  }

  /** A table of a space at frame i was given up. */
  ghost predicate GaveUp(cs0: map<nat, Config>, ts0: map<nat, Table>, cs: map<nat, Config>, ts: map<nat, Table>,
                         chain: seq<nat>, id: nat, j: nat, i: nat)
  {
    j < ENTRIES && Live(chain, id, j) && DirAt(cs0, ts0, id, j).pde.Small? && DirAt(cs0, ts0, id, j).pde.frame == i
    && DirAt(cs, ts, id, j).pde.Empty?
  }

  ghost predicate GivenUp(cs0: map<nat, Config>, ts0: map<nat, Table>, cs: map<nat, Config>, ts: map<nat, Table>,
                          chain: seq<nat>, id: nat, i: nat)
  {
    exists j: nat :: GaveUp(cs0, ts0, cs, ts, chain, id, j, i)
  }

  /** Just the frames of the memory that held tables given up were freed. */
  ghost predicate TablesFreed(before: seq<bool>, after: seq<bool>, cs0: map<nat, Config>, ts0: map<nat, Table>,
                              cs: map<nat, Config>, ts: map<nat, Table>, chain: seq<nat>, id: nat, frames: nat)
  {
    && |after| == |before|
    && forall i: nat :: i < |before| ==>
         (after[i] <==> before[i] && !(i < frames && GivenUp(cs0, ts0, cs, ts, chain, id, i)))
  }

  lemma NoTableFreed(b: seq<bool>, cs: map<nat, Config>, ts: map<nat, Table>, chain: seq<nat>, id: nat, frames: nat)
    ensures TablesFreed(b, b, cs, ts, cs, ts, chain, id, frames)
  {
  }

  lemma TableFreed(before: seq<bool>, now: seq<bool>, after: seq<bool>, cs0: map<nat, Config>, ts0: map<nat, Table>,
                   cs: map<nat, Config>, ts: map<nat, Table>, cs': map<nat, Config>, ts': map<nat, Table>,
                   chain: seq<nat>, id: nat, i: nat, d': Dir, frames: nat)
    requires TablesFreed(before, now, cs0, ts0, cs, ts, chain, id, frames) && |after| == |now| && id in cs
             && i < ENTRIES
    requires DirEdited(cs, ts, cs', ts', chain, id, i, d') && Live(chain, id, i)
    requires var d := DirAt(cs, ts, id, i);
             && (d.pde.Empty? || d.pde == DirAt(cs0, ts0, id, i).pde) && (d.pde.Empty? ==> d'.pde.Empty?)
             && forall x: nat :: x < |now| ==>
                  (after[x] <==> now[x] && !(x < frames && d.pde.Small? && d'.pde.Empty? && d.pde.frame == x))
    ensures TablesFreed(before, after, cs0, ts0, cs', ts', chain, id, frames)
  {
    var d := DirAt(cs, ts, id, i);
    forall j: nat, x: nat ensures GaveUp(cs0, ts0, cs', ts', chain, id, j, x)
      <==> GaveUp(cs0, ts0, cs, ts, chain, id, j, x) || (j == i && d.pde.Small? && d'.pde.Empty? && d.pde.frame == x)
    {
      hide DirAt;
    }
    hide DirAt, DirEdited, GaveUp;
    forall x: nat | x < |before| ensures GivenUp(cs0, ts0, cs', ts', chain, id, x)
      <==> GivenUp(cs0, ts0, cs, ts, chain, id, x) || (d.pde.Small? && d'.pde.Empty? && d.pde.frame == x)
    {
      if GivenUp(cs0, ts0, cs, ts, chain, id, x) {
        var j: nat :| GaveUp(cs0, ts0, cs, ts, chain, id, j, x);
        assert GaveUp(cs0, ts0, cs', ts', chain, id, j, x);
      }
      if d.pde.Small? && d'.pde.Empty? && d.pde.frame == x { assert GaveUp(cs0, ts0, cs', ts', chain, id, i, x); }
      if GivenUp(cs0, ts0, cs', ts', chain, id, x) {
        var j: nat :| GaveUp(cs0, ts0, cs', ts', chain, id, j, x);
        assert GaveUp(cs0, ts0, cs, ts, chain, id, j, x) || j == i;
      }
    }
  }

  /** No directory index of the range has a table with nothing in it. */
  ghost predicate NoIdleTable(job: Job, n: nat) {
    forall j: nat :: j < ENTRIES && InDirs(job.v, n, j) ==> NotIdle(DirAt(job.configs, job.tables, job.id, j))
  }

  ghost predicate NotIdle(d: Dir) {
    d.pde.Small? ==> exists q: nat :: q < ENTRIES && WalkDir(d, q).Some?
  }

  /** The frames of all tables of the space are taken. */
  ghost predicate TablesHeld(job: Job) {
    forall j: nat :: j < ENTRIES && DirAt(job.configs, job.tables, job.id, j).pde.Small? ==>
      IsTaken(job.bits, DirAt(job.configs, job.tables, job.id, j).pde.frame)
  }

  predicate IsTaken(b: seq<bool>, i: nat) { i < |b| ==> b[i] }

  /** Every page of every space translates as at the start, and all counts are exact. */
  ghost predicate AsBefore(job: Job, st: State) {
    && st.configs.Keys == job.configs.Keys && Counted(st.configs, st.tables, job.chain)
    && forall d, p: nat :: d in job.configs && p < PAGES && Live(job.chain, d, p / ENTRIES) ==>
         Lookup(st.configs, st.tables, d, p) == Lookup(job.configs, job.tables, d, p)
  }

  /** The state st was cleaned up to st', of the pages from the start of the range on for all frames of the list. */
  ghost predicate CleanedUp(build: UnmapBuild, job: Job, st: State, mid: seq<bool>, st': State, data: seq<nat>, v: nat,
                            frames: nat)
  {
    && Consistent(st'.configs, st'.tables, job.chain) && job.v + |data| <= PAGES
    && FreedTo(st.bits, mid, st.configs, st.tables, job.id, job.v, |data|, frames)
    && TablesFreed(mid, st'.bits, st.configs, st.tables, st'.configs, st'.tables, job.chain, job.id, frames)
    && v * PAGE >= (job.v + |data|) * PAGE
    && Removing(build, st.configs, st.tables, st'.configs, st'.tables, job.chain, job.id, job.v, v,
                (job.v + |data|) * PAGE, map[])
  }

  lemma RangeEnds(v: nat, n: nat, next: nat)
    requires v + n <= PAGES && next * PAGE >= (v + n) * PAGE
    ensures PagesFor((v + n) * PAGE) == v + n && StopAt(next, (v + n) * PAGE) == v + n && (v + n) * PAGE <= SPACE
  {
  }

  lemma UnmapsPages(chain: seq<nat>, id: nat, pages: nat)
    requires pages <= KERNEL_PDE * ENTRIES || id in chain
    ensures UnmapsFor(chain, id, pages * PAGE)
  {
  }

  /** All pages of the range that are in a table are in use, so unmapping them is right in either form. */
  lemma MappedIsSound(build: UnmapBuild, job: Job, st: State, data: seq<nat>, tabs: seq<Tab>, n: nat)
    requires Picture(job, st, data, |data|, tabs) && JobOk(job, n) && |data| <= n
    ensures SoundRange(build, st.configs, st.tables, job.id, job.v, job.v + |data|, (job.v + |data|) * PAGE)
  {
    var end := (job.v + |data|) * PAGE;
    forall j: nat | j < ENTRIES
      ensures SoundDir(build, DirAt(st.configs, st.tables, job.id, j), j, job.v, job.v + |data|, end)
    {
      if InDirs(job.v, |data|, j) { SoundIndex(build, job, st, data, tabs, n, j); }
    }
  }

  lemma SoundIndex(build: UnmapBuild, job: Job, st: State, data: seq<nat>, tabs: seq<Tab>, n: nat, j: nat)
    requires Picture(job, st, data, |data|, tabs) && JobOk(job, n) && |data| <= n && j < ENTRIES
             && InDirs(job.v, |data|, j)
    ensures SoundDir(build, DirAt(st.configs, st.tables, job.id, j), j, job.v, job.v + |data|, (job.v + |data|) * PAGE)
  {
    var d, first, stop := DirAt(st.configs, st.tables, job.id, j), FirstIn(job.v, j), EndIn(job.v + |data|, j);
    NotLarge(job, st, data, |data|, tabs, n, j);
    if d.pde.Small? {
      forall q: nat | first - j * ENTRIES <= q < stop - j * ENTRIES && q < |d.entries| ensures d.entries[q] != NoPage {
        PageOf(j, q);
        LookupIs(st.configs, st.tables, job.id, j * ENTRIES + q);
        LiveInRange(job, n, j * ENTRIES + q);
        assert PageIs(job, st.configs, st.tables, data, |data|, job.id, j * ENTRIES + q);
        hide DirAt, Consistent, Counted, Lookup, PageAttrs;
      }
      assert AllUsed(d, first - j * ENTRIES, stop - first);
    }
  }

  lemma LiveInRange(job: Job, n: nat, p: nat)
    requires JobOk(job, n) && job.v <= p < job.v + n
    ensures p < PAGES && p / ENTRIES < ENTRIES && Live(job.chain, job.id, p / ENTRIES)
  {
  }

  lemma FirstPageIn(v: nat, n: nat, j: nat)
    requires InDirs(v, n, j)
    ensures var p := FirstIn(v, j); v <= p < v + n && p / ENTRIES == j
  {
  }

  /** There is no 4M page in the range, before or during the allocation. */
  lemma NotLarge(job: Job, st: State, data: seq<nat>, k: nat, tabs: seq<Tab>, n: nat, j: nat)
    requires Picture(job, st, data, k, tabs) && JobOk(job, n) && j < ENTRIES && InDirs(job.v, n, j)
    ensures !DirAt(st.configs, st.tables, job.id, j).pde.Large? && !DirAt(job.configs, job.tables, job.id, j).pde.Large?
    ensures Live(job.chain, job.id, j)
  {
    hide Consistent, Counted, Lookup, DirAt, HasTab, FramesMapped, Reserved, Missing, UsesKept;
    FirstPageIn(job.v, n, j);
    LiveInRange(job, n, FirstIn(job.v, j));
    UnusedDir(job.configs, job.tables, job.chain, job.id, FirstIn(job.v, j));
    assert EntryIs(job, st.configs, st.tables, tabs, j);
  }

  lemma CleanPages(build: UnmapBuild, job: Job, st: State, mid: seq<bool>, st': State, data: seq<nat>, tabs: seq<Tab>,
                   v: nat, n: nat, frames: nat)
    requires Picture(job, st, data, |data|, tabs) && JobOk(job, n) && |data| <= n
    requires CleanedUp(build, job, st, mid, st', data, v, frames)
    ensures Counted(st'.configs, st'.tables, job.chain)
    ensures Remapped(st.configs, st.tables, st'.configs, st'.tables, job.chain, job.id, job.v, job.v + |data|, None)
  {
    hide *;
    CleanParts(build, job, st, mid, st', data, v, frames);
    PictureParts(job, st, data, |data|, tabs, n);
    MappedIsSound(build, job, st, data, tabs, n);
    UnmapExact(build, st.configs, st.tables, st'.configs, st'.tables, job.chain, job.id, job.v, v,
               (job.v + |data|) * PAGE, map[]);
  }

  lemma PictureParts(job: Job, st: State, data: seq<nat>, k: nat, tabs: seq<Tab>, n: nat)
    requires Picture(job, st, data, k, tabs) && JobOk(job, n) && |data| <= n
    ensures Consistent(st.configs, st.tables, job.chain) && Counted(st.configs, st.tables, job.chain)
            && job.id in st.configs
    ensures UnmapsFor(job.chain, job.id, (job.v + |data|) * PAGE)
  {
    UnmapsPages(job.chain, job.id, job.v + |data|);
  }

  lemma CleanParts(build: UnmapBuild, job: Job, st: State, mid: seq<bool>, st': State, data: seq<nat>, v: nat,
                   frames: nat)
    requires CleanedUp(build, job, st, mid, st', data, v, frames)
    ensures var end := (job.v + |data|) * PAGE;
            && end <= SPACE && StopAt(v, end) == job.v + |data| == PagesFor(end)
            && Consistent(st'.configs, st'.tables, job.chain)
            && UnmappedTo(build, st.configs, st.tables, st'.configs, st'.tables, job.chain, job.id, job.v,
                          StopAt(v, end), end, map[])
            && AllPassed(st.configs, st.tables, job.id, job.v, v, end, map[])
  {
    hide Removing;
    RangeEnds(job.v, |data|, v);
    RemovingState(build, st.configs, st.tables, st'.configs, st'.tables, job.chain, job.id, job.v, v,
                  (job.v + |data|) * PAGE, map[]);
  }

  /** After a complete cleanup every page is as before. */
  lemma PagesBack(build: UnmapBuild, job: Job, st: State, mid: seq<bool>, st': State, data: seq<nat>, tabs: seq<Tab>,
                  v: nat, n: nat, frames: nat)
    requires Picture(job, st, data, |data|, tabs) && JobOk(job, n) && |data| <= n
    requires CleanedUp(build, job, st, mid, st', data, v, frames)
    ensures AsBefore(job, st')
  {
    CleanPages(build, job, st, mid, st', data, tabs, v, n, frames);
    var hi := job.v + |data|;
    hide Consistent, Counted, CleanedUp, TablesMade, Reserved, UsesKept, Lookup, PageAttrs;
    forall d, p: nat | d in job.configs && p < PAGES && Live(job.chain, d, p / ENTRIES)
      ensures Lookup(st'.configs, st'.tables, d, p) == Lookup(job.configs, job.tables, d, p)
    {
      assert PageIs(job, st.configs, st.tables, data, |data|, d, p);
      if job.v <= p < hi && Reaches(job.chain, job.id, d, p) {
        LiveInRange(job, n, p);
        SameLookup(job.configs, job.tables, job.chain, job.id, d, p);
        assert Lookup(job.configs, job.tables, job.id, p) == None;
      }
    }
  }

  /** A table of which pages were unmapped, and which is still there, has pages in use. */
  lemma UsedLeft(build: UnmapBuild, d: Dir, a: nat, n: nat)
    requires DirOk(d) && a + n <= ENTRIES && n > 0 && ClearedRun(build, d, a, n).pde.Small?
    ensures ClearedRun(build, d, a, n).used > 0
  {
    var d1 := ClearedRun(build, d, a, n - 1);
    assert ClearedRun(build, d, a, n) == ClearedDir(build, d1, a + n - 1);
  }

  lemma SomeUsed(d: Dir)
    requires DirOk(d) && CountedDir(d) && d.pde.Small? && d.used > 0
    ensures exists q: nat :: q < ENTRIES && WalkDir(d, q).Some?
  {
    CountZero(d.entries);
    var q: nat :| q < ENTRIES && d.entries[q] != NoPage;
    assert WalkDir(d, q).Some?;
  }

  /** After the cleanup a directory index of the range has a table exactly if a page of it is in use. */
  lemma TableLeft(build: UnmapBuild, job: Job, st: State, mid: seq<bool>, st': State, data: seq<nat>, v: nat,
                  frames: nat, j: nat)
    requires Consistent(st.configs, st.tables, job.chain) && Counted(st'.configs, st'.tables, job.chain)
             && job.id in st.configs
    requires CleanedUp(build, job, st, mid, st', data, v, frames) && j < ENTRIES && Live(job.chain, job.id, j)
    requires InDirs(job.v, |data|, j) && !DirAt(st.configs, st.tables, job.id, j).pde.Large?
    ensures var d, d' := DirAt(st.configs, st.tables, job.id, j), DirAt(st'.configs, st'.tables, job.id, j);
            && (d'.pde == d.pde || d'.pde.Empty?)
            && (d.pde.Small? ==> (d'.pde.Small? <==> exists q: nat :: q < ENTRIES && WalkDir(d', q).Some?))
  {
    var hi, end := job.v + |data|, (job.v + |data|) * PAGE;
    CleanParts(build, job, st, mid, st', data, v, frames);
    CleanedDir(build, st, st', job, v, end, j);
    assert CountAt(st'.configs, st'.tables, job.chain, job.id, j);
    LiveDir(st'.configs, st'.tables, job.chain, job.id, j);
    hide Consistent, Counted, CountAt, DirAt, CleanedUp, PagesFor, StopAt, UnmappedTo, AllPassed, DirOk, CountedDir,
      WalkDir, UnmappedLarge, UnmappedAt, ClearedRun;
    var d, d' := DirAt(st.configs, st.tables, job.id, j), DirAt(st'.configs, st'.tables, job.id, j);
    if d.pde.Small? {
      var a, n := FirstIn(job.v, j) - j * ENTRIES, EndIn(hi, j) - FirstIn(job.v, j);
      assert d' == ClearedRun(build, d, a, n);
      hide FirstIn, EndIn, Progress;
      if d'.pde.Small? {
        UsedLeft(build, d, a, n);
        SomeUsed(d');
      } else {
        EmptyHasNone(d');
      }
    }
  }

  lemma CleanedDir(build: UnmapBuild, st: State, st': State, job: Job, v: nat, end: nat, j: nat)
    requires end <= SPACE && StopAt(v, end) <= PagesFor(end)
    requires UnmappedTo(build, st.configs, st.tables, st'.configs, st'.tables, job.chain, job.id, job.v, StopAt(v, end),
                        end, map[])
    requires job.id in st.configs && j < ENTRIES && Live(job.chain, job.id, j)
    ensures var d := DirAt(st.configs, st.tables, job.id, j);
            DirOk(d) && DirAt(st'.configs, st'.tables, job.id, j)
              == Progress(build, d, j, job.v, StopAt(v, end), end, None)
  {
    assert UnmappedAt(build, st.configs, st.tables, st'.configs, st'.tables, job.chain, job.id, job.v, StopAt(v, end),
                      end, map[], job.id, j);
    hide Progress, DirAt, StopAt, PagesFor;
  }

  lemma EmptyHasNone(d: Dir)
    requires d.pde.Empty?
    ensures forall q: nat :: q < ENTRIES ==> WalkDir(d, q) == None
  {
  }

  /** Outside the range nothing is given up. */
  lemma TableKept(build: UnmapBuild, job: Job, st: State, mid: seq<bool>, st': State, data: seq<nat>, v: nat,
                  frames: nat, j: nat)
    requires CleanedUp(build, job, st, mid, st', data, v, frames) && j < ENTRIES && Live(job.chain, job.id, j)
    requires job.id in st.configs && !InDirs(job.v, |data|, j)
    ensures DirAt(st'.configs, st'.tables, job.id, j) == DirAt(st.configs, st.tables, job.id, j)
  {
    CleanParts(build, job, st, mid, st', data, v, frames);
    CleanedDir(build, st, st', job, v, (job.v + |data|) * PAGE, j);
    hide DirAt, CleanedUp, PagesFor, StopAt, ClearedRun, UnmappedLarge;
  }

  lemma SameWalks(job: Job, st': State, j: nat, q: nat)
    requires AsBefore(job, st') && job.id in job.configs && j < ENTRIES && Live(job.chain, job.id, j) && q < ENTRIES
    ensures WalkDir(DirAt(st'.configs, st'.tables, job.id, j), q)
          == WalkDir(DirAt(job.configs, job.tables, job.id, j), q)
  {
    PageOf(j, q);
    LookupIs(st'.configs, st'.tables, job.id, j * ENTRIES + q);
    LookupIs(job.configs, job.tables, job.id, j * ENTRIES + q);
    hide Lookup, WalkDir, DirAt, Counted;
  }

  /** All there is to a complete cleanup. */
  ghost predicate Complete(build: UnmapBuild, job: Job, st: State, mid: seq<bool>, st': State, data: seq<nat>,
                           tabs: seq<Tab>, v: nat, n: nat, frames: nat)
  {
    && Picture(job, st, data, |data|, tabs) && JobOk(job, n) && |data| <= n && NoIdleTable(job, n)
    && CleanedUp(build, job, st, mid, st', data, v, frames) && AsBefore(job, st')
  }

  /** After a complete cleanup just the tables that were made are gone. */
  lemma TablesBack(build: UnmapBuild, job: Job, st: State, mid: seq<bool>, st': State, data: seq<nat>, tabs: seq<Tab>,
                   v: nat, n: nat, frames: nat, j: nat)
    requires Complete(build, job, st, mid, st', data, tabs, v, n, frames) && j < ENTRIES && Live(job.chain, job.id, j)
    ensures var d, d' := DirAt(st.configs, st.tables, job.id, j), DirAt(st'.configs, st'.tables, job.id, j);
            d.pde.Small? && d'.pde.Empty? <==> HasTab(tabs, j)
    ensures EntryIs(job, st.configs, st.tables, tabs, j)
  {
    assert EntryIs(job, st.configs, st.tables, tabs, j);
    assert HasTab(tabs, j) <==> j in Missing(job.configs, job.id, job.v, |data|);
    var d, d', d0 := DirAt(st.configs, st.tables, job.id, j), DirAt(st'.configs, st'.tables, job.id, j),
      DirAt(job.configs, job.tables, job.id, j);
    if InDirs(job.v, |data|, j) {
      InDirsMore(job.v, |data|, n, j);
      NotLarge(job, st, data, |data|, tabs, n, j);
      TableLeft(build, job, st, mid, st', data, v, frames, j);
      forall q: nat | q < ENTRIES ensures WalkDir(d', q) == WalkDir(d0, q) { SameWalks(job, st', j, q); }
      hide CleanedUp, Consistent, Counted, AsBefore, DirAt, Reserved, FramesMapped, UsesKept, Missing, HasTab, IsTab,
        WalkDir;
      assert NotIdle(d0);
      if HasTab(tabs, j) { EmptyHasNone(d0); }
    } else {
      TableKept(build, job, st, mid, st', data, v, frames, j);
    }
  }

  lemma InDirsMore(v: nat, k: nat, n: nat, j: nat)
    requires InDirs(v, k, j) && k <= n
    ensures InDirs(v, n, j)
  {
  }

  lemma TabInList(data: seq<nat>, tabs: seq<Tab>, j: nat, i: nat)
    requires IsTab(tabs, j, i)
    ensures i in data + TabFrames(tabs)
    ensures Distinct(data + TabFrames(tabs)) ==> i !in data
  {
    var k :| 0 <= k < |tabs| && tabs[k] == Tab(j, i);
    var list := data + TabFrames(tabs);
    assert list[|data| + k] == i;
    if i in data && Distinct(list) {
      var l :| 0 <= l < |data| && data[l] == i;
      SomewhereElse(list, l, |data| + k);
    }
  }

  /** Frames behind the mapped pages of the range are those of the list. */
  lemma MappedFrames(job: Job, st: State, data: seq<nat>, k: nat, tabs: seq<Tab>, n: nat, i: nat)
    requires Picture(job, st, data, k, tabs) && JobOk(job, n) && |data| <= n
    ensures MapsTo(st.configs, st.tables, job.id, job.v, |data|, i) <==> i in data[..k]
  {
    hide Lookup, PageAttrs, Consistent, Counted, TablesMade, Reserved, UsesKept;
    forall p: nat | job.v <= p < job.v + |data|
      ensures FrameAt(st.configs, st.tables, job.id, p, i) <==> p - job.v < k && data[p - job.v] == i
    {
      LiveInRange(job, n, p);
      assert PageIs(job, st.configs, st.tables, data, k, job.id, p);
      assert Lookup(job.configs, job.tables, job.id, p) == None;
    }
    hide FrameAt;
    if i in data[..k] {
      var l :| 0 <= l < k && data[..k][l] == i;
      assert FrameAt(st.configs, st.tables, job.id, job.v + l, i);
    }
    if p: nat :| job.v <= p < job.v + |data| && FrameAt(st.configs, st.tables, job.id, p, i) {
      assert data[..k][p - job.v] == i;
    }
  }

  /** After a complete cleanup all frames are as before, if no table of the range had nothing in it. */
  lemma FramesBack(build: UnmapBuild, job: Job, st: State, mid: seq<bool>, st': State, data: seq<nat>, tabs: seq<Tab>,
                   v: nat, n: nat, frames: nat)
    requires Complete(build, job, st, mid, st', data, tabs, v, n, frames)
    requires forall i: nat :: frames <= i < |job.bits| ==> job.bits[i]
    ensures st'.bits == job.bits
  {
    var list := data + TabFrames(tabs);
    assert data[..|data|] == data;
    PictureReserved(job, st, data, |data|, tabs);
    CleanedBits(build, job, st, mid, st', data, v, frames);
    hide Picture, CleanedUp, JobOk, AsBefore, MapsTo, GivenUp, TabFrames;
    forall i: nat | i < |job.bits| ensures st'.bits[i] == job.bits[i] {
      MappedFrames(job, st, data, |data|, tabs, n, i);
      TablesGiven(build, job, st, mid, st', data, tabs, v, n, frames, i);
      assert i in list <==> i in data || i in TabFrames(tabs);
    }
  }

  lemma CleanedBits(build: UnmapBuild, job: Job, st: State, mid: seq<bool>, st': State, data: seq<nat>, v: nat,
                    frames: nat)
    requires CleanedUp(build, job, st, mid, st', data, v, frames)
    ensures |st'.bits| == |st.bits| && forall i: nat :: i < |st.bits| ==>
      (st'.bits[i] <==> st.bits[i] && !(i < frames && MapsTo(st.configs, st.tables, job.id, job.v, |data|, i))
                        && !(i < frames
                             && GivenUp(st.configs, st.tables, st'.configs, st'.tables, job.chain, job.id, i)))
  {
  }

  lemma PictureReserved(job: Job, st: State, data: seq<nat>, k: nat, tabs: seq<Tab>)
    requires Picture(job, st, data, k, tabs)
    ensures Reserved(job.bits, st.bits, data + TabFrames(tabs))
  {
  }

  lemma TablesGiven(build: UnmapBuild, job: Job, st: State, mid: seq<bool>, st': State, data: seq<nat>, tabs: seq<Tab>,
                    v: nat, n: nat, frames: nat, i: nat)
    requires Complete(build, job, st, mid, st', data, tabs, v, n, frames)
    ensures GivenUp(st.configs, st.tables, st'.configs, st'.tables, job.chain, job.id, i) <==> i in TabFrames(tabs)
  {
    hide Complete, DirAt, HasTab, IsTab;
    if GivenUp(st.configs, st.tables, st'.configs, st'.tables, job.chain, job.id, i) {
      var j: nat :| GaveUp(st.configs, st.tables, st'.configs, st'.tables, job.chain, job.id, j, i);
      TablesBack(build, job, st, mid, st', data, tabs, v, n, frames, j);
      TabInList([], tabs, j, i);
      assert [] + TabFrames(tabs) == TabFrames(tabs);
    }
    if i in TabFrames(tabs) {
      var k :| 0 <= k < |tabs| && TabFrames(tabs)[k] == i;
      TabGiven(build, job, st, mid, st', data, tabs, v, n, frames, k);
    }
  }

  lemma TabGiven(build: UnmapBuild, job: Job, st: State, mid: seq<bool>, st': State, data: seq<nat>, tabs: seq<Tab>,
                 v: nat, n: nat, frames: nat, k: nat)
    requires Complete(build, job, st, mid, st', data, tabs, v, n, frames) && k < |tabs|
    ensures GivenUp(st.configs, st.tables, st'.configs, st'.tables, job.chain, job.id, tabs[k].frame)
  {
    var j := tabs[k].dir;
    TabInRange(job, st, data, tabs, n, k);
    TablesBack(build, job, st, mid, st', data, tabs, v, n, frames, j);
    hide Complete, DirAt, Live;
    OneTab(tabs, k, DirAt(st.configs, st.tables, job.id, j).pde.frame);
    assert GaveUp(st.configs, st.tables, st'.configs, st'.tables, job.chain, job.id, j, tabs[k].frame);
  }

  lemma TabInRange(job: Job, st: State, data: seq<nat>, tabs: seq<Tab>, n: nat, k: nat)
    requires Picture(job, st, data, |data|, tabs) && JobOk(job, n) && |data| <= n && k < |tabs|
    ensures HasTab(tabs, tabs[k].dir) && tabs[k].dir < ENTRIES && Live(job.chain, job.id, tabs[k].dir)
    ensures forall l, m :: 0 <= l < m < |tabs| ==> tabs[l].dir != tabs[m].dir
  {
    var j := tabs[k].dir;
    DirOfTab(tabs, k);
    assert j in Missing(job.configs, job.id, job.v, |data|) && j < ENTRIES && InDirs(job.v, |data|, j);
    InDirsMore(job.v, |data|, n, j);
    hide HasTab, Missing, Consistent, Counted, EntryIs, FramesMapped, Reserved, UsesKept;
    NotLarge(job, st, data, |data|, tabs, n, j);
  }

  lemma OneTab(tabs: seq<Tab>, k: nat, frame: nat)
    requires k < |tabs| && IsTab(tabs, tabs[k].dir, frame)
    requires forall l, m :: 0 <= l < m < |tabs| ==> tabs[l].dir != tabs[m].dir
    ensures tabs[k].frame == frame
  {
    var l :| 0 <= l < |tabs| && tabs[l] == Tab(tabs[k].dir, frame);
    assert l == k || l < k || k < l;
  }

  /** If the mapping of a chunk was cut short, the frame that was to be mapped next stays taken after the cleanup. */
  lemma FrameLost(build: UnmapBuild, job: Job, st: State, mid: seq<bool>, st': State, data: seq<nat>, k: nat,
                  tabs: seq<Tab>, v: nat, n: nat, frames: nat)
    requires Picture(job, st, data, k, tabs) && JobOk(job, n) && k < |data| <= n && TablesHeld(job)
    requires CleanedUp(build, job, st, mid, st', data, v, frames)
    ensures data[k] < |job.bits| && !job.bits[data[k]] && |st'.bits| == |job.bits| && st'.bits[data[k]]
  {
    var x, list := data[k], data + TabFrames(tabs);
    PictureReserved(job, st, data, k, tabs);
    CleanedBits(build, job, st, mid, st', data, v, frames);
    assert list[k] == x && x in list;
    MappedFrames(job, st, data, k, tabs, n, x);
    if x in data[..k] {
      var l :| 0 <= l < k && data[..k][l] == x;
      SomewhereElse(list, l, k);
    }
    if GivenUp(st.configs, st.tables, st'.configs, st'.tables, job.chain, job.id, x) {
      var j: nat :| GaveUp(st.configs, st.tables, st'.configs, st'.tables, job.chain, job.id, j, x);
      assert EntryIs(job, st.configs, st.tables, tabs, j);
      if HasTab(tabs, j) { TabInList(data, tabs, j, x); }
    }
  }

  // ---------------------------------------------------------------- the allocator

  /** What a reserved block means for the frames. */
  lemma TakenFrames(before: seq<seq<bool>>, after: seq<seq<bool>>, addr: nat, n: nat, max: nat)
    requires addr % PAGE == 0 && Pmm.TakesRun(before, after, addr / PAGE, n, max) && n > 0 && max <= SPACE
    ensures IsChunk(Pmm.FrameBits(before), Pmm.FrameBits(after), addr, n) && addr < SPACE && addr != NO_MEMORY
  {
    SmallMemory(max);
    NotFailure(addr, n);
  }

  lemma SmallMemory(maxSize: nat)
    requires maxSize <= SPACE
    ensures Pmm.NumFrames(maxSize) <= FRAMES
  {
  }

  /** The frame bits determine all levels. */
  lemma SameFramesSameLevels(a: seq<seq<bool>>, b: seq<seq<bool>>, frames: nat)
    requires Pmm.Sized(a, frames) && Pmm.Sized(b, frames) && Pmm.Consistent(a) && Pmm.Consistent(b)
    requires Pmm.FrameBits(a) == Pmm.FrameBits(b)
    ensures a == b
  {
    forall k: nat | k < |a| ensures a[k] == b[k] {
      Pmm.LevelsDetermined(a, b, k);
    }
  }

  /** The frames of a page-sized range. */
  lemma OneFrame(x: nat, maxSize: nat)
    ensures x * PAGE / PAGE == x && Pmm.FRAME_SIZE == PAGE
    ensures x * PAGE > maxSize ==> x >= Pmm.NumFrames(maxSize)
    ensures x * PAGE <= maxSize ==>
      Pmm.NumFrames(if x * PAGE + PAGE > maxSize then maxSize else x * PAGE + PAGE)
      == if x < Pmm.NumFrames(maxSize) then x + 1 else x
  {
  }

  lemma NotFailure(paddr: nat, n: nat)
    requires paddr % PAGE == 0
    ensures paddr != NO_MEMORY
    ensures n > 0 && paddr / PAGE + n <= FRAMES ==> paddr < SPACE
  {
    assert NO_MEMORY % PAGE == PAGE - 1;
  }

  /** Mapping the address that stands for failure rounds the size up by a page. */
  lemma PagesToMap(paddr: nat, v: nat, n: nat)
    ensures paddr % PAGE == 0 ==> PagesFor(RoundedSize(paddr, v * PAGE, n * PAGE)) == n
    ensures paddr == NO_MEMORY && n + 1 < PAGES ==> PagesFor(RoundedSize(paddr, v * PAGE, n * PAGE)) == n + 1
  {
  }

  /** A chunk of frames that was found and taken. */
  ghost predicate IsChunk(now: seq<bool>, after: seq<bool>, paddr: nat, n: nat) {
    && paddr % PAGE == 0 && paddr / PAGE + n <= FRAMES && ClearRun(now, paddr / PAGE, n)
    && after == WithRun(now, paddr / PAGE, n)
  }

  lemma ChunkIsRun(now: seq<bool>, after: seq<bool>, paddr: nat, n: nat)
    requires IsChunk(now, after, paddr, n)
    ensures HasRun(now, n)
  {
  }

  /** The frame a table got: one that was free, or, with the wrong test for failure, none of the allocator's. */
  ghost predicate TableFrame(now: seq<bool>, after: seq<bool>, failure: nat, frame: nat) {
    if HasRun(now, 1) then ClearRun(now, frame, 1) && after == WithRun(now, frame, 1) && frame < FRAMES
    else after == now && failure == NEVER
  }

  /** Addresses for page tables, by directory index, with whatever frames they get. */
  function GrantsAt(addrs: map<nat, nat>): map<nat, Grant> {
    map j | j in addrs :: Grant(addrs[j], 0)
  }

  lemma GrantAt(configs: map<nat, Config>, tables: map<nat, Table>, id: nat, addrs: map<nat, nat>, i: nat, frame: nat)
    requires GrantsOk(configs, tables, id, GrantsAt(addrs)) && i in addrs && i < ENTRIES && configs[id].pt[i] == NULL
    ensures GrantOk(tables, Some(Grant(addrs[i], frame)))
  {
    assert i in GrantsAt(addrs);
  }

  lemma AddrsLeft(configs: map<nat, Config>, tables: map<nat, Table>, configs': map<nat, Config>,
                  tables': map<nat, Table>, id: nat, i: nat, addrs: map<nat, nat>)
    requires GrantsOk(configs, tables, id, GrantsAt(addrs)) && i < ENTRIES && SameUses(configs, configs', id, i)
    requires forall t :: t in tables' ==> t in tables || (i in addrs && t == addrs[i])
    ensures GrantsOk(configs', tables', id, GrantsAt(addrs))
  {
    var grants := GrantsAt(addrs);
    assert forall t :: t in tables' ==> t in tables || (i in grants && t == grants[i].table);
    hide GrantsOk, SameUses;
    GrantsLeft(configs, tables, configs', tables', id, i, grants);
  }

  /** What is asked of the caller: a range that is not in use, some way from the end of the space, none of it a whole
      4M, and room in the kernel's half for the tables it may need. */
  ghost predicate CanAlloc(job: Job, n: nat, addrs: map<nat, nat>) {
    && JobOk(job, n) && job.v + n < PAGES && (job.v + n < KERNEL_PDE * ENTRIES || job.id in job.chain)
    && SmallOnly(job.v, (n + 1) * PAGE)
    && GrantsOk(job.configs, job.tables, job.id, GrantsAt(addrs))
    && forall p: nat :: job.v <= p <= job.v + n ==> p / ENTRIES in addrs
  }

  /** A page that can be mapped next. */
  ghost predicate CanMapNext(configs: map<nat, Config>, tables: map<nat, Table>, chain: seq<nat>, id: nat, p: nat,
                             addrs: map<nat, nat>)
  {
    && GrantsOk(configs, tables, id, GrantsAt(addrs)) && p < PAGES && p / ENTRIES < ENTRIES && p / ENTRIES in addrs
    && Live(chain, id, p / ENTRIES)
  }

  /** One page was mapped, with a table from the frame allocator if it needed one. */
  ghost predicate OneMapped(chain: seq<nat>, failure: nat, st: State, st': State, id: nat, p: nat, frame: nat,
                            flags: Flags, g: Option<Grant>)
  {
    && id in st.configs && ShapeOk(st.configs[id]) && p < PAGES && p / ENTRIES < ENTRIES
    && CanMap(SlotOf(st.configs[id], p / ENTRIES), st.tables, g)
    && PageMapped(st.configs, st.tables, st'.configs, st'.tables, chain, id, p, frame, flags, g)
    && Remapped(st.configs, st.tables, st'.configs, st'.tables, chain, id, p, p + 1,
         Some(Requested(SlotOf(st.configs[id], p / ENTRIES), st.tables, p % ENTRIES, frame, flags)))
    && SameUses(st.configs, st'.configs, id, p / ENTRIES) && st'.configs.Keys == st.configs.Keys
    && (Counted(st.configs, st.tables, chain) ==> Counted(st'.configs, st'.tables, chain))
    && Consistent(st'.configs, st'.tables, chain)
    && (if st.configs[id].pt[p / ENTRIES] != NULL then st'.bits == st.bits
        else g.Some? && TableFrame(st.bits, st'.bits, failure, g.value.frame))
  }

  /** There is no table for a page, and no frame for one. */
  ghost predicate NoFrameLeft(st: State, id: nat, p: nat) {
    && id in st.configs && ShapeOk(st.configs[id]) && p / ENTRIES < ENTRIES
    && st.configs[id].pt[p / ENTRIES] == NULL && !HasRun(st.bits, 1)
  }

  lemma NoFree(b: seq<bool>)
    requires !HasRun(b, 1)
    ensures FreeCount(b) == 0
    ensures forall n: nat :: n > 0 ==> !HasRun(b, n)
  {
    FreeCountZero(b);
    forall n: nat | n > 0 ensures !HasRun(b, n) {
      if HasRun(b, n) { RunIsFree(b, n); }
    }
  }

  /** The frame entry k of a run of pages gets. */
  function RunFrame(paddr: nat, k: nat): nat { (paddr / PAGE + k) % FRAMES }

  lemma NoneBefore(data: seq<nat>, paddr: nat, n: nat)
    requires data == [] + Consecutive(FirstFrameOf(paddr), n)
    ensures |data| == n && data == Consecutive(FirstFrameOf(paddr), n)
  {
  }

  lemma ChunkFrames(data: seq<nat>, paddr: nat, n: nat, k: nat)
    requires paddr / PAGE + n <= FRAMES && k < n
    ensures var more := data + Consecutive(paddr / PAGE, n);
            |data| + k < |more| && more[|data| + k] == RunFrame(paddr, k)
  {
  }

  /** A further step of mapping a chunk: the picture goes on, or the frames do not suffice. */
  lemma PictureOn(job: Job, failure: nat, st: State, st': State, data: seq<nat>, k: nat, tabs: seq<Tab>,
                  g: Option<Grant>, n: nat)
    requires Picture(job, st, data, k, tabs) && JobOk(job, n) && k < |data| <= n
             && Live(job.chain, job.id, (job.v + k) / ENTRIES)
    requires OneMapped(job.chain, failure, st, st', job.id, job.v + k, data[k], job.flags, g)
    ensures job.id in st.configs && ShapeOk(st.configs[job.id]) && job.id in job.configs && ShapeOk(job.configs[job.id])
    ensures var made := st.configs[job.id].pt[(job.v + k) / ENTRIES] == NULL;
            if made && !HasRun(st.bits, 1) then FreeCount(job.bits) < Need(job, n)
            else Picture(job, st', data, k + 1, TabsAfter(tabs, made, (job.v + k) / ENTRIES, g))
  {
    PictureShape(job, st, data, k, tabs);
    var i := (job.v + k) / ENTRIES;
    var made := st.configs[job.id].pt[i] == NULL;
    PictureReserved(job, st, data, k, tabs);
    assert Counted(st.configs, st.tables, job.chain);
    hide Picture, JobOk, CanMap, PageMapped, Remapped, SameUses, Counted, Consistent, Reserved, HasRun, Need, Requested,
      ClearRun, WithRun;
    if made && !HasRun(st.bits, 1) {
      NoFree(st.bits);
      TooFew(job, st, data, k, tabs, n);
    } else {
      if made { PictureTable(job, st, data, tabs, k, i, g.value.frame, st'.bits); }
      PictureNext(job, st, st', data, k, tabs, g, n);
    }
  }

  // -- the frames that tables took, whatever was mapped

  /** Of a run of pages from lo on, k are mapped: the frames reserved meanwhile, at most one for each table that was
      missing. */
  ghost predicate TookTables(cs0: map<nat, Config>, bits: seq<bool>, st: State, id: nat, lo: nat, k: nat, taken: nat) {
    && id in cs0 && UsesKept(cs0, st.configs, id) && FreeCount(st.bits) + taken == FreeCount(bits)
    && taken <= |Missing(cs0, id, lo, k)|
    && forall j: nat :: j < ENTRIES && InDirs(lo, k, j) ==> st.configs[id].pt[j] != NULL
  }

  lemma TookNone(cs: map<nat, Config>, st: State, id: nat, lo: nat)
    requires id in cs && ShapeOk(cs[id]) && st.configs == cs
    ensures TookTables(cs, st.bits, st, id, lo, 0, 0)
  {
    forall j: nat | j < ENTRIES ensures UseKept(SlotOf(cs[id], j), SlotOf(cs[id], j)) {}
  }

  lemma TookMore(cs0: map<nat, Config>, bits: seq<bool>, chain: seq<nat>, failure: nat, st: State, st': State, id: nat,
                 lo: nat, k: nat, taken: nat,
                 frame: nat, flags: Flags, g: Option<Grant>) returns (more: nat)
    requires TookTables(cs0, bits, st, id, lo, k, taken)
             && OneMapped(chain, failure, st, st', id, lo + k, frame, flags, g)
    ensures TookTables(cs0, bits, st', id, lo, k + 1, more)
  {
    hide CanMap, PageMapped, Remapped, Counted, Consistent, Requested, Missing, UsesKept, InDirs, HasRun, SameUses;
    var i := (lo + k) / ENTRIES;
    TookShape(cs0, bits, st, id, lo, k, taken);
    MissingNext(cs0, id, lo, k);
    UsesStillKept(cs0, st.configs, st'.configs, id, i);
    TablesStay(st, st', id, lo, k);
    more := taken;
    if st.configs[id].pt[i] == NULL {
      NotInMissing(cs0, st, id, lo, k, i);
      Bigger(Missing(cs0, id, lo, k), i);
      if HasRun(st.bits, 1) {
        FreeCountRun(st.bits, g.value.frame, 1);
        more := taken + 1;
      }
    } else {
      Bigger(Missing(cs0, id, lo, k), i);
    }
  }

  lemma TookShape(cs0: map<nat, Config>, bits: seq<bool>, st: State, id: nat, lo: nat, k: nat, taken: nat)
    requires TookTables(cs0, bits, st, id, lo, k, taken)
    ensures id in cs0 && id in st.configs && ShapeOk(cs0[id]) && ShapeOk(st.configs[id])
  {
  }

  lemma TablesStay(st: State, st': State, id: nat, lo: nat, k: nat)
    requires (lo + k) / ENTRIES < ENTRIES && SameUses(st.configs, st'.configs, id, (lo + k) / ENTRIES)
    requires forall j: nat :: j < ENTRIES && InDirs(lo, k, j) ==> st.configs[id].pt[j] != NULL
    ensures forall j: nat :: j < ENTRIES && InDirs(lo, k + 1, j) ==> st'.configs[id].pt[j] != NULL
  {
    forall j: nat | j < ENTRIES && InDirs(lo, k + 1, j) ensures st'.configs[id].pt[j] != NULL {
      DirsNext(lo, k, j);
      assert SameUse(SlotOf(st.configs[id], j), SlotOf(st'.configs[id], j), j == (lo + k) / ENTRIES);
    }
  }

  lemma NotInMissing(cs0: map<nat, Config>, st: State, id: nat, lo: nat, k: nat, i: nat)
    requires id in cs0 && UsesKept(cs0, st.configs, id)
    requires forall j: nat :: j < ENTRIES && InDirs(lo, k, j) ==> st.configs[id].pt[j] != NULL
    requires i < ENTRIES && st.configs[id].pt[i] == NULL
    ensures i !in Missing(cs0, id, lo, k) && cs0[id].pt[i] == NULL
  {
    assert UseKept(SlotOf(cs0[id], i), SlotOf(st.configs[id], i));
  }

  /** With fewer free frames in a row than pages, what was reserved for tables is not what an allocation needs. */
  lemma NotAllocated(job: Job, st: State, n: nat, taken: nat)
    requires JobOk(job, n) && job.v + n < PAGES && !HasRun(job.bits, n) && n > 0
    requires TookTables(job.configs, job.bits, st, job.id, job.v, n + 1, taken)
    ensures !Allocated(job, st, n)
  {
    assert job.id in job.configs && ShapeOk(job.configs[job.id]);
    hide Allocated, UsesKept, InDirs, Consistent, Counted, Lookup;
    MissingNext(job.configs, job.id, job.v, n);
    Bigger(Missing(job.configs, job.id, job.v, n), (job.v + n) / ENTRIES);
    hide Missing;
    if Allocated(job, st, n) {
      AllocatedNeeds(job, st, n);
      if n == 1 { FreeCountZero(job.bits); }
    }
  }

  /** Pages of directory indices that are kept up to date and hold no 4M page. */
  ghost predicate PlainRange(configs: map<nat, Config>, tables: map<nat, Table>, chain: seq<nat>, id: nat, v: nat,
                             n: nat)
  {
    id in configs && v + n <= PAGES && forall p: nat :: v <= p < v + n ==> PlainPage(configs, tables, chain, id, p)
  }

  ghost predicate PlainPage(configs: map<nat, Config>, tables: map<nat, Table>, chain: seq<nat>, id: nat, p: nat) {
    p / ENTRIES < ENTRIES && Live(chain, id, p / ENTRIES) && !DirAt(configs, tables, id, p / ENTRIES).pde.Large?
  }

  lemma PlainAt(configs: map<nat, Config>, tables: map<nat, Table>, chain: seq<nat>, id: nat, v: nat, n: nat, i: nat)
    requires PlainRange(configs, tables, chain, id, v, n) && i < n
    ensures id in configs && PlainPage(configs, tables, chain, id, v + i) && v + i < PAGES
  {
  }

  /** What the lookup of a page-aligned address gives. */
  lemma PageAddress(configs: map<nat, Config>, tables: map<nat, Table>, chain: seq<nat>, id: nat, p: nat)
    requires Consistent(configs, tables, chain) && id in configs && p < PAGES
             && PlainPage(configs, tables, chain, id, p)
    ensures ShapeOk(configs[id]) && p * PAGE < SPACE
    ensures var s := SlotOf(configs[id], p * PAGE / LARGE_PAGE);
            && (s.pde.Small? ==> HasTable(s, tables))
            && var a := GetPaddr(configs[id], tables, p * PAGE);
            forall i: nat :: FrameAt(configs, tables, id, p, i) <==> a.Some? && a.value / PAGE == i
  {
    PageStart(p);
    LookupsAgree(configs, tables, chain, id, p * PAGE);
    assert DirAt(configs, tables, id, p / ENTRIES).pde == configs[id].pd[p / ENTRIES];
    var walk := Lookup(configs, tables, id, p);
    if walk.Some? { FrameOf(walk.value.frame); }
    hide Consistent, Lookup, GetPaddr, IsUsed, DirAt;
  }

  lemma PageStart(p: nat)
    requires p < PAGES
    ensures p * PAGE < SPACE && p * PAGE / PAGE == p && p * PAGE % PAGE == 0
            && p * PAGE / LARGE_PAGE == p / ENTRIES < ENTRIES
  {
  }

  lemma FrameOf(x: nat)
    ensures (x * PAGE + 0) / PAGE == x
  {
  }

  /** Directory entries only go in this loop. */
  lemma EntryLeft(build: UnmapBuild, cs0: map<nat, Config>, ts0: map<nat, Table>, cs: map<nat, Config>,
                  ts: map<nat, Table>, chain: seq<nat>, id: nat, lo: nat, p: nat, end: nat)
    requires Removing(build, cs0, ts0, cs, ts, chain, id, lo, p, end, map[]) && id in cs0 && p < PAGES
             && PlainPage(cs0, ts0, chain, id, p)
    ensures var d0, d := DirAt(cs0, ts0, id, p / ENTRIES), DirAt(cs, ts, id, p / ENTRIES);
            d.pde.Empty? || (d.pde == d0.pde && d.pde.Small?)
  {
    RemovingState(build, cs0, ts0, cs, ts, chain, id, lo, p, end, map[]);
    assert UnmappedAt(build, cs0, ts0, cs, ts, chain, id, lo, StopAt(p, end), end, map[], id, p / ENTRIES);
    hide Removing, UnmappedTo, AllPassed, Consistent, DirAt, StopAt, PagesFor, UnmappedLarge;
  }

  lemma EntryAfter(cs: map<nat, Config>, ts: map<nat, Table>, cs': map<nat, Config>, ts': map<nat, Table>,
                   chain: seq<nat>, id: nat, i: nat, d': Dir)
    requires DirEdited(cs, ts, cs', ts', chain, id, i, d') && id in cs && i < ENTRIES && Live(chain, id, i)
             && Consistent(cs', ts', chain)
    ensures id in cs' && ShapeOk(cs'[id]) && cs'[id].pd[i] == d'.pde
  {
    assert DirAt(cs', ts', id, i) == d';
  }

  lemma StepEmpty(build: UnmapBuild, d: Dir, v: nat, end: nat, g: Option<Grant>)
    requires DirOk(d) && v * PAGE < end <= SPACE
    ensures d.pde.Empty? ==> StepDir(build, d, v, end, g).pde.Empty?
  {
  }

  lemma PageInEnd(p: nat, v: nat, n: nat)
    requires v <= p && p * PAGE < (v + n) * PAGE && v + n <= PAGES
    ensures p < v + n && (v + n) * PAGE <= SPACE
  {
  }

  lemma EndOfPages(v: nat, n: nat)
    requires v + n <= PAGES
    ensures v * PAGE <= (v + n) * PAGE <= SPACE
  {
  }

  lemma NothingFresh(tables: map<nat, Table>, lo: nat)
    ensures AllFresh(tables, map[], lo, lo)
  {
  }

  lemma PlainPicture(job: Job, st: State, data: seq<nat>, k: nat, tabs: seq<Tab>, n: nat)
    requires Picture(job, st, data, k, tabs) && JobOk(job, n) && |data| <= n
    ensures PlainRange(st.configs, st.tables, job.chain, job.id, job.v, |data|) && job.v + |data| <= PAGES
  {
    PictureShape(job, st, data, k, tabs);
    assert job.v + n <= PAGES;
    hide Picture, JobOk, DirAt;
    forall p: nat | job.v <= p < job.v + |data| ensures PlainPage(st.configs, st.tables, job.chain, job.id, p) {
      LiveInRange(job, n, p);
      PageDir(job.v, n, p);
      NotLarge(job, st, data, k, tabs, n, p / ENTRIES);
    }
  }

  lemma PageDir(v: nat, n: nat, p: nat)
    requires v <= p < v + n
    ensures InDirs(v, n, p / ENTRIES)
  {
  }

  lemma IsCleanedUp(build: UnmapBuild, job: Job, st: State, mid: seq<bool>, st': State, data: seq<nat>, v: nat,
                    frames: nat)
    requires Consistent(st'.configs, st'.tables, job.chain) && job.v + |data| <= PAGES
    requires FreedTo(st.bits, mid, st.configs, st.tables, job.id, job.v, |data|, frames)
    requires TablesFreed(mid, st'.bits, st.configs, st.tables, st'.configs, st'.tables, job.chain, job.id, frames)
    requires v * PAGE >= (job.v + |data|) * PAGE
    requires Removing(build, st.configs, st.tables, st'.configs, st'.tables, job.chain, job.id, job.v, v,
                      (job.v + |data|) * PAGE, map[])
    ensures CleanedUp(build, job, st, mid, st', data, v, frames)
  {
  }

  // -- one chunk

  /** An allocation between two chunks: all frames so far are mapped, or there is none left. */
  ghost predicate Between(job: Job, st: State, data: seq<nat>, k: nat, tabs: seq<Tab>, n: nat) {
    && Picture(job, st, data, k, tabs) && JobOk(job, n) && k <= |data| <= n
    && (k < |data| ==>
        !HasRun(st.bits, 1) && Starved(job, n) && Lookup(st.configs, st.tables, job.id, job.v + k) == None)
  }

  /** The frames do not suffice, and some of them would go to tables. */
  ghost predicate Starved(job: Job, n: nat) {
    Short(job, n) && Missing(job.configs, job.id, job.v, n) != {}
  }

  lemma BetweenParts(job: Job, st: State, data: seq<nat>, k: nat, tabs: seq<Tab>, n: nat)
    requires Between(job, st, data, k, tabs, n)
    ensures Picture(job, st, data, k, tabs) && JobOk(job, n) && k <= |data| <= n
    ensures k < |data| ==> !HasRun(st.bits, 1) && Starved(job, n)
  {
  }

  /** A chunk that was found comes to the list, if everything before it is mapped. */
  lemma ChunkPlan(job: Job, st: State, data: seq<nat>, k: nat, tabs: seq<Tab>, n: nat, paddr: nat, iter: nat,
                  bits: seq<bool>)
    requires Between(job, st, data, k, tabs, n) && IsChunk(st.bits, bits, paddr, iter) && 1 <= iter
             && |data| + iter <= n
    ensures var more := data + Consecutive(FirstFrameOf(paddr), iter);
            && k == |data| && |more| == |data| + iter && Picture(job, st.(bits := bits), more, k, tabs)
            && RunPlan(job, more, k, n, paddr, job.v + |data|, iter)
  {
    ChunkIsRun(st.bits, bits, paddr, iter);
    if !HasRun(st.bits, 1) { NoFree(st.bits); }
    var more := data + Consecutive(paddr / PAGE, iter);
    hide Picture, JobOk, ClearRun, WithRun, HasRun, RunFrame;
    PictureChunk(job, st, data, tabs, paddr / PAGE, iter, bits);
    forall i: nat | i < iter ensures PlanAt(more, k, paddr, i) { ChunkFrames(data, paddr, iter, i); }
  }

  /** After the chunk was mapped, in full or as far as there were frames for tables. */
  lemma ChunkDone(job: Job, failure: nat, st: State, data: seq<nat>, k: nat, tabs: seq<Tab>, n: nat, pic: bool)
    requires RunState(job, failure, st, data, k, tabs, n, pic) && JobOk(job, n) && k <= |data| <= n
    requires failure == NO_MEMORY && (k < |data| ==> NoFrameLeft(st, job.id, job.v + k))
    ensures Between(job, st, data, k, tabs, n)
  {
    TwoValues();
    hide Picture, JobOk, HasRun, Lookup, Missing, Need, NEVER, NO_MEMORY;
    assert pic && Picture(job, st, data, k, tabs);
    if k < |data| {
      LiveInRange(job, n, job.v + k);
      NoFree(st.bits);
      HoleUnused(job, st, data, k, tabs, n);
      TooFew(job, st, data, k, tabs, n);
    }
  }

  /** A page of the range that was not reached is not in use. */
  lemma HoleUnused(job: Job, st: State, data: seq<nat>, k: nat, tabs: seq<Tab>, n: nat)
    requires Picture(job, st, data, k, tabs) && JobOk(job, n) && k < |data| <= n
    ensures Lookup(st.configs, st.tables, job.id, job.v + k) == None
  {
    LiveInRange(job, n, job.v + k);
    assert PageIs(job, st.configs, st.tables, data, k, job.id, job.v + k);
    assert Lookup(job.configs, job.tables, job.id, job.v + k) == None;
  }

  /** With the wrong test for failure and frames in a row, all is well unless a table got no frame of its own. */
  lemma WrongTestRun(job: Job, failure: nat, st: State, data: seq<nat>, tabs: seq<Tab>, n: nat, pic: bool)
    requires RunState(job, failure, st, data, |data|, tabs, n, pic) && JobOk(job, n) && |data| == n
    ensures Allocated(job, st, n) <==> !Short(job, n)
  {
    hide Picture, JobOk, Need, Allocated;
    assert pic ==> Allocated(job, st, n) by { if pic { PictureAllocated(job, st, data, tabs, n); } }
    JobShape(job, n);
    if Allocated(job, st, n) { AllocatedNeeds(job, st, n); }
  }

  lemma WholePicture(job: Job, st: State, data: seq<nat>, k: nat, tabs: seq<Tab>, n: nat)
    requires Between(job, st, data, k, tabs, n) && !Short(job, n) && |data| == n
    ensures Picture(job, st, data, n, tabs)
  {
  }

  lemma RunPicture(job: Job, failure: nat, st: State, data: seq<nat>, k: nat, tabs: seq<Tab>, n: nat, pic: bool)
    requires RunState(job, failure, st, data, k, tabs, n, pic) && !Short(job, n)
    ensures Picture(job, st, data, k, tabs)
  {
  }

  lemma PictureAllocated(job: Job, st: State, data: seq<nat>, tabs: seq<Tab>, n: nat)
    requires Picture(job, st, data, n, tabs) && |data| == n
    ensures Allocated(job, st, n)
  {
  }

  lemma JobShape(job: Job, n: nat)
    requires JobOk(job, n)
    ensures job.id in job.configs && ShapeOk(job.configs[job.id])
  {
  }

  function FirstFrameOf(paddr: nat): nat { paddr / PAGE }

  // -- the whole range

  ghost predicate AllOrNothing(job: Job, st: State, n: nat, ok: bool) {
    if ok then Allocated(job, st, n) else AsBefore(job, st) && st.bits == job.bits
  }

  ghost predicate HasHole(job: Job, st: State, n: nat) {
    exists p: nat :: job.v <= p < job.v + n && Lookup(st.configs, st.tables, job.id, p) == None
  }

  /** What an allocation in chunks comes to, with failure noticed: `starved` tells that a table could not be had. */
  ghost predicate PagesResult(job: Job, st: State, n: nat, ok: bool, starved: bool) {
    && (ok && Allocated(job, st, n) <==> !Short(job, n))
    && (NoIdleTable(job, n) && TablesHeld(job) ==> (AllOrNothing(job, st, n, ok) <==> !starved))
    && (!starved && !ok ==> AsBefore(job, st))
    && (starved ==> Starved(job, n))
    && (starved && ok ==> HasHole(job, st, n))
    && (n > 0 && HasRun(job.bits, n) ==> ok && (starved <==> Short(job, n)))
  }

  lemma FinishOk(job: Job, st: State, data: seq<nat>, k: nat, tabs: seq<Tab>, n: nat)
    requires Between(job, st, data, k, tabs, n) && |data| == n
    ensures PagesResult(job, st, n, true, k < n)
  {
    BetweenParts(job, st, data, k, tabs, n);
    JobShape(job, n);
    if k == n { PictureAllocated(job, st, data, tabs, n); }
    if k < n { assert HasHole(job, st, n); }
    hide Picture, JobOk, Allocated, Need, HasHole, Lookup, NoIdleTable, TablesHeld, HasRun, AsBefore, Missing;
    if Allocated(job, st, n) { AllocatedNeeds(job, st, n); }
  }

  lemma FailedShort(job: Job, st: State, data: seq<nat>, k: nat, tabs: seq<Tab>, n: nat)
    requires Picture(job, st, data, k, tabs) && JobOk(job, n) && |data| < n && !HasRun(st.bits, 1)
    ensures Short(job, n)
  {
    JobShape(job, n);
    PictureShape(job, st, data, k, tabs);
    NoFree(st.bits);
    PictureReserved(job, st, data, k, tabs);
    TotalReserved(job.bits, st.bits, data, tabs);
    assert |tabs| == |Missing(job.configs, job.id, job.v, k)|;
    MissingMore(job.configs, job.id, job.v, k, n);
    hide Picture, JobOk, HasRun, Missing;
  }

  lemma FinishFail(build: UnmapBuild, job: Job, st: State, mid: seq<bool>, st': State, data: seq<nat>, k: nat,
                   tabs: seq<Tab>, v: nat, n: nat, frames: nat)
    requires Between(job, st, data, k, tabs, n) && |data| < n && !HasRun(st.bits, 1) && !HasRun(job.bits, n)
    requires CleanedUp(build, job, st, mid, st', data, v, frames)
    requires forall i: nat :: frames <= i < |job.bits| ==> job.bits[i]
    ensures PagesResult(job, st', n, false, k < |data|)
  {
    BetweenParts(job, st, data, k, tabs, n);
    hide Between, Picture, JobOk, CleanedUp, NoIdleTable, TablesHeld, HasRun, AsBefore, Short, Starved, Complete;
    FailedShort(job, st, data, k, tabs, n);
    if k < |data| {
      if TablesHeld(job) { FrameLost(build, job, st, mid, st', data, k, tabs, v, n, frames); }
    } else {
      PagesBack(build, job, st, mid, st', data, tabs, v, n, frames);
      if NoIdleTable(job, n) {
        IsComplete(build, job, st, mid, st', data, tabs, v, n, frames);
        FramesBack(build, job, st, mid, st', data, tabs, v, n, frames);
      }
    }
  }

  lemma IsComplete(build: UnmapBuild, job: Job, st: State, mid: seq<bool>, st': State, data: seq<nat>, tabs: seq<Tab>,
                   v: nat, n: nat, frames: nat)
    requires Picture(job, st, data, |data|, tabs) && JobOk(job, n) && |data| <= n && NoIdleTable(job, n)
    requires CleanedUp(build, job, st, mid, st', data, v, frames) && AsBefore(job, st')
    ensures Complete(build, job, st, mid, st', data, tabs, v, n, frames)
  {
  }

  lemma BetweenStart(job: Job, n: nat)
    requires JobOk(job, n)
    ensures Between(job, State(job.configs, job.tables, job.bits), [], 0, [], n)
  {
    PictureStart(job, n);
  }

  lemma ResultOk(job: Job, st: State, n: nat, starved: bool)
    requires PagesResult(job, st, n, true, starved)
    ensures Allocated(job, st, n) <==> !Short(job, n)
    ensures starved ==> HasHole(job, st, n)
    ensures n > 0 && HasRun(job.bits, n) ==> (starved <==> Short(job, n))
  {
    hide Allocated, Short, HasHole, HasRun, NoIdleTable, TablesHeld, AllOrNothing;
  }

  lemma ResultParts(job: Job, st: State, n: nat, ok: bool, starved: bool)
    requires PagesResult(job, st, n, ok, starved)
    ensures ok && Allocated(job, st, n) <==> !Short(job, n)
  {
    hide Allocated, Short, HasHole, HasRun, NoIdleTable, TablesHeld, AllOrNothing;
  }

  lemma JobGrants(job: Job, n: nat, addrs: map<nat, nat>)
    requires CanAlloc(job, n, addrs)
    ensures GrantsOk(job.configs, job.tables, job.id, GrantsAt(addrs))
  {
  }

  lemma TwoValues()
    ensures NO_MEMORY < SPACE <= NEVER
  {
  }

  /** A chunk has just its pages; the value that stands for failure stands for one more. */
  lemma ChunkSize(job: Job, n: nat, addrs: map<nat, nat>, paddr: nat, v: nat, iter: nat)
    requires CanAlloc(job, n, addrs) && iter <= n
    ensures var m := PagesFor(RoundedSize(paddr, v * PAGE, iter * PAGE));
            (paddr % PAGE == 0 ==> m == iter) && (paddr == NO_MEMORY ==> m == iter + 1)
  {
    PagesToMap(paddr, v, iter);
    assert SmallOnly(job.v, (n + 1) * PAGE);
    hide CanAlloc, RoundedSize, PagesFor;
  }

  /** With the value for failure mapped, nothing was allocated. */
  lemma WrongTestNone(job: Job, st: State, n: nat, taken: nat, addrs: map<nat, nat>)
    requires CanAlloc(job, n, addrs) && n > 0 && !HasRun(job.bits, n)
    requires TookTables(job.configs, job.bits, st, job.id, job.v, n + 1, taken)
    ensures !Allocated(job, st, n)
  {
    hide Allocated, HasRun, TookTables, JobOk, GrantsOk;
    NotAllocated(job, st, n, taken);
  }

  lemma JobFits(job: Job, n: nat, addrs: map<nat, nat>)
    requires CanAlloc(job, n, addrs)
    ensures JobOk(job, n)
  {
  }

  lemma AlignedChunk(now: seq<bool>, after: seq<bool>, paddr: nat, n: nat)
    requires IsChunk(now, after, paddr, n)
    ensures paddr % PAGE == 0 && paddr != NO_MEMORY
  {
    NotFailure(paddr, n);
  }

  /** The pages of a chunk can be mapped. */
  lemma ChunkRuns(job: Job, configs: map<nat, Config>, tables: map<nat, Table>, n: nat, addrs: map<nat, nat>, done: nat,
                  m: nat)
    requires CanAlloc(job, n, addrs) && GrantsOk(configs, tables, job.id, GrantsAt(addrs)) && done + m <= n + 1
    ensures CanRun(configs, tables, job.chain, job.id, job.v + done, m, addrs)
  {
    hide GrantsOk;
  }

  /** A run of pages that can be mapped. */
  ghost predicate CanRun(configs: map<nat, Config>, tables: map<nat, Table>, chain: seq<nat>, id: nat, lo: nat, m: nat,
                         addrs: map<nat, nat>)
  {
    && GrantsOk(configs, tables, id, GrantsAt(addrs)) && lo + m <= PAGES
    && forall p: nat :: lo <= p < lo + m ==> p / ENTRIES in addrs && Live(chain, id, p / ENTRIES)
  }

  /** Fewer frames are free than the allocation needs. */
  ghost predicate Short(job: Job, n: nat) {
    job.id in job.configs && ShapeOk(job.configs[job.id]) && FreeCount(job.bits) < Need(job, n)
  }

  /** The frames of a chunk, as entries of the list from k on, and the pages they are for. */
  ghost predicate RunPlan(job: Job, data: seq<nat>, k: nat, n: nat, paddr: nat, lo: nat, m: nat) {
    && JobOk(job, n) && k + m == |data| <= n && lo == job.v + k
    && forall i: nat :: i < m ==> PlanAt(data, k, paddr, i)
  }

  predicate PlanAt(data: seq<nat>, k: nat, paddr: nat, i: nat) { k + i < |data| && data[k + i] == RunFrame(paddr, i) }

  /** On the way: the picture, or, with the wrong test for failure, a table without a frame of its own. */
  ghost predicate RunState(job: Job, failure: nat, st: State, data: seq<nat>, k: nat, tabs: seq<Tab>, n: nat,
                           pic: bool)
  {
    if pic then Picture(job, st, data, k, tabs) else failure == NEVER && Short(job, n)
  }

  /** One more page of a chunk. */
  lemma RunOn(job: Job, failure: nat, st: State, st': State, data: seq<nat>, k: nat, i: nat, tabs: seq<Tab>,
              g: Option<Grant>, n: nat,
              paddr: nat, lo: nat, m: nat, pic: bool) returns (tabs': seq<Tab>, pic': bool)
    requires RunPlan(job, data, k, n, paddr, lo, m) && i < m && RunState(job, failure, st, data, k + i, tabs, n, pic)
    requires OneMapped(job.chain, failure, st, st', job.id, lo + i, RunFrame(paddr, i), job.flags, g)
    ensures RunState(job, failure, st', data, k + i + 1, tabs', n, pic')
  {
    hide Picture, JobOk, CanMap, PageMapped, Remapped, SameUses, Counted, Consistent, HasRun, Need, Requested, ClearRun,
      WithRun, RunFrame, OneMapped;
    tabs', pic' := tabs, pic;
    if pic {
      assert PlanAt(data, k, paddr, i);
      LiveInRange(job, n, lo + i);
      PictureOn(job, failure, st, st', data, k + i, tabs, g, n);
      var d := (job.v + (k + i)) / ENTRIES;
      var made := st.configs[job.id].pt[d] == NULL;
      if made && !HasRun(st.bits, 1) {
        WrongTable(job.chain, failure, st, st', job.id, lo + i, RunFrame(paddr, i), job.flags, g);
        pic' := false;
      } else {
        tabs' := TabsAfter(tabs, made, d, g);
      }
    }
  }

  lemma WrongTable(chain: seq<nat>, failure: nat, st: State, st': State, id: nat, p: nat, frame: nat, flags: Flags,
                   g: Option<Grant>)
    requires OneMapped(chain, failure, st, st', id, p, frame, flags, g)
    requires st.configs[id].pt[p / ENTRIES] == NULL && !HasRun(st.bits, 1)
    ensures failure == NEVER
  {
    hide CanMap, PageMapped, Remapped, SameUses, Counted, Consistent;
  }

  lemma PageToMap(configs: map<nat, Config>, tables: map<nat, Table>, configs': map<nat, Config>,
                  tables': map<nat, Table>, chain: seq<nat>, id: nat, lo: nat, m: nat, i: nat, addrs: map<nat, nat>)
    requires CanRun(configs, tables, chain, id, lo, m, addrs) && i < m
             && GrantsOk(configs', tables', id, GrantsAt(addrs))
    ensures CanMapNext(configs', tables', chain, id, lo + i, addrs)
  {
    hide GrantsOk;
    assert (lo + i) / ENTRIES in addrs;
  }

  lemma RunStarts(job: Job, failure: nat, st: State, data: seq<nat>, k: nat, tabs: seq<Tab>, n: nat)
    requires Picture(job, st, data, k, tabs)
    ensures RunState(job, failure, st, data, k, tabs, n, true)
  {
  }

  lemma RunShape(configs: map<nat, Config>, tables: map<nat, Table>, chain: seq<nat>, id: nat, lo: nat, m: nat,
                 addrs: map<nat, nat>)
    requires CanRun(configs, tables, chain, id, lo, m, addrs)
    ensures GrantsOk(configs, tables, id, GrantsAt(addrs)) && id in configs && ShapeOk(configs[id])
  {
  }

  class VirtualMemory {
    const frames: Pmm.FrameAllocator
    const spaces: AddressSpaces
    const failure: nat
    const build: UnmapBuild

    /** Frame numbers fit the 20 bits of an entry. */
    ghost predicate Valid()
      reads this, frames, frames.bitmaps, spaces
    {
      && frames.build.exactMasks && frames.build.resetOnSkip && frames.Ready() && frames.maxSize <= SPACE
      && failure in {NO_MEMORY, NEVER}
      && spaces.Valid()
    }

    ghost function Bits(): seq<bool>
      reads frames
    {
      Pmm.FrameBits(frames.levels)
    }

    ghost function Now(): State
      reads this, frames, spaces
    {
      State(spaces.configs, spaces.tables, Bits())
    }

    ghost function StartJob(id: nat, v: nat, flags: Flags): Job
      reads this, frames, spaces
    {
      Job(spaces.configs, spaces.tables, spaces.chain, Bits(), id, v, flags)
    }

    constructor (frames: Pmm.FrameAllocator, spaces: AddressSpaces, failure: nat, build: UnmapBuild)
      requires frames.build.exactMasks && frames.build.resetOnSkip && frames.Ready() && frames.maxSize <= SPACE
               && spaces.Valid()
      requires failure in {NO_MEMORY, NEVER}
      ensures Valid() && this.frames == frames && this.spaces == spaces && this.failure == failure
              && this.build == build
    {
      this.frames, this.spaces, this.failure, this.build := frames, spaces, failure, build;
    }

    /** The frame allocator as its callers see it: an address, or `UINTPTR_MAX`. */
    method PmmAlloc(n: nat) returns (paddr: nat)
      requires Valid() && n > 0
      modifies frames, frames.bitmaps
      ensures Valid()
      ensures paddr == NO_MEMORY <==> !HasRun(old(Bits()), n)
      ensures paddr == NO_MEMORY ==> frames.levels == old(frames.levels)
      ensures paddr < SPACE
      ensures paddr != NO_MEMORY ==> IsChunk(old(Bits()), Bits(), paddr, n)
      ensures paddr != NO_MEMORY ==> Pmm.SpotAt(old(frames.levels), frames.build.wideAddress, n * Pmm.FRAME_SIZE, paddr)
      ensures Pmm.SlotFound(old(Bits()), frames.build.wideAddress, n * Pmm.FRAME_SIZE,
                            if paddr == NO_MEMORY then None else Some(paddr))
    {
      hide Pmm.SlotFound, ClearRun, IsChunk, Pmm.SpotAt, Pmm.FrameBits, Pmm.TakesRun, Consistent, Pmm.Consistent,
        Pmm.TailSet, Pmm.BytesGiven;
      ghost var before := frames.levels;
      assert Pmm.FRAME_SIZE == PAGE;
      var r := frames.AllocFrames(n);
      if r.None? { return NO_MEMORY; }
      paddr := r.value;
      TakenFrames(before, frames.levels, paddr, n, frames.maxSize);
      ChunkIsRun(old(Bits()), Bits(), paddr, n);
    }

    /** Frees one frame; a frame that is not memory is left alone. */
    method FreeFrame(x: nat)
      requires Valid()
      modifies frames, frames.bitmaps
      ensures Valid() && |Bits()| == |old(Bits())|
      ensures forall i: nat :: i < |Bits()| ==>
        (Bits()[i] <==> old(Bits())[i] && !(i < Pmm.NumFrames(frames.maxSize) && x == i))
    {
      hide Consistent;
      frames.Free(x * PAGE, PAGE);
      OneFrame(x, frames.maxSize);
      hide Pmm.NumFrames;
    }

    /** Storage for a page table: an address, and a frame if there is one. */
    method NewTable(addr: nat) returns (g: Option<Grant>)
      requires Valid()
      modifies frames, frames.bitmaps
      ensures Valid()
      ensures g.None? <==> failure == NO_MEMORY && !HasRun(old(Bits()), 1)
      ensures g.None? ==> frames.levels == old(frames.levels)
      ensures g.Some? ==> g.value.table == addr && TableFrame(old(Bits()), Bits(), failure, g.value.frame)
    {
      hide Consistent, HasRun, ClearRun, WithRun, Pmm.FrameBits;
      var paddr := PmmAlloc(1);
      if paddr == failure { return None; }
      g := Some(Grant(addr, paddr / PAGE));
    }

    /** Maps one page, with a new table if there is none; fails if there is no frame for the table. */
    method MapOne(id: nat, p: nat, frame: nat, flags: Flags, addrs: map<nat, nat>) returns (ok: bool,
                  ghost g: Option<Grant>)
      requires Valid() && CanMapNext(spaces.configs, spaces.tables, spaces.chain, id, p, addrs)
      modifies frames, frames.bitmaps, spaces`configs, spaces`tables
      ensures Valid() && GrantsOk(spaces.configs, spaces.tables, id, GrantsAt(addrs))
      ensures ok ==> OneMapped(spaces.chain, failure, old(Now()), Now(), id, p, frame, flags, g)
      ensures !ok ==>
        failure == NO_MEMORY && Now() == old(Now()) && frames.levels == old(frames.levels) && NoFrameLeft(Now(), id, p)
    {
      ghost var st, cs, ts := Now(), spaces.configs, spaces.tables;
      var i := p / ENTRIES;
      OwnedSlot(spaces.configs, spaces.tables, spaces.chain, id, i);
      var grant: Option<Grant> := None;
      var need := spaces.configs[id].pt[i] == NULL;
      assert !need ==> CanMap(SlotOf(cs[id], i), ts, None);
      hide Consistent, Pmm.FrameBits, Counted, Remapped, PageMapped, SameUses, Requested, GrantsOk, HasRun, TableFrame,
        SlotOk, CanMap, GrantsAt;
      if need {
        grant := NewTable(addrs[i]);
        if grant.None? { return false, None; }
        GrantAt(cs, ts, id, addrs, i, grant.value.frame);
        assert CanMap(SlotOf(cs[id], i), ts, grant) by { GrantMaps(SlotOf(cs[id], i), ts, grant); }
      }
      g := grant;
      ok := spaces.MapPage(id, p, frame, flags, grant);
      AddrsLeft(cs, ts, spaces.configs, spaces.tables, id, i, addrs);
    }

    /** Tries for `remaining` frames in a row, then for one less, and so on. */
    method LargestChunk(remaining: nat) returns (paddr: nat, iter: nat)
      requires Valid() && remaining > 0
      modifies frames, frames.bitmaps
      ensures Valid() && 1 <= iter <= remaining
      ensures paddr == NO_MEMORY ==> frames.levels == old(frames.levels) && !HasRun(old(Bits()), iter)
      ensures paddr != NO_MEMORY ==> IsChunk(old(Bits()), Bits(), paddr, iter)
      ensures HasRun(old(Bits()), remaining) ==> paddr != NO_MEMORY && iter == remaining
      ensures iter < remaining ==> !HasRun(old(Bits()), iter + 1)
      ensures paddr == failure ==> iter == 1 && paddr == NO_MEMORY
      ensures failure == NEVER ==> iter == remaining && (paddr == NO_MEMORY <==> !HasRun(old(Bits()), remaining))
    {
      hide ClearRun, WithRun, IsChunk, HasRun, Pmm.FrameBits, Consistent;
      ghost var bits, levels := Bits(), frames.levels;
      iter := remaining;
      paddr := PmmAlloc(iter);
      while paddr == failure && iter > 1
        invariant Valid() && 1 <= iter <= remaining && (failure == NEVER ==> iter == remaining && paddr != failure)
        invariant paddr == NO_MEMORY <==> !HasRun(bits, iter)
        invariant paddr == NO_MEMORY ==> frames.levels == levels
        invariant paddr != NO_MEMORY ==> IsChunk(bits, Bits(), paddr, iter)
        invariant iter < remaining ==> !HasRun(bits, remaining) && !HasRun(bits, iter + 1)
      {
        iter := iter - 1;
        assert paddr == NO_MEMORY && Bits() == bits;
        paddr := PmmAlloc(iter);
      }
    }

    lemma NowIs()
      ensures Now() == State(spaces.configs, spaces.tables, Bits()) && Now().configs == spaces.configs
              && Now().bits == Bits()
    {
    }

    /** Maps the next page of a run. */
    method MapStep(paddr: nat, id: nat, lo: nat, i: nat, ghost m: nat, flags: Flags, addrs: map<nat, nat>,
                   ghost job: Job, ghost n: nat, ghost data: seq<nat>, ghost k: nat, ghost tabs: seq<Tab>,
                   ghost pic0: bool, ghost pic: bool, ghost cs0: map<nat, Config>, ghost bits0: seq<bool>,
                   ghost taken: nat)
      returns (ok: bool, ghost tabs': seq<Tab>, ghost pic': bool, ghost taken': nat)
      requires Valid() && CanMapNext(spaces.configs, spaces.tables, spaces.chain, id, lo + i, addrs)
      requires TookTables(cs0, bits0, Now(), id, lo, i, taken)
      requires pic0 ==>
        && RunPlan(job, data, k, n, paddr, lo, m)
        && i < m
        && job.id == id
        && job.chain == spaces.chain
        && job.flags == flags
      requires pic0 ==> RunState(job, failure, Now(), data, k + i, tabs, n, pic)
      modifies frames, frames.bitmaps, spaces`configs, spaces`tables
      ensures Valid() && GrantsOk(spaces.configs, spaces.tables, id, GrantsAt(addrs))
      ensures ok ==> TookTables(cs0, bits0, Now(), id, lo, i + 1, taken')
      ensures ok && pic0 ==> RunState(job, failure, Now(), data, k + i + 1, tabs', n, pic')
      ensures !ok ==> Now() == old(Now()) && failure == NO_MEMORY && NoFrameLeft(Now(), id, lo + i)
      ensures !ok ==> tabs' == tabs && pic' == pic && taken' == taken
    {
      ghost var st := Now();
      ghost var g;
      tabs', pic', taken' := tabs, pic, taken;
      hide *;
      ok, g := MapOne(id, lo + i, RunFrame(paddr, i), flags, addrs);
      if !ok { return; }
      taken' := TookMore(cs0, bits0, spaces.chain, failure, st, Now(), id, lo, i, taken, RunFrame(paddr, i), flags, g);
      if pic0 { tabs', pic' := RunOn(job, failure, st, Now(), data, k, i, tabs, g, n, paddr, lo, m, pic); }
    }

    /** Maps a run of pages, as far as there are frames for the tables it needs. */
    method MapRun(paddr: nat, id: nat, lo: nat, m: nat, flags: Flags, addrs: map<nat, nat>, ghost job: Job,
                  ghost n: nat, ghost data: seq<nat>, ghost k: nat, ghost tabs0: seq<Tab>, ghost pic0: bool)
      returns (mapped: nat, ghost tabs: seq<Tab>, ghost pic: bool, ghost taken: nat)
      requires Valid() && CanRun(spaces.configs, spaces.tables, spaces.chain, id, lo, m, addrs)
      requires pic0 ==> Picture(job, Now(), data, k, tabs0) && RunPlan(job, data, k, n, paddr, lo, m)
      requires pic0 ==> job.id == id && job.chain == spaces.chain && job.flags == flags
      modifies frames, frames.bitmaps, spaces`configs, spaces`tables
      ensures Valid() && GrantsOk(spaces.configs, spaces.tables, id, GrantsAt(addrs)) && mapped <= m
      ensures mapped < m ==> failure == NO_MEMORY && NoFrameLeft(Now(), id, lo + mapped)
      ensures pic0 ==> RunState(job, failure, Now(), data, k + mapped, tabs, n, pic)
      ensures TookTables(old(spaces.configs), old(Bits()), Now(), id, lo, mapped, taken)
    {
      hide *;
      ghost var cs, ts, bits := spaces.configs, spaces.tables, Bits();
      tabs, pic, taken, mapped := tabs0, pic0, 0, 0;
      RunShape(cs, ts, spaces.chain, id, lo, m, addrs);
      NowIs();
      TookNone(cs, Now(), id, lo);
      if pic0 { RunStarts(job, failure, Now(), data, k, tabs, n); }
      while mapped < m
        invariant Valid() && GrantsOk(spaces.configs, spaces.tables, id, GrantsAt(addrs)) && mapped <= m
        invariant pic0 ==> RunState(job, failure, Now(), data, k + mapped, tabs, n, pic)
        invariant TookTables(cs, bits, Now(), id, lo, mapped, taken)
      {
        PageToMap(cs, ts, spaces.configs, spaces.tables, spaces.chain, id, lo, m, mapped, addrs);
        var ok;
        ok, tabs, pic, taken := MapStep(paddr, id, lo, mapped, m, flags, addrs, job, n, data, k, tabs, pic0, pic, cs,
                                        bits, taken);
        if !ok { break; }
        mapped := mapped + 1;
      }
    }

    /** Frees the frames behind the mapped pages of a range. */
    method FreeFrames(id: nat, v: nat, n: nat)
      requires Valid() && PlainRange(spaces.configs, spaces.tables, spaces.chain, id, v, n)
      modifies frames, frames.bitmaps
      ensures Valid() && FreedTo(old(Bits()), Bits(), spaces.configs, spaces.tables, id, v, n,
                                 Pmm.NumFrames(frames.maxSize))
    {
      hide *;
      ghost var cs, ts, bits := spaces.configs, spaces.tables, Bits();
      NothingFreed(bits, cs, ts, id, v, Pmm.NumFrames(frames.maxSize));
      for i := 0 to n
        invariant Valid() && FreedTo(bits, Bits(), cs, ts, id, v, i, Pmm.NumFrames(frames.maxSize))
      {
        FreeFrameBehind(id, v, n, i, bits);
      }
    }

    method FreeFrameBehind(id: nat, v: nat, ghost n: nat, i: nat, ghost bits: seq<bool>)
      requires Valid() && PlainRange(spaces.configs, spaces.tables, spaces.chain, id, v, n) && i < n
      requires FreedTo(bits, Bits(), spaces.configs, spaces.tables, id, v, i, Pmm.NumFrames(frames.maxSize))
      modifies frames, frames.bitmaps
      ensures Valid() && FreedTo(bits, Bits(), spaces.configs, spaces.tables, id, v, i + 1,
                                 Pmm.NumFrames(frames.maxSize))
    {
      assert Consistent(spaces.configs, spaces.tables, spaces.chain);
      hide Consistent, Pmm.FrameBits, FreedTo, FrameAt, GetPaddr, PlainRange, PlainPage, Pmm.NumFrames, Pmm.Consistent,
        Pmm.TailSet, SlotOf, HasTable;
      ghost var now := Bits();
      PlainAt(spaces.configs, spaces.tables, spaces.chain, id, v, n, i);
      PageAddress(spaces.configs, spaces.tables, spaces.chain, id, v + i);
      var a := GetPaddr(spaces.configs[id], spaces.tables, (v + i) * PAGE);
      if a.Some? { FreeFrame(a.value / PAGE); }
      FreedMore(bits, now, Bits(), spaces.configs, spaces.tables, id, v, i, Pmm.NumFrames(frames.maxSize));
    }

    /** Unmaps the next page of a range, and frees the frame of its table if that is given up. */
    method UnmapOne(id: nat, p: nat, end: nat, ghost lo: nat, ghost cs0: map<nat, Config>, ghost ts0: map<nat, Table>,
                    ghost bits0: seq<bool>)
      returns (next: nat)
      requires Valid() && id in cs0 && Consistent(cs0, ts0, spaces.chain) && UnmapsFor(spaces.chain, id, end)
               && end <= SPACE
      requires lo <= p < PAGES && p * PAGE < end && PlainPage(cs0, ts0, spaces.chain, id, p)
      requires Removing(build, cs0, ts0, spaces.configs, spaces.tables, spaces.chain, id, lo, p, end, map[])
      requires TablesFreed(bits0, Bits(), cs0, ts0, spaces.configs, spaces.tables, spaces.chain, id,
                           Pmm.NumFrames(frames.maxSize))
      modifies frames, frames.bitmaps, spaces`configs, spaces`tables
      ensures Valid() && next > p
      ensures Removing(build, cs0, ts0, spaces.configs, spaces.tables, spaces.chain, id, lo, next, end, map[])
      ensures TablesFreed(bits0, Bits(), cs0, ts0, spaces.configs, spaces.tables, spaces.chain, id,
                          Pmm.NumFrames(frames.maxSize))
    {
      ghost var cs, ts, now := spaces.configs, spaces.tables, Bits();
      var i := p / ENTRIES;
      RemovingAt(build, cs0, ts0, cs, ts, spaces.chain, id, lo, p, end, map[]);
      EntryLeft(build, cs0, ts0, cs, ts, spaces.chain, id, lo, p, end);
      assert DirAt(cs, ts, id, i).pde == cs[id].pd[i];
      hide Consistent, Removing, TablesFreed, StepDir, DirEdited, DirAt, UnmapsFor, Pmm.FrameBits, Pmm.NumFrames,
        Pmm.Consistent, Pmm.TailSet, NextPageOf, DirOk,
        Whole, GrantOk;
      var entry := spaces.configs[id].pd[i];
      var ok;
      ok, next := spaces.UnmapStep(build, id, p, end, None);
      StepEmpty(build, DirAt(cs, ts, id, i), p, end, None);
      NextInRange(p, DirAt(cs, ts, id, i));
      EntryAfter(cs, ts, spaces.configs, spaces.tables, spaces.chain, id, i,
                 StepDir(build, DirAt(cs, ts, id, i), p, end, None));
      if entry.Small? && spaces.configs[id].pd[i].Empty? { FreeFrame(entry.frame); }
      TableFreed(bits0, now, Bits(), cs0, ts0, cs, ts, spaces.configs, spaces.tables, spaces.chain, id, i,
                 StepDir(build, DirAt(cs, ts, id, i), p, end, None), Pmm.NumFrames(frames.maxSize));
      RemovingOn(build, cs0, ts0, cs, ts, spaces.configs, spaces.tables, spaces.chain, id, lo, p, next, end, map[]);
    }

    /** Unmaps a range of pages, with the frames of the tables that are given up. */
    method UnmapRange(id: nat, v: nat, n: nat) returns (ghost next: nat)
      requires Valid() && PlainRange(spaces.configs, spaces.tables, spaces.chain, id, v, n)
               && UnmapsFor(spaces.chain, id, (v + n) * PAGE)
      modifies frames, frames.bitmaps, spaces`configs, spaces`tables
      ensures Valid() && next * PAGE >= (v + n) * PAGE
      ensures Removing(build, old(spaces.configs), old(spaces.tables), spaces.configs, spaces.tables, spaces.chain, id,
                       v, next, (v + n) * PAGE, map[])
      ensures TablesFreed(old(Bits()), Bits(), old(spaces.configs), old(spaces.tables), spaces.configs, spaces.tables,
                          spaces.chain, id,
                          Pmm.NumFrames(frames.maxSize))
    {
      ghost var cs, ts, bits := spaces.configs, spaces.tables, Bits();
      var end := (v + n) * PAGE;
      EndOfPages(v, n);
      assert Consistent(cs, ts, spaces.chain) && id in cs;
      NothingFresh(ts, v);
      RemovingStart(build, cs, ts, spaces.chain, id, v, end, map[]);
      NoTableFreed(bits, cs, ts, spaces.chain, id, Pmm.NumFrames(frames.maxSize));
      hide Consistent, Removing, TablesFreed, Pmm.FrameBits, Pmm.NumFrames, Pmm.Consistent, Pmm.TailSet, UnmapsFor,
        PlainRange, PlainPage, Valid;
      var p := v;
      while p * PAGE < end
        invariant Valid() && v <= p
        invariant Removing(build, cs, ts, spaces.configs, spaces.tables, spaces.chain, id, v, p, end, map[])
        invariant TablesFreed(bits, Bits(), cs, ts, spaces.configs, spaces.tables, spaces.chain, id,
                              Pmm.NumFrames(frames.maxSize))
        decreases end - p * PAGE
      {
        PageInEnd(p, v, n);
        PlainAt(cs, ts, spaces.chain, id, v, n, p - v);
        p := UnmapOne(id, p, end, v, cs, ts, bits);
      }
      next := p;
    }

    /** The cleanup: frees the frames of the pages mapped so far and unmaps the pages. */
    method GiveBack(id: nat, v: nat, done: nat, ghost job: Job, ghost n: nat, ghost data: seq<nat>, ghost k: nat,
                    ghost tabs: seq<Tab>)
      returns (ghost mid: seq<bool>, ghost next: nat)
      requires Valid() && Picture(job, Now(), data, k, tabs) && JobOk(job, n) && |data| == done <= n
      requires job.id == id && job.v == v && job.chain == spaces.chain
      modifies frames, frames.bitmaps, spaces`configs, spaces`tables
      ensures Valid() && CleanedUp(build, job, old(Now()), mid, Now(), data, next, Pmm.NumFrames(frames.maxSize))
    {
      hide *;
      ghost var st := Now();
      NowIs();
      PlainPicture(job, st, data, k, tabs, n);
      PictureParts(job, st, data, k, tabs, n);
      FreeFrames(id, v, done);
      mid := Bits();
      NowIs();
      next := UnmapRange(id, v, done);
      NowIs();
      ValidParts();
      IsCleanedUp(build, job, st, mid, Now(), data, next, Pmm.NumFrames(frames.maxSize));
    }

    lemma ValidParts()
      requires Valid()
      ensures Consistent(spaces.configs, spaces.tables, spaces.chain) && failure in {NO_MEMORY, NEVER}
    {
    }

    lemma BitsAre()
      ensures Bits() == Pmm.FrameBits(frames.levels) && Now() == State(spaces.configs, spaces.tables, Bits())
    {
    }

    /** Maps the chunk that was found, or the value that stands for none. */
    method MapChunk(id: nat, v: nat, done: nat, paddr: nat, iter: nat, flags: Flags, addrs: map<nat, nat>,
                    ghost job: Job, ghost n: nat, ghost data: seq<nat>, ghost tabs: seq<Tab>)
      returns (ghost k: nat, ghost tabs': seq<Tab>)
      requires Valid() && CanAlloc(job, n, addrs) && GrantsOk(spaces.configs, spaces.tables, id, GrantsAt(addrs))
      requires job.id == id && job.v == v && job.chain == spaces.chain && job.flags == flags
      requires done + iter <= n && iter > 0 && (failure == NEVER ==> done == 0 && iter == n)
      requires paddr != NO_MEMORY ==> paddr % PAGE == 0 && |data| == done + iter
      requires paddr != NO_MEMORY ==>
        Picture(job, Now(), data, done, tabs) && RunPlan(job, data, done, n, paddr, v + done, iter)
      requires paddr == NO_MEMORY ==>
        failure == NEVER && Now() == State(job.configs, job.tables, job.bits) && !HasRun(job.bits, n)
      modifies frames, frames.bitmaps, spaces`configs, spaces`tables
      ensures Valid() && GrantsOk(spaces.configs, spaces.tables, id, GrantsAt(addrs))
      ensures failure == NO_MEMORY ==> Between(job, Now(), data, k, tabs', n)
      ensures failure == NEVER ==> (Allocated(job, Now(), n) <==> paddr != NO_MEMORY && !Short(job, n))
      ensures paddr != NO_MEMORY && |data| == n && !Short(job, n) ==> Picture(job, Now(), data, n, tabs')
    {
      hide *;
      ValidParts();
      TwoValues();
      JobFits(job, n, addrs);
      ChunkSize(job, n, addrs, paddr, v + done, iter);
      var m := PagesFor(RoundedSize(paddr, (v + done) * PAGE, iter * PAGE));
      NowIs();
      ChunkRuns(job, spaces.configs, spaces.tables, n, addrs, done, m);
      var mapped;
      ghost var pic, taken;
      mapped, tabs', pic, taken := MapRun(paddr, id, v + done, m, flags, addrs, job, n, data, done, tabs,
                                          paddr != NO_MEMORY);
      k := done + mapped;
      if paddr == NO_MEMORY {
        WrongTestNone(job, Now(), n, taken, addrs);
      } else if failure == NO_MEMORY {
        ChunkDone(job, failure, Now(), data, k, tabs', n, pic);
        if |data| == n && !Short(job, n) { WholePicture(job, Now(), data, k, tabs', n); }
      } else {
        WrongTestRun(job, failure, Now(), data, tabs', n, pic);
        if !Short(job, n) { RunPicture(job, failure, Now(), data, k, tabs', n, pic); }
      }
    }

    /** Takes the largest chunk of frames for the rest of a range, and maps it. */
    method Chunk(id: nat, v: nat, done: nat, remaining: nat, flags: Flags, addrs: map<nat, nat>,
                 ghost job: Job, ghost n: nat, ghost data: seq<nat>, ghost k: nat, ghost tabs: seq<Tab>)
      returns (got: bool, iter: nat, ghost data': seq<nat>, ghost k': nat, ghost tabs': seq<Tab>)
      requires Valid() && CanAlloc(job, n, addrs) && Between(job, Now(), data, k, tabs, n)
      requires done == |data| && done + remaining == n && remaining > 0
      requires job.id == id && job.v == v && job.chain == spaces.chain && job.flags == flags
      requires GrantsOk(spaces.configs, spaces.tables, id, GrantsAt(addrs))
      requires failure == NEVER ==> done == 0 && Now() == State(job.configs, job.tables, job.bits)
      modifies frames, frames.bitmaps, spaces`configs, spaces`tables
      ensures Valid() && GrantsOk(spaces.configs, spaces.tables, id, GrantsAt(addrs))
      ensures !got ==> failure == NO_MEMORY && Now() == old(Now()) && !HasRun(Bits(), 1)
      ensures !got ==> data' == data && k' == k && tabs' == tabs
      ensures got ==> 1 <= iter <= remaining
      ensures got && failure == NO_MEMORY ==> Between(job, Now(), data', k', tabs', n) && |data'| == done + iter
      ensures HasRun(old(Bits()), remaining) ==> got && iter == remaining
      ensures failure == NEVER ==>
        got && iter == remaining && (Allocated(job, Now(), n) <==> HasRun(job.bits, n) && !Short(job, n))
    {
      hide *;
      ghost var st := Now();
      data', k', tabs' := data, k, tabs;
      BetweenParts(job, st, data, k, tabs, n);
      ValidParts();
      TwoValues();
      var paddr;
      BitsAre();
      paddr, iter := LargestChunk(remaining);
      BitsAre();
      got := paddr != failure;
      if !got { return; }
      if paddr != NO_MEMORY {
        ChunkPlan(job, st, data, k, tabs, n, paddr, iter, Bits());
        AlignedChunk(st.bits, Bits(), paddr, iter);
        data' := data + Consecutive(FirstFrameOf(paddr), iter);
      }
      k', tabs' := MapChunk(id, v, done, paddr, iter, flags, addrs, job, n, data', tabs);
    }

    lemma JobIs(id: nat, v: nat, flags: Flags)
      ensures var job := StartJob(id, v, flags);
              && job.configs == spaces.configs && job.tables == spaces.tables && job.chain == spaces.chain
              && job.bits == Bits()
              && job.id == id && job.v == v && job.flags == flags && Now() == State(job.configs, job.tables, job.bits)
    {
    }

    lemma TailBits()
      requires Valid()
      ensures forall i: nat :: Pmm.NumFrames(frames.maxSize) <= i < |Bits()| ==> Bits()[i]
    {
      hide Pmm.NumFrames, Consistent, Pmm.Consistent;
    }

    /** The frame bits determine all levels. */
    lemma SameLevels(levels: seq<seq<bool>>)
      requires Valid() && Pmm.FrameBits(levels) == Bits()
      requires Pmm.Sized(levels, Pmm.NumFrames(frames.maxSize)) && Pmm.Consistent(levels)
      ensures frames.levels == levels
    {
      hide Pmm.NumFrames, Consistent, Pmm.Consistent, Pmm.TailSet, Pmm.FrameBits, Pmm.Sized;
      frames.LevelsSized();
      SameFramesSameLevels(frames.levels, levels, Pmm.NumFrames(frames.maxSize));
    }

    lemma LevelsNow()
      requires Valid()
      ensures Pmm.Sized(frames.levels, Pmm.NumFrames(frames.maxSize)) && Pmm.Consistent(frames.levels)
              && Pmm.FrameBits(frames.levels) == Bits()
    {
      hide Pmm.NumFrames, Consistent, Pmm.Consistent, Pmm.TailSet, Pmm.FrameBits, Pmm.Sized;
      frames.LevelsSized();
    }

    /** Gives up: no frame is left for a page. */
    method GiveUp(id: nat, v: nat, done: nat, ghost job: Job, ghost n: nat, ghost data: seq<nat>, ghost k: nat,
                  ghost tabs: seq<Tab>,
                  ghost levels: seq<seq<bool>>)
      requires Valid() && Between(job, Now(), data, k, tabs, n) && |data| == done < n && !HasRun(Bits(), 1)
               && !HasRun(job.bits, n)
      requires job.id == id && job.v == v && job.chain == spaces.chain && IsStart(job, levels)
      modifies frames, frames.bitmaps, spaces`configs, spaces`tables
      ensures Valid() && PagesResult(job, Now(), n, false, k < |data|)
      ensures Bits() == job.bits ==> frames.levels == levels
    {
      hide *;
      ghost var st := Now();
      NowIs();
      StartParts(job, levels);
      BetweenParts(job, st, data, k, tabs, n);
      ghost var mid, next;
      mid, next := GiveBack(id, v, done, job, n, data, k, tabs);
      FinishFail(build, job, st, mid, Now(), data, k, tabs, next, n, Pmm.NumFrames(frames.maxSize));
      if Bits() == job.bits { SameLevels(levels); }
    }

    /** The levels at the start of a job. */
    ghost predicate IsStart(job: Job, levels: seq<seq<bool>>)
    {
      && Pmm.Sized(levels, Pmm.NumFrames(frames.maxSize)) && Pmm.Consistent(levels) && Pmm.FrameBits(levels) == job.bits
      && forall i: nat :: Pmm.NumFrames(frames.maxSize) <= i < |job.bits| ==> job.bits[i]
    }

    lemma StartParts(job: Job, levels: seq<seq<bool>>)
      requires IsStart(job, levels)
      ensures Pmm.Sized(levels, Pmm.NumFrames(frames.maxSize)) && Pmm.Consistent(levels)
              && Pmm.FrameBits(levels) == job.bits
      ensures forall i: nat :: Pmm.NumFrames(frames.maxSize) <= i < |job.bits| ==> job.bits[i]
    {
    }

    lemma Started(job: Job)
      requires Valid() && job.bits == Bits()
      ensures IsStart(job, frames.levels)
    {
      LevelsNow();
      TailBits();
      hide Pmm.NumFrames, Consistent, Pmm.Consistent, Pmm.TailSet, Pmm.FrameBits, Pmm.Sized, Valid;
    }

    /** Backs a free range of n pages with frames, in chunks as large as they can be had; cleans up and gives up when
        not even a single frame is left for a page, but not when none is left for a table. Whether it notices depends on
        the value it tests for. */
    method AllocPages(id: nat, v: nat, n: nat, flags: Flags, addrs: map<nat, nat>)
      returns (ok: bool, ghost starved: bool)
      requires Valid() && CanAlloc(StartJob(id, v, flags), n, addrs)
      modifies frames, frames.bitmaps, spaces`configs, spaces`tables
      ensures Valid()
      ensures failure == NO_MEMORY ==> PagesResult(old(StartJob(id, v, flags)), Now(), n, ok, starved)
      ensures failure == NO_MEMORY && !ok && Bits() == old(Bits()) ==> frames.levels == old(frames.levels)
      ensures failure == NEVER && n > 0 ==> ok && (Allocated(old(StartJob(id, v, flags)), Now(), n) <==>
        HasRun(old(Bits()), n) && !Short(old(StartJob(id, v, flags)), n))
    {
      hide *;
      ghost var job, levels := StartJob(id, v, flags), frames.levels;
      ghost var data: seq<nat>, k: nat, tabs: seq<Tab> := [], 0, [];
      TwoValues();
      ValidParts();
      JobIs(id, v, flags);
      Started(job);
      JobFits(job, n, addrs);
      BetweenStart(job, n);
      JobGrants(job, n, addrs);
      var done: nat, remaining: nat := 0, n;
      ok, starved := true, false;
      while done < n
        invariant Valid() && GrantsOk(spaces.configs, spaces.tables, id, GrantsAt(addrs))
        invariant done + remaining == n && |data| == done && Between(job, Now(), data, k, tabs, n)
        invariant done == 0 ==> Now() == State(job.configs, job.tables, job.bits) && Bits() == job.bits
        invariant failure == NEVER ==> done == 0
        invariant done > 0 ==> !HasRun(job.bits, n)
        decreases remaining
      {
        var got, iter;
        NowIs();
        got, iter, data, k, tabs := Chunk(id, v, done, remaining, flags, addrs, job, n, data, k, tabs);
        if !got {
          NowIs();
          GiveUp(id, v, done, job, n, data, k, tabs, levels);
          ok, starved := false, k < |data|;
          return;
        }
        done := done + iter;
        if remaining <= iter { break; }
        remaining := remaining - iter;
      }
      if failure == NO_MEMORY {
        FinishOk(job, Now(), data, k, tabs, n);
        starved := k < n;
      }
    }

    /** Backs a free range of n pages with frames in a row, without a cleanup. */
    method AllocContiguous(id: nat, v: nat, n: nat, flags: Flags, addrs: map<nat, nat>) returns (ok: bool)
      requires Valid() && n > 0 && CanAlloc(StartJob(id, v, flags), n, addrs)
      modifies frames, frames.bitmaps, spaces`configs, spaces`tables
      ensures Valid()
      ensures ok <==> failure == NEVER || HasRun(old(Bits()), n)
      ensures ok ==> (Allocated(old(StartJob(id, v, flags)), Now(), n) <==>
        HasRun(old(Bits()), n) && !Short(old(StartJob(id, v, flags)), n))
      ensures HasRun(old(Bits()), n) && !Short(old(StartJob(id, v, flags)), n) ==> ok && InARow(Now(), id, v, n)
      ensures ok && failure == NO_MEMORY && Short(old(StartJob(id, v, flags)), n) ==>
        HasHole(old(StartJob(id, v, flags)), Now(), n)
      ensures !ok ==> Now() == old(Now()) && frames.levels == old(frames.levels)
    {
      hide *;
      ghost var job, st := StartJob(id, v, flags), Now();
      TwoValues();
      ValidParts();
      JobIs(id, v, flags);
      JobFits(job, n, addrs);
      BetweenStart(job, n);
      JobGrants(job, n, addrs);
      BitsAre();
      var paddr := PmmAlloc(n);
      BitsAre();
      if paddr == failure { return false; }
      ghost var data: seq<nat>, tabs: seq<Tab>, k: nat := [], [], 0;
      if paddr != NO_MEMORY {
        ChunkPlan(job, st, [], 0, [], n, paddr, n, Bits());
        AlignedChunk(st.bits, Bits(), paddr, n);
        data := [] + Consecutive(FirstFrameOf(paddr), n);
      }
      k, tabs := MapChunk(id, v, 0, paddr, n, flags, addrs, job, n, data, tabs);
      if paddr != NO_MEMORY && !Short(job, n) {
        NoneBefore(data, paddr, n);
        RowMapped(job, Now(), data, tabs, n, FirstFrameOf(paddr));
      }
      if failure == NO_MEMORY {
        FinishOk(job, Now(), data, k, tabs, n);
        ResultOk(job, Now(), n, k < n);
      }
      ok := true;
    }

    /** Allocates n pages at the free range that was found, if any. */
    method Alloc(id: nat, found: Option<nat>, n: nat, flags: Flags, contiguous: bool,
                 addrs: map<nat, nat>) returns (r: Option<nat>, ghost starved: bool)
      requires Valid() && (found.Some? ==> n > 0 && CanAlloc(StartJob(id, found.value, flags), n, addrs))
      modifies frames, frames.bitmaps, spaces`configs, spaces`tables
      ensures Valid() && (r.Some? ==> r == found)
      ensures found.None? ==> Now() == old(Now()) && frames.levels == old(frames.levels)
      ensures found.Some? && failure == NO_MEMORY ==>
        (r.Some? && Allocated(old(StartJob(id, found.value, flags)), Now(), n) <==>
         !Short(old(StartJob(id, found.value, flags)), n) && (contiguous ==> HasRun(old(Bits()), n)))
      ensures found.Some? && failure == NO_MEMORY && !contiguous ==>
        PagesResult(old(StartJob(id, found.value, flags)), Now(), n, r.Some?, starved)
      ensures found.Some? && failure == NO_MEMORY && contiguous ==> (r.Some? <==> HasRun(old(Bits()), n))
      ensures found.Some? && contiguous
              && HasRun(old(Bits()), n) && !Short(old(StartJob(id, found.value, flags)), n) ==>
        r.Some? && InARow(Now(), id, found.value, n)
      ensures found.Some? && failure == NO_MEMORY && contiguous && r.None? ==>
        Now() == old(Now()) && frames.levels == old(frames.levels)
      ensures found.Some? && failure == NEVER ==>
        r == found && (Allocated(old(StartJob(id, found.value, flags)), Now(), n) <==>
                       HasRun(old(Bits()), n) && !Short(old(StartJob(id, found.value, flags)), n))
    {
      hide *;
      starved := false;
      TwoValues();
      ValidParts();
      if found.None? { return None, false; }
      ghost var job := StartJob(id, found.value, flags);
      var ok;
      if contiguous {
        ok := AllocContiguous(id, found.value, n, flags, addrs);
      } else {
        ok, starved := AllocPages(id, found.value, n, flags, addrs);
        if failure == NO_MEMORY { ResultParts(job, Now(), n, ok, starved); }
      }
      r := if ok then found else None;
    }
  }

  lemma GrantMaps(s: Slot, tables: map<nat, Table>, g: Option<Grant>)
    requires SlotOk(s, tables) && g.Some? && GrantOk(tables, g)
    ensures CanMap(s, tables, g)
  {
  }

  // ---------------------------------------------------------------- runs that fail

  function EmptyConfig(): Config {
    Config(seq(ENTRIES, i => Empty), seq(ENTRIES, i => NULL), seq(ENTRIES, i => 0), NULL)
  }

  function EmptyJob(bits: seq<bool>, v: nat, flags: Flags): Job {
    Job(map[KERNEL := EmptyConfig()], map[], [KERNEL], bits, KERNEL, v, flags)
  }

  lemma EmptyIsConsistent()
    ensures Consistent(map[KERNEL := EmptyConfig()], map[], [KERNEL])
            && Counted(map[KERNEL := EmptyConfig()], map[], [KERNEL])
  {
    var cs, ts, c := map[KERNEL := EmptyConfig()], map[], EmptyConfig();
    forall j: nat | j < ENTRIES ensures SlotOf(c, j) == Slot(Empty, NULL, 0) {}
    NothingOk(ts);
    hide SlotOk, CountOk;
  }

  lemma EmptyJobFits(bits: seq<bool>, v: nat, n: nat, flags: Flags)
    requires 0 < n && v + n + 1 < ENTRIES
    ensures var job := EmptyJob(bits, v, flags);
            CanAlloc(job, n, map[0 := PAGE]) && Missing(job.configs, KERNEL, v, n) == {0}
  {
    EmptyIsConsistent();
    var job := EmptyJob(bits, v, flags);
    var c := job.configs[KERNEL];
    assert ShapeOk(c) && forall j: nat :: j < ENTRIES ==> c.pt[j] == NULL && c.pd[j] == Empty;
    assert InDirs(v, n, 0);
    forall j: nat | j < ENTRIES && InDirs(v, n, j) ensures j == 0 {}
    assert Missing(job.configs, KERNEL, v, n) == {0};
    hide Consistent, Counted, EmptyConfig;
    forall p: nat | v <= p < v + n ensures Lookup(job.configs, job.tables, KERNEL, p) == None {}
    forall p: nat | v <= p <= v + n ensures p / ENTRIES == 0 {}
    hide Lookup, Missing;
    assert JobOk(job, n);
    OneGrant(job.configs, KERNEL);
    FitsSmall(v, n);
  }

  lemma FitsSmall(v: nat, n: nat)
    requires v + n + 1 < ENTRIES
    ensures SmallOnly(v, (n + 1) * PAGE)
  {
  }

  lemma OneGrant(configs: map<nat, Config>, id: nat)
    requires id in configs && ShapeOk(configs[id])
    ensures GrantsOk(configs, map[], id, GrantsAt(map[0 := PAGE]))
  {
    var grants := GrantsAt(map[0 := PAGE]);
    assert forall j :: j in grants ==> j == 0 && grants[j] == Grant(PAGE, 0);
  }

  lemma OnlyFirstFree(b: seq<bool>)
    requires |b| > 0 && forall i: nat :: i < |b| ==> (b[i] <==> i >= 1)
    ensures FreeCount(b) == 1 && HasRun(b, 1)
  {
    FreeCountSet(b, 0);
    FreeCountZero(b[0 := true]);
    assert ClearRun(b, 0, 1);
  }

  lemma FirstAndThirdFree(b: seq<bool>)
    requires |b| > 2 && forall i: nat :: i < |b| ==> (b[i] <==> i != 0 && i != 2)
    ensures FreeCount(b) == 2 && !HasRun(b, 2)
  {
    FreeCountSet(b, 0);
    FreeCountSet(b[0 := true], 2);
    var c := b[0 := true][2 := true];
    assert forall i: nat :: i < |c| ==> c[i];
    forall s: nat ensures !ClearRun(c, s, 1) { assert s < |c| ==> c[s]; }
    FreeCountZero(c);
    forall s: nat ensures !ClearRun(b, s, 2) { assert s + 1 < |b| ==> b[s] || b[s + 1]; }
  }

  lemma SomeBits(levels: seq<seq<bool>>, size: nat)
    requires Pmm.Sized(levels, Pmm.NumFrames(size)) && 0 < size <= 32 * PAGE
    ensures |Pmm.FrameBits(levels)| == 32
  {
    assert Pmm.LevelWords(Pmm.NumFrames(size), 0) == 1;
  }

  /** A kernel with nothing mapped. */
  method StartEmpty(frames: Pmm.FrameAllocator, failure: nat, build: UnmapBuild) returns (m: VirtualMemory)
    requires frames.build.exactMasks && frames.build.resetOnSkip && frames.Ready() && frames.maxSize <= SPACE
             && failure in {NO_MEMORY, NEVER}
    ensures fresh(m) && fresh(m.spaces) && m.Valid() && m.frames == frames && m.failure == failure
    ensures forall v: nat, flags :: m.StartJob(KERNEL, v, flags) == EmptyJob(Pmm.FrameBits(frames.levels), v, flags)
  {
    EmptyIsConsistent();
    hide Consistent, EmptyConfig, Pmm.FrameBits;
    var spaces := new AddressSpaces(EmptyConfig(), map[]);
    m := new VirtualMemory(frames, spaces, failure, build);
  }

  /** One free frame, one page, no table: the page takes the frame, there is none for the table, and the allocation is
      reported as a success with nothing mapped. */
  method TableTakesNone(build: UnmapBuild, flags: Flags) returns (m: VirtualMemory, ok: bool, ghost bits: seq<bool>)
    ensures FreeCount(bits) == 1 && m.failure == NO_MEMORY && ok
            && Lookup(m.spaces.configs, m.spaces.tables, KERNEL, 5) == None
  {
    var frames := Pmm.FrameAllocator.Init(PAGE, INTENDED, []);
    frames.LevelsSized();
    bits := Pmm.FrameBits(frames.levels);
    SomeBits(frames.levels, PAGE);
    assert Pmm.NumFrames(PAGE) == 1;
    OnlyFirstFree(bits);
    EmptyJobFits(bits, 5, 1, flags);
    ghost var job := EmptyJob(bits, 5, flags);
    hide Pmm.FrameBits, Consistent, Pmm.Consistent, Pmm.TailSet, Pmm.NumFrames, FreeCount, Missing, CanAlloc,
      EmptyConfig, Lookup, HasRun, Allocated;
    m := StartEmpty(frames, NO_MEMORY, build);
    ghost var starved;
    ok, starved := m.AllocPages(KERNEL, 5, 1, flags, map[0 := PAGE]);
    assert Short(job, 1);
  }

  /** Two free frames apart, two pages, with the wrong test for failure: a success that is none. */
  method ApartIsNoRun(build: UnmapBuild, flags: Flags) returns (m: VirtualMemory, ok: bool, ghost job: Job)
    ensures FreeCount(job.bits) == 2 && job.v == 5 && m.failure == NEVER && ok && !Allocated(job, m.Now(), 2)
  {
    var frames := Pmm.FrameAllocator.Init(3 * PAGE, INTENDED, [Pmm.Range(PAGE, PAGE)]);
    frames.LevelsSized();
    ghost var bits := Pmm.FrameBits(frames.levels);
    SomeBits(frames.levels, 3 * PAGE);
    MiddleHeld();
    FirstAndThirdFree(bits);
    EmptyJobFits(bits, 5, 2, flags);
    job := EmptyJob(bits, 5, flags);
    hide Pmm.FrameBits, Consistent, Pmm.Consistent, Pmm.TailSet, Pmm.NumFrames, FreeCount, Missing, CanAlloc,
      EmptyConfig, Lookup, HasRun, Allocated, Short;
    m := StartEmpty(frames, NEVER, build);
    ghost var starved;
    ok, starved := m.AllocPages(KERNEL, 5, 2, flags, map[0 := PAGE]);
  }

  lemma MiddleHeld()
    ensures Pmm.NumFrames(3 * PAGE) == 3
    ensures forall i: nat :: Pmm.Held([Pmm.Range(PAGE, PAGE)], 3 * PAGE, i) <==> i == 1
  {
    var ranges := [Pmm.Range(PAGE, PAGE)];
    forall i: nat ensures Pmm.Held(ranges, 3 * PAGE, i) <==> i == 1 {
      assert Pmm.HeldBy(ranges[0], 3 * PAGE, i) <==> i == 1;
    }
  }
}
