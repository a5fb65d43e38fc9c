/** i386 two-level paging: page directories and page tables kept by the virtual memory manager, for
    all address spaces on the chain from the kernel's. Tables are shared between address spaces by
    address, so they live in a table memory of their own. */
module Paging {
  import opened Options

  const PAGE: nat := 0x1000
  const LARGE_PAGE: nat := 0x40_0000
  const ENTRIES: nat := 1024
  const PAGES: nat := 0x10_0000
  const FRAMES: nat := 0x10_0000
  const SPACE: nat := 0x1_0000_0000
  const KERNEL_PDE: nat := 768

  const NULL: nat := 0
  const KERNEL: nat := 1

  /** The attribute bits of an entry besides its presence: every entry in use is present. */
  datatype Attrs = Attrs(rw: bool, user: bool, writethru: bool, nocache: bool,
                         accessed: bool, dirty: bool, attribTab: bool, global: bool)

  /** A page table entry; `NoPage` is the zero word. */
  datatype Pte = NoPage | Page(frame: nat, attrs: Attrs)

  /** A page directory entry: zero, a 4M page (in units of 4M), or a table at a frame. */
  datatype Pde = Empty | Large(addr: nat, attrs: Attrs) | Small(frame: nat, user: bool)

  /** A page table and the frame that holds it. */
  datatype Table = Table(frame: nat, entries: seq<Pte>)

  datatype Config = Config(pd: seq<Pde>, pt: seq<nat>, used: seq<nat>, next: nat)

  /** One directory index of a configuration. */
  datatype Slot = Slot(pde: Pde, pt: nat, used: nat)

  /** Storage for a page table, from the kernel's own address space allocator. */
  datatype Grant = Grant(table: nat, frame: nat)

  /** What a virtual page translates to. */
  datatype Mapping = Mapping(frame: nat, attrs: Attrs)

  datatype Flags = Flags(rw: bool, user: bool, global: bool)

  // ---------------------------------------------------------------- tables

  function Count(e: seq<Pte>): (n: nat)
    ensures n <= |e|
  {
    if e == [] then 0 else Count(e[..|e| - 1]) + (if e[|e| - 1] == NoPage then 0 else 1)
  }

  lemma {:induction false} CountUpdate(e: seq<Pte>, i: nat, p: Pte)
    requires i < |e|
    ensures Count(e[i := p]) == Count(e) - (if e[i] == NoPage then 0 else 1) + (if p == NoPage then 0 else 1)
  {
    var n := |e| - 1;
    if i == n {
      assert e[i := p][..n] == e[..n];
    } else {
      assert e[i := p][..n] == e[..n][i := p];
      CountUpdate(e[..n], i, p);
    }
  }

  lemma {:induction false} CountZero(e: seq<Pte>)
    ensures Count(e) == 0 <==> forall i :: 0 <= i < |e| ==> e[i] == NoPage
  {
    if e != [] {
      CountZero(e[..|e| - 1]);
      assert forall i :: 0 <= i < |e| - 1 ==> e[..|e| - 1][i] == e[i];
    }
  }

  lemma {:induction false} CountFull(e: seq<Pte>)
    ensures Count(e) == |e| <==> forall i :: 0 <= i < |e| ==> e[i] != NoPage
  {
    if e != [] {
      CountFull(e[..|e| - 1]);
      assert forall i :: 0 <= i < |e| - 1 ==> e[..|e| - 1][i] == e[i];
    }
  }

  function NoEntries(): seq<Pte> { seq(ENTRIES, i => NoPage) }

  /** The entries that stand for a 4M page, but for a hole from `from` to `to`. */
  function Split(addr: nat, attrs: Attrs, from: nat, to: int): seq<Pte> {
    seq(ENTRIES, i requires 0 <= i < ENTRIES => if from <= i <= to then NoPage else Page(ENTRIES * addr + i, attrs))
  }

  lemma {:induction false} CountHole(e: seq<Pte>, from: nat, to: int)
    requires from <= to + 1
    requires forall i :: 0 <= i < |e| ==> (e[i] == NoPage <==> from <= i <= to)
    ensures Count(e) == |e| - (if to < |e| then to + 1 - from else if from < |e| then |e| - from else 0)
  {
    if e != [] {
      var n := |e| - 1;
      assert forall i :: 0 <= i < n ==> e[..n][i] == e[i];
      CountHole(e[..n], from, to);
    }
  }

  // ---------------------------------------------------------------- slots

  ghost predicate ShapeOk(c: Config) {
    |c.pd| == ENTRIES && |c.pt| == ENTRIES && |c.used| == ENTRIES
  }

  function SlotOf(c: Config, i: nat): Slot
    requires ShapeOk(c) && i < ENTRIES
  {
    Slot(c.pd[i], c.pt[i], c.used[i])
  }

  function PutSlot(c: Config, i: nat, s: Slot): Config
    requires ShapeOk(c) && i < ENTRIES
  {
    c.(pd := c.pd[i := s.pde], pt := c.pt[i := s.pt], used := c.used[i := s.used])
  }

  /** A slot has a table exactly when its entry refers to one, and the same one. */
  ghost predicate SlotOk(s: Slot, tables: map<nat, Table>) {
    match s.pde
    case Empty => s.pt == NULL
    case Large(addr, _) => s.pt == NULL && addr < ENTRIES
    case Small(frame, _) =>
      s.pt != NULL && s.pt in tables && tables[s.pt].frame == frame && |tables[s.pt].entries| == ENTRIES
  }

  /** A directory index as the hardware walks it, with the entries of its table if it has one, and its use count. */
  datatype Dir = Dir(pde: Pde, used: nat, entries: seq<Pte>)

  function DirOf(s: Slot, tables: map<nat, Table>): Dir {
    Dir(s.pde, s.used, if s.pde.Small? && s.pt in tables then tables[s.pt].entries else [])
  }

  /** The use count: the entries in use of a table, all of a 4M page, none of an empty entry. */
  ghost predicate CountedDir(d: Dir) {
    match d.pde
    case Empty => d.used == 0
    case Large(_, _) => d.used == ENTRIES
    case Small(_, _) => d.used == Count(d.entries)
  }

  ghost predicate CountOk(s: Slot, tables: map<nat, Table>) {
    CountedDir(DirOf(s, tables)) && (s.pde.Small? ==> s.pt in tables)
  }

  /** The walk of the hardware from a directory entry. */
  function WalkDir(d: Dir, p: nat): Option<Mapping>
    requires p < ENTRIES
  {
    match d.pde
    case Empty => None
    case Large(addr, attrs) => Some(Mapping(ENTRIES * addr + p, attrs))
    case Small(_, user) =>
      if p < |d.entries| then
        match d.entries[p] {
          case NoPage => None
          case Page(frame, attrs) => Some(Mapping(frame, attrs.(user := attrs.user && user)))
        }
      else None
  }

  function Walk(s: Slot, tables: map<nat, Table>, p: nat): Option<Mapping>
    requires p < ENTRIES
  {
    WalkDir(DirOf(s, tables), p)
  }

  /** Whether pages of a slot can be made accessible to user code; a table that is yet to be made allows it. */
  predicate AllowsUser(s: Slot) { s.pde.Small? ==> s.pde.user }

  // ---------------------------------------------------------------- address spaces

  ghost predicate Chained(configs: map<nat, Config>, chain: seq<nat>) {
    && |chain| > 0 && chain[0] == KERNEL
    && (forall k :: 0 <= k < |chain| ==> chain[k] in configs && chain[k] != NULL)
    && (forall k :: 0 <= k < |chain| ==> configs[chain[k]].next == After(chain, k))
    && (forall k, l :: 0 <= k < l < |chain| ==> chain[k] != chain[l])
  }

  function After(chain: seq<nat>, k: nat): nat {
    if k + 1 < |chain| then chain[k + 1] else NULL
  }

  /** The slots that own their table: all lower slots, and the kernel's upper ones. */
  predicate Owner(d: nat, j: nat) { j < KERNEL_PDE || d == KERNEL }

  /** The slots the manager keeps up to date: the upper half of a space off the chain is not. */
  predicate Live(chain: seq<nat>, d: nat, j: nat) { j < KERNEL_PDE || d in chain }

  ghost predicate SlotFine(configs: map<nat, Config>, tables: map<nat, Table>, chain: seq<nat>, d: nat, j: nat)
    requires KERNEL in configs && d in configs && j < ENTRIES && ShapeOk(configs[d]) && ShapeOk(configs[KERNEL])
  {
    && (Owner(d, j) ==> SlotOk(SlotOf(configs[d], j), tables))
    && (j >= KERNEL_PDE && d in chain ==> SlotOf(configs[d], j) == SlotOf(configs[KERNEL], j))
  }

  ghost predicate Apart(configs: map<nat, Config>, d: nat, j: nat, e: nat, k: nat) {
    d in configs && e in configs && j < |configs[d].pt| && k < |configs[e].pt| && Owner(d, j) && Owner(e, k)
    && (d, j) != (e, k) ==>
      configs[d].pt[j] == NULL || configs[d].pt[j] != configs[e].pt[k]
  }

  ghost predicate Consistent(configs: map<nat, Config>, tables: map<nat, Table>, chain: seq<nat>) {
    && Chained(configs, chain)
    && (forall d :: d in configs ==> ShapeOk(configs[d]))
    && (forall d, j: nat :: d in configs && j < ENTRIES ==> SlotFine(configs, tables, chain, d, j))
    && (forall d, j, e, k :: Apart(configs, d, j, e, k))
  }

  ghost predicate CountAt(configs: map<nat, Config>, tables: map<nat, Table>, chain: seq<nat>, d: nat, j: nat) {
    d in configs && ShapeOk(configs[d]) && j < ENTRIES && Live(chain, d, j) ==> CountOk(SlotOf(configs[d], j), tables)
  }

  /** All use counts that are kept up to date are exact. */
  ghost predicate Counted(configs: map<nat, Config>, tables: map<nat, Table>, chain: seq<nat>) {
    forall d, j :: CountAt(configs, tables, chain, d, j)
  }

  /** Whether editing slot i of a space also edits slot j of space d. */
  predicate Touched(chain: seq<nat>, id: nat, i: nat, d: nat, j: nat) {
    j == i && (d == id || (i >= KERNEL_PDE && d in chain))
  }

  function Edited(configs: map<nat, Config>, chain: seq<nat>, id: nat, i: nat, s: Slot): map<nat, Config>
    requires i < ENTRIES && forall d :: d in configs ==> ShapeOk(configs[d])
  {
    map d | d in configs :: if Touched(chain, id, i, d, i) then PutSlot(configs[d], i, s) else configs[d]
  }

  /** Only the edited slot's tables change, and a table it gains is its own. */
  ghost predicate TableEdit(tables: map<nat, Table>, tables': map<nat, Table>, was: nat, now: nat) {
    && (forall t :: t in tables && t != was ==> t in tables' && tables'[t] == tables[t])
    && (now == NULL || now == was || now !in tables)
  }

  ghost predicate CanEdit(configs: map<nat, Config>, chain: seq<nat>, id: nat, i: nat) {
    id in configs && i < ENTRIES && Live(chain, id, i)
  }

  lemma EditedAt(configs: map<nat, Config>, chain: seq<nat>, id: nat, i: nat, s: Slot, d: nat, j: nat)
    requires (forall e :: e in configs ==> ShapeOk(configs[e])) && i < ENTRIES && d in configs && j < ENTRIES
    ensures var cs' := Edited(configs, chain, id, i, s);
            && d in cs' && ShapeOk(cs'[d]) && cs'[d].next == configs[d].next
            && SlotOf(cs'[d], j) == if Touched(chain, id, i, d, j) then s else SlotOf(configs[d], j)
  {
  }

  /** The slot that owns what a live slot shows. */
  function OwnerOf(d: nat, j: nat): nat { if j < KERNEL_PDE then d else KERNEL }

  lemma OwnedSlot(configs: map<nat, Config>, tables: map<nat, Table>, chain: seq<nat>, d: nat, j: nat)
    requires Consistent(configs, tables, chain) && d in configs && j < ENTRIES && Live(chain, d, j)
    ensures var o := OwnerOf(d, j);
            && o in configs && Owner(o, j) && SlotOf(configs[d], j) == SlotOf(configs[o], j)
            && SlotOk(SlotOf(configs[d], j), tables)
  {
    assert chain[0] in configs;
    assert SlotFine(configs, tables, chain, d, j);
    assert SlotFine(configs, tables, chain, OwnerOf(d, j), j);
  }

  /** A live slot other than the edited one keeps its slot and its table. */
  lemma EditElsewhere(configs: map<nat, Config>, tables: map<nat, Table>, chain: seq<nat>,
                      id: nat, i: nat, s: Slot, tables': map<nat, Table>, d: nat, j: nat)
    requires Consistent(configs, tables, chain) && CanEdit(configs, chain, id, i)
    requires TableEdit(tables, tables', configs[id].pt[i], s.pt)
    requires d in configs && j < ENTRIES && Live(chain, d, j) && !Touched(chain, id, i, d, j)
    ensures var t := configs[d].pt[j];
            && (t in tables && t != NULL ==> t in tables' && tables'[t] == tables[t])
            && (s.pt == NULL || t != s.pt)
            && SlotOk(SlotOf(configs[d], j), tables')
  {
    OwnedSlot(configs, tables, chain, d, j);
    OwnedSlot(configs, tables, chain, id, i);
    assert Apart(configs, OwnerOf(d, j), j, OwnerOf(id, i), i);
  }

  lemma EditFine(configs: map<nat, Config>, tables: map<nat, Table>, chain: seq<nat>,
                 id: nat, i: nat, s: Slot, tables': map<nat, Table>, d: nat, j: nat)
    requires Consistent(configs, tables, chain) && CanEdit(configs, chain, id, i)
    requires TableEdit(tables, tables', configs[id].pt[i], s.pt) && SlotOk(s, tables')
    requires d in configs && j < ENTRIES
    ensures var cs' := Edited(configs, chain, id, i, s);
            && KERNEL in cs' && d in cs' && ShapeOk(cs'[d]) && ShapeOk(cs'[KERNEL])
            && SlotFine(cs', tables', chain, d, j)
  {
    assert chain[0] in configs;
    EditedAt(configs, chain, id, i, s, d, j);
    EditedAt(configs, chain, id, i, s, KERNEL, j);
    assert SlotFine(configs, tables, chain, d, j);
    if Owner(d, j) && !Touched(chain, id, i, d, j) {
      EditElsewhere(configs, tables, chain, id, i, s, tables', d, j);
    }
  }

  lemma EditApart(configs: map<nat, Config>, tables: map<nat, Table>, chain: seq<nat>,
                  id: nat, i: nat, s: Slot, tables': map<nat, Table>, d: nat, j: nat, e: nat, k: nat)
    requires Consistent(configs, tables, chain) && CanEdit(configs, chain, id, i)
    requires TableEdit(tables, tables', configs[id].pt[i], s.pt)
    ensures Apart(Edited(configs, chain, id, i, s), d, j, e, k)
  {
    assert chain[0] in configs;
    if d in configs && e in configs && j < ENTRIES && k < ENTRIES && Owner(d, j) && Owner(e, k) && (d, j) != (e, k) {
      EditedAt(configs, chain, id, i, s, d, j);
      EditedAt(configs, chain, id, i, s, e, k);
      assert Apart(configs, d, j, e, k);
      if !Touched(chain, id, i, d, j) { EditElsewhere(configs, tables, chain, id, i, s, tables', d, j); }
      if !Touched(chain, id, i, e, k) { EditElsewhere(configs, tables, chain, id, i, s, tables', e, k); }
    }
  }

  /** Editing one slot, and its copies in the other spaces of the chain, keeps everything consistent. */
  lemma EditKeepsConsistent(configs: map<nat, Config>, tables: map<nat, Table>, chain: seq<nat>,
                            id: nat, i: nat, s: Slot, tables': map<nat, Table>)
    requires Consistent(configs, tables, chain) && CanEdit(configs, chain, id, i)
    requires TableEdit(tables, tables', configs[id].pt[i], s.pt) && SlotOk(s, tables')
    ensures Consistent(Edited(configs, chain, id, i, s), tables', chain)
  {
    hide SlotOk, TableEdit, SlotFine, Apart;
    var cs' := Edited(configs, chain, id, i, s);
    forall d, j: nat | d in cs' && j < ENTRIES ensures ShapeOk(cs'[d]) && SlotFine(cs', tables', chain, d, j) {
      EditFine(configs, tables, chain, id, i, s, tables', d, j);
    }
    forall d | d in cs' ensures ShapeOk(cs'[d]) {
      EditedAt(configs, chain, id, i, s, d, 0);
    }
    forall d, j, e, k ensures Apart(cs', d, j, e, k) {
      EditApart(configs, tables, chain, id, i, s, tables', d, j, e, k);
    }
    forall k | 0 <= k < |chain| ensures chain[k] in cs' && cs'[chain[k]].next == After(chain, k) {
      EditedAt(configs, chain, id, i, s, chain[k], 0);
    }
  }

  lemma EditKeepsCounted(configs: map<nat, Config>, tables: map<nat, Table>, chain: seq<nat>,
                         id: nat, i: nat, s: Slot, tables': map<nat, Table>)
    requires Consistent(configs, tables, chain) && CanEdit(configs, chain, id, i) && Counted(configs, tables, chain)
    requires TableEdit(tables, tables', configs[id].pt[i], s.pt) && CountOk(s, tables')
    ensures Counted(Edited(configs, chain, id, i, s), tables', chain)
  {
    var cs' := Edited(configs, chain, id, i, s);
    forall d: nat, j: nat ensures CountAt(cs', tables', chain, d, j) {
      if d in configs && j < ENTRIES && Live(chain, d, j) {
        EditedAt(configs, chain, id, i, s, d, j);
        assert CountAt(configs, tables, chain, d, j);
        if !Touched(chain, id, i, d, j) {
          OwnedSlot(configs, tables, chain, d, j);
          EditElsewhere(configs, tables, chain, id, i, s, tables', d, j);
        }
      }
    }
  }

  // ---------------------------------------------------------------- the page map

  /** The translation of a page in an address space. */
  ghost function Lookup(configs: map<nat, Config>, tables: map<nat, Table>, d: nat, v: nat): Option<Mapping> {
    if d in configs && ShapeOk(configs[d]) && v < PAGES then Walk(SlotOf(configs[d], v / ENTRIES), tables, v % ENTRIES)
    else None
  }

  /** Whether a change to page v of a space shows in space d. */
  predicate Reaches(chain: seq<nat>, id: nat, d: nat, v: nat) {
    d == id || (v / ENTRIES >= KERNEL_PDE && d in chain)
  }

  lemma EditLookup(configs: map<nat, Config>, tables: map<nat, Table>, chain: seq<nat>,
                   id: nat, i: nat, s: Slot, tables': map<nat, Table>, d: nat, v: nat)
    requires Consistent(configs, tables, chain) && CanEdit(configs, chain, id, i)
    requires TableEdit(tables, tables', configs[id].pt[i], s.pt)
    requires d in configs && v < PAGES && Live(chain, d, v / ENTRIES)
    ensures Lookup(Edited(configs, chain, id, i, s), tables', d, v)
         == if v / ENTRIES == i && Reaches(chain, id, d, v) then Walk(s, tables', v % ENTRIES)
            else Lookup(configs, tables, d, v)
  {
    var j := v / ENTRIES;
    EditedAt(configs, chain, id, i, s, d, j);
    if !Touched(chain, id, i, d, j) {
      OwnedSlot(configs, tables, chain, d, j);
      EditElsewhere(configs, tables, chain, id, i, s, tables', d, j);
    }
  }

  /** Page by page, a state in which the pages from lo to hi of a space translate as `to` says, and all other
      pages of all spaces as before. */
  ghost predicate Remapped(configs: map<nat, Config>, tables: map<nat, Table>,
                           configs': map<nat, Config>, tables': map<nat, Table>,
                           chain: seq<nat>, id: nat, lo: nat, hi: nat, to: Option<Mapping>)
  {
    && configs'.Keys == configs.Keys
    && forall d, v: nat :: d in configs && v < PAGES && Live(chain, d, v / ENTRIES) ==>
         Lookup(configs', tables', d, v) == if lo <= v < hi && Reaches(chain, id, d, v) then to
                                            else Lookup(configs, tables, d, v)
  }

  /** The mapping a page gets: bits the caller does not choose stay as they were. */
  function Requested(s: Slot, tables: map<nat, Table>, p: nat, frame: nat, flags: Flags): Mapping
    requires p < ENTRIES
  {
    var kept := match Walk(s, tables, p)
      case Some(m) => m.attrs
      case None => Attrs(false, false, false, false, false, false, false, false);
    Mapping(frame, kept.(rw := flags.rw, user := flags.user && AllowsUser(s), global := flags.global))
  }

  /** A page that was mapped has the frame and the flags it was asked for, is open to user code only if the directory
      entry allows it, too, and keeps the bits that nobody asks for; a new page has none of those. */
  predicate AsAsked(was: Option<Mapping>, now: Option<Mapping>, frame: nat, flags: Flags, allows: bool) {
    now.Some? &&
    var a := now.value.attrs;
    && now.value.frame == frame && a.rw == flags.rw && a.global == flags.global && a.user == (flags.user && allows)
    && a.writethru == (was.Some? && was.value.attrs.writethru) && a.nocache == (was.Some? && was.value.attrs.nocache)
    && a.accessed == (was.Some? && was.value.attrs.accessed) && a.dirty == (was.Some? && was.value.attrs.dirty)
    && a.attribTab == (was.Some? && was.value.attrs.attribTab)
  }

  lemma RequestedIs(s: Slot, tables: map<nat, Table>, p: nat, frame: nat, flags: Flags)
    requires p < ENTRIES
    ensures AsAsked(Walk(s, tables, p), Some(Requested(s, tables, p, frame, flags)), frame, flags,
                    s.pde.Small? ==> s.pde.user)
  {
    hide Walk;
  }

  /** Replacing a 4M page, or nothing, by a table: every page translates as before. */
  lemma SplitKeepsTranslation(s: Slot, tables: map<nat, Table>, g: Grant, p: nat)
    requires SlotOk(s, tables) && s.pt == NULL && g.table != NULL && p < ENTRIES
    ensures var tables' := tables[g.table := OpenedTable(s, g)];
            && SlotOk(OpenedSlot(s, g), tables') && CountOk(OpenedSlot(s, g), tables')
            && Walk(OpenedSlot(s, g), tables', p) == Walk(s, tables, p)
  {
    var e := OpenedTable(s, g).entries;
    if s.pde.Large? {
      CountFull(e);
    } else {
      CountZero(e);
    }
  }

  function OpenedTable(s: Slot, g: Grant): Table {
    Table(g.frame, if s.pde.Large? then Split(s.pde.addr, s.pde.attrs, 1, 0) else NoEntries())
  }

  function OpenedSlot(s: Slot, g: Grant): Slot {
    Slot(Small(g.frame, true), g.table, if s.pde.Large? then ENTRIES else 0)
  }

  function WithEntry(t: Table, p: nat, e: Pte): Table
    requires p < |t.entries|
  {
    t.(entries := t.entries[p := e])
  }

  /** The entry as `vmm_map` writes it. */
  function NewEntry(e: Pte, frame: nat, flags: Flags): Pte {
    var kept := if e.Page? then e.attrs else Attrs(false, false, false, false, false, false, false, false);
    Page(frame, kept.(rw := flags.rw, user := flags.user, global := flags.global))
  }

  lemma EntryWritten(s: Slot, tables: map<nat, Table>, p: nat, frame: nat, flags: Flags, q: nat)
    requires SlotOk(s, tables) && s.pde.Small? && p < ENTRIES && q < ENTRIES
    ensures var was := tables[s.pt].entries[p];
            var s' := s.(used := if was == NoPage && s.used < ENTRIES then s.used + 1 else s.used);
            var tables' := tables[s.pt := WithEntry(tables[s.pt], p, NewEntry(was, frame, flags))];
            && SlotOk(s', tables') && (CountOk(s, tables) ==> CountOk(s', tables'))
            && Walk(s', tables', q) == if q == p then Some(Requested(s, tables, p, frame, flags))
               else Walk(s, tables, q)
  {
    var e := tables[s.pt].entries;
    CountUpdate(e, p, NewEntry(e[p], frame, flags));
    CountFull(e);
  }

  /** The slot after its table exists, and the table memory then. */
  function Opened(s: Slot, g: Option<Grant>): Slot {
    if s.pt == NULL && g.Some? then OpenedSlot(s, g.value) else s
  }

  function OpenedTables(s: Slot, tables: map<nat, Table>, g: Option<Grant>): map<nat, Table> {
    if s.pt == NULL && g.Some? then tables[g.value.table := OpenedTable(s, g.value)] else tables
  }

  ghost predicate GrantOk(tables: map<nat, Table>, g: Option<Grant>) {
    g.Some? ==> g.value.table != NULL && g.value.table !in tables
  }

  ghost predicate CanMap(s: Slot, tables: map<nat, Table>, g: Option<Grant>) {
    SlotOk(s, tables) && (s.pt != NULL || (g.Some? && GrantOk(tables, g)))
  }

  lemma OpenedRight(s: Slot, tables: map<nat, Table>, g: Option<Grant>, q: nat)
    requires CanMap(s, tables, g) && q < ENTRIES
    ensures var s1, ts1 := Opened(s, g), OpenedTables(s, tables, g);
            && SlotOk(s1, ts1) && s1.pde.Small? && TableEdit(tables, ts1, s.pt, s1.pt)
            && (CountOk(s, tables) ==> CountOk(s1, ts1))
            && Walk(s1, ts1, q) == Walk(s, tables, q) && AllowsUser(s1) == AllowsUser(s)
  {
    if s.pt == NULL { SplitKeepsTranslation(s, tables, g.value, q); }
  }

  predicate HasTable(s: Slot, tables: map<nat, Table>) {
    s.pt in tables && |tables[s.pt].entries| == ENTRIES
  }

  /** What mapping one page makes of its slot and of the table memory. */
  function MappedSlot(s: Slot, tables: map<nat, Table>, p: nat): Slot
    requires HasTable(s, tables) && p < ENTRIES
  {
    s.(used := if tables[s.pt].entries[p] == NoPage && s.used < ENTRIES then s.used + 1 else s.used)
  }

  function MappedTables(s: Slot, tables: map<nat, Table>, p: nat, frame: nat, flags: Flags): map<nat, Table>
    requires HasTable(s, tables) && p < ENTRIES
  {
    tables[s.pt := WithEntry(tables[s.pt], p, NewEntry(tables[s.pt].entries[p], frame, flags))]
  }

  lemma MappedRight(s: Slot, tables: map<nat, Table>, g: Option<Grant>, p: nat, frame: nat, flags: Flags, q: nat)
    requires CanMap(s, tables, g) && p < ENTRIES && q < ENTRIES
    ensures var s1, ts1 := Opened(s, g), OpenedTables(s, tables, g);
            && HasTable(s1, ts1)
            && var s', ts' := MappedSlot(s1, ts1, p), MappedTables(s1, ts1, p, frame, flags);
            && SlotOk(s', ts') && (CountOk(s, tables) ==> CountOk(s', ts')) && TableEdit(tables, ts', s.pt, s'.pt)
            && AllowsUser(s') == AllowsUser(s) && s'.pt != NULL
            && Walk(s', ts', q) == if q == p then Some(Requested(s, tables, p, frame, flags)) else Walk(s, tables, q)
  {
    hide CountOk;
    OpenedRight(s, tables, g, p);
    OpenedRight(s, tables, g, q);
    EntryWritten(Opened(s, g), OpenedTables(s, tables, g), p, frame, flags, q);
  }

  /** Mapping changes neither what user code may access through a slot nor, elsewhere, whether it has a table. */
  predicate SameUse(s: Slot, s': Slot, mapped: bool) {
    AllowsUser(s') == AllowsUser(s) && (s'.pt == NULL <==> s.pt == NULL && !mapped)
  }

  ghost predicate SameUses(configs: map<nat, Config>, configs': map<nat, Config>, id: nat, i: nat) {
    && id in configs && id in configs' && ShapeOk(configs[id]) && ShapeOk(configs'[id])
    && forall j: nat :: j < ENTRIES ==> SameUse(SlotOf(configs[id], j), SlotOf(configs'[id], j), j == i)
  }

  ghost predicate PageWritten(configs: map<nat, Config>, tables: map<nat, Table>,
                              configs': map<nat, Config>, tables': map<nat, Table>,
                              id: nat, v: nat, frame: nat, flags: Flags, g: Option<Grant>, changed: bool)
    requires id in configs && ShapeOk(configs[id]) && v < PAGES
  {
    var s, i, p := SlotOf(configs[id], v / ENTRIES), v / ENTRIES, v % ENTRIES;
    var s1, ts1 := Opened(s, g), OpenedTables(s, tables, g);
    && HasTable(s1, ts1)
    && configs' == configs[id := PutSlot(configs[id], i, MappedSlot(s1, ts1, p))]
    && tables' == MappedTables(s1, ts1, p, frame, flags)
    && (changed <==> MappedSlot(s1, ts1, p) != s)
  }

  /** A space may map pages of a directory index that is kept up to date for it, or whose entry is still good. */
  ghost predicate CanMapAt(configs: map<nat, Config>, tables: map<nat, Table>, chain: seq<nat>, id: nat, i: nat) {
    id in configs && ShapeOk(configs[id]) && i < ENTRIES
    && (Live(chain, id, i) || SlotOk(SlotOf(configs[id], i), tables))
  }

  /** What mapping a page does: its table gets the entry, and the directory index, if it changed, is copied. */
  ghost predicate PageMapped(configs: map<nat, Config>, tables: map<nat, Table>, configs': map<nat, Config>,
                             tables': map<nat, Table>,
                             chain: seq<nat>, id: nat, v: nat, frame: nat, flags: Flags, g: Option<Grant>)
  {
    id in configs && ShapeOk(configs[id]) && v < PAGES && (forall d :: d in configs ==> ShapeOk(configs[d])) &&
    var s, i, p := SlotOf(configs[id], v / ENTRIES), v / ENTRIES, v % ENTRIES;
    var s1, ts1 := Opened(s, g), OpenedTables(s, tables, g);
    HasTable(s1, ts1) &&
    var s' := MappedSlot(s1, ts1, p);
    tables' == MappedTables(s1, ts1, p, frame, flags) && configs' == if s' == s then configs
                                                                     else Edited(configs, chain, id, i, s')
  }

  lemma MapTables(configs: map<nat, Config>, tables: map<nat, Table>, id: nat, v: nat, g: Option<Grant>, frame: nat,
                  flags: Flags)
    requires id in configs && ShapeOk(configs[id]) && v < PAGES && CanMap(SlotOf(configs[id], v / ENTRIES), tables, g)
    ensures var s := SlotOf(configs[id], v / ENTRIES);
            var s1, ts1 := Opened(s, g), OpenedTables(s, tables, g);
            && HasTable(s1, ts1)
            && forall t :: t in MappedTables(s1, ts1, v % ENTRIES, frame, flags) ==>
                 t in tables || (g.Some? && t == g.value.table && s.pt == NULL)
  {
    OpenedRight(SlotOf(configs[id], v / ENTRIES), tables, g, v % ENTRIES);
  }

  lemma EditedKeys(configs: map<nat, Config>, chain: seq<nat>, id: nat, i: nat, s: Slot)
    requires i < ENTRIES && forall d :: d in configs ==> ShapeOk(configs[d])
    ensures Edited(configs, chain, id, i, s).Keys == configs.Keys
  {
  }

  /** The effect of mapping a page on the whole state. */
  lemma MapEdits(configs: map<nat, Config>, tables: map<nat, Table>, chain: seq<nat>, id: nat, v: nat,
                 g: Option<Grant>, frame: nat, flags: Flags)
    requires Consistent(configs, tables, chain) && v < PAGES && CanEdit(configs, chain, id, v / ENTRIES)
    requires CanMap(SlotOf(configs[id], v / ENTRIES), tables, g)
    ensures var i, p, s := v / ENTRIES, v % ENTRIES, SlotOf(configs[id], v / ENTRIES);
            var s1, ts1 := Opened(s, g), OpenedTables(s, tables, g);
            && HasTable(s1, ts1)
            && var s', ts' := MappedSlot(s1, ts1, p), MappedTables(s1, ts1, p, frame, flags);
            var cs' := Edited(configs, chain, id, i, s');
            && Consistent(cs', ts', chain) && (Counted(configs, tables, chain) ==> Counted(cs', ts', chain))
            && Remapped(configs, tables, cs', ts', chain, id, v, v + 1, Some(Requested(s, tables, p, frame, flags)))
            && SameUses(configs, cs', id, i) && cs'.Keys == configs.Keys
            && (forall t :: t in ts' ==> t in tables || (g.Some? && t == g.value.table && s.pt == NULL))
  {
    var i, p, s := v / ENTRIES, v % ENTRIES, SlotOf(configs[id], v / ENTRIES);
    OpenedRight(s, tables, g, p);
    MappedRight(s, tables, g, p, frame, flags, p);
    var s1, ts1 := Opened(s, g), OpenedTables(s, tables, g);
    var s', ts' := MappedSlot(s1, ts1, p), MappedTables(s1, ts1, p, frame, flags);
    forall t | t in ts' ensures t in tables || (g.Some? && t == g.value.table && s.pt == NULL) {}
    hide SlotOk, CountOk, Walk, TableEdit, Consistent, Edited, Requested, MappedSlot, MappedTables, Opened,
      OpenedTables, Remapped, CanMap, HasTable;
    EditKeepsConsistent(configs, tables, chain, id, i, s', ts');
    if Counted(configs, tables, chain) {
      assert CountAt(configs, tables, chain, id, i);
      EditKeepsCounted(configs, tables, chain, id, i, s', ts');
    }
    var cs' := Edited(configs, chain, id, i, s');
    MapEditsRemap(configs, tables, chain, id, v, g, frame, flags);
    forall j: nat | j < ENTRIES
      ensures ShapeOk(cs'[id]) && SameUse(SlotOf(configs[id], j), SlotOf(cs'[id], j), j == i)
    {
      EditedAt(configs, chain, id, i, s', id, j);
    }
  }

  lemma MapEditsRemap(configs: map<nat, Config>, tables: map<nat, Table>, chain: seq<nat>, id: nat, v: nat,
                      g: Option<Grant>, frame: nat, flags: Flags)
    requires Consistent(configs, tables, chain) && v < PAGES && CanEdit(configs, chain, id, v / ENTRIES)
    requires CanMap(SlotOf(configs[id], v / ENTRIES), tables, g)
    ensures var i, p, s := v / ENTRIES, v % ENTRIES, SlotOf(configs[id], v / ENTRIES);
            var s1, ts1 := Opened(s, g), OpenedTables(s, tables, g);
            && HasTable(s1, ts1)
            && var s', ts' := MappedSlot(s1, ts1, p), MappedTables(s1, ts1, p, frame, flags);
            && Remapped(configs, tables, Edited(configs, chain, id, i, s'), ts', chain, id, v, v + 1,
                        Some(Requested(s, tables, p, frame, flags)))
            && Edited(configs, chain, id, i, s').Keys == configs.Keys
  {
    var i, p, s := v / ENTRIES, v % ENTRIES, SlotOf(configs[id], v / ENTRIES);
    OpenedRight(s, tables, g, p);
    var s1, ts1 := Opened(s, g), OpenedTables(s, tables, g);
    var s', ts' := MappedSlot(s1, ts1, p), MappedTables(s1, ts1, p, frame, flags);
    var cs' := Edited(configs, chain, id, i, s');
    assert cs'.Keys == configs.Keys;
    hide SlotOk, CountOk, Walk, TableEdit, Consistent, Edited, Requested, MappedSlot, MappedTables, Opened,
      OpenedTables, Lookup;
    forall d: nat, w: nat | d in configs && w < PAGES && Live(chain, d, w / ENTRIES)
      ensures Lookup(cs', ts', d, w)
           == if v <= w < v + 1 && Reaches(chain, id, d, w) then Some(Requested(s, tables, p, frame, flags))
              else Lookup(configs, tables, d, w)
    {
      MapEditsAt(configs, tables, chain, id, v, g, frame, flags, d, w);
    }
  }

  lemma MapEditsAt(configs: map<nat, Config>, tables: map<nat, Table>, chain: seq<nat>, id: nat, v: nat,
                   g: Option<Grant>, frame: nat, flags: Flags, d: nat, w: nat)
    requires Consistent(configs, tables, chain) && v < PAGES && CanEdit(configs, chain, id, v / ENTRIES)
    requires CanMap(SlotOf(configs[id], v / ENTRIES), tables, g)
    requires d in configs && w < PAGES && Live(chain, d, w / ENTRIES)
    ensures var i, p, s := v / ENTRIES, v % ENTRIES, SlotOf(configs[id], v / ENTRIES);
            var s1, ts1 := Opened(s, g), OpenedTables(s, tables, g);
            && HasTable(s1, ts1)
            && var s', ts' := MappedSlot(s1, ts1, p), MappedTables(s1, ts1, p, frame, flags);
            Lookup(Edited(configs, chain, id, i, s'), ts', d, w)
            == if v <= w < v + 1 && Reaches(chain, id, d, w) then Some(Requested(s, tables, p, frame, flags))
               else Lookup(configs, tables, d, w)
  {
    var i, p, s := v / ENTRIES, v % ENTRIES, SlotOf(configs[id], v / ENTRIES);
    hide SlotOk, CountOk, Walk, TableEdit, Consistent, Edited, Requested, MappedSlot, MappedTables, Opened,
      OpenedTables;
    MappedRight(s, tables, g, p, frame, flags, w % ENTRIES);
    var s1, ts1 := Opened(s, g), OpenedTables(s, tables, g);
    var s', ts' := MappedSlot(s1, ts1, p), MappedTables(s1, ts1, p, frame, flags);
    EditLookup(configs, tables, chain, id, i, s', ts', d, w);
    if w / ENTRIES == i && Reaches(chain, id, d, w) { SameSlot(configs, tables, chain, id, d, w); }
    assert w == v <==> w / ENTRIES == i && w % ENTRIES == p;
  }

  /** The page that was mapped, as its space now has it. */
  lemma PageAsAsked(configs: map<nat, Config>, tables: map<nat, Table>, configs': map<nat, Config>,
                    tables': map<nat, Table>, chain: seq<nat>, id: nat, v: nat, frame: nat, flags: Flags,
                    g: Option<Grant>)
    requires PageMapped(configs, tables, configs', tables', chain, id, v, frame, flags, g)
    requires v / ENTRIES < ENTRIES && CanMap(SlotOf(configs[id], v / ENTRIES), tables, g)
    ensures AsAsked(Lookup(configs, tables, id, v), Lookup(configs', tables', id, v), frame, flags,
                    configs[id].pd[v / ENTRIES].Small? ==> configs[id].pd[v / ENTRIES].user)
  {
    var i, p, s := v / ENTRIES, v % ENTRIES, SlotOf(configs[id], v / ENTRIES);
    MappedRight(s, tables, g, p, frame, flags, p);
    RequestedIs(s, tables, p, frame, flags);
    var s' := MappedSlot(Opened(s, g), OpenedTables(s, tables, g), p);
    assert ShapeOk(configs'[id]) && SlotOf(configs'[id], i) == s';
  }

  /** A space that a change reaches shows the same page. */
  lemma SameSlot(configs: map<nat, Config>, tables: map<nat, Table>, chain: seq<nat>, id: nat, d: nat, w: nat)
    requires Consistent(configs, tables, chain) && CanEdit(configs, chain, id, w / ENTRIES)
    requires d in configs && Reaches(chain, id, d, w)
    ensures ShapeOk(configs[d]) && SlotOf(configs[d], w / ENTRIES) == SlotOf(configs[id], w / ENTRIES)
  {
    OwnedSlot(configs, tables, chain, d, w / ENTRIES);
    OwnedSlot(configs, tables, chain, id, w / ENTRIES);
  }

  lemma PutSame(c: Config, i: nat)
    requires ShapeOk(c) && i < ENTRIES
    ensures PutSlot(c, i, SlotOf(c, i)) == c
  {
  }

  lemma PutTwice(c: Config, i: nat, s: Slot, s': Slot)
    requires ShapeOk(c) && i < ENTRIES
    ensures PutSlot(PutSlot(c, i, s), i, s') == PutSlot(c, i, s') && SlotOf(PutSlot(c, i, s), i) == s
  {
  }

  /** Writing a slot of one space and copying it along the chain is the edit. */
  lemma WrittenAndCopied(configs: map<nat, Config>, chain: seq<nat>, id: nat, i: nat, s: Slot)
    requires (forall d :: d in configs ==> ShapeOk(configs[d])) && id in configs && i < ENTRIES
    ensures var cs := configs[id := PutSlot(configs[id], i, s)];
            && (forall d :: d in cs ==> ShapeOk(cs[d]))
            && SlotOf(cs[id], i) == s
            && (i >= KERNEL_PDE ==> Copied(cs, chain, i, s) == Edited(configs, chain, id, i, s))
            && (i < KERNEL_PDE ==> cs == Edited(configs, chain, id, i, s))
  {
    var cs := configs[id := PutSlot(configs[id], i, s)];
    assert PutSlot(cs[id], i, s) == cs[id];
    if i >= KERNEL_PDE { assert Copied(cs, chain, i, s) == Edited(configs, chain, id, i, s); }
    if i < KERNEL_PDE { assert cs == Edited(configs, chain, id, i, s); }
  }

  /** A directory index written to some of the spaces. */
  function Copied(configs: map<nat, Config>, to: seq<nat>, i: nat, s: Slot): map<nat, Config>
    requires i < ENTRIES && forall d :: d in configs ==> ShapeOk(configs[d])
  {
    map d | d in configs :: if d in to then PutSlot(configs[d], i, s) else configs[d]
  }

  lemma CopiedAt(configs: map<nat, Config>, to: seq<nat>, i: nat, s: Slot, d: nat)
    requires (forall e :: e in configs ==> ShapeOk(configs[e])) && i < ENTRIES && d in configs
    ensures var cs := Copied(configs, to, i, s);
            && d in cs && ShapeOk(cs[d]) && cs[d].next == configs[d].next
            && cs[d] == (if d in to then PutSlot(configs[d], i, s) else configs[d])
            && (s == SlotOf(configs[d], i) ==> cs[d] == configs[d])
  {
    PutSame(configs[d], i);
  }

  lemma ChainLink(configs: map<nat, Config>, chain: seq<nat>, k: nat)
    requires Chained(configs, chain) && k < |chain|
    ensures chain[..k + 1] == chain[..k] + [chain[k]] && chain[k] !in chain[..k]
    ensures chain[k] in configs && configs[chain[k]].next == After(chain, k)
  {
  }

  lemma CopyNext(configs: map<nat, Config>, chain: seq<nat>, k: nat, id: nat, i: nat)
    requires (forall d :: d in configs ==> ShapeOk(configs[d])) && Chained(configs, chain)
    requires k < |chain| && id in configs && i < ENTRIES
    ensures var s := SlotOf(configs[id], i);
            var cs, cs' := Copied(configs, chain[..k], i, s), Copied(configs, chain[..k + 1], i, s);
            && chain[k] in cs && id in cs && ShapeOk(cs[chain[k]]) && ShapeOk(cs[id]) && SlotOf(cs[id], i) == s
            && cs' == (if chain[k] == id then cs else cs[chain[k] := PutSlot(cs[chain[k]], i, s)])
            && chain[k] in cs' && cs'[chain[k]].next == After(chain, k)
  {
    hide PutSlot, Copied;
    var s, c := SlotOf(configs[id], i), chain[k];
    ChainLink(configs, chain, k);
    hide Chained;
    CopiedAt(configs, chain[..k], i, s, id);
    CopiedAt(configs, chain[..k], i, s, c);
    CopiedAt(configs, chain[..k + 1], i, s, c);
    CopyOneMore(configs, chain[..k], c, id, i);
  }

  lemma CopyOneMore(configs: map<nat, Config>, to: seq<nat>, c: nat, id: nat, i: nat)
    requires forall d :: d in configs ==> ShapeOk(configs[d])
    requires c in configs && id in configs && i < ENTRIES && c !in to
    ensures var s := SlotOf(configs[id], i);
            var cs := Copied(configs, to, i, s);
            Copied(configs, to + [c], i, s) == if c == id then cs else cs[c := PutSlot(configs[c], i, s)]
  {
    var s := SlotOf(configs[id], i);
    var cs, cs' := Copied(configs, to, i, s), Copied(configs, to + [c], i, s);
    assert cs.Keys == cs'.Keys == configs.Keys;
    hide PutSlot, Copied;
    CopiedAt(configs, to, i, s, c);
    forall d | d in configs
      ensures d in cs && d in cs' && cs'[d] == if d == c && c != id then PutSlot(configs[c], i, s) else cs[d]
    {
      CopiedAt(configs, to, i, s, d);
      CopiedAt(configs, to + [c], i, s, d);
    }
    if c == id { assert cs' == cs; } else { assert cs' == cs[c := PutSlot(configs[c], i, s)]; }
  }

  lemma NothingToCopy(configs: map<nat, Config>, tables: map<nat, Table>, chain: seq<nat>, id: nat, i: nat)
    requires Consistent(configs, tables, chain) && CanEdit(configs, chain, id, i)
    ensures var s := SlotOf(configs[id], i);
            configs[id := PutSlot(configs[id], i, s)] == configs == Edited(configs, chain, id, i, s)
  {
    var s := SlotOf(configs[id], i);
    PutSame(configs[id], i);
    forall d | d in configs ensures Edited(configs, chain, id, i, s)[d] == configs[d] {
      PutSame(configs[d], i);
      if Touched(chain, id, i, d, i) {
        assert SlotFine(configs, tables, chain, d, i);
        assert SlotFine(configs, tables, chain, id, i);
      }
    }
  }

  /** Pages lo to hi of a space translate to consecutive frames; all other pages as before. */
  ghost predicate Mapped(configs: map<nat, Config>, tables: map<nat, Table>,
                         configs': map<nat, Config>, tables': map<nat, Table>,
                         chain: seq<nat>, id: nat, lo: nat, hi: nat, frame: nat, flags: Flags)
  {
    && configs'.Keys == configs.Keys && id in configs && ShapeOk(configs[id])
    && forall d, v: nat :: d in configs && v < PAGES && Live(chain, d, v / ENTRIES) ==>
         Lookup(configs', tables', d, v)
         == if lo <= v < hi && Reaches(chain, id, d, v) then
              Some(RunMapping(configs, tables, id, lo, v, frame, flags))
            else Lookup(configs, tables, d, v)
  }

  /** The pages of a range have frames that follow each other, and the flags that were asked for. */
  ghost predicate RunAsAsked(configs: map<nat, Config>, tables: map<nat, Table>,
                             configs': map<nat, Config>, tables': map<nat, Table>,
                             id: nat, lo: nat, hi: nat, frame: nat, flags: Flags)
  {
    && id in configs && ShapeOk(configs[id])
    && forall w: nat :: lo <= w < hi && w / ENTRIES < ENTRIES ==>
         AsAsked(Lookup(configs, tables, id, w), Lookup(configs', tables', id, w), (frame + (w - lo)) % 0x10_0000,
                 flags, configs[id].pd[w / ENTRIES].Small? ==> configs[id].pd[w / ENTRIES].user)
  }

  lemma MappedAsAsked(configs: map<nat, Config>, tables: map<nat, Table>,
                      configs': map<nat, Config>, tables': map<nat, Table>,
                      chain: seq<nat>, id: nat, lo: nat, hi: nat, frame: nat, flags: Flags)
    requires Mapped(configs, tables, configs', tables', chain, id, lo, hi, frame, flags)
    requires hi <= PAGES && (hi <= KERNEL_PDE * ENTRIES || id in chain)
    ensures RunAsAsked(configs, tables, configs', tables', id, lo, hi, frame, flags)
  {
    hide Requested, AsAsked, Walk;
    forall w: nat | lo <= w < hi && w / ENTRIES < ENTRIES
      ensures AsAsked(Lookup(configs, tables, id, w), Lookup(configs', tables', id, w), (frame + (w - lo)) % 0x10_0000,
                      flags, configs[id].pd[w / ENTRIES].Small? ==> configs[id].pd[w / ENTRIES].user)
    {
      RequestedIs(SlotOf(configs[id], w / ENTRIES), tables, w % ENTRIES, (frame + w - lo) % FRAMES, flags);
      assert Reaches(chain, id, id, w) && Live(chain, id, w / ENTRIES);
    }
  }

  /** Storage for the tables of some directory indices, each its own. */
  ghost predicate GrantsOk(configs: map<nat, Config>, tables: map<nat, Table>, id: nat, grants: map<nat, Grant>) {
    && id in configs && ShapeOk(configs[id])
    && (forall i :: i in grants && i < ENTRIES && configs[id].pt[i] == NULL ==> GrantOk(tables, Some(grants[i])))
    && (forall i, j :: i in grants && j in grants && i != j ==> grants[i].table != grants[j].table)
  }

  function GrantFor(grants: map<nat, Grant>, i: nat): Option<Grant> {
    if i in grants then Some(grants[i]) else None
  }

  lemma GrantsLeft(configs: map<nat, Config>, tables: map<nat, Table>, configs': map<nat, Config>,
                   tables': map<nat, Table>, id: nat, i: nat, grants: map<nat, Grant>)
    requires GrantsOk(configs, tables, id, grants) && i < ENTRIES && SameUses(configs, configs', id, i)
    requires forall t :: t in tables' ==> t in tables || (i in grants && t == grants[i].table)
    ensures GrantsOk(configs', tables', id, grants)
  {
    forall j | j in grants && j < ENTRIES && configs'[id].pt[j] == NULL ensures GrantOk(tables', Some(grants[j])) {
      assert SameUse(SlotOf(configs[id], j), SlotOf(configs'[id], j), j == i);
    }
  }

  /** What user code may access through the slots of a space stays as it was. */
  ghost predicate UsesKept(configs: map<nat, Config>, configs': map<nat, Config>, id: nat) {
    && id in configs && id in configs' && ShapeOk(configs[id]) && ShapeOk(configs'[id])
    && forall j: nat :: j < ENTRIES ==> UseKept(SlotOf(configs[id], j), SlotOf(configs'[id], j))
  }

  predicate UseKept(s: Slot, s': Slot) { AllowsUser(s') == AllowsUser(s) && (s'.pt == NULL ==> s.pt == NULL) }

  lemma UsesStillKept(cs0: map<nat, Config>, cs: map<nat, Config>, cs': map<nat, Config>, id: nat, i: nat)
    requires UsesKept(cs0, cs, id) && SameUses(cs, cs', id, i)
    ensures UsesKept(cs0, cs', id)
  {
    forall j: nat | j < ENTRIES ensures UseKept(SlotOf(cs0[id], j), SlotOf(cs'[id], j)) {
      assert UseKept(SlotOf(cs0[id], j), SlotOf(cs[id], j));
      assert SameUse(SlotOf(cs[id], j), SlotOf(cs'[id], j), j == i);
    }
  }

  /** The mapping that `Mapped` gives page w. */
  function RunMapping(configs: map<nat, Config>, tables: map<nat, Table>, id: nat, lo: nat, w: nat, frame: nat,
                      flags: Flags): Mapping
    requires id in configs && ShapeOk(configs[id]) && lo <= w < PAGES
  {
    Requested(SlotOf(configs[id], w / ENTRIES), tables, w % ENTRIES, (frame + w - lo) % FRAMES, flags)
  }

  lemma SameRequest(cs0: map<nat, Config>, ts0: map<nat, Table>, cs: map<nat, Config>, ts: map<nat, Table>,
                    chain: seq<nat>, id: nat, lo: nat, v: nat, frame: nat, flags: Flags)
    requires Mapped(cs0, ts0, cs, ts, chain, id, lo, v, frame, flags) && UsesKept(cs0, cs, id)
    requires lo <= v < PAGES && Live(chain, id, v / ENTRIES)
    ensures RunMapping(cs, ts, id, lo, v, frame, flags) == RunMapping(cs0, ts0, id, lo, v, frame, flags)
  {
    assert Lookup(cs, ts, id, v) == Lookup(cs0, ts0, id, v);
    assert UseKept(SlotOf(cs0[id], v / ENTRIES), SlotOf(cs[id], v / ENTRIES));
  }

  /** One more page of a run of pages. */
  lemma MappedMore(cs0: map<nat, Config>, ts0: map<nat, Table>, cs: map<nat, Config>, ts: map<nat, Table>,
                   cs': map<nat, Config>, ts': map<nat, Table>,
                   chain: seq<nat>, id: nat, lo: nat, v: nat, frame: nat, flags: Flags)
    requires Mapped(cs0, ts0, cs, ts, chain, id, lo, v, frame, flags) && UsesKept(cs0, cs, id)
    requires lo <= v < PAGES && Live(chain, id, v / ENTRIES)
    requires Remapped(cs, ts, cs', ts', chain, id, v, v + 1, Some(RunMapping(cs, ts, id, lo, v, frame, flags)))
    ensures Mapped(cs0, ts0, cs', ts', chain, id, lo, v + 1, frame, flags)
  {
    SameRequest(cs0, ts0, cs, ts, chain, id, lo, v, frame, flags);
    hide RunMapping, Lookup, Reaches, UsesKept;
  }

  /** The size `vmm_map` works with: rounded if an address is not page-aligned, as a 32-bit sum. */
  function RoundedSize(paddr: nat, vaddr: nat, size: nat): nat {
    if paddr % PAGE == 0 && vaddr % PAGE == 0 then size
    else (size + PAGE - (if paddr % PAGE < vaddr % PAGE then paddr % PAGE else vaddr % PAGE)) % SPACE
  }

  /** No part of a range of `size` bytes from a page on is mapped as a 4M page. */
  predicate SmallOnly(page: nat, size: nat) {
    size < PAGE * ((ENTRIES - page % ENTRIES) % ENTRIES) + LARGE_PAGE
  }

  function PagesFor(size: nat): nat { (size + PAGE - 1) / PAGE }

  function Smaller(a: nat, b: nat): nat { if a < b then a else b }

  /** The rounded size reaches to the end of the range exactly if the part of the size beyond whole pages is
      larger than the smaller offset, or fits behind the virtual offset. */
  lemma RoundedReachesEnd(paddr: nat, vaddr: nat, size: nat)
    requires size + PAGE < SPACE
    ensures PagesFor(RoundedSize(paddr, vaddr, size)) >= PagesFor(vaddr % PAGE + size) <==>
            size % PAGE > Smaller(paddr % PAGE, vaddr % PAGE) || vaddr % PAGE + size % PAGE <= PAGE
  {
    var whole, rest := size / PAGE, size % PAGE;
    var o, v := Smaller(paddr % PAGE, vaddr % PAGE), vaddr % PAGE;
    RoundedIs(paddr, vaddr, size);
    PartPages(whole, v + rest);
    PartPages(whole, rest);
    PartPages(whole, rest + PAGE - o);
    assert size == PAGE * whole + rest;
    hide PagesFor, RoundedSize;
  }

  /** Half a page and a bit, at offsets 0x800 and 0x900: one page is mapped, the range has bytes on two. */
  lemma RoundedFallsShort()
    ensures PagesFor(RoundedSize(0x800, 0x900, 0x780)) == 1 && PagesFor(0x900 + 0x780) == 2
  {
  }

  lemma RoundedIs(paddr: nat, vaddr: nat, size: nat)
    requires size + PAGE < SPACE
    ensures Smaller(paddr % PAGE, vaddr % PAGE) < PAGE
    ensures RoundedSize(paddr, vaddr, size)
         == if paddr % PAGE == 0 && vaddr % PAGE == 0 then size else size + PAGE - Smaller(paddr % PAGE, vaddr % PAGE)
  {
  }

  /** What is mapped of a range, in bytes: all of the size, rounded up for unaligned addresses and to whole pages. */
  lemma BytesMapped(paddr: nat, vaddr: nat, size: nat, done: nat)
    requires done <= PagesFor(RoundedSize(paddr, vaddr, size))
    ensures var low := if paddr % 4096 < vaddr % 4096 then paddr % 4096 else vaddr % 4096;
            var bytes := if paddr % 4096 == 0 && vaddr % 4096 == 0 then size else (size + 4096 - low) % 0x1_0000_0000;
            && 4096 * done < bytes + 4096
            && (done < PagesFor(RoundedSize(paddr, vaddr, size)) <==> 4096 * done < bytes)
  {
    WholePages(RoundedSize(paddr, vaddr, size));
    hide PagesFor;
  }

  lemma WholePages(bytes: nat)
    ensures bytes <= 4096 * PagesFor(bytes) < bytes + 4096
  {
  }

  lemma PartPages(whole: nat, rest: nat)
    requires rest < 2 * PAGE
    ensures PagesFor(PAGE * whole + rest) == whole + (if rest == 0 then 0 else if rest <= PAGE then 1 else 2)
  {
  }

  lemma NextPage(page: nat, size: nat, k: nat)
    requires k * PAGE < size && SmallOnly(page, size)
    ensures k + 1 <= PagesFor(size)
    ensures (page + k) % ENTRIES == 0 ==> size - k * PAGE < LARGE_PAGE
  {
  }

  /** The state after some pages of a run: what is left to do can be done the same way. */
  ghost predicate Underway(cs0: map<nat, Config>, ts0: map<nat, Table>, cs: map<nat, Config>, ts: map<nat, Table>,
                           chain: seq<nat>, id: nat, lo: nat, v: nat, frame: nat, flags: Flags, grants: map<nat, Grant>)
  {
    && Consistent(cs, ts, chain) && GrantsOk(cs, ts, id, grants) && UsesKept(cs0, cs, id)
    && Mapped(cs0, ts0, cs, ts, chain, id, lo, v, frame, flags)
    && (Counted(cs0, ts0, chain) ==> Counted(cs, ts, chain))
  }

  lemma Onward(cs0: map<nat, Config>, ts0: map<nat, Table>, cs: map<nat, Config>, ts: map<nat, Table>,
               cs': map<nat, Config>, ts': map<nat, Table>,
               chain: seq<nat>, id: nat, lo: nat, v: nat, frame: nat, flags: Flags, grants: map<nat, Grant>)
    requires Underway(cs0, ts0, cs, ts, chain, id, lo, v, frame, flags, grants)
    requires lo <= v < PAGES && Live(chain, id, v / ENTRIES)
    requires Remapped(cs, ts, cs', ts', chain, id, v, v + 1,
               Some(Requested(SlotOf(cs[id], v / ENTRIES), ts, v % ENTRIES, (frame + v - lo) % FRAMES, flags)))
    requires Consistent(cs', ts', chain) && SameUses(cs, cs', id, v / ENTRIES)
    requires Counted(cs, ts, chain) ==> Counted(cs', ts', chain)
    requires forall t :: t in ts' ==> t in ts || (v / ENTRIES in grants && t == grants[v / ENTRIES].table)
    ensures Underway(cs0, ts0, cs', ts', chain, id, lo, v + 1, frame, flags, grants)
  {
    hide Consistent, Counted, Mapped, UsesKept, Remapped, Requested, SameUses, GrantsOk;
    MappedMore(cs0, ts0, cs, ts, cs', ts', chain, id, lo, v, frame, flags);
    UsesStillKept(cs0, cs, cs', id, v / ENTRIES);
    GrantsLeft(cs, ts, cs', ts', id, v / ENTRIES, grants);
  }

  lemma UnderwayState(cs0: map<nat, Config>, ts0: map<nat, Table>, cs: map<nat, Config>, ts: map<nat, Table>,
                      chain: seq<nat>, id: nat, lo: nat, v: nat, frame: nat, flags: Flags, grants: map<nat, Grant>)
    requires Underway(cs0, ts0, cs, ts, chain, id, lo, v, frame, flags, grants)
    ensures Consistent(cs, ts, chain) && Mapped(cs0, ts0, cs, ts, chain, id, lo, v, frame, flags)
    ensures Counted(cs0, ts0, chain) ==> Counted(cs, ts, chain)
  {
  }

  lemma NothingMapped(cs: map<nat, Config>, ts: map<nat, Table>, chain: seq<nat>, id: nat, page: nat, frame: nat,
                      flags: Flags, grants: map<nat, Grant>)
    requires Consistent(cs, ts, chain) && GrantsOk(cs, ts, id, grants)
    ensures Underway(cs, ts, cs, ts, chain, id, page, page, frame, flags, grants)
  {
  }

  lemma UnderwayAt(cs0: map<nat, Config>, ts0: map<nat, Table>, cs: map<nat, Config>, ts: map<nat, Table>,
                   chain: seq<nat>, id: nat, lo: nat, v: nat, frame: nat, flags: Flags, grants: map<nat, Grant>, i: nat)
    requires Underway(cs0, ts0, cs, ts, chain, id, lo, v, frame, flags, grants) && i < ENTRIES && Live(chain, id, i)
    ensures CanEdit(cs, chain, id, i) && Consistent(cs, ts, chain) && id in cs0 && ShapeOk(cs[id]) && ShapeOk(cs0[id])
    ensures SlotOf(cs[id], i).pt == NULL ==> SlotOf(cs0[id], i).pt == NULL && GrantOk(ts, GrantFor(grants, i))
  {
    assert UseKept(SlotOf(cs0[id], i), SlotOf(cs[id], i));
  }
}
