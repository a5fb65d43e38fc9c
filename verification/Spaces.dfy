/** Address spaces: new ones, the chain that keeps the kernel's half in step, lookups, and the manager that maps and
    unmaps. */
module Spaces {
  import opened Options
  import opened Paging
  import opened Unmapping

  /** The address spaces after a new one was made. */
  function Cloned(configs: map<nat, Config>, id: nat): map<nat, Config>
    requires KERNEL in configs && ShapeOk(configs[KERNEL])
  {
    var kernel := configs[KERNEL];
    configs[KERNEL := kernel.(next := id)][id := Config(
      seq(KERNEL_PDE, i => Empty) + kernel.pd[KERNEL_PDE..], seq(KERNEL_PDE, i => NULL) + kernel.pt[KERNEL_PDE..],
      seq(KERNEL_PDE, i => 0) + kernel.used[KERNEL_PDE..], NULL)]
  }

  lemma ClonedAt(configs: map<nat, Config>, id: nat, d: nat, j: nat)
    requires KERNEL in configs && id != KERNEL && j < ENTRIES && (d in configs || d == id)
    requires forall e :: e in configs ==> ShapeOk(configs[e])
    ensures var cs' := Cloned(configs, id);
            && d in cs' && ShapeOk(cs'[d])
            && SlotOf(cs'[d], j) == (if d != id then SlotOf(configs[d], j)
                                     else if j < KERNEL_PDE then Slot(Empty, NULL, 0)
                                     else SlotOf(configs[KERNEL], j))
            && cs'[d].next == (if d == id then NULL else if d == KERNEL then id else configs[d].next)
  {
  }

  lemma ClonedConsistent(configs: map<nat, Config>, tables: map<nat, Table>, chain: seq<nat>, id: nat)
    requires Consistent(configs, tables, chain) && id !in configs && id != NULL
    ensures KERNEL in configs && Consistent(Cloned(configs, id), tables, [KERNEL, id])
    ensures Counted(configs, tables, chain) ==> Counted(Cloned(configs, id), tables, [KERNEL, id])
  {
    assert chain[0] in configs;
    var cs', chain' := Cloned(configs, id), [KERNEL, id];
    hide Cloned;
    forall d, j: nat | (d in configs || d == id) && j < ENTRIES
      ensures KERNEL in cs' && d in cs' && ShapeOk(cs'[d]) && ShapeOk(cs'[KERNEL])
              && SlotFine(cs', tables, chain', d, j)
      ensures Counted(configs, tables, chain) ==> CountAt(cs', tables, chain', d, j)
    {
      ClonedFine(configs, tables, chain, id, d, j);
    }
    assert cs'.Keys == configs.Keys + {id} by { ClonedKeys(configs, id); }
    forall d, j, e, k ensures Apart(cs', d, j, e, k) {
      ClonedApart(configs, tables, chain, id, d, j, e, k);
    }
    ClonedAt(configs, id, KERNEL, 0);
    ClonedAt(configs, id, id, 0);
    if Counted(configs, tables, chain) {
      forall d: nat, j: nat ensures CountAt(cs', tables, chain', d, j) {}
    }
  }

  lemma ClonedKeys(configs: map<nat, Config>, id: nat)
    requires KERNEL in configs && ShapeOk(configs[KERNEL])
    ensures Cloned(configs, id).Keys == configs.Keys + {id}
  {
  }

  lemma ClonedFine(configs: map<nat, Config>, tables: map<nat, Table>, chain: seq<nat>, id: nat, d: nat, j: nat)
    requires Consistent(configs, tables, chain) && id !in configs && id != NULL && (d in configs || d == id)
             && j < ENTRIES
    ensures var cs' := Cloned(configs, id);
            && KERNEL in cs' && d in cs' && ShapeOk(cs'[d]) && ShapeOk(cs'[KERNEL])
            && SlotFine(cs', tables, [KERNEL, id], d, j)
            && (Counted(configs, tables, chain) ==> CountAt(cs', tables, [KERNEL, id], d, j))
  {
    assert chain[0] in configs;
    ClonedAt(configs, id, d, j);
    ClonedAt(configs, id, KERNEL, j);
    var o := if d == id then KERNEL else d;
    assert SlotFine(configs, tables, chain, o, j);
    assert Counted(configs, tables, chain) ==> CountAt(configs, tables, chain, o, j);
    hide Cloned, SlotOk, CountOk;
    assert j < KERNEL_PDE && d == id ==>
      SlotOk(Slot(Empty, NULL, 0), tables) && CountOk(Slot(Empty, NULL, 0), tables) by {
      NothingOk(tables);
    }
  }

  lemma NothingOk(tables: map<nat, Table>)
    ensures SlotOk(Slot(Empty, NULL, 0), tables) && CountOk(Slot(Empty, NULL, 0), tables)
  {
  }

  lemma ClonedApart(configs: map<nat, Config>, tables: map<nat, Table>, chain: seq<nat>, id: nat, d: nat, j: nat,
                    e: nat, k: nat)
    requires Consistent(configs, tables, chain) && id !in configs && id != NULL
    ensures KERNEL in configs && Apart(Cloned(configs, id), d, j, e, k)
  {
    assert chain[0] in configs;
    var cs' := Cloned(configs, id);
    if d in cs' && e in cs' && j < ENTRIES && k < ENTRIES && Owner(d, j) && Owner(e, k) && (d, j) != (e, k) {
      ClonedAt(configs, id, d, j);
      ClonedAt(configs, id, e, k);
      assert Apart(configs, d, j, e, k);
    }
  }

  lemma ClonedLookup(configs: map<nat, Config>, tables: map<nat, Table>, chain: seq<nat>, id: nat, d: nat, v: nat)
    requires Consistent(configs, tables, chain) && id !in configs && id != NULL && (d in configs || d == id)
             && v < PAGES
    ensures KERNEL in configs && Lookup(Cloned(configs, id), tables, d, v) == AfterClone(configs, tables, id, d, v)
  {
    assert chain[0] in configs;
    ClonedAt(configs, id, d, v / ENTRIES);
  }

  /** A new space has the kernel's half and nothing else. */
  ghost function AfterClone(configs: map<nat, Config>, tables: map<nat, Table>, id: nat, d: nat,
                            v: nat): Option<Mapping>
  {
    if d != id then Lookup(configs, tables, d, v)
    else if v / ENTRIES >= KERNEL_PDE then Lookup(configs, tables, KERNEL, v) else None
  }

  /** A change of one directory index of the kernel's half, made through a space of the chain. */
  datatype Change = Change(id: nat, i: nat, s: Slot)

  ghost predicate ChangesOk(configs: map<nat, Config>, chain: seq<nat>, changes: seq<Change>) {
    && ShapesOk(configs) && KERNEL in configs && KERNEL in chain
    && forall k :: 0 <= k < |changes| ==> changes[k].id in chain && KERNEL_PDE <= changes[k].i < ENTRIES
  }

  lemma EditedShapes(configs: map<nat, Config>, chain: seq<nat>, id: nat, i: nat, s: Slot)
    requires i < ENTRIES && ShapesOk(configs)
    ensures var r := Edited(configs, chain, id, i, s); r.Keys == configs.Keys && ShapesOk(r)
  {
    EditedKeys(configs, chain, id, i, s);
    forall d | d in configs ensures ShapeOk(Edited(configs, chain, id, i, s)[d]) {
      EditedAt(configs, chain, id, i, s, d, 0);
    }
  }

  ghost predicate ShapesOk(configs: map<nat, Config>) { forall d :: d in configs ==> ShapeOk(configs[d]) }

  ghost function AfterChanges(configs: map<nat, Config>, chain: seq<nat>, changes: seq<Change>): map<nat, Config> {
    if changes == [] then configs
    else
      var before, last := AfterChanges(configs, chain, changes[..|changes| - 1]), changes[|changes| - 1];
      if ShapesOk(before) && last.i < ENTRIES then Edited(before, chain, last.id, last.i, last.s) else before
  }

  /** The last slot written at an index. */
  ghost function LastAt(changes: seq<Change>, i: nat, was: Slot): Slot {
    if changes == [] then was
    else if changes[|changes| - 1].i == i then changes[|changes| - 1].s
    else LastAt(changes[..|changes| - 1], i, was)
  }

  /** Over any run of changes of the kernel's half, a space agrees with the kernel at an index if and only if it is on
      the chain, or the slot written there last is the one it had all along. */
  lemma {:induction false} AgreesWithKernel(configs: map<nat, Config>, tables: map<nat, Table>, chain: seq<nat>,
                                            changes: seq<Change>, d: nat, i: nat)
    requires Consistent(configs, tables, chain) && ChangesOk(configs, chain, changes)
    requires d in configs && KERNEL_PDE <= i < ENTRIES
    ensures var cs := AfterChanges(configs, chain, changes);
            && ShapesOk(cs) && cs.Keys == configs.Keys
            && (SlotOf(cs[d], i) == SlotOf(cs[KERNEL], i) <==>
                d in chain || SlotOf(configs[d], i) == LastAt(changes, i, SlotOf(configs[KERNEL], i)))
  {
    SlotsAfter(configs, chain, changes, d, i);
    SlotsAfter(configs, chain, changes, KERNEL, i);
    assert SlotFine(configs, tables, chain, d, i);
    hide AfterChanges, LastAt;
    if d in chain { SameLast(changes, i, SlotOf(configs[d], i), SlotOf(configs[KERNEL], i)); }
  }

  lemma SameLast(changes: seq<Change>, i: nat, a: Slot, b: Slot)
    requires a == b
    ensures LastAt(changes, i, a) == LastAt(changes, i, b)
  {
  }

  lemma {:induction false} SlotsAfter(configs: map<nat, Config>, chain: seq<nat>, changes: seq<Change>, d: nat, i: nat)
    requires ChangesOk(configs, chain, changes) && d in configs && KERNEL_PDE <= i < ENTRIES
    ensures var cs := AfterChanges(configs, chain, changes);
            && ShapesOk(cs) && cs.Keys == configs.Keys
            && SlotOf(cs[d], i) == if d in chain then LastAt(changes, i, SlotOf(configs[d], i))
               else SlotOf(configs[d], i)
  {
    if changes != [] {
      var earlier, last := changes[..|changes| - 1], changes[|changes| - 1];
      SlotsAfter(configs, chain, earlier, d, i);
      EditedShapes(AfterChanges(configs, chain, earlier), chain, last.id, last.i, last.s);
      EditedAt(AfterChanges(configs, chain, earlier), chain, last.id, last.i, last.s, d, i);
    }
  }

  /** Mapping a page of the kernel's half through a space that left the chain, if its directory entry changes: every
      space of the chain now translates the pages of that directory index as that space did. */
  lemma StaleEntrySpreads(configs: map<nat, Config>, tables: map<nat, Table>, configs': map<nat, Config>,
                          tables': map<nat, Table>,
                          chain: seq<nat>, id: nat, v: nat, frame: nat, flags: Flags, g: Option<Grant>, d: nat, w: nat)
    requires PageMapped(configs, tables, configs', tables', chain, id, v, frame, flags, g) && configs' != configs
    requires CanMap(SlotOf(configs[id], v / ENTRIES), tables, g)
    requires d in configs && d in chain && v / ENTRIES >= KERNEL_PDE && w < PAGES && w / ENTRIES == v / ENTRIES
    ensures Lookup(configs', tables', d, w)
         == if w == v then Some(Requested(SlotOf(configs[id], v / ENTRIES), tables, v % ENTRIES, frame, flags))
            else Lookup(configs, tables, id, w)
  {
    var s, i, p := SlotOf(configs[id], v / ENTRIES), v / ENTRIES, v % ENTRIES;
    MappedRight(s, tables, g, p, frame, flags, w % ENTRIES);
    var s' := MappedSlot(Opened(s, g), OpenedTables(s, tables, g), p);
    EditedAt(configs, chain, id, i, s', d, i);
    assert w == v <==> w % ENTRIES == p;
    hide SlotOk, CountOk, TableEdit, Edited, Requested, MappedSlot, MappedTables, Opened, OpenedTables, Walk;
  }

  lemma ClonedTwice(configs: map<nat, Config>, a: nat, b: nat, i: nat)
    requires KERNEL in configs && (forall e :: e in configs ==> ShapeOk(configs[e])) && KERNEL_PDE <= i < ENTRIES
    requires a !in configs && b !in configs && a != b
    ensures var cs := Cloned(configs, a);
            && KERNEL in cs && ShapeOk(cs[KERNEL])
            && var cs' := Cloned(cs, b);
            && a in cs' && b in cs' && KERNEL in cs' && ShapeOk(cs'[a]) && ShapeOk(cs'[b]) && ShapeOk(cs'[KERNEL])
            && SlotOf(cs'[a], i) == SlotOf(cs'[b], i) == SlotOf(cs'[KERNEL], i) == SlotOf(configs[KERNEL], i)
  {
    ClonedAt(configs, a, a, i);
    ClonedAt(configs, a, KERNEL, i);
    var cs := Cloned(configs, a);
    forall e | e in cs ensures ShapeOk(cs[e]) { ClonedAt(configs, a, e, i); }
    ClonedAt(cs, b, a, i);
    ClonedAt(cs, b, b, i);
    ClonedAt(cs, b, KERNEL, i);
  }

  lemma EmptyOk(s: Slot, tables: map<nat, Table>, tables': map<nat, Table>)
    requires s.pde.Empty? && SlotOk(s, tables)
    ensures SlotOk(s, tables')
  {
  }

  ghost predicate ShowsSlot(configs: map<nat, Config>, d: nat, i: nat, s: Slot) {
    d in configs && ShapeOk(configs[d]) && i < ENTRIES && SlotOf(configs[d], i) == s
  }

  /** Mapping a first page of the kernel's half through a space whose entry there is empty: spaces on the chain see that
      page, and no other of the directory index; spaces with an empty entry off the chain see none. */
  lemma FirstMapped(configs: map<nat, Config>, tables: map<nat, Table>, configs': map<nat, Config>,
                    tables': map<nat, Table>, chain: seq<nat>, id: nat, v: nat, frame: nat, flags: Flags, g: Grant,
                    s: Slot)
    requires PageMapped(configs, tables, configs', tables', chain, id, v, frame, flags, Some(g))
             && v / ENTRIES >= KERNEL_PDE
    requires s == SlotOf(configs[id], v / ENTRIES) && s.pde.Empty? && SlotOk(s, tables) && GrantOk(tables, Some(g))
    ensures forall d, w: nat :: d in configs && d in chain && w < PAGES && w / ENTRIES == v / ENTRIES ==>
      Lookup(configs', tables', d, w) == if w == v then Some(Requested(s, tables, v % ENTRIES, frame, flags)) else None
    ensures forall d, w: nat ::
              d !in chain && d != id && w < PAGES && w / ENTRIES == v / ENTRIES
              && ShowsSlot(configs, d, w / ENTRIES, s) ==>
                ShowsSlot(configs', d, w / ENTRIES, s) && Lookup(configs', tables', d, w) == None
    ensures configs'.Keys == configs.Keys && forall d :: d in configs' ==> ShapeOk(configs'[d])
  {
    var i, p := v / ENTRIES, v % ENTRIES;
    MappedRight(s, tables, Some(g), p, frame, flags, p);
    var s' := MappedSlot(Opened(s, Some(g)), OpenedTables(s, tables, Some(g)), p);
    assert s'.pt != NULL && s.pt == NULL && configs' == Edited(configs, chain, id, i, s');
    EditedKeys(configs, chain, id, i, s');
    EditedAt(configs, chain, id, i, s', id, i);
    assert configs' != configs;
    forall d | d in configs' ensures ShapeOk(configs'[d]) { EditedAt(configs, chain, id, i, s', d, i); }
    forall d, w: nat | d in configs && d in chain && w < PAGES && w / ENTRIES == i
      ensures Lookup(configs', tables', d, w) == if w == v then Some(Requested(s, tables, p, frame, flags)) else None
    {
      StaleEntrySpreads(configs, tables, configs', tables', chain, id, v, frame, flags, Some(g), d, w);
      assert Lookup(configs, tables, id, w) == None;
    }
    forall d, w: nat | d !in chain && d != id && w < PAGES && w / ENTRIES == i && ShowsSlot(configs, d, w / ENTRIES, s)
      ensures ShowsSlot(configs', d, w / ENTRIES, s) && Lookup(configs', tables', d, w) == None
    {
      EditedAt(configs, chain, id, i, s', d, i);
    }
  }

  // ---------------------------------------------------------------- looking up

  const SIGN_BITS: nat := 0xFFFF_FFFF_0000_0000

  /** The physical address of a virtual one. A 4M page's number is shifted as a signed 32-bit number and
      then widened: from 2G on, all upper bits of the result are set. */
  function GetPaddr(c: Config, tables: map<nat, Table>, vaddr: nat): Option<nat>
    requires ShapeOk(c) && vaddr < SPACE
    requires var s := SlotOf(c, vaddr / LARGE_PAGE); s.pde.Small? ==> HasTable(s, tables)
  {
    var pde, pte := vaddr / LARGE_PAGE, vaddr / PAGE % ENTRIES;
    match c.pd[pde]
    case Empty => None
    case Large(addr, _) =>
      Some((if addr >= 512 then SIGN_BITS else 0) + addr * LARGE_PAGE + vaddr % LARGE_PAGE)
    case Small(_, _) =>
      match tables[c.pt[pde]].entries[pte]
      case NoPage => None
      case Page(frame, _) => Some(frame * PAGE + vaddr % PAGE)
  }

  predicate IsUsed(c: Config, tables: map<nat, Table>, vaddr: nat)
    requires ShapeOk(c) && vaddr < SPACE
    requires var s := SlotOf(c, vaddr / LARGE_PAGE); s.pde.Small? ==> HasTable(s, tables)
  {
    var pde, pte := vaddr / LARGE_PAGE, vaddr / PAGE % ENTRIES;
    match c.pd[pde]
    case Empty => false
    case Large(_, _) => true
    case Small(_, _) => tables[c.pt[pde]].entries[pte] != NoPage
  }

  /** Lookups agree with the walk of the hardware; the address does so exactly for pages that are not
      4M pages from 2G on. */
  lemma LookupsAgree(configs: map<nat, Config>, tables: map<nat, Table>, chain: seq<nat>, d: nat, vaddr: nat)
    requires Consistent(configs, tables, chain) && d in configs && vaddr < SPACE && Live(chain, d, vaddr / LARGE_PAGE)
    ensures ShapeOk(configs[d])
    ensures var c, walk := configs[d], Lookup(configs, tables, d, vaddr / PAGE);
            var s := SlotOf(c, vaddr / LARGE_PAGE);
            && (s.pde.Small? ==> HasTable(s, tables))
            && (IsUsed(c, tables, vaddr) <==> walk.Some?)
            && (GetPaddr(c, tables, vaddr).Some? <==> walk.Some?)
            && (walk.Some? ==>
                 (GetPaddr(c, tables, vaddr) == Some(walk.value.frame * PAGE + vaddr % PAGE)
                  <==> !(s.pde.Large? && s.pde.addr >= 512)))
            && (walk.Some? && s.pde.Large? && s.pde.addr >= 512 ==>
                 GetPaddr(c, tables, vaddr) == Some(0xFFFF_FFFF_0000_0000 + walk.value.frame * PAGE + vaddr % PAGE))
  {
    SplitAddress(vaddr);
    OwnedSlot(configs, tables, chain, d, vaddr / LARGE_PAGE);
  }

  /** A 4M page at 2G: its first address gets all upper bits set. */
  lemma SignExtended(attrs: Attrs, tables: map<nat, Table>)
    ensures var c := Config(seq(ENTRIES, i => Large(512, attrs)), seq(ENTRIES, i => NULL), seq(ENTRIES, i => ENTRIES),
                            NULL);
            && SlotOk(SlotOf(c, 0), tables) && Walk(SlotOf(c, 0), tables, 0) == Some(Mapping(0x8_0000, attrs))
            && GetPaddr(c, tables, 0) == Some(0xFFFF_FFFF_8000_0000) && 0x8_0000 * PAGE == 0x8000_0000
  {
  }

  lemma SplitAddress(vaddr: nat)
    requires vaddr < SPACE
    ensures vaddr / LARGE_PAGE == vaddr / PAGE / ENTRIES < ENTRIES && vaddr / PAGE < PAGES
    ensures vaddr % LARGE_PAGE == vaddr / PAGE % ENTRIES * PAGE + vaddr % PAGE
  {
  }

  // ---------------------------------------------------------------- the manager

  class AddressSpaces {
    var configs: map<nat, Config>
    var tables: map<nat, Table>
    ghost var chain: seq<nat>

    ghost predicate Valid()
      reads this
    {
      Consistent(configs, tables, chain)
    }

    constructor (kernel: Config, tables: map<nat, Table>)
      requires Consistent(map[KERNEL := kernel], tables, [KERNEL])
      ensures Valid() && this.configs == map[KERNEL := kernel] && this.tables == tables && chain == [KERNEL]
    {
      this.configs, this.tables, chain := map[KERNEL := kernel], tables, [KERNEL];
    }

    /** Copies a directory index of a space to all other spaces on the chain. */
    method Propagate(id: nat, i: nat)
      requires Chained(configs, chain) && (forall d :: d in configs ==> ShapeOk(configs[d]))
      requires id in configs && i < ENTRIES
      modifies this`configs
      ensures configs == Copied(old(configs), chain, i, SlotOf(old(configs)[id], i))
    {
      ghost var before := configs;
      ghost var s := SlotOf(configs[id], i);
      assert Copied(before, [], i, s) == before;
      var dest := KERNEL;
      ghost var k := 0;
      while dest != NULL
        invariant k <= |chain| && dest == (if k < |chain| then chain[k] else NULL)
        invariant configs == Copied(before, chain[..k], i, s)
        decreases |chain| - k
      {
        CopyNext(before, chain, k, id, i);
        if dest != id {
          var c := configs[dest];
          configs := configs[dest := c.(pt := c.pt[i := configs[id].pt[i]],
                                        pd := c.pd[i := configs[id].pd[i]],
                                        used := c.used[i := configs[id].used[i]])];
        }
        dest := configs[dest].next;
        k := k + 1;
      }
      assert chain[..k] == chain;
    }

    /** Fills a cleared table with the pages of a 4M page, but for a hole. */
    method FillTable(addr: nat, attrs: Attrs, from: nat, to: int) returns (entries: seq<Pte>)
      ensures entries == Split(addr, attrs, from, to)
    {
      entries := NoEntries();
      var frame := ENTRIES * addr;
      for i := 0 to ENTRIES
        invariant |entries| == ENTRIES && frame == ENTRIES * addr + i
        invariant forall k :: 0 <= k < ENTRIES ==>
          entries[k] == if k < i then Split(addr, attrs, from, to)[k] else NoPage
      {
        if !(from <= i <= to) { entries := entries[i := Page(frame, attrs)]; }
        frame := frame + 1;
      }
    }

    /** Propagates a directory index that was changed, if it is one of the kernel's. */
    method Publish(id: nat, i: nat, changed: bool, ghost cs: map<nat, Config>, ghost ts: map<nat, Table>, ghost s: Slot)
      requires Consistent(cs, ts, chain) && id in cs && i < ENTRIES && ShapeOk(cs[id])
      requires configs == cs[id := PutSlot(cs[id], i, s)] && (!changed ==> s == SlotOf(cs[id], i))
      modifies this`configs
      ensures configs == if changed then Edited(cs, chain, id, i, s) else cs
      ensures Live(chain, id, i) ==> configs == Edited(cs, chain, id, i, s)
    {
      assert forall k :: 0 <= k < |chain| ==> chain[k] in cs;
      WrittenAndCopied(cs, chain, id, i, s);
      if !changed { PutSame(cs[id], i); }
      if !changed && Live(chain, id, i) { NothingToCopy(cs, ts, chain, id, i); }
      if changed && i >= KERNEL_PDE { Propagate(id, i); }
    }

    /** Makes sure that a directory index has a table, turning a 4M page into one. */
    method OpenTable(id: nat, i: nat, grant: Option<Grant>) returns (ok: bool, made: bool)
      requires id in configs && ShapeOk(configs[id]) && i < ENTRIES
      requires SlotOk(SlotOf(configs[id], i), tables)
      modifies this`configs, this`tables
      ensures ok <==> SlotOf(old(configs)[id], i).pt != NULL || grant.Some?
      ensures made ==> ok
      ensures made <==> SlotOf(old(configs)[id], i).pt == NULL && grant.Some?
      ensures !ok ==> configs == old(configs) && tables == old(tables)
      ensures !made ==> Opened(SlotOf(old(configs)[id], i), grant) == SlotOf(old(configs)[id], i)
      ensures configs == old(configs)[id := PutSlot(old(configs)[id], i, Opened(SlotOf(old(configs)[id], i), grant))]
      ensures tables == OpenedTables(SlotOf(old(configs)[id], i), old(tables), grant)
    {
      hide Split, NoEntries;
      PutSame(configs[id], i);
      ok, made := true, false;
      var c := configs[id];
      if c.pt[i] == NULL {
        if grant.None? { return false, false; }
        var g := grant.value;
        var entries, used := NoEntries(), 0;
        if c.pd[i].Large? {
          entries := FillTable(c.pd[i].addr, c.pd[i].attrs, 1, 0);
          used := ENTRIES;
        }
        tables := tables[g.table := Table(g.frame, entries)];
        configs := configs[id := PutSlot(c, i, Slot(Small(g.frame, true), g.table, used))];
        made := true;
      }
    }

    /** Writes an entry of a table and counts it if it was not in use. */
    method SetEntry(id: nat, i: nat, p: nat, frame: nat, flags: Flags) returns (counted: bool)
      requires id in configs && ShapeOk(configs[id]) && i < ENTRIES && p < ENTRIES
      requires HasTable(SlotOf(configs[id], i), tables)
      modifies this`configs, this`tables
      ensures configs == old(configs)[id := PutSlot(old(configs)[id], i,
                                                    MappedSlot(SlotOf(old(configs)[id], i), old(tables), p))]
      ensures tables == MappedTables(SlotOf(old(configs)[id], i), old(tables), p, frame, flags)
      ensures !counted <==> MappedSlot(SlotOf(old(configs)[id], i), old(tables), p) == SlotOf(old(configs)[id], i)
    {
      PutSame(configs[id], i);
      counted := false;
      var c := configs[id];
      var table := c.pt[i];
      if tables[table].entries[p] == NoPage && c.used[i] < ENTRIES {
        configs := configs[id := c.(used := c.used[i := c.used[i] + 1])];
        counted := true;
      }
      tables := tables[table := WithEntry(tables[table], p, NewEntry(tables[table].entries[p], frame, flags))];
    }

    /** Writes the entry of a page in its own space. */
    method WritePage(id: nat, v: nat, frame: nat, flags: Flags, grant: Option<Grant>) returns (ok: bool, changed: bool)
      requires v < PAGES && id in configs && ShapeOk(configs[id])
      requires SlotOk(SlotOf(configs[id], v / ENTRIES), tables)
      requires SlotOf(configs[id], v / ENTRIES).pt == NULL ==> GrantOk(tables, grant)
      modifies this`configs, this`tables
      ensures var s, i, p := SlotOf(old(configs)[id], v / ENTRIES), v / ENTRIES, v % ENTRIES;
              var s1, ts1 := Opened(s, grant), OpenedTables(s, old(tables), grant);
              && (ok <==> s.pt != NULL || grant.Some?)
              && (!ok ==> configs == old(configs) && tables == old(tables))
      ensures ok ==> PageWritten(old(configs), old(tables), configs, tables, id, v, frame, flags, grant, changed)
    {
      var pde, pte := v / ENTRIES, v % ENTRIES;
      ghost var s := SlotOf(configs[id], pde);
      ghost var c := configs[id];
      if s.pt != NULL || grant.Some? { OpenedRight(s, tables, grant, pte); }
      hide MappedSlot, MappedTables, Opened, OpenedTables, SlotOk, CountOk, Walk, TableEdit, PutSlot;
      changed := false;
      var made;
      ok, made := OpenTable(id, pde, grant);
      if !ok { return; }
      PutTwice(c, pde, Opened(s, grant), MappedSlot(Opened(s, grant), tables, pte));
      var counted := SetEntry(id, pde, pte, frame, flags);
      changed := made || counted;
    }

    /** Maps one page; fails, changing nothing, if a table is needed and there is no storage for it. A space that left
        the chain may map pages of the kernel's half too, if its entry there is still good: its whole directory entry is
        then copied to all spaces of the chain. */
    method MapPage(id: nat, v: nat, frame: nat, flags: Flags, grant: Option<Grant>) returns (ok: bool)
      requires Valid() && v < PAGES && CanMapAt(configs, tables, chain, id, v / ENTRIES)
      requires SlotOf(configs[id], v / ENTRIES).pt == NULL ==> GrantOk(tables, grant)
      modifies this`configs, this`tables
      ensures configs.Keys == old(configs.Keys)
      ensures ok <==> SlotOf(old(configs)[id], v / ENTRIES).pt != NULL || grant.Some?
      ensures !ok ==> configs == old(configs) && tables == old(tables)
      ensures ok ==> PageMapped(old(configs), old(tables), configs, tables, chain, id, v, frame, flags, grant)
      ensures Live(chain, id, v / ENTRIES) ==>
        Valid() && (Counted(old(configs), old(tables), chain) ==> Counted(configs, tables, chain))
      ensures ok && Live(chain, id, v / ENTRIES) ==>
        Remapped(old(configs), old(tables), configs, tables, chain, id, v, v + 1,
        Some(Requested(SlotOf(old(configs)[id], v / ENTRIES), old(tables), v % ENTRIES, frame, flags)))
      ensures ok ==>
        AsAsked(Lookup(old(configs), old(tables), id, v), Lookup(configs, tables, id, v), frame, flags,
                old(configs)[id].pd[v / ENTRIES].Small? ==> old(configs)[id].pd[v / ENTRIES].user)
      ensures ok && Live(chain, id, v / ENTRIES) ==> SameUses(old(configs), configs, id, v / ENTRIES)
      ensures forall t :: t in tables ==>
        t in old(tables) || (grant.Some? && t == grant.value.table && SlotOf(old(configs)[id], v / ENTRIES).pt == NULL)
    {
      ghost var cs, ts := configs, tables;
      ghost var s := SlotOf(configs[id], v / ENTRIES);
      if Live(chain, id, v / ENTRIES) { OwnedSlot(configs, tables, chain, id, v / ENTRIES); }
      assert ShapeOk(configs[id]);
      assert SlotOk(s, tables);
      hide Consistent, Counted, Edited, Requested, MappedSlot, MappedTables, Opened, OpenedTables, SlotOk, Remapped,
        SameUses, PutSlot, AsAsked, Lookup;
      var changed;
      ok, changed := WritePage(id, v, frame, flags, grant);
      if !ok { return; }
      ghost var s' := MappedSlot(Opened(s, grant), OpenedTables(s, ts, grant), v % ENTRIES);
      Publish(id, v / ENTRIES, changed, cs, ts, s');
      MapTables(cs, ts, id, v, grant, frame, flags);
      EditedKeys(cs, chain, id, v / ENTRIES, s');
      PageAsAsked(cs, ts, configs, tables, chain, id, v, frame, flags, grant);
      if Live(chain, id, v / ENTRIES) { MapEdits(cs, ts, chain, id, v, grant, frame, flags); }
    }

    /** Maps the next page of a run. */
    method MapNext(id: nat, lo: nat, v: nat, frame: nat, flags: Flags, grants: map<nat, Grant>,
                   ghost cs: map<nat, Config>, ghost ts: map<nat, Table>) returns (ok: bool)
      requires Underway(cs, ts, configs, tables, chain, id, lo, v, frame, flags, grants)
      requires lo <= v < PAGES && Live(chain, id, v / ENTRIES)
      modifies this`configs, this`tables
      ensures Underway(cs, ts, configs, tables, chain, id, lo, if ok then v + 1 else v, frame, flags, grants)
      ensures !ok ==> v / ENTRIES !in grants && id in cs && ShapeOk(cs[id]) && SlotOf(cs[id], v / ENTRIES).pt == NULL
    {
      ghost var cs1, ts1 := configs, tables;
      UnderwayAt(cs, ts, configs, tables, chain, id, lo, v, frame, flags, grants, v / ENTRIES);
      hide Underway, Requested, Remapped, Consistent, SameUses, Counted, Mapped, GrantsOk, PageMapped;
      ok := MapPage(id, v, (frame + v - lo) % FRAMES, flags, GrantFor(grants, v / ENTRIES));
      if ok { Onward(cs, ts, cs1, ts1, configs, tables, chain, id, lo, v, frame, flags, grants); }
    }

    /** Maps a run of pages, as far as there is storage for the tables it needs. */
    method MapPages(id: nat, lo: nat, hi: nat, frame: nat, flags: Flags, grants: map<nat, Grant>) returns (v: nat)
      requires Valid() && GrantsOk(configs, tables, id, grants)
      requires lo <= hi <= PAGES && (hi <= KERNEL_PDE * ENTRIES || id in chain)
      modifies this`configs, this`tables
      ensures lo <= v <= hi
      ensures Underway(old(configs), old(tables), configs, tables, chain, id, lo, v, frame, flags, grants)
      ensures v < hi ==> v / ENTRIES !in grants && SlotOf(old(configs)[id], v / ENTRIES).pt == NULL
    {
      ghost var cs, ts := configs, tables;
      NothingMapped(cs, ts, chain, id, lo, frame, flags, grants);
      hide Underway, Consistent, GrantsOk;
      v := lo;
      while v < hi
        invariant lo <= v <= hi && Underway(cs, ts, configs, tables, chain, id, lo, v, frame, flags, grants)
      {
        var ok := MapNext(id, lo, v, frame, flags, grants, cs, ts);
        if !ok { break; }
        v := v + 1;
      }
    }

    /** Maps a range of addresses, none of it as a 4M page. */
    method Map(id: nat, paddr: nat, vaddr: nat, size: nat, flags: Flags, grants: map<nat, Grant>)
      returns (mapped: nat, ghost v: nat)
      requires Valid() && GrantsOk(configs, tables, id, grants)
      requires var lo, sz := vaddr / PAGE, RoundedSize(paddr, vaddr, size);
               lo + PagesFor(sz) <= PAGES && SmallOnly(lo, sz)
               && (lo + PagesFor(sz) <= KERNEL_PDE * ENTRIES || id in chain)
      modifies this`configs, this`tables
      ensures Valid() && (Counted(old(configs), old(tables), chain) ==> Counted(configs, tables, chain))
      ensures var lo, hi := vaddr / PAGE, vaddr / PAGE + PagesFor(RoundedSize(paddr, vaddr, size));
              && lo <= v <= hi && mapped == PAGE * (v - lo)
              && Mapped(old(configs), old(tables), configs, tables, chain, id, lo, v, paddr / PAGE, flags)
              && (v < hi ==> v / ENTRIES !in grants && SlotOf(old(configs)[id], v / ENTRIES).pt == NULL)
      ensures RunAsAsked(old(configs), old(tables), configs, tables, id, vaddr / 0x1000, v, paddr / 0x1000, flags)
      ensures var low := if paddr % 4096 < vaddr % 4096 then paddr % 4096 else vaddr % 4096;
              var bytes := if paddr % 4096 == 0 && vaddr % 4096 == 0 then size else (size + 4096 - low) % 0x1_0000_0000;
              && mapped < bytes + 4096 && (mapped < bytes ==> v / 1024 !in grants && v / 1024 < 1024)
    {
      var page, frame, sz := vaddr / PAGE, paddr / PAGE, size;
      if paddr % PAGE != 0 || vaddr % PAGE != 0 {
        sz := (size + PAGE - (if paddr % PAGE < vaddr % PAGE then paddr % PAGE else vaddr % PAGE)) % SPACE;
      }
      ghost var cs, ts := configs, tables;
      hide Consistent, Mapped, Counted, Underway, GrantsOk, RunAsAsked;
      forall k: nat | k * PAGE < sz ensures (page + k) % ENTRIES == 0 ==> sz - k * PAGE < LARGE_PAGE {
        NextPage(page, sz, k);
      }
      hide PagesFor, RoundedSize;
      var end := MapPages(id, page, page + PagesFor(sz), frame, flags, grants);
      UnderwayState(cs, ts, configs, tables, chain, id, page, end, frame, flags, grants);
      mapped, v := PAGE * (end - page), end;
      MappedAsAsked(cs, ts, configs, tables, chain, id, page, end, frame, flags);
      BytesMapped(paddr, vaddr, size, end - page);
    }

    /** Unmaps one page of a table, and gives the table up once nothing in it is counted any more. */
    method ClearPage(build: UnmapBuild, id: nat, i: nat, p: nat)
      requires Valid() && CanEdit(configs, chain, id, i) && p < ENTRIES && configs[id].pd[i].Small?
      requires HasTable(SlotOf(configs[id], i), tables)
      modifies this`configs, this`tables
      ensures configs == Edited(old(configs), chain, id, i,
                                ClearedSlot(build, SlotOf(old(configs)[id], i), old(tables), p))
      ensures tables == ClearedTables(build, SlotOf(old(configs)[id], i), old(tables), p)
    {
      ghost var cs, ts := configs, tables;
      var c := configs[id];
      var table, used, propagate := c.pt[i], c.used[i], false;
      var mapped := tables[table].entries[p].Page?;
      tables := tables[table := WithEntry(tables[table], p, NoPage)];
      if used > 0 && (!build.onlyMapped || mapped) {
        used, propagate := used - 1, true;
      }
      var slot := Slot(c.pd[i], table, used);
      if used == 0 {
        tables := tables - {table};
        slot, propagate := Slot(Empty, NULL, 0), true;
      }
      configs := configs[id := PutSlot(c, i, slot)];
      Publish(id, i, propagate, cs, ts, slot);
    }

    /** Replaces a 4M page by a table without some of its pages. */
    method SplitLarge(id: nat, i: nat, from: nat, to: nat, g: Grant)
      requires Valid() && CanEdit(configs, chain, id, i) && configs[id].pd[i].Large? && from < ENTRIES && to < ENTRIES
      modifies this`configs, this`tables
      ensures configs == Edited(old(configs), chain, id, i, HoleSlot(g, from, to))
      ensures tables == HoleTables(SlotOf(old(configs)[id], i), old(tables), g, from, to)
    {
      ghost var cs, ts := configs, tables;
      var c := configs[id];
      var entries := FillTable(c.pd[i].addr, c.pd[i].attrs, from, to);
      tables := tables[g.table := Table(g.frame, entries)];
      configs := configs[id := PutSlot(c, i, HoleSlot(g, from, to))];
      Publish(id, i, true, cs, ts, HoleSlot(g, from, to));
    }

    /** Takes a whole 4M page away. */
    method DropLarge(id: nat, i: nat)
      requires Valid() && CanEdit(configs, chain, id, i)
      modifies this`configs
      ensures configs == Edited(old(configs), chain, id, i, Slot(Empty, SlotOf(old(configs)[id], i).pt, 0))
    {
      ghost var cs := configs;
      var c := configs[id];
      configs := configs[id := c.(pd := c.pd[i := Empty], used := c.used[i := 0])];
      assert c.pt[i := c.pt[i]] == c.pt;
      Publish(id, i, true, cs, tables, Slot(Empty, c.pt[i], 0));
    }

    /** One round of the unmapping loop, at page v of a range up to `end`: returns the page to go on with. */
    method UnmapStep(build: UnmapBuild, id: nat, v: nat, end: nat, grant: Option<Grant>) returns (ok: bool, next: nat)
      requires Valid() && v * PAGE < end <= SPACE && CanEdit(configs, chain, id, v / ENTRIES)
      requires configs[id].pd[v / ENTRIES].Large? ==> GrantOk(tables, grant)
      modifies this`configs, this`tables
      ensures Valid() && DirOk(DirAt(old(configs), old(tables), id, v / ENTRIES))
      ensures !ok ==> configs == old(configs) && tables == old(tables)
      ensures !ok <==> old(configs)[id].pd[v / ENTRIES].Large? && grant.None? && !Whole(v, end)
      ensures old(configs)[id].pd[v / ENTRIES].Large? && v % 1024 == 0 && (v / 1024 + 1) * 0x40_0000 <= end < SPACE ==>
        ok && DirAt(configs, tables, id, v / ENTRIES).pde == Empty
      ensures next == NextPageOf(DirAt(old(configs), old(tables), id, v / ENTRIES), v)
      ensures next == if old(configs)[id].pd[v / ENTRIES].Small? then v + 1 else (v / 1024 + 1) * 1024
      ensures ok ==> DirEdited(old(configs), old(tables), configs, tables, chain, id, v / ENTRIES,
        StepDir(build, DirAt(old(configs), old(tables), id, v / ENTRIES), v, end, grant))
      ensures forall t :: t in tables ==>
        t in old(tables) || (grant.Some? && t == grant.value.table && old(configs)[id].pd[v / ENTRIES].Large?)
    {
      ghost var cs, ts := configs, tables;
      var pde, pte := v / ENTRIES, v % ENTRIES;
      ghost var s := SlotOf(configs[id], pde);
      OwnedSlot(configs, tables, chain, id, pde);
      EntryBounds(build, v, end);
      WholeIs(v, end);
      assert DirAt(cs, ts, id, pde) == DirOf(s, ts) && s.pde == configs[id].pd[pde];
      assert DirOk(DirOf(s, ts));
      hide Consistent, Edited, StepReady, SlotOk, WantedTo, StepDir, DirEdited, DirAt, DirOk;
      ok, next := true, (pde + 1) * ENTRIES;
      if configs[id].pd[pde].Empty? {
        EmptyReady(build, s, ts, v, end, grant);
        NothingToCopy(cs, ts, chain, id, pde);
        StepEdits(cs, ts, chain, build, id, v, end, grant, s, ts);
      } else if configs[id].pd[pde].Large? {
        if pte == 0 && next * PAGE % SPACE <= end % SPACE {
          DropReady(build, s, ts, v, end, grant);
          DropLarge(id, pde);
          StepEdits(cs, ts, chain, build, id, v, end, grant, Slot(Empty, s.pt, 0), ts);
        } else {
          if grant.None? { ok := false; return; }
          var last := (end - 1) / PAGE;
          var to := if last / ENTRIES != pde then ENTRIES - 1 else if build.exactShift then last % ENTRIES else pde;
          HoleReady(build, s, ts, v, end, grant.value, to);
          SplitLarge(id, pde, pte, to, grant.value);
          StepEdits(cs, ts, chain, build, id, v, end, grant, HoleSlot(grant.value, pte, to), tables);
        }
      } else {
        ClearReady(build, s, ts, v, end, grant);
        ClearPage(build, id, pde, pte);
        next := v + 1;
        StepEdits(cs, ts, chain, build, id, v, end, grant, ClearedSlot(build, s, ts, pte), tables);
      }
    }

    /** What the unmapping loop asks of its caller. */
    ghost predicate CanUnmap(id: nat, lo: nat, end: nat, grants: map<nat, Grant>)
      reads this
    {
      id in configs && lo * PAGE <= end <= SPACE && AllFresh(tables, grants, lo, lo) && UnmapsFor(chain, id, end)
    }

    /** The unmapping loop; it stops early at a 4M page for which there is no table to split it into. The bytes done are
        counted in 32 bits: at the end of the address space of a range from page 0 the count is back at zero, and the
        loop would start over with what is left; `again` says so, and nothing is claimed about what comes then. */
    method UnmapPages(build: UnmapBuild, id: nat, lo: nat, end: nat, grants: map<nat, Grant>)
      returns (v: nat, again: bool)
      requires Valid() && CanUnmap(id, lo, end, grants)
      modifies this`configs, this`tables
      ensures again <==> lo == 0 && v == PAGES
      ensures lo <= v && Removing(build, old(configs), old(tables), configs, tables, chain, id, lo, v, end, grants)
      ensures v * PAGE < end ==> NoTableFor(old(configs), id, v, end, grants)
    {
      ghost var cs, ts := configs, tables;
      RemovingStart(build, cs, ts, chain, id, lo, end, grants);
      hide Removing, Consistent, DirEdited, StepDir, AllFresh, StopAt, Whole, NextPageOf, DirOk, UnmapsFor, Add32;
      v, again := lo, false;
      var unmapped, size := 0, end - lo * PAGE;
      while unmapped < size
        invariant lo <= v <= PAGES && unmapped == (v - lo) * PAGE && !(lo == 0 && v == PAGES)
        invariant Removing(build, cs, ts, configs, tables, chain, id, lo, v, end, grants)
        decreases end - v * PAGE
      {
        RemovingAt(build, cs, ts, configs, tables, chain, id, lo, v, end, grants);
        ghost var cs1, ts1 := configs, tables;
        var ok, next := UnmapStep(build, id, v, end, GrantFor(grants, v / ENTRIES));
        NextInRange(v, DirAt(cs1, ts1, id, v / ENTRIES));
        if !ok {
          break;
        }
        RemovingOn(build, cs, ts, cs1, ts1, configs, tables, chain, id, lo, v, next, end, grants);
        CountWraps(lo, v, next);
        unmapped := Add32(unmapped, (next - v) * PAGE);
        v := next;
        if unmapped == 0 {
          again := true;
          break;
        }
      }
    }

    /** Unmaps a range of addresses. The pages done are gone, in every space the change reaches, every other page of
        every space is as before and all counts are exact, if and only if all directory indices of the range are sound.
        Sizes have 32 bits: one that wraps to zero when it is rounded unmaps nothing. */
    method Unmap(build: UnmapBuild, id: nat, vaddr: nat, size: nat, grants: map<nat, Grant>)
      returns (ghost v: nat, again: bool)
      requires Valid() && CanUnmap(id, vaddr / PAGE, vaddr + size, grants) && size < SPACE
      modifies this`configs, this`tables
      ensures Valid() && vaddr / PAGE <= v && (again ==> vaddr / PAGE == 0 && v == PAGES)
      ensures size + vaddr % PAGE == SPACE ==> configs == old(configs) && tables == old(tables)
      ensures size + vaddr % PAGE < SPACE ==> (again <==> vaddr / PAGE == 0 && v == PAGES)
      ensures size + vaddr % PAGE < SPACE ==>
        UnmapIs(build, old(configs), old(tables), configs, tables, chain, id, vaddr / PAGE, v, vaddr + size, grants)
    {
      hide CanUnmap, UnmapIs, Valid, Consistent;
      var page, sz := vaddr / PAGE, size;
      if vaddr % PAGE != 0 { sz := (sz + vaddr % PAGE) % SPACE; }
      v, again := page, false;
      if sz == 0 && size != 0 { return; }
      CanUnmapIs(id, page, vaddr + size, grants);
      assert page * PAGE + sz == vaddr + size;
      v, again := UnmapFrom(build, id, page, page * PAGE + sz, grants);
    }

    method UnmapFrom(build: UnmapBuild, id: nat, lo: nat, end: nat, grants: map<nat, Grant>)
      returns (v: nat, again: bool)
      requires Valid() && CanUnmap(id, lo, end, grants)
      modifies this`configs, this`tables
      ensures again <==> lo == 0 && v == PAGES
      ensures Valid() && lo <= v
              && UnmapIs(build, old(configs), old(tables), configs, tables, chain, id, lo, v, end, grants)
    {
      ghost var cs, ts := configs, tables;
      ValidIs();
      CanUnmapIs(id, lo, end, grants);
      hide *;
      v, again := UnmapPages(build, id, lo, end, grants);
      UnmapDone(build, cs, ts, configs, tables, chain, id, lo, v, end, grants);
      ValidIs();
    }

    lemma CanUnmapIs(id: nat, lo: nat, end: nat, grants: map<nat, Grant>)
      requires CanUnmap(id, lo, end, grants)
      ensures end <= SPACE && id in configs && UnmapsFor(chain, id, end)
    {
    }

    lemma ValidIs()
      ensures Valid() == Consistent(configs, tables, chain)
    {
    }

    /** Makes a new address space with the kernel's half, at the address that was found for it, if any; without one, or
        without a physical address below 4G for it, nothing changes. Clearing it drops the link to the space that was
        the newest before, which thereby leaves the chain. */
    method NewConfig(found: Option<nat>) returns (made: bool)
      requires Valid() && (found.Some? ==> found.value !in configs && found.value != NULL)
      modifies this`configs, this`chain
      ensures Valid() && (made <==> found.Some?)
      ensures !made ==> configs == old(configs) && chain == old(chain)
      ensures made ==> chain == [KERNEL, found.value] && configs.Keys == old(configs).Keys + {found.value}
      ensures Counted(old(configs), tables, old(chain)) ==> Counted(configs, tables, chain)
      ensures made ==> configs == Cloned(old(configs), found.value)
      ensures made ==> forall d, v: nat :: d in configs && v < PAGES ==>
        Lookup(configs, tables, d, v) == AfterClone(old(configs), tables, found.value, d, v)
    {
      ghost var cs := configs;
      assert KERNEL == chain[0] && ShapeOk(configs[KERNEL]);
      made := found.Some?;
      if !made { return; }
      var id := found.value;
      ClonedConsistent(cs, tables, chain, id);
      ClonedKeys(cs, id);
      forall d, v: nat | (d in cs || d == id) && v < PAGES
        ensures Lookup(Cloned(cs, id), tables, d, v) == AfterClone(cs, tables, id, d, v)
      {
        ClonedLookup(cs, tables, chain, id, d, v);
      }
      var kernel := configs[KERNEL];
      // linked before the newest space, and made the newest
      var config := Config([], [], [], kernel.next);
      configs := configs[KERNEL := kernel.(next := id)];
      // cleared, link and all, and the kernel's half copied
      config := config.(next := NULL);
      config := config.(pd := seq(KERNEL_PDE, i => Empty) + kernel.pd[KERNEL_PDE..]);
      config := config.(pt := seq(KERNEL_PDE, i => NULL) + kernel.pt[KERNEL_PDE..]);
      config := config.(used := seq(KERNEL_PDE, i => 0) + kernel.used[KERNEL_PDE..]);
      configs := configs[id := config];
      chain := [KERNEL, id];
      hide Consistent, Counted, Lookup, AfterClone;
      assert configs == Cloned(cs, id);
    }

    /** Two new spaces: the first one leaves the chain, with the kernel's half as it is now. */
    method TwoSpaces(a: nat, b: nat, ghost i: nat)
      requires Valid() && a !in configs && b !in configs && a != b && a != NULL && b != NULL
               && KERNEL_PDE <= i < ENTRIES
      modifies this`configs, this`chain
      ensures Valid() && chain == [KERNEL, b] && a in configs && b in configs && KERNEL in old(configs)
              && ShapeOk(old(configs)[KERNEL])
      ensures var s := SlotOf(old(configs)[KERNEL], i);
              ShowsSlot(configs, a, i, s) && ShowsSlot(configs, b, i, s) && ShowsSlot(configs, KERNEL, i, s)
              && SlotOk(s, tables)
    {
      ghost var cs0 := configs;
      OwnedSlot(configs, tables, chain, KERNEL, i);
      hide AfterClone, Counted, Lookup;
      var _ := NewConfig(Some(a));
      var _ := NewConfig(Some(b));
      ClonedTwice(cs0, a, b, i);
    }

    /** Two new spaces, a page mapped by the kernel, and another one next to it by the first of the two spaces, which is
        off the chain by then: that space never sees the kernel's page, and in the end nobody does. */
    method StaleSpaces(a: nat, b: nat, v: nat, w: nat, frame: nat, flags: Flags, g: Grant, h: Grant)
      returns (ghost cs: map<nat, Config>, ghost ts: map<nat, Table>)
      requires Valid() && a !in configs && b !in configs && a != b && a != NULL && b != NULL
      requires KERNEL_PDE * ENTRIES <= v < PAGES && w < PAGES && w != v && w / ENTRIES == v / ENTRIES
      requires KERNEL in configs && ShapeOk(configs[KERNEL]) && configs[KERNEL].pd[v / ENTRIES].Empty?
      requires GrantOk(tables, Some(g)) && GrantOk(tables, Some(h)) && g.table != h.table
      modifies this
      ensures Lookup(cs, ts, KERNEL, v).Some? && Lookup(cs, ts, b, v) == Lookup(cs, ts, KERNEL, v)
              && Lookup(cs, ts, a, v) == None
      ensures Lookup(configs, tables, KERNEL, w).Some?
              && Lookup(configs, tables, KERNEL, v) == Lookup(configs, tables, b, v) == None
    {
      ghost var i, s, ts0 := v / ENTRIES, SlotOf(configs[KERNEL], v / ENTRIES), tables;
      TwoSpaces(a, b, i);
      ghost var cs2 := configs;
      assert KERNEL in chain && b in chain && a !in chain && KERNEL != a;
      hide Edited, PageMapped, Requested, Lookup, Walk, SlotOk, Remapped, Counted, SameUses, Consistent;
      var _ := MapPage(KERNEL, v, frame, flags, Some(g));
      cs, ts := configs, tables;
      FirstMapped(cs2, ts0, cs, ts, chain, KERNEL, v, frame, flags, g, s);
      assert SlotOk(s, ts) by { EmptyOk(s, ts0, ts); }
      var _ := MapPage(a, w, frame, flags, Some(h));
      FirstMapped(cs, ts, configs, tables, chain, a, w, frame, flags, h, s);
    }
  }
}
