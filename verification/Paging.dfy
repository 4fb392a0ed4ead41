/** Mapping, unmapping and translating pages by walking the tables in memory. */
module Paging {
  import opened Bits
  import opened PhysicalMemory
  import opened FrameBits
  import opened PhysicalFrames
  import opened BuddyLists
  import opened PageEntries
  import opened PageTables

  /** The frames of all tables are taken from the bitmap allocator. */
  ghost predicate TablesTaken(s: Space, used: seq<bool>) {
    |used| <= FRAME_LIMIT && forall n :: n in s.tables ==> s.tables[n].frame < |used| && used[s.tables[n].frame]
  }

  /** `now` marks as used what `before` did and the frames of the tables `t` has and `s` has not. */
  ghost predicate TookForTables(before: seq<bool>, now: seq<bool>, s: Space, t: Space) {
    && |now| == |before|
    && (forall f :: 0 <= f < |now| ==> (now[f] <==> before[f] || (IsTableFrame(t, f) && !IsTableFrame(s, f))))
    && (forall n :: n in s.tables ==> n in t.tables && t.tables[n] == s.tables[n])
    && (forall n :: n in t.tables && n !in s.tables ==> t.tables[n].frame < |before| && !before[t.tables[n].frame])
  }

  class AddressSpace {
    const mem: Memory
    const pmm: Pmm
    const hhdm: nat
    /** Physical address of the top-level table. */
    const pml4: nat
    ghost var space: Space

    ghost predicate Valid()
      reads this, mem, pmm, pmm.bitmap
    {
      && pmm.Valid()
      && SpaceOk(mem.w, space)
      && TablesTaken(space, pmm.used)
      && ROOT in space.tables && pml4 == Addr(space.tables[ROOT].frame)
    }

    /** A fresh, zeroed top-level table in the frame at pml4. */
    constructor (mem: Memory, pmm: Pmm, hhdm: nat, pml4: nat)
      requires pmm.Valid() && |pmm.used| <= FRAME_LIMIT
      requires pml4 % 4096 == 0 && FrameOf(pml4) < |pmm.used| && pmm.used[FrameOf(pml4)]
      requires forall i: nat :: i < 512 ==> Load(mem.w, SlotOf(FrameOf(pml4), i)) == 0
      ensures Valid() && this.mem == mem && this.pmm == pmm && this.hhdm == hhdm && this.pml4 == pml4
      ensures space == Space(map[ROOT := Table(FrameOf(pml4), true)], map[])
    {
      this.mem, this.pmm, this.hhdm, this.pml4 := mem, pmm, hhdm, pml4;
      space := Space(map[ROOT := Table(FrameOf(pml4), true)], map[]);
      new;
      RootOnly(mem.w, FrameOf(pml4));
    }

    /** The table under slot `index` of `table`, created on demand; 0 when absent and not to be created,
        or when no frame is left. Tables are passed as pointers through the direct map. */
    method NextLevel(table: nat, index: nat, create: bool, leafUser: nat, ghost n: Node)
      returns (next: nat, present: bool)
      requires Valid() && n in space.tables && n.level > 0 && index < 512
      requires table == hhdm + Addr(space.tables[n].frame) && (leafUser == 0 || leafUser == PTE_USER)
      modifies this`space, mem, pmm, pmm.bitmap
      ensures Valid() && pmm.bitmap == old(pmm.bitmap) && pmm.usableFrames == old(pmm.usableFrames)
      ensures space.maps == old(space.maps)
      ensures present ==> Child(n, index) in space.tables && next == hhdm + Addr(space.tables[Child(n, index)].frame)
      ensures old(Child(n, index) in space.tables) ==> present
      ensures !present ==> Child(n, index) !in space.tables
      ensures old(Child(n, index) in space.tables) || !create || !present ==>
        space == old(space) && mem.w == old(mem.w) && pmm.used == old(pmm.used)
      ensures !present ==> !create || FirstFree(old(pmm.used), 0) == |old(pmm.used)|
      ensures TookForTables(old(pmm.used), pmm.used, old(space), space)
      ensures OnlyTables(old(mem.w), mem.w, space)
      ensures forall m :: m in space.tables && m !in old(space.tables) ==>
        m == Child(n, index) && space.tables[m].user == (leafUser == PTE_USER)
    {
      hide SpaceOk, TablesTaken, Shows, CountFree, FirstFree, TookForTables, OnlyTables, Or, And, Pte, Zeroed;
      hide TableHung, Word, Has, EntryAddr, IsTableFrame;
      ghost var was, start, before := space, mem.w, pmm.used;
      NothingTaken(start, was, before);
      TableStep(mem.w, space, n, index);
      var entry := Word(mem.w, table - hhdm + 8 * index);
      if Has(entry, PTE_PRESENT) {
        return hhdm + EntryAddr(entry), true;
      }
      if !create {
        return 0, false;
      }
      FreeIsNoTable(was, before);
      var frame := pmm.AllocFrame();
      if frame == 0 {
        return 0, false;
      }
      ghost var f := FrameOf(frame);
      ZeroFrame(mem, frame);
      TableEntryBuilt(f, leafUser == PTE_USER);
      HungHere(start, mem.w, was, n, index, f, Pte(f, true, leafUser == PTE_USER));
      mem.w := Store(mem.w, table - hhdm + 8 * index,
                     Or(Or(Or(And(frame, PTE_ADDR_MASK), PTE_PRESENT), PTE_WRITE), leafUser));
      space := Space(space.tables[Child(n, index) := Table(f, leafUser == PTE_USER)], space.maps);
      TableAdded(start, mem.w, was, n, index, f, leafUser == PTE_USER, before);
      next, present := hhdm + frame, true;
    }

    /** Map one page. False only when a table was needed and no frame was left; tables made on the way
        stay, but no mapping changes then. */
    method Map(virt: nat, phys: nat, flags: nat) returns (ok: bool)
      requires Valid()
      modifies this`space, mem, pmm, pmm.bitmap
      ensures Valid() && pmm.bitmap == old(pmm.bitmap) && pmm.usableFrames == old(pmm.usableFrames)
      ensures ok ==> space.maps == old(space.maps)[PageOf(virt) := MappingFor(phys, flags)]
      ensures !ok ==> space.maps == old(space.maps) && FirstFree(pmm.used, 0) == |pmm.used|
      ensures !ok ==> PathNode(PageOf(virt), 0) !in space.tables
      ensures Grown(old(mem.w), old(pmm.used), old(space), mem.w, pmm.used, space, PageOf(virt), Has(flags, VM_USER))
    {
      hide SpaceOk, TablesTaken, Shows, CountFree, FirstFree, TookForTables, OnlyTables, Or, And, Pte, Shr, PageOf;
      hide MappingFor, NewTablesFor, Grown;
      ghost var s0, w0, u0, page := space, mem.w, pmm.used, PageOf(virt);
      var user := Has(flags, VM_USER);
      var leafUser := if user then PTE_USER else 0;
      PathIsIndices(virt);
      GrownNothing(w0, u0, s0, page, user);
      var pdpt, ok3 := NextLevel(hhdm + pml4, Pml4Index(virt), true, leafUser, ROOT);
      ghost var s1, w1, u1 := space, mem.w, pmm.used;
      GrownMore(w0, u0, s0, w0, u0, s0, w1, u1, s1, page, 2, user);
      if !ok3 {
        WholePath(w1, s1, page);
        return false;
      }
      var pd, ok2 := NextLevel(pdpt, PdptIndex(virt), true, leafUser, PathNode(page, 2));
      ghost var s2, w2, u2 := space, mem.w, pmm.used;
      GrownMore(w0, u0, s0, w1, u1, s1, w2, u2, s2, page, 1, user);
      if !ok2 {
        WholePath(w2, s2, page);
        return false;
      }
      var pt, ok1 := NextLevel(pd, PdIndex(virt), true, leafUser, PathNode(page, 1));
      ghost var s3, w3, u3 := space, mem.w, pmm.used;
      GrownMore(w0, u0, s0, w2, u2, s2, w3, u3, s3, page, 0, user);
      if !ok1 {
        return false;
      }
      var pte := Or(And(phys, PTE_ADDR_MASK), PTE_PRESENT);
      if Has(flags, VM_WRITE) {
        pte := Or(pte, PTE_WRITE);
      }
      if Has(flags, VM_USER) {
        pte := Or(pte, PTE_USER);
      }
      LeafSet(w3, s3, page, phys, flags, pte);
      mem.w := Store(mem.w, pt - hhdm + 8 * PtIndex(virt), pte);
      space := Space(space.tables, space.maps[page := MappingFor(phys, flags)]);
      MapDone(w0, w3, s0, s3, u0, u3, page, user, pte, space.maps);
      ok := true;
    }

    /** Remove the mapping of one page; tables stay. */
    method Unmap(virt: nat) returns (ok: bool)
      requires Valid()
      modifies this`space, mem
      ensures Valid() && space.tables == old(space.tables)
      ensures ok <==> PageOf(virt) in old(space.maps)
      ensures space.maps == old(space.maps) - {PageOf(virt)}
      ensures OnlyTables(old(mem.w), mem.w, space)
    {
      hide SpaceOk, TablesTaken, Shows, And, Shr, PageOf, OnlyTables, Word;
      ghost var page := PageOf(virt);
      NothingTaken(mem.w, space, pmm.used);
      var pt, present := FindLeafTable(virt);
      if !present {
        return false;
      }
      LeafStep(mem.w, space, page);
      PathIsIndices(virt);
      var i := PtIndex(virt);
      if !Has(Word(mem.w, pt - hhdm + 8 * i), PTE_PRESENT) {
        return false;
      }
      LeafCleared(mem.w, space, page);
      mem.w := Store(mem.w, pt - hhdm + 8 * i, 0);
      space := Space(space.tables, space.maps - {page});
      ok := true;
    }

    /** Physical address behind a virtual one, or nothing when some level is absent. */
    method Translate(virt: nat) returns (r: Option<nat>)
      requires Valid()
      ensures r == if PageOf(virt) in space.maps
                   then Some(Addr(space.maps[PageOf(virt)].frame) + virt % 4096) else None
    {
      hide SpaceOk, TablesTaken, Shows, And, Shr, PageOf, Word, EntryAddr;
      ghost var page := PageOf(virt);
      var pt, present := FindLeafTable(virt);
      if !present {
        return None;
      }
      LeafStep(mem.w, space, page);
      PathIsIndices(virt);
      var entry := Word(mem.w, pt - hhdm + 8 * PtIndex(virt));
      if !Has(entry, PTE_PRESENT) {
        return None;
      }
      hide Has;
      PageOffset(space.maps[page].frame, virt);
      r := Some(Or(EntryAddr(entry), And(virt, 0xfff)));
    }

    /** The walk that creates nothing, shared by unmapping and translating. */
    method FindLeafTable(virt: nat) returns (pt: nat, present: bool)
      requires Valid()
      ensures present <==> PathNode(PageOf(virt), 0) in space.tables
      ensures present ==> pt == hhdm + Addr(space.tables[PathNode(PageOf(virt), 0)].frame)
      ensures !present ==> PageOf(virt) !in space.maps
    {
      hide SpaceOk, TablesTaken, Shows, And, Shr, PageOf, Word, EntryAddr, Has;
      ghost var page := PageOf(virt);
      PathIsIndices(virt);
      WholePath(mem.w, space, page);
      var pdpt, pd;
      pdpt, present := Follow(hhdm + pml4, Pml4Index(virt), ROOT);
      if !present {
        UnmappedPath(mem.w, space, page);
        return 0, false;
      }
      pd, present := Follow(pdpt, PdptIndex(virt), PathNode(page, 2));
      if !present {
        UnmappedPath(mem.w, space, page);
        return 0, false;
      }
      pt, present := Follow(pd, PdIndex(virt), PathNode(page, 1));
      if !present {
        UnmappedPath(mem.w, space, page);
      }
    }

    /** next_level with create = false. */
    method Follow(table: nat, index: nat, ghost n: Node) returns (next: nat, present: bool)
      requires Valid()
      requires n in space.tables && n.level > 0 && index < 512 && table == hhdm + Addr(space.tables[n].frame)
      ensures present <==> Child(n, index) in space.tables
      ensures present ==> next == hhdm + Addr(space.tables[Child(n, index)].frame)
    {
      hide SpaceOk, TablesTaken, Shows, And, Word, EntryAddr, Has;
      TableStep(mem.w, space, n, index);
      var entry := Word(mem.w, table - hhdm + 8 * index);
      if Has(entry, PTE_PRESENT) {
        return hhdm + EntryAddr(entry), true;
      }
      next, present := 0, false;
    }
  }

  // ---- the frames of the tables -----------------------------------------------------------------

  function TableFrames(s: Space): set<nat> {
    set n | n in s.tables :: s.tables[n].frame
  }

  lemma TableFrameIn(s: Space, f: nat)
    ensures f in TableFrames(s) <==> IsTableFrame(s, f)
  {
  }

  /** The tables `t` has and `s` has not are as many frames as have become used. */
  lemma {:induction false} TablesCounted(before: seq<bool>, now: seq<bool>, s: Space, t: Space)
    requires TookForTables(before, now, s, t)
    ensures CountFree(now) + |TableFrames(t) - TableFrames(s)| == CountFree(before)
    ensures forall f :: f in TableFrames(t) - TableFrames(s) ==> f < |before| && !before[f]
    ensures forall f: nat :: f < |now| ==> (now[f] <==> before[f] || f in TableFrames(t) - TableFrames(s))
    ensures TableFrames(s) <= TableFrames(t) && |now| == |before|
  {
    var fs := TableFrames(t) - TableFrames(s);
    forall f | f in fs ensures f < |before| && !before[f] {
      var n :| n in t.tables && t.tables[n].frame == f;
      assert n !in s.tables;
    }
    forall f: nat ensures f in fs <==> IsTableFrame(t, f) && !IsTableFrame(s, f) {
      TableFrameIn(s, f);
      TableFrameIn(t, f);
    }
    CountTaken(before, now, fs);
    forall f | f in TableFrames(s) ensures f in TableFrames(t) {
      var n :| n in s.tables && s.tables[n].frame == f;
      assert n in t.tables && t.tables[n] == s.tables[n];
    }
  }

  /** No two tables share a frame, so there are as many of one as of the other. */
  lemma {:induction false} AsManyFrames(tables: map<Node, Table>, keys: set<Node>)
    requires keys <= tables.Keys
    requires forall m, n :: m in tables && n in tables && tables[m].frame == tables[n].frame ==> m == n
    ensures |set n | n in keys :: tables[n].frame| == |keys|
    decreases keys
  {
    if keys != {} {
      var m :| m in keys;
      AsManyFrames(tables, keys - {m});
      var rest := set n | n in keys - {m} :: tables[n].frame;
      assert (set n | n in keys :: tables[n].frame) == rest + {tables[m].frame};
      assert tables[m].frame !in rest;
    }
  }

  /** The tables it takes to map all of a set of pages. */
  function PathTables(pages: set<nat>): set<Node> {
    {ROOT} + set p, level | p in pages && 0 <= level < 3 :: PathNode(p, level)
  }

  /** A space built from nothing: its tables took the frames that became used, serve the given pages only,
      and no other page is mapped. */
  ghost predicate Built(before: seq<bool>, now: seq<bool>, s: Space, pages: set<nat>) {
    TookForTables(before, now, NO_SPACE, s) && s.tables.Keys <= PathTables(pages) && s.maps.Keys <= pages
  }

  /** An address space before its first table. */
  const NO_SPACE := Space(map[], map[])

  lemma BuiltMore(before: seq<bool>, used: seq<bool>, now: seq<bool>, w: Ram, after: Ram, s: Space, t: Space,
                  pages: set<nat>, page: nat, user: bool)
    requires Built(before, used, s, pages) && Grown(w, used, s, after, now, t, page, user) && page in pages
    requires t.maps.Keys <= s.maps.Keys + {page}
    ensures Built(before, now, t, pages)
  {
    TookChain(before, used, now, NO_SPACE, s, t);
    forall n | n in t.tables ensures n in PathTables(pages) {
      assert n == PathNode(page, 0) || n == PathNode(page, 1) || n == PathNode(page, 2) || n in s.tables;
    }
  }

  /** Each table of a space built from nothing is one frame less. */
  lemma {:induction false} BuiltCounts(before: seq<bool>, now: seq<bool>, s: Space, pages: set<nat>)
    requires Built(before, now, s, pages) && ShapeOk(s.tables)
    ensures CountFree(now) + |s.tables.Keys| == CountFree(before)
  {
    TablesCounted(before, now, NO_SPACE, s);
    AsManyFrames(s.tables, s.tables.Keys);
    assert TableFrames(s) - TableFrames(NO_SPACE) == set n | n in s.tables.Keys :: s.tables[n].frame;
  }

  /** Once all pages are mapped, exactly the tables on their paths are there. */
  lemma {:induction false} AllServed(w: Ram, s: Space, pages: set<nat>)
    requires SpaceOk(w, s) && s.tables.Keys <= PathTables(pages) && forall p :: p in pages ==> p in s.maps
    ensures s.tables.Keys == PathTables(pages)
  {
    hide SpaceOk, PathTables;
    forall n | n in PathTables(pages) ensures n in s.tables {
      ServedTable(w, s, pages, n);
    }
  }

  lemma ServedTable(w: Ram, s: Space, pages: set<nat>, n: Node)
    requires SpaceOk(w, s) && n in PathTables(pages) && forall p :: p in pages ==> p in s.maps
    ensures n in s.tables
  {
    hide SpaceOk, PathNode;
    WholePath(w, s, 0);
    if n != ROOT {
      var p: nat, level: nat :| p in pages && level < 3 && n == PathNode(p, level);
      MappedPath(w, s, p, level);
    }
  }

  lemma MappedPath(w: Ram, s: Space, page: nat, level: nat)
    requires SpaceOk(w, s) && page in s.maps && level < 3
    ensures PathNode(page, level) in s.tables
  {
    assert PathNode(page, 0) in s.tables;
    WholePath(w, s, page);
    assert level == 0 || level == 1 || level == 2;
  }

  /** Some page has not got all its tables. */
  ghost predicate Unserved(s: Space, pages: set<nat>) {
    exists p :: p in pages && PathNode(p, 0) !in s.tables
  }

  /** When the frames have run out before all pages are served, there were fewer than tables needed. */
  lemma {:induction false} TooFew(before: seq<bool>, now: seq<bool>, s: Space, pages: set<nat>)
    requires Built(before, now, s, pages) && ShapeOk(s.tables) && Unserved(s, pages) && CountFree(now) == 0
    ensures CountFree(before) < |PathTables(pages)|
  {
    BuiltCounts(before, now, s, pages);
    var p :| p in pages && PathNode(p, 0) !in s.tables;
    assert PathNode(p, 0) in PathTables(pages);
    SmallerSet(s.tables.Keys, PathTables(pages), PathNode(p, 0));
  }

  lemma SmallerSet(a: set<Node>, b: set<Node>, n: Node)
    requires a <= b && n in b && n !in a
    ensures |a| < |b|
  {
    SubsetSize(a, b - {n});
  }

  lemma {:induction false} SubsetSize(a: set<Node>, b: set<Node>)
    requires a <= b
    ensures |a| <= |b|
    decreases a
  {
    if a != {} {
      var n :| n in a;
      SubsetSize(a - {n}, b - {n});
    }
  }

  /** What paging_map records: the frame of the address, reduced to 52 bits, and the requested rights. */
  function MappingFor(phys: nat, flags: nat): Mapping {
    Mapping(FrameOf(phys) % FRAME_LIMIT, Has(flags, VM_WRITE), Has(flags, VM_USER))
  }

  /** Whether ring 3 reaches a freshly mapped user page is decided by the tables that were already on the
      way: it does exactly when each of them lets ring 3 through. */
  lemma {:induction false} UserReachIff(s: Space, t: Space, page: nat)
    requires NewTablesFor(s, t, page, true) && page in t.maps && t.maps[page].user
    requires forall n :: n in s.tables ==> n in t.tables && t.tables[n] == s.tables[n]
    requires PathNode(page, 0) in t.tables && PathNode(page, 1) in t.tables && PathNode(page, 2) in t.tables
    ensures UserReaches(t, page) <==>
      forall level :: 0 <= level < 3 && PathNode(page, level) in s.tables ==> s.tables[PathNode(page, level)].user
  {
    UserPath(t, page);
    if forall level :: 0 <= level < 3 && PathNode(page, level) in s.tables ==> s.tables[PathNode(page, level)].user {
      forall level | 0 <= level < 3 ensures PathNode(page, level) in t.tables && t.tables[PathNode(page, level)].user {
        assert level == 0 || level == 1 || level == 2;
      }
    }
  }

  /** What paging_map was asked for is what the processor then finds: every address of the virtual page leads
      to the physical page that `phys` lies in, of which 52 bits count. Bit 0 of the flags is the right to
      write; without bit 1 ring 3 has no access, and with it exactly through tables that let it pass. */
  lemma {:induction false} MapThenWalk(w: Ram, s: Space, virt: nat, phys: nat, flags: nat, v: nat)
    requires SpaceOk(w, s) && PageOf(virt) in s.maps && s.maps[PageOf(virt)] == MappingFor(phys, flags)
    requires v / 4096 == virt / 4096
    ensures ROOT in s.tables
    ensures var r := HardwareWalk(w, Addr(s.tables[ROOT].frame), v);
      && r.Some? && r.value.phys == (phys - phys % 4096) % 0x10_0000_0000_0000 + v % 4096
      && (r.value.write <==> flags % 2 == 1)
      && (r.value.user <==> flags / 2 % 2 == 1 && forall level :: 0 <= level < 3 ==>
            PathNode(PageOf(v), level) in s.tables && s.tables[PathNode(PageOf(v), level)].user)
  {
    WalkIsLookup(w, s, v);
    FlagsMean(flags);
    FrameMeans(phys);
    hide SpaceOk, HardwareWalk, Has, PathNode;
  }

  lemma FlagsMean(flags: nat)
    ensures Has(flags, VM_WRITE) <==> flags % 2 == 1
    ensures Has(flags, VM_USER) <==> flags / 2 % 2 == 1
  {
    MaskIsBits();
    hide And, Pow2;
    AndLowMask(flags, 1);
    AndMidMask(flags, 1, 2);
  }

  lemma FrameMeans(phys: nat)
    ensures Addr(FrameOf(phys) % FRAME_LIMIT) == (phys - phys % 4096) % 0x10_0000_0000_0000
  {
    var f, q := FrameOf(phys), FrameOf(phys) / FRAME_LIMIT;
    assert phys - phys % 4096 == 4096 * f && f == q * 0x100_0000_0000 + f % FRAME_LIMIT;
    MulModPlus(q, 0x10_0000_0000_0000, 4096 * (f % FRAME_LIMIT));
  }

  /** A page mapped without VM_USER is out of ring 3's reach whatever the tables say. */
  lemma SupervisorPage(w: Ram, s: Space, v: nat)
    requires SpaceOk(w, s) && PageOf(v) in s.maps && !s.maps[PageOf(v)].user
    ensures ROOT in s.tables
    ensures var r := HardwareWalk(w, Addr(s.tables[ROOT].frame), v); r.Some? && !r.value.user
  {
    WalkIsLookup(w, s, v);
  }

  /** A concrete case: the first two pages share their tables. Mapping the first for the supervisor makes
      them, so the second, mapped for ring 3, is out of its reach. */
  method UserUnderSupervisor(a: AddressSpace) returns (mapped: bool)
    requires a.Valid() && a.space == Space(map[ROOT := Table(FrameOf(a.pml4), true)], map[])
    modifies a`space, a.mem, a.pmm, a.pmm.bitmap
    ensures a.Valid()
    ensures mapped ==> 1 in a.space.maps && a.space.maps[1].user && !UserReaches(a.space, 1)
    ensures !mapped ==> FirstFree(a.pmm.used, 0) == |a.pmm.used|
  {
    hide SpaceOk, TablesTaken, Shows, CountFree, FirstFree, TookForTables, OnlyTables, Has, PageOf, NewTablesFor;
    hide UserReaches;
    ghost var empty := a.space;
    FirstPages();
    mapped := a.Map(0, 0, 0);
    if mapped {
      ghost var one := a.space;
      SupervisorTables(a.mem.w, empty, one);
      ghost var used := a.pmm.used;
      mapped := a.Map(4096, 4096, VM_USER);
      StillSupervisor(one, a.space, used, a.pmm.used);
    }
  }

  lemma FirstPages()
    ensures PageOf(0) == 0 && PageOf(4096) == 1 && Has(VM_USER, VM_USER) && !Has(0, VM_USER)
    ensures PathNode(0, 0) == PathNode(1, 0)
  {
  }

  lemma SupervisorTables(w: Ram, empty: Space, one: Space)
    requires SpaceOk(w, one) && 0 in one.maps && NewTablesFor(empty, one, 0, false) && PathNode(0, 0) !in empty.tables
    ensures PathNode(0, 0) in one.tables && !one.tables[PathNode(0, 0)].user
  {
  }

  lemma StillSupervisor(one: Space, two: Space, before: seq<bool>, now: seq<bool>)
    requires PathNode(0, 0) in one.tables && !one.tables[PathNode(0, 0)].user
    requires TookForTables(before, now, one, two)
    ensures !UserReaches(two, 1)
  {
    FirstPages();
  }

  /** Tables that were not there before lie on the way to `page` and let ring 3 through as `user` says. */
  ghost predicate NewTablesFor(s: Space, t: Space, page: nat, user: bool) {
    forall n :: n in t.tables && n !in s.tables ==>
      t.tables[n].user == user && (n == PathNode(page, 0) || n == PathNode(page, 1) || n == PathNode(page, 2))
  }

  /** What mapping one page may do to memory, to the frames in use and to the set of tables. */
  ghost predicate Grown(w: Ram, u: seq<bool>, s: Space, after: Ram, v: seq<bool>, t: Space, page: nat, user: bool) {
    TookForTables(u, v, s, t) && OnlyTables(w, after, t) && NewTablesFor(s, t, page, user)
  }

  lemma GrownNothing(w: Ram, u: seq<bool>, s: Space, page: nat, user: bool)
    ensures Grown(w, u, s, w, u, s, page, user)
  {
    NothingTaken(w, s, u);
  }

  lemma GrownMore(w: Ram, u: seq<bool>, s: Space, mid: Ram, v: seq<bool>, t: Space, after: Ram, x: seq<bool>, r: Space,
                  page: nat, level: nat, user: bool)
    requires level < 3 && Grown(w, u, s, mid, v, t, page, user)
    requires TookForTables(v, x, t, r) && OnlyTables(mid, after, r)
    requires forall n :: n in r.tables && n !in t.tables ==> n == PathNode(page, level) && r.tables[n].user == user
    ensures Grown(w, u, s, after, x, r, page, user)
  {
    TookTwice(w, mid, after, u, v, x, s, t, r);
  }

  lemma TookTwice(w: Ram, mid: Ram, after: Ram, u: seq<bool>, v: seq<bool>, x: seq<bool>, s: Space, t: Space, r: Space)
    requires TookForTables(u, v, s, t) && TookForTables(v, x, t, r)
    requires OnlyTables(w, mid, t) && OnlyTables(mid, after, r)
    ensures TookForTables(u, x, s, r) && OnlyTables(w, after, r)
    ensures forall n :: n in t.tables ==> n in r.tables && r.tables[n] == t.tables[n]
  {
    TookChain(u, v, x, s, t, r);
    forall f: nat | IsTableFrame(t, f) ensures IsTableFrame(r, f) {
      var n :| n in t.tables && t.tables[n].frame == f;
      assert n in r.tables && r.tables[n].frame == f;
    }
  }

  lemma TookChain(u: seq<bool>, v: seq<bool>, x: seq<bool>, s: Space, t: Space, r: Space)
    requires TookForTables(u, v, s, t) && TookForTables(v, x, t, r)
    ensures TookForTables(u, x, s, r)
  {
    forall f: nat | IsTableFrame(t, f) ensures IsTableFrame(r, f) {
      var n :| n in t.tables && t.tables[n].frame == f;
      assert n in r.tables && r.tables[n].frame == f;
    }
    forall f: nat | IsTableFrame(s, f) ensures IsTableFrame(t, f) {
      var n :| n in s.tables && s.tables[n].frame == f;
      assert n in t.tables && t.tables[n].frame == f;
    }
  }

  /** The leaf store of paging_map, with the entry it computes. */
  lemma LeafSet(w: Ram, s: Space, page: nat, phys: nat, flags: nat, pte: nat)
    requires SpaceOk(w, s) && PathNode(page, 0) in s.tables
    requires var e0 := Or(And(phys, PTE_ADDR_MASK), PTE_PRESENT);
      var e1 := if Has(flags, VM_WRITE) then Or(e0, PTE_WRITE) else e0;
      pte == if Has(flags, VM_USER) then Or(e1, PTE_USER) else e1
    ensures var t := Space(s.tables, s.maps[page := MappingFor(phys, flags)]);
      SpaceOk(Store(w, SlotOf(s.tables[PathNode(page, 0)].frame, page % 512), pte), t)
  {
    hide And, Or, Has;
    var m := MappingFor(phys, flags);
    PhysMasked(phys);
    LeafEntryBuilt(m.frame, m.write, m.user);
    SetLeaf(w, s, page, s.maps[page := m]);
    assert (page / 512) * 512 + page % 512 == page;
  }

  lemma PhysMasked(phys: nat)
    ensures And(phys, PTE_ADDR_MASK) == And(Addr(FrameOf(phys) % FRAME_LIMIT), PTE_ADDR_MASK)
  {
    hide And;
    AddrMasked(phys);
    MaskedFrame(FrameOf(phys) % FRAME_LIMIT);
    var q := phys / 4096;
    assert phys == (q / FRAME_LIMIT) * (4096 * FRAME_LIMIT) + (Addr(q % FRAME_LIMIT) + phys % 4096);
    MulModPlus(q / FRAME_LIMIT, 4096 * FRAME_LIMIT, Addr(q % FRAME_LIMIT) + phys % 4096);
  }

  lemma MapDone(w: Ram, mid: Ram, s: Space, t: Space, u: seq<bool>, v: seq<bool>, page: nat, user: bool, pte: nat,
                maps: map<nat, Mapping>)
    requires Grown(w, u, s, mid, v, t, page, user) && TablesTaken(t, v) && PathNode(page, 0) in t.tables
    ensures var r := Space(t.tables, maps);
      var after := Store(mid, SlotOf(t.tables[PathNode(page, 0)].frame, page % 512), pte);
      Grown(w, u, s, after, v, r, page, user) && TablesTaken(r, v)
  {
    var r := Space(t.tables, maps);
    SlotFrame(t.tables[PathNode(page, 0)].frame, page % 512);
    forall f: nat ensures IsTableFrame(r, f) <==> IsTableFrame(t, f) {
      if IsTableFrame(r, f) { var n :| n in r.tables && r.tables[n].frame == f; assert n in t.tables; }
      if IsTableFrame(t, f) { var n :| n in t.tables && t.tables[n].frame == f; assert n in r.tables; }
    }
    assert IsTableFrame(t, t.tables[PathNode(page, 0)].frame);
  }

  lemma LeafCleared(w: Ram, s: Space, page: nat)
    requires SpaceOk(w, s) && PathNode(page, 0) in s.tables
    ensures var t := Space(s.tables, s.maps - {page});
      var after := Store(w, SlotOf(s.tables[PathNode(page, 0)].frame, page % 512), 0);
      && SpaceOk(after, t) && OnlyTables(w, after, t)
      && forall used :: TablesTaken(s, used) ==> TablesTaken(t, used)
  {
    SetLeaf(w, s, page, s.maps - {page});
    assert (page / 512) * 512 + page % 512 == page;
    var t := Space(s.tables, s.maps - {page});
    SlotFrame(s.tables[PathNode(page, 0)].frame, page % 512);
    assert PathNode(page, 0) in t.tables && IsTableFrame(t, s.tables[PathNode(page, 0)].frame);
  }

  lemma PageOffset(frame: nat, virt: nat)
    requires frame < FRAME_LIMIT
    ensures Or(Addr(frame), And(virt, 0xfff)) == Addr(frame) + virt % 4096
  {
    assert Pow2(12) == 4096;
    hide And, Or, Pow2;
    AndLowMask(virt, 12);
    OrLow(frame, 12, 0, virt % 4096);
    ZeroOr(virt % 4096);
  }

  lemma ZeroOr(x: nat)
    ensures Or(0, x) == x
  {
    if x > 0 { ZeroOr(x / 2); }
  }

  // ---- facts about one more table -------------------------------------------------------------------

  lemma RootOnly(w: Ram, f: nat)
    requires f < FRAME_LIMIT && forall i: nat :: i < 512 ==> Load(w, SlotOf(f, i)) == 0
    ensures SpaceOk(w, Space(map[ROOT := Table(f, true)], map[]))
  {
  }

  lemma NothingTaken(w: Ram, s: Space, used: seq<bool>)
    ensures TookForTables(used, used, s, s) && OnlyTables(w, w, s)
  {
  }

  lemma FreeIsNoTable(s: Space, used: seq<bool>)
    requires TablesTaken(s, used)
    ensures var f := FirstFree(used, 0);
      f < |used| ==> !used[f] && !IsTableFrame(s, f) && f < FRAME_LIMIT
  {
  }

  /** The first k words of frame f are zero and nothing outside f changed. */
  ghost predicate Zeroed(w: Ram, after: Ram, f: nat, k: nat) {
    && k <= 512
    && (forall j: nat :: j < k ==> Load(after, SlotOf(f, j)) == 0)
    && (forall a: nat :: FrameOf(a) != f ==> Load(after, a) == Load(w, a))
  }

  /** memset of a fresh table frame to zero, word by word. */
  method ZeroFrame(mem: Memory, frame: nat)
    requires frame % 4096 == 0
    modifies mem
    ensures Zeroed(old(mem.w), mem.w, FrameOf(frame), 512)
  {
    ghost var start := mem.w;
    for k := 0 to 512
      invariant Zeroed(start, mem.w, FrameOf(frame), k)
    {
      ZeroMore(start, mem.w, FrameOf(frame), k);
      mem.w := Store(mem.w, frame + 8 * k, 0);
    }
  }

  lemma ZeroMore(w: Ram, after: Ram, f: nat, k: nat)
    requires Zeroed(w, after, f, k) && k < 512
    ensures Zeroed(w, Store(after, SlotOf(f, k), 0), f, k + 1)
  {
    SlotFrame(f, k);
    forall j: nat | j < k ensures SlotOf(f, j) != SlotOf(f, k) {}
  }

  lemma HungHere(w: Ram, mid: Ram, s: Space, n: Node, i: nat, f: nat, e: nat)
    requires Zeroed(w, mid, f, 512) && n in s.tables && i < 512 && !IsTableFrame(s, f)
    ensures TableHung(w, Store(mid, SlotOf(s.tables[n].frame, i), e), s.tables[n].frame, i, f, e)
  {
    SlotFrame(s.tables[n].frame, i);
    forall j: nat | j < 512 ensures SlotOf(f, j) != SlotOf(s.tables[n].frame, i) {
      SlotsDiffer(f, j, s.tables[n].frame, i);
    }
  }

  lemma TableAdded(w: Ram, after: Ram, s: Space, n: Node, i: nat, f: nat, user: bool, used: seq<bool>)
    requires SpaceOk(w, s) && TablesTaken(s, used) && n in s.tables && n.level > 0 && i < 512 &&
      Child(n, i) !in s.tables
    requires f < |used| && !used[f] && TableHung(w, after, s.tables[n].frame, i, f, Pte(f, true, user))
    ensures var t := Space(s.tables[Child(n, i) := Table(f, user)], s.maps);
      && SpaceOk(after, t) && TablesTaken(t, used[f := true])
      && TookForTables(used, used[f := true], s, t) && OnlyTables(w, after, t)
  {
    FreeFrameIsNew(s, used, f);
    AddTable(w, after, s, n, i, f, user);
    AddedTaken(s, Child(n, i), f, user, used);
    AddedOnly(w, after, s, n, i, f, user);
  }

  lemma FreeFrameIsNew(s: Space, used: seq<bool>, f: nat)
    requires TablesTaken(s, used) && f < |used| && !used[f]
    ensures !IsTableFrame(s, f) && f < FRAME_LIMIT
  {
  }

  lemma AddedFrames(s: Space, c: Node, f: nat, user: bool)
    requires c !in s.tables
    ensures var t := Space(s.tables[c := Table(f, user)], s.maps);
      forall g: nat :: IsTableFrame(t, g) <==> IsTableFrame(s, g) || g == f
  {
    var t := Space(s.tables[c := Table(f, user)], s.maps);
    assert c in t.tables && t.tables[c].frame == f;
    forall g: nat | IsTableFrame(s, g) ensures IsTableFrame(t, g) {
      var m :| m in s.tables && s.tables[m].frame == g;
      assert m in t.tables && t.tables[m].frame == g;
    }
  }

  lemma AddedTaken(s: Space, c: Node, f: nat, user: bool, used: seq<bool>)
    requires c !in s.tables && TablesTaken(s, used) && f < |used| && !used[f]
    ensures var t := Space(s.tables[c := Table(f, user)], s.maps);
      TablesTaken(t, used[f := true]) && TookForTables(used, used[f := true], s, t)
  {
    FreeFrameIsNew(s, used, f);
    AddedFrames(s, c, f, user);
  }

  lemma AddedOnly(w: Ram, after: Ram, s: Space, n: Node, i: nat, f: nat, user: bool)
    requires n in s.tables && n.level > 0 && i < 512 && Child(n, i) !in s.tables
    requires TableHung(w, after, s.tables[n].frame, i, f, Pte(f, true, user))
    ensures OnlyTables(w, after, Space(s.tables[Child(n, i) := Table(f, user)], s.maps))
  {
    AddedFrames(s, Child(n, i), f, user);
    SlotFrame(s.tables[n].frame, i);
    assert IsTableFrame(s, s.tables[n].frame);
  }
}
