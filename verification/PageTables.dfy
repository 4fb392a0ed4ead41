/** Four-level page tables: the tree in memory, the map it stands for, and the processor's own walk. */
module PageTables {
  import opened Bits
  import opened PhysicalMemory
  import opened PageEntries
  import opened BuddyLists

  /** A table of the tree, by level (3 is the PML4) and the page-number digits that lead to it. */
  datatype Node = Node(level: nat, prefix: nat)

  /** The frame a table lives in, and whether the entry leading to it lets ring 3 through. */
  datatype Table = Table(frame: nat, user: bool)

  datatype Mapping = Mapping(frame: nat, write: bool, user: bool)

  /** An address space: its tables, and the map from virtual pages it implements. */
  datatype Space = Space(tables: map<Node, Table>, maps: map<nat, Mapping>)

  const ROOT: Node := Node(3, 0)

  function Child(n: Node, i: nat): Node
    requires n.level > 0
  {
    Node(n.level - 1, n.prefix * 512 + i)
  }

  function Above(n: Node): Node {
    Node(n.level + 1, n.prefix / 512)
  }

  /** A tree: every table but the root hangs under another one, and no frame serves twice. */
  ghost predicate ShapeOk(tables: map<Node, Table>) {
    && ROOT in tables
    && (forall n :: n in tables ==>
          && n.level <= 3 && tables[n].frame < FRAME_LIMIT
          && (n.level == 3 ==> n == ROOT)
          && (n.level < 3 ==> Above(n) in tables))
    && (forall m, n :: m in tables && n in tables && tables[m].frame == tables[n].frame ==> m == n)
  }

  ghost predicate MapsOk(s: Space) {
    forall page :: page in s.maps ==> Node(0, page / 512) in s.tables && s.maps[page].frame < FRAME_LIMIT
  }

  /** The word slot i of table n must hold. */
  function EntryFor(s: Space, n: Node, i: nat): nat {
    if n.level > 0 then
      if Child(n, i) in s.tables then Pte(s.tables[Child(n, i)].frame, true, s.tables[Child(n, i)].user) else 0
    else
      var page := n.prefix * 512 + i;
      if page in s.maps then Pte(s.maps[page].frame, s.maps[page].write, s.maps[page].user) else 0
  }

  function SlotOf(frame: nat, i: nat): nat {
    Addr(frame) + 8 * i
  }

  ghost predicate Stored(w: Ram, s: Space) {
    forall n, i: nat :: n in s.tables && i < 512 ==> Load(w, SlotOf(s.tables[n].frame, i)) == EntryFor(s, n, i)
  }

  ghost predicate SpaceOk(w: Ram, s: Space) {
    ShapeOk(s.tables) && MapsOk(s) && Stored(w, s)
  }

  ghost predicate IsTableFrame(s: Space, f: nat) {
    exists n :: n in s.tables && s.tables[n].frame == f
  }

  /** Every word that differs lies in a frame that holds a table of s. */
  ghost predicate OnlyTables(w: Ram, after: Ram, s: Space) {
    forall a: nat :: !IsTableFrame(s, FrameOf(a)) ==> Load(after, a) == Load(w, a)
  }

  lemma SlotFrame(frame: nat, i: nat)
    requires i < 512
    ensures FrameOf(SlotOf(frame, i)) == frame
  {
  }

  lemma SlotsDiffer(f: nat, i: nat, g: nat, j: nat)
    requires i < 512 && j < 512
    ensures SlotOf(f, i) == SlotOf(g, j) <==> f == g && i == j
  {
    SlotFrame(f, i);
    SlotFrame(g, j);
  }

  lemma ChildBelow(n: Node, i: nat)
    requires n.level > 0 && i < 512
    ensures Above(Child(n, i)) == n
  {
  }

  lemma ChildIsUnique(n: Node, i: nat, m: Node, j: nat)
    requires n.level > 0 && m.level > 0 && i < 512 && j < 512 && Child(n, i) == Child(m, j)
    ensures n == m && i == j
  {
    ChildBelow(n, i);
    ChildBelow(m, j);
  }

  // ---- changes ---------------------------------------------------------------------------------

  /** `after` differs from w in slot i of frame g and otherwise at most inside frame f, which it zeroes. */
  ghost predicate TableHung(w: Ram, after: Ram, g: nat, i: nat, f: nat, e: nat) {
    && Load(after, SlotOf(g, i)) == e
    && (forall j: nat :: j < 512 ==> Load(after, SlotOf(f, j)) == 0)
    && (forall a: nat :: FrameOf(a) != f && a != SlotOf(g, i) ==> Load(after, a) == Load(w, a))
  }

  lemma AddedShape(s: Space, n: Node, i: nat, f: nat, user: bool)
    requires ShapeOk(s.tables) && MapsOk(s) && n in s.tables && n.level > 0 && i < 512 && Child(n, i) !in s.tables
    requires f < FRAME_LIMIT && !IsTableFrame(s, f)
    ensures var t := Space(s.tables[Child(n, i) := Table(f, user)], s.maps); ShapeOk(t.tables) && MapsOk(t)
  {
    ChildBelow(n, i);
  }

  /** Hanging a zeroed table into an empty slot adds that table and changes no mapping. */
  lemma {:induction false} AddTable(w: Ram, after: Ram, s: Space, n: Node, i: nat, f: nat, user: bool)
    requires SpaceOk(w, s) && n in s.tables && n.level > 0 && i < 512 && Child(n, i) !in s.tables
    requires f < FRAME_LIMIT && !IsTableFrame(s, f)
    requires TableHung(w, after, s.tables[n].frame, i, f, Pte(f, true, user))
    ensures SpaceOk(after, Space(s.tables[Child(n, i) := Table(f, user)], s.maps))
  {
    var c := Child(n, i);
    var t := Space(s.tables[c := Table(f, user)], s.maps);
    ChildBelow(n, i);
    AddedShape(s, n, i, f, user);
    hide ShapeOk, MapsOk, EntryFor, TableHung, Pte;
    forall m, j: nat | m in t.tables && j < 512
      ensures Load(after, SlotOf(t.tables[m].frame, j)) == EntryFor(t, m, j)
    {
      if m == c {
        NewTableIsEmpty(s, n, i, t, j);
      } else {
        OldSlotStays(w, after, s, n, i, f, user, m, j);
      }
    }
  }

  lemma NewTableIsEmpty(s: Space, n: Node, i: nat, t: Space, j: nat)
    requires ShapeOk(s.tables) && MapsOk(s) && 0 < n.level <= 3 && i < 512 && j < 512 && Child(n, i) !in s.tables
    requires t.maps == s.maps && t.tables.Keys == s.tables.Keys + {Child(n, i)}
    ensures EntryFor(t, Child(n, i), j) == 0
  {
    var c := Child(n, i);
    if c.level > 0 {
      NoOrphans(s.tables, c, j);
      hide Pte, ShapeOk, MapsOk;
      assert Child(c, j) != c;
    } else {
      NoOrphanPages(s, c, j);
      hide Pte, ShapeOk, MapsOk;
    }
  }

  lemma NoOrphanPages(s: Space, c: Node, j: nat)
    requires MapsOk(s) && c.level == 0 && c !in s.tables && j < 512
    ensures c.prefix * 512 + j !in s.maps
  {
    assert (c.prefix * 512 + j) / 512 == c.prefix;
  }

  lemma NoOrphans(tables: map<Node, Table>, c: Node, j: nat)
    requires ShapeOk(tables) && 0 < c.level <= 3 && c !in tables && j < 512
    ensures Child(c, j) !in tables
  {
    ChildBelow(c, j);
  }

  lemma OldWordStays(w: Ram, after: Ram, s: Space, n: Node, i: nat, f: nat, e: nat, m: Node, j: nat)
    requires ShapeOk(s.tables) && n in s.tables && i < 512 && !IsTableFrame(s, f)
    requires TableHung(w, after, s.tables[n].frame, i, f, e) && m in s.tables && j < 512
    ensures Load(after, SlotOf(s.tables[m].frame, j)) ==
      if (m, j) == (n, i) then e else Load(w, SlotOf(s.tables[m].frame, j))
  {
    SlotsDiffer(s.tables[m].frame, j, s.tables[n].frame, i);
    SlotFrame(s.tables[m].frame, j);
    assert s.tables[m].frame != f;
  }

  lemma OldEntryStays(s: Space, n: Node, i: nat, f: nat, user: bool, m: Node, j: nat)
    requires n.level > 0 && i < 512 && j < 512
    ensures EntryFor(Space(s.tables[Child(n, i) := Table(f, user)], s.maps), m, j)
         == if (m, j) == (n, i) then Pte(f, true, user) else EntryFor(s, m, j)
  {
    if m.level > 0 && Child(m, j) == Child(n, i) { ChildIsUnique(m, j, n, i); }
  }

  lemma OldSlotStays(w: Ram, after: Ram, s: Space, n: Node, i: nat, f: nat, user: bool, m: Node, j: nat)
    requires SpaceOk(w, s) && n in s.tables && n.level > 0 && i < 512 && Child(n, i) !in s.tables
    requires !IsTableFrame(s, f) && TableHung(w, after, s.tables[n].frame, i, f, Pte(f, true, user))
    requires m in s.tables && j < 512
    ensures Load(after, SlotOf(s.tables[m].frame, j)) ==
              EntryFor(Space(s.tables[Child(n, i) := Table(f, user)], s.maps), m, j)
  {
    hide Pte, ShapeOk, MapsOk, EntryFor, SlotOf, TableHung, IsTableFrame;
    OldWordStays(w, after, s, n, i, f, Pte(f, true, user), m, j);
    OldEntryStays(s, n, i, f, user, m, j);
  }

  /** Rewriting one leaf slot changes one page of the map and nothing else. */
  lemma {:induction false} SetLeaf(w: Ram, s: Space, page: nat, maps: map<nat, Mapping>)
    requires SpaceOk(w, s) && Node(0, page / 512) in s.tables
    requires page in maps ==> maps[page].frame < FRAME_LIMIT
    requires forall p :: p != page ==> (p in maps <==> p in s.maps) && (p in maps ==> maps[p] == s.maps[p])
    ensures var n := Node(0, page / 512);
      var e := EntryFor(Space(s.tables, maps), n, page % 512);
      SpaceOk(Store(w, SlotOf(s.tables[n].frame, page % 512), e), Space(s.tables, maps))
  {
    var n := Node(0, page / 512);
    var t := Space(s.tables, maps);
    LeafMapsOk(s, page, maps);
    hide EntryFor, SlotOf, ShapeOk, MapsOk;
    var after := Store(w, SlotOf(s.tables[n].frame, page % 512), EntryFor(t, n, page % 512));
    forall m, j: nat | m in t.tables && j < 512
      ensures Load(after, SlotOf(t.tables[m].frame, j)) == EntryFor(t, m, j)
    {
      LeafWordStays(w, s, n, page % 512, EntryFor(t, n, page % 512), m, j);
      if (m, j) != (n, page % 512) { OtherEntryStays(s, page, maps, m, j); }
    }
  }

  lemma LeafMapsOk(s: Space, page: nat, maps: map<nat, Mapping>)
    requires MapsOk(s) && Node(0, page / 512) in s.tables
    requires page in maps ==> maps[page].frame < FRAME_LIMIT
    requires forall p :: p != page ==> (p in maps <==> p in s.maps) && (p in maps ==> maps[p] == s.maps[p])
    ensures MapsOk(Space(s.tables, maps))
  {
  }

  lemma LeafWordStays(w: Ram, s: Space, n: Node, i: nat, e: int, m: Node, j: nat)
    requires ShapeOk(s.tables) && n in s.tables && m in s.tables && i < 512 && j < 512
    ensures Load(Store(w, SlotOf(s.tables[n].frame, i), e), SlotOf(s.tables[m].frame, j))
         == if (m, j) == (n, i) then e else Load(w, SlotOf(s.tables[m].frame, j))
  {
    SlotsDiffer(s.tables[m].frame, j, s.tables[n].frame, i);
  }

  lemma OtherEntryStays(s: Space, page: nat, maps: map<nat, Mapping>, m: Node, j: nat)
    requires j < 512 && (m, j) != (Node(0, page / 512), page % 512)
    requires forall p :: p != page ==> (p in maps <==> p in s.maps) && (p in maps ==> maps[p] == s.maps[p])
    ensures EntryFor(Space(s.tables, maps), m, j) == EntryFor(s, m, j)
  {
    hide Pte;
    assert m.level == 0 && m.prefix * 512 + j == page ==> m == Node(0, page / 512) && j == page % 512;
  }

  // ---- the processor's walk ------------------------------------------------------------------------

  function Word(w: Ram, a: nat): nat {
    if Load(w, a) >= 0 then Load(w, a) else 0
  }

  /** What an access through the tables reaches, and with which rights. */
  datatype Access = Access(phys: nat, write: bool, user: bool)

  /** A large page of `bytes` bytes: its base from the entry, the offset from the address. */
  function LargePageAt(e: nat, bytes: nat, v: nat, write: bool, user: bool): Access
    requires bytes > 0
  {
    Access(EntryAddr(e) - EntryAddr(e) % bytes + v % bytes, write, user)
  }

  /** 4-level paging: section 4.5 of the Intel SDM volume 3A for the walk, section 4.6 for the rights,
      which the entries of all levels must grant. Bit 7 of a directory entry ends the walk at a page of
      1 GiB or 2 MiB; in the top table it is reserved. Bit 0 is the present flag, bit 1 the write right, bit 2
      the right of ring 3. */
  function HardwareWalk(w: Ram, root: nat, v: nat): Option<Access> {
    var e4 := Word(w, root + 8 * Pml4Index(v));
    if !Has(e4, 1) || Has(e4, 128) then None
    else
      var e3 := Word(w, EntryAddr(e4) + 8 * PdptIndex(v));
      var write3, user3 := Has(e4, 2) && Has(e3, 2), Has(e4, 4) && Has(e3, 4);
      if !Has(e3, 1) then None
      else if Has(e3, 128) then Some(LargePageAt(e3, 0x4000_0000, v, write3, user3))
      else
        var e2 := Word(w, EntryAddr(e3) + 8 * PdIndex(v));
        var write2, user2 := write3 && Has(e2, 2), user3 && Has(e2, 4);
        if !Has(e2, 1) then None
        else if Has(e2, 128) then Some(LargePageAt(e2, 0x20_0000, v, write2, user2))
        else
          var e1 := Word(w, EntryAddr(e2) + 8 * PtIndex(v));
          if !Has(e1, 1) then None
          else Some(Access(EntryAddr(e1) + v % 4096, write2 && Has(e1, 2), user2 && Has(e1, 4)))
  }

  lemma {:induction false} TableStep(w: Ram, s: Space, n: Node, i: nat)
    requires SpaceOk(w, s) && n in s.tables && n.level > 0 && i < 512
    ensures var e := Word(w, SlotOf(s.tables[n].frame, i));
      && (Has(e, PTE_PRESENT) <==> Child(n, i) in s.tables)
      && (Child(n, i) in s.tables ==>
            && EntryAddr(e) == Addr(s.tables[Child(n, i)].frame) && !Has(e, PTE_LARGE)
            && Has(e, PTE_WRITE) && (Has(e, PTE_USER) <==> s.tables[Child(n, i)].user))
  {
    hide And;
    ZeroIsAbsent();
    if Child(n, i) in s.tables { EntryFields(s.tables[Child(n, i)].frame, true, s.tables[Child(n, i)].user); }
  }

  lemma {:induction false} LeafStep(w: Ram, s: Space, page: nat)
    requires SpaceOk(w, s) && Node(0, page / 512) in s.tables
    ensures var e := Word(w, SlotOf(s.tables[Node(0, page / 512)].frame, page % 512));
      && (Has(e, PTE_PRESENT) <==> page in s.maps)
      && (page in s.maps ==>
            && s.maps[page].frame < FRAME_LIMIT && EntryAddr(e) == Addr(s.maps[page].frame)
            && (Has(e, PTE_WRITE) <==> s.maps[page].write) && (Has(e, PTE_USER) <==> s.maps[page].user))
  {
    hide And;
    ZeroIsAbsent();
    assert (page / 512) * 512 + page % 512 == page;
    if page in s.maps { EntryFields(s.maps[page].frame, s.maps[page].write, s.maps[page].user); }
  }

  /** The tables on the way to a page. */
  function PathNode(page: nat, level: nat): Node
    requires level <= 3
  {
    match level
    case 0 => Node(0, page / 512)
    case 1 => Node(1, page / 512 / 512)
    case 2 => Node(2, page / 512 / 512 / 512)
    case _ => ROOT
  }

  /** The rights ring 3 has on a page: the page's own and those of every table on the way. */
  ghost predicate UserReaches(s: Space, page: nat) {
    && page in s.maps && s.maps[page].user
    && forall level :: 0 <= level < 3 ==> PathNode(page, level) in s.tables && s.tables[PathNode(page, level)].user
  }

  lemma PathIsIndices(v: nat)
    ensures var page := PageOf(v);
      && PathNode(page, 2) == Child(ROOT, Pml4Index(v))
      && PathNode(page, 1) == Child(PathNode(page, 2), PdptIndex(v))
      && PathNode(page, 0) == Child(PathNode(page, 1), PdIndex(v))
      && PtIndex(v) == page % 512
      && Pml4Index(v) < 512 && PdptIndex(v) < 512 && PdIndex(v) < 512
  {
    IndicesArePage(v);
    hide And, Shr;
  }

  lemma PathAbove(tables: map<Node, Table>, page: nat, level: nat)
    requires ShapeOk(tables) && level < 3 && PathNode(page, level) in tables
    ensures PathNode(page, level + 1) in tables
  {
    assert Above(PathNode(page, level)) in tables;
  }

  /** Refinement: the processor's walk over the tables in memory is a lookup in the abstract map. */
  lemma {:induction false} WalkIsLookup(w: Ram, s: Space, v: nat)
    requires SpaceOk(w, s)
    ensures ROOT in s.tables
    ensures HardwareWalk(w, Addr(s.tables[ROOT].frame), v) ==
              var page := PageOf(v);
              if page in s.maps
              then Some(Access(Addr(s.maps[page].frame) + v % 4096, s.maps[page].write, UserReaches(s, page)))
              else None
  {
    hide And, Shr, EntryAddr, Has, Word, SpaceOk, HardwareWalk, PageOf;
    var page := PageOf(v);
    if PathNode(page, 0) in s.tables {
      WalkToLeaf(w, s, v);
    } else {
      WalkStopsShort(w, s, v);
      UnmappedPath(w, s, page);
    }
  }

  lemma UnmappedPath(w: Ram, s: Space, page: nat)
    requires SpaceOk(w, s) && PathNode(page, 0) !in s.tables
    ensures page !in s.maps
  {
  }

  lemma WholePath(w: Ram, s: Space, page: nat)
    requires SpaceOk(w, s)
    ensures ROOT in s.tables
    ensures PathNode(page, 0) in s.tables ==> PathNode(page, 1) in s.tables
    ensures PathNode(page, 1) in s.tables ==> PathNode(page, 2) in s.tables
  {
    if PathNode(page, 0) in s.tables { PathAbove(s.tables, page, 0); }
    if PathNode(page, 1) in s.tables { PathAbove(s.tables, page, 1); }
  }

  lemma WalkStopsShort(w: Ram, s: Space, v: nat)
    requires SpaceOk(w, s) && PathNode(PageOf(v), 0) !in s.tables
    ensures ROOT in s.tables && HardwareWalk(w, Addr(s.tables[ROOT].frame), v).None?
  {
    hide And, Shr, EntryAddr, Has, Word, SpaceOk, PageOf;
    var page := PageOf(v);
    PathIsIndices(v);
    WholePath(w, s, page);
    TableStep(w, s, ROOT, Pml4Index(v));
    if PathNode(page, 2) in s.tables {
      TableStep(w, s, PathNode(page, 2), PdptIndex(v));
      if PathNode(page, 1) in s.tables {
        TableStep(w, s, PathNode(page, 1), PdIndex(v));
      }
    }
  }

  lemma WalkToLeaf(w: Ram, s: Space, v: nat)
    requires SpaceOk(w, s) && PathNode(PageOf(v), 0) in s.tables
    ensures ROOT in s.tables
    ensures HardwareWalk(w, Addr(s.tables[ROOT].frame), v) ==
              var page := PageOf(v);
              if page in s.maps
              then Some(Access(Addr(s.maps[page].frame) + v % 4096, s.maps[page].write, UserReaches(s, page)))
              else None
  {
    hide And, Shr, EntryAddr, Has, Word, SpaceOk, PageOf;
    var page := PageOf(v);
    PathIsIndices(v);
    WholePath(w, s, page);
    TableStep(w, s, ROOT, Pml4Index(v));
    TableStep(w, s, PathNode(page, 2), PdptIndex(v));
    TableStep(w, s, PathNode(page, 1), PdIndex(v));
    LeafStep(w, s, page);
    UserPath(s, page);
  }

  lemma UserPath(s: Space, page: nat)
    requires PathNode(page, 0) in s.tables && PathNode(page, 1) in s.tables && PathNode(page, 2) in s.tables
    ensures UserReaches(s, page) <==>
      && page in s.maps && s.maps[page].user
      && s.tables[PathNode(page, 0)].user && s.tables[PathNode(page, 1)].user && s.tables[PathNode(page, 2)].user
  {
    if s.tables[PathNode(page, 0)].user && s.tables[PathNode(page, 1)].user && s.tables[PathNode(page, 2)].user {
      forall level | 0 <= level < 3 ensures PathNode(page, level) in s.tables && s.tables[PathNode(page, level)].user {
        assert level == 0 || level == 1 || level == 2;
      }
    }
  }
}
