/** The four-level radix page tables of kernel/paging.c (Intel SDM Vol. 3A, section 4.5) in
    physical memory, and the proof that they act as a flat map: tables form disjoint trees, so
    linking a table changes no translation and writing a leaf entry changes exactly one. */
module PageTables {
  import opened Frames
  import opened AddressSpaces
  import opened SpaceOps

  datatype Option<T> = None | Some(value: T)

  /** What a physical frame holds. */
  datatype Page = Table(entries: seq<Entry>) | Data(bytes: seq<Byte>)

  type Memory = map<Frame, Page>

  /** Where a table frame sits: level 0 is a PML4, level 3 a page table; `pre` is the common
      high part of the page numbers below it, `parent` the table that points to it. */
  datatype Place = Place(root: Frame, lvl: nat, pre: nat, parent: Frame)

  /** The machine: allocator, memory, and (for the proof) the place of every table frame. */
  datatype Phys = Phys(pool: Pool, mem: Memory, owner: map<Frame, Place>, kernel: set<Frame>)

  function Prefix(v: Va, lvl: nat): nat
    requires lvl <= 4
    decreases 4 - lvl
  {
    if lvl == 4 then v else Prefix(v, lvl + 1) / ENTRIES
  }

  /** `(virt >> (39 - 9 * lvl)) & 0x1FF`, on page numbers. */
  function Index(v: Va, lvl: nat): (i: nat)
    requires lvl <= 3
    ensures i < ENTRIES
  {
    Prefix(v, lvl + 1) % ENTRIES
  }

  predicate IsTable(m: Memory, f: Frame) {
    f in m && m[f].Table? && |m[f].entries| == ENTRIES
  }

  /** Follow entry `i` of table `f`. */
  function Child(m: Memory, f: Frame, i: nat): Option<Frame>
    requires i < ENTRIES
  {
    if IsTable(m, f) && m[f].entries[i].present && !m[f].entries[i].huge then Some(m[f].entries[i].frame) else None
  }

  /** The table reached from `r` after `lvl` steps towards `v`. */
  function Node(m: Memory, r: Frame, v: Va, lvl: nat): Option<Frame>
    requires lvl <= 3
  {
    if lvl == 0 then Some(r)
    else match Node(m, r, v, lvl - 1)
      case None => None
      case Some(f) => Child(m, f, Index(v, lvl - 1))
  }

  /** The leaf entry the hardware walk finds for `v`, zero if the walk stops early. */
  function Leaf(m: Memory, r: Frame, v: Va): Entry {
    match Node(m, r, v, 3)
    case None => ZERO
    case Some(f) => if IsTable(m, f) then m[f].entries[Index(v, 3)] else ZERO
  }

  // ---- the tree invariant --------------------------------------------------

  /** Entry `i` of a level-`lvl` table below the kernel mirror. */
  predicate UserSlot(lvl: nat, i: nat) {
    i < ENTRIES && (lvl == 0 ==> i < KERNEL_SLOT)
  }

  ghost predicate LinkOk(ph: Phys, f: Frame, i: nat)
    requires f in ph.owner && i < ENTRIES
  {
    var c := Child(ph.mem, f, i);
    c.Some? ==>
      && c.value in ph.owner
      && ph.owner[c.value] == Place(ph.owner[f].root, ph.owner[f].lvl + 1, ph.owner[f].pre * ENTRIES + i, f)
  }

  ghost predicate ParentOk(ph: Phys, f: Frame)
    requires f in ph.owner
  {
    var p := ph.owner[f];
    if p.lvl == 0 then p.root == f && p.pre == 0
    else
      && p.parent in ph.owner && ph.owner[p.parent].root == p.root && ph.owner[p.parent].lvl == p.lvl - 1
      && ph.owner[p.parent].pre == p.pre / ENTRIES
      && UserSlot(p.lvl - 1, p.pre % ENTRIES) && Child(ph.mem, p.parent, p.pre % ENTRIES) == Some(f)
  }

  ghost predicate PlaceOk(ph: Phys, f: Frame)
    requires f in ph.owner
  {
    IsTable(ph.mem, f) && ph.owner[f].lvl <= 3 && ParentOk(ph, f)
  }

  ghost predicate Tree(ph: Phys) {
    && (forall f {:trigger PlaceOk(ph, f)} :: f in ph.owner ==> PlaceOk(ph, f))
    && (forall f, i {:trigger LinkOk(ph, f, i)} ::
          f in ph.owner && ph.owner[f].lvl < 3 && UserSlot(ph.owner[f].lvl, i) ==> LinkOk(ph, f, i))
  }

  lemma PrefixStep(v: Va, lvl: nat)
    requires lvl <= 3
    ensures Prefix(v, lvl + 1) == Prefix(v, lvl) * ENTRIES + Index(v, lvl)
  {
  }

  lemma PrefixTop(v: Va)
    requires v < VA_LIMIT
    ensures Prefix(v, 0) == 0 && UserSlot(0, Index(v, 0)) && Prefix(v, 1) < KERNEL_SLOT && Prefix(v, 3) == v / ENTRIES
    ensures Index(v, 3) == v % ENTRIES
  {
    assert Prefix(v, 4) == v && Prefix(v, 3) == v / 512 && Prefix(v, 2) == Prefix(v, 3) / 512
        && Prefix(v, 1) == Prefix(v, 2) / 512;
    assert Prefix(v, 3) < 511 * 512 * 512;
    assert Prefix(v, 2) < 511 * 512;
    assert Prefix(v, 1) < 511;
  }

  /** A walk towards `v` only ever stands on the table placed above `v`. */
  lemma {:induction false} NodePlaced(ph: Phys, r: Frame, v: Va, lvl: nat)
    requires Tree(ph) && r in ph.owner && ph.owner[r].lvl == 0 && v < VA_LIMIT && lvl <= 3
    ensures var n := Node(ph.mem, r, v, lvl);
      n.Some? ==>
      && n.value in ph.owner && ph.owner[n.value].root == r && ph.owner[n.value].lvl == lvl
      && ph.owner[n.value].pre == Prefix(v, lvl)
  {
    PrefixTop(v);
    if lvl == 0 {
      assert PlaceOk(ph, r);
    } else {
      NodePlaced(ph, r, v, lvl - 1);
      var n := Node(ph.mem, r, v, lvl - 1);
      if n.Some? {
        assert LinkOk(ph, n.value, Index(v, lvl - 1));
        PrefixStep(v, lvl - 1);
      }
    }
  }

  /** Every placed table is reached by the walk towards any page below it. */
  lemma {:induction false} PlacedNode(ph: Phys, f: Frame, v: Va)
    requires Tree(ph) && f in ph.owner && ph.owner[f].lvl <= 3 && Prefix(v, ph.owner[f].lvl) == ph.owner[f].pre
    ensures Node(ph.mem, ph.owner[f].root, v, ph.owner[f].lvl) == Some(f)
    decreases ph.owner[f].lvl
  {
    assert PlaceOk(ph, f);
    if ph.owner[f].lvl > 0 {
      PlacedNode(ph, ph.owner[f].parent, v);
      PrefixStep(v, ph.owner[f].lvl - 1);
    }
  }

  // ---- the flat view -------------------------------------------------------

  ghost function SpaceOf(m: Memory, r: Frame): Space {
    map v: nat | v < VA_LIMIT && Leaf(m, r, v).present :: Leaf(m, r, v)
  }

  ghost function RootsOf(owner: map<Frame, Place>): set<Frame> {
    set f | f in owner && owner[f].lvl == 0
  }

  ghost function SpacesOf(ph: Phys): map<Frame, Space> {
    map r | r in RootsOf(ph.owner) :: SpaceOf(ph.mem, r)
  }

  ghost function TableMap(owner: map<Frame, Place>): map<Frame, Frame> {
    map f | f in owner :: owner[f].root
  }

  ghost function DataOf(m: Memory): map<Frame, seq<Byte>> {
    map f | f in m && m[f].Data? :: m[f].bytes
  }

  ghost function FlatOf(ph: Phys): (s: Flat)
    ensures s.pool == ph.pool && s.kernel == ph.kernel && s.tables.Keys == ph.owner.Keys
    ensures s.spaces.Keys == RootsOf(ph.owner)
  {
    Flat(ph.pool, SpacesOf(ph), TableMap(ph.owner), ph.kernel, DataOf(ph.mem))
  }

  // ---- writing a leaf entry ------------------------------------------------

  function WithEntry(m: Memory, f: Frame, i: nat, e: Entry): (m': Memory)
    requires IsTable(m, f) && i < ENTRIES
    ensures IsTable(m', f)
  {
    m[f := Table(m[f].entries[i := e])]
  }

  ghost function SetEntry(ph: Phys, f: Frame, i: nat, e: Entry): Phys
    requires IsTable(ph.mem, f) && i < ENTRIES
  {
    ph.(mem := WithEntry(ph.mem, f, i, e))
  }

  lemma SetLeafTree(ph: Phys, f: Frame, i: nat, e: Entry)
    requires Tree(ph) && f in ph.owner && IsTable(ph.mem, f) && ph.owner[f].lvl == 3 && i < ENTRIES
    ensures Tree(SetEntry(ph, f, i, e))
  {
    var ph' := SetEntry(ph, f, i, e);
    forall g | g in ph'.owner ensures PlaceOk(ph', g) { assert PlaceOk(ph, g); }
    forall g, j | g in ph'.owner && ph'.owner[g].lvl < 3 && UserSlot(ph'.owner[g].lvl, j) ensures LinkOk(ph', g, j) {
      assert LinkOk(ph, g, j);
    }
  }

  lemma {:induction false} SetLeafNode(ph: Phys, f: Frame, i: nat, e: Entry, r: Frame, v: Va, lvl: nat)
    requires Tree(ph) && f in ph.owner && IsTable(ph.mem, f) && ph.owner[f].lvl == 3 && i < ENTRIES
    requires r in ph.owner && ph.owner[r].lvl == 0 && v < VA_LIMIT && lvl <= 3
    ensures Node(SetEntry(ph, f, i, e).mem, r, v, lvl) == Node(ph.mem, r, v, lvl)
  {
    if lvl > 0 {
      SetLeafNode(ph, f, i, e, r, v, lvl - 1);
      NodePlaced(ph, r, v, lvl - 1);
    }
  }

  /** Writing entry `i` of page table `f` changes the translation of exactly one page. */
  lemma SetLeafAt(ph: Phys, f: Frame, i: nat, e: Entry, r: Frame, v: Va)
    requires Tree(ph) && f in ph.owner && IsTable(ph.mem, f) && ph.owner[f].lvl == 3 && i < ENTRIES
    requires r in ph.owner && ph.owner[r].lvl == 0 && v < VA_LIMIT
    ensures Leaf(SetEntry(ph, f, i, e).mem, r, v) ==
            if r == ph.owner[f].root && v == ph.owner[f].pre * ENTRIES + i then e else Leaf(ph.mem, r, v)
  {
    SetLeafNode(ph, f, i, e, r, v, 3);
    NodePlaced(ph, r, v, 3);
    PrefixTop(v);
    if r == ph.owner[f].root && v / ENTRIES == ph.owner[f].pre { PlacedNode(ph, f, v); }
  }

  ghost function AfterPut(s: Flat, r: Frame, v: Va, e: Entry): Flat
    requires r in s.spaces
  {
    s.(spaces := s.spaces[r := if e.present then Put(s.spaces[r], v, e) else s.spaces[r] - {v}])
  }

  lemma SpaceOfPut(m: Memory, m': Memory, r: Frame, v: Va, e: Entry)
    requires v < VA_LIMIT && forall u: nat :: u < VA_LIMIT ==> Leaf(m', r, u) == if u == v then e else Leaf(m, r, u)
    ensures SpaceOf(m', r) == if e.present then Put(SpaceOf(m, r), v, e) else SpaceOf(m, r) - {v}
  {
  }

  lemma SpaceOfSame(m: Memory, m': Memory, r: Frame)
    requires forall u: nat :: u < VA_LIMIT ==> Leaf(m', r, u) == Leaf(m, r, u)
    ensures SpaceOf(m', r) == SpaceOf(m, r)
  {
  }

  lemma SetLeafSpace(ph: Phys, f: Frame, i: nat, e: Entry, r: Frame)
    requires Tree(ph) && f in ph.owner && IsTable(ph.mem, f) && ph.owner[f].lvl == 3 && i < ENTRIES
    requires ph.owner[f].pre * ENTRIES + i < VA_LIMIT
    requires r in ph.owner && ph.owner[r].lvl == 0
    ensures var v, sp := ph.owner[f].pre * ENTRIES + i, SpaceOf(ph.mem, r);
            SpaceOf(SetEntry(ph, f, i, e).mem, r) == if r != ph.owner[f].root then sp else if e.present
                then Put(sp, v, e) else sp - {v}
  {
    var v, m' := ph.owner[f].pre * ENTRIES + i, SetEntry(ph, f, i, e).mem;
    forall u: nat | u < VA_LIMIT
      ensures Leaf(m', r, u) == if r == ph.owner[f].root && u == v then e else Leaf(ph.mem, r, u)
    {
      SetLeafAt(ph, f, i, e, r, u);
    }
    if r == ph.owner[f].root { SpaceOfPut(ph.mem, m', r, v, e); } else { SpaceOfSame(ph.mem, m', r); }
  }

  /** The walk finds the new entry and every other page of every space is unchanged. */
  lemma SetLeafFlat(ph: Phys, f: Frame, i: nat, e: Entry)
    requires Tree(ph) && f in ph.owner && IsTable(ph.mem, f) && ph.owner[f].lvl == 3 && i < ENTRIES
    requires ph.owner[f].root in ph.owner && ph.owner[ph.owner[f].root].lvl == 0
    requires ph.owner[f].pre * ENTRIES + i < VA_LIMIT
    ensures FlatOf(SetEntry(ph, f, i, e)) == AfterPut(FlatOf(ph), ph.owner[f].root, ph.owner[f].pre * ENTRIES + i, e)
  {
    var s, s' := FlatOf(ph), FlatOf(SetEntry(ph, f, i, e));
    forall r | r in RootsOf(ph.owner)
      ensures s'.spaces[r] == AfterPut(s, ph.owner[f].root, ph.owner[f].pre * ENTRIES + i, e).spaces[r]
    {
      SetLeafSpace(ph, f, i, e, r);
    }
    assert s'.data == s.data;
    assert s'.spaces == AfterPut(s, ph.owner[f].root, ph.owner[f].pre * ENTRIES + i, e).spaces;
  }

  // ---- linking a fresh table -----------------------------------------------

  function EmptyTable(): (t: Page)
    ensures t.Table? && |t.entries| == ENTRIES && forall i :: 0 <= i < ENTRIES ==> t.entries[i] == ZERO
  {
    Table(seq(ENTRIES, i => ZERO))
  }

  /** An intermediate entry as pte_ptr and map_pml4 write it. */
  function TableEntry(g: Frame, user: bool): Entry {
    Entry(true, true, user, false, false, false, false, g)
  }

  ghost function Link(ph: Phys, f: Frame, i: nat, g: Frame, user: bool): Phys
    requires f in ph.owner && IsTable(ph.mem, f) && i < ENTRIES && Shape(ph.pool) && g < ph.pool.total
  {
    Phys(Taken(ph.pool, g),
         WithEntry(ph.mem, f, i, TableEntry(g, user))[g := EmptyTable()],
         ph.owner[g := Place(ph.owner[f].root, ph.owner[f].lvl + 1, ph.owner[f].pre * ENTRIES + i, f)],
         ph.kernel)
  }

  ghost predicate CanLink(ph: Phys, f: Frame, i: nat, g: Frame) {
    && Tree(ph) && f in ph.owner && IsTable(ph.mem, f) && ph.owner[f].lvl < 3 && UserSlot(ph.owner[f].lvl, i)
    && Child(ph.mem, f, i) == None && g !in ph.owner && Shape(ph.pool) && g < ph.pool.total
  }

  lemma LinkPlaceOk(ph: Phys, f: Frame, i: nat, g: Frame, user: bool, h: Frame)
    requires CanLink(ph, f, i, g) && (h in ph.owner || h == g)
    ensures PlaceOk(Link(ph, f, i, g, user), h)
  {
    if h != g { assert PlaceOk(ph, h); }
  }

  lemma LinkLinkOk(ph: Phys, f: Frame, i: nat, g: Frame, user: bool, h: Frame, j: nat)
    requires CanLink(ph, f, i, g) && h in ph.owner && ph.owner[h].lvl < 3 && UserSlot(ph.owner[h].lvl, j)
    ensures LinkOk(Link(ph, f, i, g, user), h, j)
  {
    assert LinkOk(ph, h, j);
  }

  lemma LinkTree(ph: Phys, f: Frame, i: nat, g: Frame, user: bool)
    requires CanLink(ph, f, i, g)
    ensures Tree(Link(ph, f, i, g, user))
  {
    var ph' := Link(ph, f, i, g, user);
    forall h | h in ph'.owner ensures PlaceOk(ph', h) { LinkPlaceOk(ph, f, i, g, user, h); }
    forall h, j | h in ph'.owner && ph'.owner[h].lvl < 3 && UserSlot(ph'.owner[h].lvl, j) ensures LinkOk(ph', h, j) {
      if h != g { LinkLinkOk(ph, f, i, g, user, h, j); }
    }
  }

  lemma {:induction false} LinkNode(ph: Phys, f: Frame, i: nat, g: Frame, user: bool, r: Frame, v: Va, lvl: nat)
    requires CanLink(ph, f, i, g)
    requires r in ph.owner && ph.owner[r].lvl == 0 && v < VA_LIMIT && lvl <= 3
    ensures var n, n' := Node(ph.mem, r, v, lvl), Node(Link(ph, f, i, g, user).mem, r, v, lvl);
            n' == n || (n == None && n' == Some(g))
  {
    if lvl > 0 {
      LinkNode(ph, f, i, g, user, r, v, lvl - 1);
      NodePlaced(ph, r, v, lvl - 1);
    }
  }

  /** Linking an empty table changes no translation. */
  lemma LinkLeaf(ph: Phys, f: Frame, i: nat, g: Frame, user: bool, r: Frame, v: Va)
    requires CanLink(ph, f, i, g)
    requires r in ph.owner && ph.owner[r].lvl == 0 && v < VA_LIMIT
    ensures Leaf(Link(ph, f, i, g, user).mem, r, v) == Leaf(ph.mem, r, v)
  {
    LinkNode(ph, f, i, g, user, r, v, 3);
    NodePlaced(ph, r, v, 3);
  }

  lemma LinkSpaces(ph: Phys, f: Frame, i: nat, g: Frame, user: bool)
    requires CanLink(ph, f, i, g)
    ensures SpacesOf(Link(ph, f, i, g, user)) == SpacesOf(ph)
  {
    var ph' := Link(ph, f, i, g, user);
    assert RootsOf(ph'.owner) == RootsOf(ph.owner);
    forall r | r in RootsOf(ph.owner) ensures SpaceOf(ph'.mem, r) == SpaceOf(ph.mem, r) {
      forall u: nat | u < VA_LIMIT
        ensures Leaf(ph'.mem, r, u) == Leaf(ph.mem, r, u)
      {
        LinkLeaf(ph, f, i, g, user, r, u);
      }
      SpaceOfSame(ph.mem, ph'.mem, r);
    }
  }

  lemma LinkData(ph: Phys, f: Frame, i: nat, g: Frame, user: bool)
    requires f in ph.owner && IsTable(ph.mem, f) && i < ENTRIES && Shape(ph.pool) && g < ph.pool.total
    ensures DataOf(Link(ph, f, i, g, user).mem) == DataOf(ph.mem) - {g}
  {
  }

  lemma LinkFlat(ph: Phys, f: Frame, i: nat, g: Frame, user: bool)
    requires CanLink(ph, f, i, g) && Valid(ph.pool) && 0 < g && IsFree(ph.pool, g)
    ensures FlatOf(Link(ph, f, i, g, user)) == Grow(FlatOf(ph), ph.owner[f].root, {g}, {})
  {
    var s := FlatOf(ph);
    LinkSpaces(ph, f, i, g, user);
    LinkData(ph, f, i, g, user);
    TakenSingle(ph.pool, g);
    assert {g} + {} == {g};
    assert TableMap(Link(ph, f, i, g, user).owner) == s.tables + AllMapTo({g}, ph.owner[f].root);
    assert s.data - {g} == (s.data - {g}) + AllMapTo({}, ZeroPage());
  }

  // ---- pages outside the trees ---------------------------------------------

  lemma {:induction false} OutsideNode(ph: Phys, g: Frame, page: Page, r: Frame, v: Va, lvl: nat)
    requires Tree(ph) && g !in ph.owner && r in ph.owner && ph.owner[r].lvl == 0 && v < VA_LIMIT && lvl <= 3
    ensures Node(ph.mem[g := page], r, v, lvl) == Node(ph.mem, r, v, lvl)
  {
    if lvl > 0 {
      OutsideNode(ph, g, page, r, v, lvl - 1);
      NodePlaced(ph, r, v, lvl - 1);
    }
  }

  /** Writing a frame that is no table of any tree leaves all trees and translations alone. */
  lemma OutsideSpace(ph: Phys, g: Frame, page: Page, r: Frame)
    requires Tree(ph) && g !in ph.owner && r in ph.owner && ph.owner[r].lvl == 0
    ensures SpaceOf(ph.mem[g := page], r) == SpaceOf(ph.mem, r)
  {
    forall v: nat | v < VA_LIMIT ensures Leaf(ph.mem[g := page], r, v) == Leaf(ph.mem, r, v) {
      OutsideNode(ph, g, page, r, v, 3);
      NodePlaced(ph, r, v, 3);
    }
    SpaceOfSame(ph.mem, ph.mem[g := page], r);
  }

  lemma OutsideTree(ph: Phys, g: Frame, page: Page)
    requires Tree(ph) && g !in ph.owner
    ensures Tree(ph.(mem := ph.mem[g := page]))
  {
    var ph' := ph.(mem := ph.mem[g := page]);
    forall f | f in ph'.owner ensures PlaceOk(ph', f) { assert PlaceOk(ph, f); }
    forall f, i | f in ph'.owner && ph'.owner[f].lvl < 3 && UserSlot(ph'.owner[f].lvl, i)
      ensures LinkOk(ph', f, i)
    {
      assert LinkOk(ph, f, i);
    }
  }

  lemma OutsideFlat(ph: Phys, g: Frame, bytes: seq<Byte>)
    requires Tree(ph) && g !in ph.owner
    ensures Tree(ph.(mem := ph.mem[g := Data(bytes)]))
    ensures FlatOf(ph.(mem := ph.mem[g := Data(bytes)])) == FlatOf(ph).(data := DataOf(ph.mem)[g := bytes])
  {
    var ph' := ph.(mem := ph.mem[g := Data(bytes)]);
    OutsideTree(ph, g, Data(bytes));
    forall r | r in RootsOf(ph.owner)
      ensures SpaceOf(ph'.mem, r) == SpaceOf(ph.mem, r)
    {
      OutsideSpace(ph, g, Data(bytes), r);
    }
    assert SpacesOf(ph') == SpacesOf(ph);
    assert DataOf(ph'.mem) == DataOf(ph.mem)[g := bytes];
  }

  // ---- a new root ----------------------------------------------------------

  /** A fresh PML4: empty but for the kernel mirror. */
  function RootPage(mirror: Entry): (t: Page)
    ensures t.Table? && |t.entries| == ENTRIES && t.entries[KERNEL_SLOT] == mirror
    ensures forall i :: 0 <= i < KERNEL_SLOT ==> t.entries[i] == ZERO
  {
    Table(seq(ENTRIES, i => if i == KERNEL_SLOT then mirror else ZERO))
  }

  ghost function Root(ph: Phys, c: Frame, mirror: Entry): Phys
    requires Shape(ph.pool) && c < ph.pool.total
  {
    Phys(Taken(ph.pool, c), ph.mem[c := RootPage(mirror)], ph.owner[c := Place(c, 0, 0, c)], ph.kernel)
  }

  lemma RootTree(ph: Phys, c: Frame, mirror: Entry)
    requires Tree(ph) && c !in ph.owner && Shape(ph.pool) && c < ph.pool.total
    ensures Tree(Root(ph, c, mirror))
  {
    var ph' := Root(ph, c, mirror);
    forall f | f in ph'.owner ensures PlaceOk(ph', f) { if f != c { assert PlaceOk(ph, f); } }
    forall f, i | f in ph'.owner && ph'.owner[f].lvl < 3 && UserSlot(ph'.owner[f].lvl, i) ensures LinkOk(ph', f, i) {
      if f != c { assert LinkOk(ph, f, i); }
    }
  }

  lemma RootEmpty(m: Memory, c: Frame, mirror: Entry)
    requires c in m && m[c] == RootPage(mirror)
    ensures SpaceOf(m, c) == map[]
  {
    forall v: nat | v < VA_LIMIT ensures Leaf(m, c, v) == ZERO {
      PrefixTop(v);
      assert Node(m, c, v, 1) == None;
      assert Node(m, c, v, 2) == None;
    }
  }

  lemma RootFlat(ph: Phys, c: Frame, mirror: Entry)
    requires Tree(ph) && c !in ph.owner && Valid(ph.pool) && 0 < c && IsFree(ph.pool, c)
    ensures FlatOf(Root(ph, c, mirror)) == NewSpace(FlatOf(ph), c)
  {
    hide TakenAll, SpaceOf, Taken, Tree, RootPage;
    var ph' := Root(ph, c, mirror);
    TakenSingle(ph.pool, c);
    RootEmpty(ph'.mem, c, mirror);
    forall r | r in RootsOf(ph.owner)
      ensures SpaceOf(ph'.mem, r) == SpaceOf(ph.mem, r)
    {
      OutsideSpace(ph, c, RootPage(mirror), r);
    }
    assert RootsOf(ph'.owner) == RootsOf(ph.owner) + {c};
    assert SpacesOf(ph') == SpacesOf(ph)[c := map[]];
    assert TableMap(ph'.owner) == TableMap(ph.owner)[c := c];
    assert DataOf(ph'.mem) == DataOf(ph.mem) - {c};
  }

  // ---- removing a tree -----------------------------------------------------

  function Survivors(owner: map<Frame, Place>, r: Frame): map<Frame, Place> {
    map f | f in owner && owner[f].root != r :: owner[f]
  }

  lemma SurvivorsTree(ph: Phys, r: Frame)
    requires Tree(ph)
    ensures Tree(ph.(owner := Survivors(ph.owner, r)))
  {
    var ph' := ph.(owner := Survivors(ph.owner, r));
    forall f | f in ph'.owner ensures PlaceOk(ph', f) { assert PlaceOk(ph, f); }
    forall f, i | f in ph'.owner && ph'.owner[f].lvl < 3 && UserSlot(ph'.owner[f].lvl, i)
      ensures LinkOk(ph', f, i)
    {
      assert LinkOk(ph, f, i);
    }
  }

  lemma SurvivorsFlat(ph: Phys, r: Frame)
    requires Tree(ph) && r in RootsOf(ph.owner)
    ensures FlatOf(ph.(owner := Survivors(ph.owner, r))) ==
            FlatOf(ph).(spaces := SpacesOf(ph) - {r}, tables := TableMap(ph.owner) - TablesOf(FlatOf(ph), r))
  {
    var ph' := ph.(owner := Survivors(ph.owner, r));
    forall f | f in RootsOf(ph.owner) ensures ph.owner[f].root == f { assert PlaceOk(ph, f); }
    assert RootsOf(ph'.owner) == RootsOf(ph.owner) - {r};
    assert SpacesOf(ph') == SpacesOf(ph) - {r};
    assert TableMap(ph'.owner) == TableMap(ph.owner) - TablesOf(FlatOf(ph), r);
  }

  // ---- page ranges below a table -------------------------------------------

  /** The first page below prefix `pre` of level `lvl`. */
  function First(pre: nat, lvl: nat): nat
    requires lvl <= 4
    decreases 4 - lvl
  {
    if lvl == 4 then pre else First(pre * ENTRIES, lvl + 1)
  }

  lemma {:induction false} FirstPrefix(v: Va, pre: nat, lvl: nat)
    requires lvl <= 4
    ensures First(pre, lvl) <= v <==> pre <= Prefix(v, lvl)
    decreases 4 - lvl
  {
    if lvl < 4 { FirstPrefix(v, pre * ENTRIES, lvl + 1); }
  }

  /** A page lies below prefix `pre` exactly when it falls in the prefix's range. */
  lemma InRange(v: Va, pre: nat, lvl: nat)
    requires lvl <= 4
    ensures First(pre, lvl) <= v < First(pre + 1, lvl) <==> Prefix(v, lvl) == pre
  {
    FirstPrefix(v, pre, lvl);
    FirstPrefix(v, pre + 1, lvl);
  }

  lemma {:induction false} FirstMonotone(p: nat, q: nat, lvl: nat)
    requires lvl <= 4 && p <= q
    ensures First(p, lvl) <= First(q, lvl) && (p < q ==> First(p, lvl) < First(q, lvl))
    decreases 4 - lvl
  {
    if lvl < 4 { FirstMonotone(p * ENTRIES, q * ENTRIES, lvl + 1); }
  }

  lemma FirstTop()
    ensures First(0, 0) == 0 && First(KERNEL_SLOT, 1) == VA_LIMIT
  {
    assert First(511, 1) == First(511 * 512, 2) == First(511 * 512 * 512, 3) == First(511 * 512 * 512 * 512, 4);
    assert First(0, 0) == First(0, 1) == First(0, 2) == First(0, 3) == First(0, 4);
  }

  /** Under an entry that leads nowhere there is no mapped page. */
  lemma AbsentBelow(ph: Phys, f: Frame, i: nat, v: Va)
    requires Tree(ph) && f in ph.owner && ph.owner[f].lvl < 3 && i < ENTRIES && Child(ph.mem, f, i) == None
    requires Prefix(v, ph.owner[f].lvl + 1) == ph.owner[f].pre * ENTRIES + i
    ensures Leaf(ph.mem, ph.owner[f].root, v) == ZERO
  {
    var lvl, r := ph.owner[f].lvl, ph.owner[f].root;
    PrefixStep(v, lvl);
    PlacedNode(ph, f, v);
    assert Node(ph.mem, r, v, lvl + 1) == None;
    if lvl == 0 { assert Node(ph.mem, r, v, 2) == None; }
  }
}
