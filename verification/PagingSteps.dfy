/** One step of each page-table operation on physical memory, tying writes of single entries
    to the flat operations. */
module PagingSteps {
  import opened Frames
  import opened AddressSpaces
  import opened SpaceOps
  import opened PageTables
  import opened WalkSteps
  import opened CowRefinement
  import opened TeardownWalk

  // ---- facts about walks ---------------------------------------------------

  ghost predicate Extends(a: map<Frame, Place>, b: map<Frame, Place>) {
    forall f :: f in a ==> f in b && b[f] == a[f]
  }

  /** `tbl` is a table above `v`, at a level that has tables below it. */
  ghost predicate CanDescend(ph: Phys, tbl: Frame, v: Va, lvl: nat) {
    && lvl < 3 && v < VA_LIMIT && tbl in ph.owner && IsTable(ph.mem, tbl)
    && ph.owner[tbl].lvl == lvl && ph.owner[tbl].pre == Prefix(v, lvl)
  }

  /** User trees hold no huge-page entries: only init_paging creates them, for the kernel. */
  ghost predicate NoHuge(ph: Phys) {
    forall f, i {:trigger HugeAt(ph, f, i)} ::
        f in ph.owner && ph.owner[f].lvl < 3 && UserSlot(ph.owner[f].lvl, i) ==> !HugeAt(ph, f, i)
  }

  predicate HugeAt(ph: Phys, f: Frame, i: nat) {
    IsTable(ph.mem, f) && i < ENTRIES && ph.mem[f].entries[i].huge
  }

  ghost predicate Good(ph: Phys) {
    Valid(ph.pool) && Tree(ph) && NoHuge(ph) && Inv(FlatOf(ph))
  }

  lemma NotHuge(ph: Phys, tbl: Frame, v: Va, lvl: nat)
    requires Good(ph) && CanDescend(ph, tbl, v, lvl)
    ensures !ph.mem[tbl].entries[Index(v, lvl)].huge
  {
    PrefixTop(v);
    assert !HugeAt(ph, tbl, Index(v, lvl));
  }

  lemma LinkNotHuge(ph: Phys, tbl: Frame, i: nat, g: Frame, user: bool)
    requires CanLink(ph, tbl, i, g) && NoHuge(ph)
    ensures NoHuge(Link(ph, tbl, i, g, user))
  {
    var ph' := Link(ph, tbl, i, g, user);
    forall f, j | f in ph'.owner && ph'.owner[f].lvl < 3 && UserSlot(ph'.owner[f].lvl, j) ensures !HugeAt(ph', f, j) {
      if f != g { assert !HugeAt(ph, f, j); }
    }
  }

  /** A zeroed or filled data page the kernel holds and nobody maps. */
  ghost predicate Loose(s: Flat, f: Frame)
  {
    && f in s.kernel && f in s.data && |s.data[f]| == PAGE_BYTES && f < |s.pool.pinned| && !s.pool.pinned[f]
    && (forall r, v :: r in s.spaces && v in s.spaces[r] ==> s.spaces[r][v].frame != f)
  }

  ghost function FrameBytes(s: Flat, f: Frame): seq<Byte> {
    if f in s.data then s.data[f] else []
  }

  /** The entry map_pml4 installs: always writable. */
  function MapEntry(f: Frame, user: bool, nx: bool): Entry {
    Entry(true, true, user, false, false, false, nx, f)
  }

  lemma LooseData(ph: Phys, f: Frame)
    requires Loose(FlatOf(ph), f)
    ensures f in FlatOf(ph).data && f in ph.mem && ph.mem[f].Data?
  {
  }

  lemma LooseNotTaken(s: Flat, f: Frame, ts: set<Frame>)
    requires Inv(s) && Loose(s, f) && AllFree(s.pool, ts)
    ensures f !in ts
  {
    if f in ts { FreeUnheld(s, f); }
  }

  lemma LooseKept(s: Flat, r: Frame, f: Frame, ts: set<Frame>, ks: set<Frame>)
    requires Inv(s) && Loose(s, f) && f !in ts && f !in ks
    ensures Loose(Grow(s, r, ts, ks), f) && FrameBytes(Grow(s, r, ts, ks), f) == FrameBytes(s, f)
  {
  }

  /** `pt` is the page table holding the leaf entry for page `v` of `r`. */
  ghost predicate Holds3(ph: Phys, pt: Frame, r: Frame, v: Va) {
    && v < VA_LIMIT && pt in ph.owner && ph.owner[pt].root == r && ph.owner[pt].lvl == 3
    && ph.owner[pt].pre == Prefix(v, 3)
    && IsTable(ph.mem, pt) && r in FlatOf(ph).spaces
  }

  lemma SetPteNotHuge(ph: Phys, pt: Frame, i: nat, e: Entry)
    requires NoHuge(ph) && pt in ph.owner && IsTable(ph.mem, pt) && ph.owner[pt].lvl == 3 && i < ENTRIES
    ensures NoHuge(SetEntry(ph, pt, i, e))
  {
    var ph' := SetEntry(ph, pt, i, e);
    forall f, j | f in ph'.owner && ph'.owner[f].lvl < 3 && UserSlot(ph'.owner[f].lvl, j)
      ensures !HugeAt(ph', f, j)
    {
      assert !HugeAt(ph, f, j);
    }
  }

  /** Writing the leaf entry of `v` changes the translation of `v` and nothing else. */
  lemma SetPteFlat(ph: Phys, pt: Frame, r: Frame, v: Va, e: Entry)
    requires Tree(ph) && NoHuge(ph) && Holds3(ph, pt, r, v)
    ensures Tree(SetEntry(ph, pt, Index(v, 3), e)) && NoHuge(SetEntry(ph, pt, Index(v, 3), e))
    ensures FlatOf(SetEntry(ph, pt, Index(v, 3), e)) == AfterPut(FlatOf(ph), r, v, e)
  {
    hide FlatOf;
    PrefixTop(v);
    SetLeafTree(ph, pt, Index(v, 3), e);
    SetLeafFlat(ph, pt, Index(v, 3), e);
    SetPteNotHuge(ph, pt, Index(v, 3), e);
  }

  lemma MapStep(ph: Phys, pt: Frame, r: Frame, v: Va, e: Entry)
    requires Good(ph) && Holds3(ph, pt, r, v)
    requires v !in FlatOf(ph).spaces[r] && Loose(FlatOf(ph), e.frame) && e.present && (e.writable ==> !e.cow)
    ensures var ph' := SetEntry(ph, pt, Index(v, 3), e).(kernel := ph.kernel - {e.frame});
            Good(ph') && FlatOf(ph') == MapOwned(FlatOf(ph), r, v, e, FrameBytes(FlatOf(ph), e.frame))
  {
    hide SetEntry, Leaves, Counted, Rooted, SpacesOf;
    var s := FlatOf(ph);
    SetPteFlat(ph, pt, r, v, e);
    MapOwnedInv(s, r, v, e, s.data[e.frame]);
    var ph1 := SetEntry(ph, pt, Index(v, 3), e);
    KernelShift(ph1, ph1.kernel - {e.frame});
    assert s.data[e.frame := s.data[e.frame]] == s.data;
  }

  /** The same over an entry that is present. */
  lemma MapOverStep(ph: Phys, pt: Frame, r: Frame, v: Va, e: Entry)
    requires Good(ph) && Holds3(ph, pt, r, v) && v in FlatOf(ph).spaces[r]
    requires FlatOf(ph).spaces[r][v].frame !in ph.kernel
    requires Loose(FlatOf(ph), e.frame) && e.present && (e.writable ==> !e.cow)
    ensures var ph' := SetEntry(ph, pt, Index(v, 3),
              e).(kernel := ph.kernel - {e.frame} + {FlatOf(ph).spaces[r][v].frame});
            Good(ph') && FlatOf(ph') == MapOver(FlatOf(ph), r, v, e, FrameBytes(FlatOf(ph), e.frame))
  {
    hide SetEntry, Leaves, Counted, Rooted, SpacesOf;
    var s := FlatOf(ph);
    SetPteFlat(ph, pt, r, v, e);
    MapOverInv(s, r, v, e, s.data[e.frame]);
    var ph1 := SetEntry(ph, pt, Index(v, 3), e);
    KernelShift(ph1, ph1.kernel - {e.frame} + {s.spaces[r][v].frame});
    assert s.data[e.frame := s.data[e.frame]] == s.data;
  }

  lemma KernelShift(ph: Phys, k: set<Frame>)
    ensures FlatOf(ph.(kernel := k)) == FlatOf(ph).(kernel := k)
    ensures Tree(ph) ==> Tree(ph.(kernel := k))
    ensures NoHuge(ph) ==> NoHuge(ph.(kernel := k))
  {
    var ph' := ph.(kernel := k);
    if Tree(ph) {
      forall f | f in ph.owner ensures PlaceOk(ph', f) { assert PlaceOk(ph, f); }
      forall f, i | f in ph.owner && ph.owner[f].lvl < 3 && UserSlot(ph.owner[f].lvl, i)
        ensures LinkOk(ph', f, i)
      {
        assert LinkOk(ph, f, i);
      }
    }
    if NoHuge(ph) {
      forall f, i | f in ph.owner && ph.owner[f].lvl < 3 && UserSlot(ph.owner[f].lvl, i)
        ensures !HugeAt(ph', f, i)
      {
        assert !HugeAt(ph, f, i);
      }
    }
  }

  lemma GoodFlat(ph: Phys)
    requires Good(ph)
    ensures Inv(FlatOf(ph)) && Tree(ph) && NoHuge(ph)
  {
  }

  lemma LinkMem(m: Memory, tbl: Frame, i: nat, g: Frame, user: bool)
    requires IsTable(m, tbl) && i < ENTRIES && g != tbl
    ensures WithEntry(m, tbl, i, TableEntry(g, user))[g := EmptyTable()] ==
              WithEntry(m[g := EmptyTable()], tbl, i, TableEntry(g, user))
  {
  }

  lemma FreshFrame(ph: Phys, g: Frame)
    requires Good(ph) && 0 < g && IsFree(ph.pool, g)
    ensures g !in ph.owner && g !in ph.kernel && AllFree(ph.pool, {g})
  {
    FreeUnheld(FlatOf(ph), g);
    assert g !in FlatOf(ph).tables;
  }

  /** Linking a fresh table above `v` keeps everything and only grows the set of tables. */
  lemma LinkStep(ph: Phys, tbl: Frame, v: Va, lvl: nat, g: Frame, user: bool)
    requires Good(ph) && CanDescend(ph, tbl, v, lvl) && !ph.mem[tbl].entries[Index(v, lvl)].present
    requires 0 < g && IsFree(ph.pool, g)
    ensures Good(Link(ph, tbl, Index(v, lvl), g, user))
    ensures FlatOf(Link(ph, tbl, Index(v, lvl), g, user)) == Grow(FlatOf(ph), ph.owner[tbl].root, {g}, {})
  {
    hide LinkOk, PlaceOk, WithEntry, Grow, TakenAll, Counted, Leaves, Rooted, PinsHeld, NoHuge;
    PrefixTop(v);
    FreshFrame(ph, g);
    LinkTree(ph, tbl, Index(v, lvl), g, user);
    LinkFlat(ph, tbl, Index(v, lvl), g, user);
    LinkNotHuge(ph, tbl, Index(v, lvl), g, user);
    assert {g} + {} == {g};
    RootKnown(ph, tbl);
    GrowInv(FlatOf(ph), ph.owner[tbl].root, {g}, {});
  }

  lemma RootKnown(ph: Phys, f: Frame)
    requires Good(ph) && f in ph.owner
    ensures ph.owner[f].root in FlatOf(ph).spaces && 0 < f < ph.pool.total && f !in ph.kernel && IsTable(ph.mem, f)
  {
    assert f in FlatOf(ph).tables;
    assert PlaceOk(ph, f);
  }

  lemma RootPlace(ph: Phys, r: Frame, v: Va)
    requires Good(ph) && r in RootsOf(ph.owner) && v < VA_LIMIT
    ensures r in ph.owner && ph.owner[r].root == r && ph.owner[r].pre == Prefix(v, 0) == 0 && ph.owner[r].lvl == 0
  {
    PrefixTop(v);
    assert PlaceOk(ph, r);
  }

  lemma MoreTables(s: Flat, r: Frame, ts: set<Frame>, new1: set<Frame>)
    requires Shape(s.pool) && AllFree(s.pool, ts) && AllFree(Grow(s, r, ts, {}).pool, new1)
    ensures AllFree(s.pool, ts + new1) && ts !! new1
    ensures Grow(Grow(s, r, ts, {}), r, new1, {}) == Grow(s, r, ts + new1, {})
  {
    GrowTwice(s, r, ts, new1, {});
  }

  lemma FollowStep(ph: Phys, tbl: Frame, v: Va, lvl: nat)
    requires Good(ph) && CanDescend(ph, tbl, v, lvl) && Child(ph.mem, tbl, Index(v, lvl)).Some?
    ensures var next := Child(ph.mem, tbl, Index(v, lvl)).value;
            next != NULL && next in ph.owner
                && ph.owner[next] == Place(ph.owner[tbl].root, lvl + 1, Prefix(v, lvl + 1), tbl)
  {
    PrefixTop(v);
    PrefixStep(v, lvl);
    assert LinkOk(ph, tbl, Index(v, lvl));
    RootKnown(ph, Child(ph.mem, tbl, Index(v, lvl)).value);
  }

  /** The table found by the walk holds the leaf entry. */
  lemma LeafIs(ph: Phys, pt: Frame, r: Frame, v: Va)
    requires Tree(ph) && Holds3(ph, pt, r, v)
    ensures Leaf(ph.mem, r, v) == ph.mem[pt].entries[Index(v, 3)]
    ensures v in FlatOf(ph).spaces[r] <==> ph.mem[pt].entries[Index(v, 3)].present
    ensures v in FlatOf(ph).spaces[r] ==> FlatOf(ph).spaces[r][v] == ph.mem[pt].entries[Index(v, 3)]
  {
    PlacedNode(ph, pt, v);
  }

  lemma PoolShift(ph: Phys, p: Pool)
    ensures FlatOf(ph.(pool := p)) == FlatOf(ph).(pool := p)
    ensures Tree(ph) ==> Tree(ph.(pool := p))
    ensures NoHuge(ph) ==> NoHuge(ph.(pool := p))
  {
    var ph' := ph.(pool := p);
    if Tree(ph) {
      forall f | f in ph.owner ensures PlaceOk(ph', f) { assert PlaceOk(ph, f); }
      forall f, i | f in ph.owner && ph.owner[f].lvl < 3 && UserSlot(ph.owner[f].lvl, i)
        ensures LinkOk(ph', f, i)
      {
        assert LinkOk(ph, f, i);
      }
    }
    if NoHuge(ph) {
      forall f, i | f in ph.owner && ph.owner[f].lvl < 3 && UserSlot(ph.owner[f].lvl, i)
        ensures !HugeAt(ph', f, i)
      {
        assert !HugeAt(ph, f, i);
      }
    }
  }

  lemma RootStep(ph: Phys, c: Frame, mirror: Entry)
    requires Good(ph) && 0 < c && IsFree(ph.pool, c)
    ensures Good(Root(ph, c, mirror)) && FlatOf(Root(ph, c, mirror)) == NewSpace(FlatOf(ph), c) && AllFree(ph.pool, {c})
  {
    hide LinkOk, PlaceOk, Counted, Leaves, Rooted;
    FreshFrame(ph, c);
    RootTree(ph, c, mirror);
    RootFlat(ph, c, mirror);
    NewSpaceInv(FlatOf(ph), c);
    RootNotHuge(ph, c, mirror);
  }

  lemma RootNotHuge(ph: Phys, c: Frame, mirror: Entry)
    requires Tree(ph) && NoHuge(ph) && c !in ph.owner && Shape(ph.pool) && c < ph.pool.total
    ensures NoHuge(Root(ph, c, mirror))
  {
    var ph' := Root(ph, c, mirror);
    forall f, i | f in ph'.owner && ph'.owner[f].lvl < 3 && UserSlot(ph'.owner[f].lvl, i) ensures !HugeAt(ph', f, i) {
      if f != c { assert !HugeAt(ph, f, i); }
    }
  }

  /** vm_free_range on one present page: drop the frame, clear the entry. */
  lemma UnmapStep(s: Flat, ph: Phys, pt: Frame, r: Frame, lo: nat, v: Va)
    requires Inv(s) && r in s.spaces && lo <= v && Good(ph) && Holds3(ph, pt, r, v) && FlatOf(ph) == Unmap(s, r, lo, v)
    requires ph.mem[pt].entries[Index(v, 3)].present
    ensures var f := ph.mem[pt].entries[Index(v, 3)].frame;
            && 0 < f < ph.pool.total && !IsFree(ph.pool, f)
            && var ph' := SetEntry(ph, pt, Index(v, 3), ZERO).(pool := Dropped(ph.pool, f));
               Good(ph') && FlatOf(ph') == Unmap(s, r, lo, v + 1)
  {
    hide SetEntry, Unmap, Dropped, SpacesOf, Counted, Leaves, Rooted, Tree, NoHuge, Released;
    LeafIs(ph, pt, r, v);
    UnmapMember(s, r, lo, v);
    UnmapAdvance(s, r, lo, v);
    UnmapFrame(s, r, lo, v);
    UnmapInv(s, r, lo, v + 1);
    SetPteFlat(ph, pt, r, v, ZERO);
    PoolShift(SetEntry(ph, pt, Index(v, 3), ZERO), Dropped(ph.pool, ph.mem[pt].entries[Index(v, 3)].frame));
  }

  lemma UnmapMember(s: Flat, r: Frame, lo: nat, v: Va)
    requires Shape(s.pool) && r in s.spaces
    ensures r in Unmap(s, r, lo, v).spaces && (v in Unmap(s, r, lo, v).spaces[r] <==> v in s.spaces[r])
  {
  }

  lemma UnmapFrame(s: Flat, r: Frame, lo: nat, v: Va)
    requires Inv(s) && r in s.spaces && v in s.spaces[r] && lo <= v
    ensures Shape(Unmap(s, r, lo, v).pool) && 0 < s.spaces[r][v].frame < s.pool.total
    ensures Unmap(s, r, lo, v).pool.total == s.pool.total
    ensures !IsFree(Unmap(s, r, lo, v).pool, s.spaces[r][v].frame)
  {
    hide DropRefs;
    ReleaseLeaf(s, r, lo, v, {});
  }

  /** vm_protect_range on one present page. */
  lemma ProtectStep(s: Flat, ph: Phys, pt: Frame, r: Frame, lo: nat, v: Va, w: bool, x: bool)
    requires r in s.spaces && lo <= v && Tree(ph) && NoHuge(ph) && Holds3(ph, pt, r, v)
    requires FlatOf(ph) == Protect(s, r, lo, v, w, x)
    requires ph.mem[pt].entries[Index(v, 3)].present
    ensures var ph' := SetEntry(ph, pt, Index(v, 3), Reprotected(ph.mem[pt].entries[Index(v, 3)], w, x));
            Tree(ph') && NoHuge(ph') && FlatOf(ph') == Protect(s, r, lo, v + 1, w, x)
  {
    hide SetEntry, SpacesOf, ProtectedSpace;
    LeafIs(ph, pt, r, v);
    ProtectMember(s, r, lo, v, w, x);
    ProtectAdvance(s, r, lo, v, w, x);
    SetPteFlat(ph, pt, r, v, Reprotected(ph.mem[pt].entries[Index(v, 3)], w, x));
  }

  lemma ProtectMember(s: Flat, r: Frame, lo: nat, v: Va, w: bool, x: bool)
    requires r in s.spaces
    ensures v in Protect(s, r, lo, v, w, x).spaces[r] <==> v in s.spaces[r]
  {
  }

  // ---- fork ----------------------------------------------------------------

  lemma RoomBelow(p: Pool, sp: Space, n: nat)
    requires Shape(p) && RoomFor(p, Within(sp, 0, VA_LIMIT)) && n <= VA_LIMIT
    ensures RoomFor(p, Within(sp, 0, n))
  {
    forall f | 0 <= f < p.total ensures p.ref[f] + |Uses(Within(sp, 0, n), f)| <= MAX_REF {
      var a, b := Uses(Within(sp, 0, n), f), Uses(Within(sp, 0, VA_LIMIT), f);
      assert a <= b;
      assert b == a + (b - a);
    }
  }

  /** Every stage of a fork that cannot saturate keeps the invariant. */
  lemma ForkStageInv(s: Flat, p: Frame, c: Frame, ts: set<Frame>, n: nat)
    requires Inv(s) && p in s.spaces && AllFree(s.pool, ts + {c}) && NoSaturation(s, p, VA_LIMIT) && n <= VA_LIMIT
    ensures Inv(Fork(s, p, c, ts, n))
  {
    RoomBelow(s.pool, s.spaces[p], n);
    ForkInv(s, p, c, ts, n);
  }

  lemma ForkMember(s: Flat, p: Frame, c: Frame, ts: set<Frame>, v: Va)
    requires Shape(s.pool) && p in s.spaces && p != c
    ensures var f := Fork(s, p, c, ts, v);
            && p in f.spaces && c in f.spaces && f.spaces[p].Keys == s.spaces[p].Keys
            && (v in s.spaces[p] ==> f.spaces[p][v] == s.spaces[p][v])
            && v !in f.spaces[c] && Shape(f.pool) && f.pool.total == s.pool.total
  {
  }

  ghost function CopyEntry(ph: Phys, ppt: Frame, cpt: Frame, i: nat): Phys
    requires IsTable(ph.mem, ppt) && IsTable(ph.mem, cpt) && i < ENTRIES && Shape(ph.pool)
  {
    var e := Cowed(ph.mem[ppt].entries[i]);
    SetEntry(SetEntry(ph, ppt, i, e), cpt, i, e).(pool := Shared(ph.pool, e.frame))
  }

  lemma CopyEntryFlat(ph: Phys, ppt: Frame, cpt: Frame, p: Frame, c: Frame, v: Va)
    requires Tree(ph) && NoHuge(ph) && Holds3(ph, ppt, p, v) && Holds3(ph, cpt, c, v) && p != c && Shape(ph.pool)
    requires ph.mem[ppt].entries[Index(v, 3)].present
    ensures Tree(CopyEntry(ph, ppt, cpt, Index(v, 3))) && NoHuge(CopyEntry(ph, ppt, cpt, Index(v, 3)))
    ensures FlatOf(CopyEntry(ph, ppt, cpt, Index(v, 3))) ==
              BothPut(FlatOf(ph), p, c, v, Cowed(ph.mem[ppt].entries[Index(v, 3)]))
  {
    hide SetEntry, SpacesOf, Tree, NoHuge, Shared;
    var e := Cowed(ph.mem[ppt].entries[Index(v, 3)]);
    var ph1 := SetEntry(ph, ppt, Index(v, 3), e);
    SetPteFlat(ph, ppt, p, v, e);
    StillHolds(ph, ppt, Index(v, 3), e, cpt, c, v);
    SetPteFlat(ph1, cpt, c, v, e);
    PoolShift(SetEntry(ph1, cpt, Index(v, 3), e), Shared(ph.pool, e.frame));
    SetEntryRest(ph, ppt, Index(v, 3), e);
    SetEntryRest(ph1, cpt, Index(v, 3), e);
  }

  lemma SetEntryRest(ph: Phys, f: Frame, i: nat, e: Entry)
    requires IsTable(ph.mem, f) && i < ENTRIES
    ensures SetEntry(ph, f, i, e).pool == ph.pool && SetEntry(ph, f, i, e).owner == ph.owner
    ensures SetEntry(ph, f, i, e).kernel == ph.kernel
  {
  }

  lemma StillHolds(ph: Phys, f: Frame, i: nat, e: Entry, pt: Frame, r: Frame, v: Va)
    requires IsTable(ph.mem, f) && i < ENTRIES && Holds3(ph, pt, r, v)
    ensures Holds3(SetEntry(ph, f, i, e), pt, r, v)
  {
  }

  /** Copying one leaf entry from parent to child, both COW, one more reference. */
  lemma ForkStep(s: Flat, ph: Phys, p: Frame, c: Frame, ts: set<Frame>, ppt: Frame, cpt: Frame, v: Va)
    requires Inv(s) && p in s.spaces && AllFree(s.pool, ts + {c}) && NoSaturation(s, p, VA_LIMIT) && p != c
    requires Good(ph) && FlatOf(ph) == Fork(s, p, c, ts, v) && Holds3(ph, ppt, p, v) && Holds3(ph, cpt, c, v)
    requires ph.mem[ppt].entries[Index(v, 3)].present
    ensures var ph' := CopyEntry(ph, ppt, cpt, Index(v, 3)); Good(ph') && FlatOf(ph') == Fork(s, p, c, ts, v + 1)
    ensures !IsFree(ph.pool, ph.mem[ppt].entries[Index(v, 3)].frame)
  {
    hide Fork, CopyEntry, BothPut, SpacesOf, Tree, NoHuge, Counted, Leaves, Rooted;
    GoodFlat(ph);
    CopyEntryFlat(ph, ppt, cpt, p, c, v);
    LeafIs(ph, ppt, p, v);
    ForkMember(s, p, c, ts, v);
    ForkAdvance(s, p, c, ts, v);
    ForkStageInv(s, p, c, ts, v + 1);
    HeldNotFree(FlatOf(ph), p, v);
    ForkValid(s, p, c, ts, v + 1);
  }

  lemma ForkValid(s: Flat, p: Frame, c: Frame, ts: set<Frame>, n: nat)
    requires Shape(s.pool) && p in s.spaces && Inv(Fork(s, p, c, ts, n))
    ensures Valid(Fork(s, p, c, ts, n).pool)
  {
  }

  lemma AbsentMember(ph: Phys, f: Frame, i: nat, v: Va)
    requires Tree(ph) && f in ph.owner && ph.owner[f].lvl < 3 && i < ENTRIES && Child(ph.mem, f, i) == None
    requires First(ph.owner[f].pre * ENTRIES + i, ph.owner[f].lvl + 1) <= v < First(ph.owner[f].pre * ENTRIES + i + 1,
              ph.owner[f].lvl + 1)
    ensures v !in SpaceOf(ph.mem, ph.owner[f].root)
  {
    InRange(v, ph.owner[f].pre * ENTRIES + i, ph.owner[f].lvl + 1);
    AbsentBelow(ph, f, i, v);
  }

  /** An entry that leads nowhere hides no mapped page. */
  lemma AbsentRange(ph: Phys, f: Frame, i: nat)
    requires Tree(ph) && f in ph.owner && ph.owner[f].lvl < 3 && i < ENTRIES && Child(ph.mem, f, i) == None
    ensures NoneIn(SpaceOf(ph.mem, ph.owner[f].root), First(ph.owner[f].pre * ENTRIES + i, ph.owner[f].lvl + 1),
              First(ph.owner[f].pre * ENTRIES + i + 1, ph.owner[f].lvl + 1))
  {
    hide SpaceOf, First;
    var r, lo, hi := ph.owner[f].root, First(ph.owner[f].pre * ENTRIES + i, ph.owner[f].lvl + 1),
        First(ph.owner[f].pre * ENTRIES + i + 1, ph.owner[f].lvl + 1);
    forall v | v in SpaceOf(ph.mem, r) ensures !(lo <= v < hi) {
      if lo <= v < hi { AbsentMember(ph, f, i, v); }
    }
  }

  lemma ForkAbsent(s: Flat, ph: Phys, p: Frame, c: Frame, ts: set<Frame>, n: nat, f: Frame, i: nat)
    requires Shape(s.pool) && p in s.spaces && p != c && Good(ph) && FlatOf(ph) == Fork(s, p, c, ts, n)
    requires f in ph.owner && ph.owner[f].root == p && ph.owner[f].lvl < 3 && i < ENTRIES && Child(ph.mem, f, i) == None
    ensures NoneIn(s.spaces[p], First(ph.owner[f].pre * ENTRIES + i, ph.owner[f].lvl + 1),
              First(ph.owner[f].pre * ENTRIES + i + 1, ph.owner[f].lvl + 1))
  {
    hide SpaceOf, First, Fork, Child, Inv, NoHuge;
    ForkMember(s, p, c, ts, n);
    AbsentRange(ph, f, i);
    assert FlatOf(ph).spaces[p] == SpaceOf(ph.mem, p);
  }

  // ---- read-only walks -----------------------------------------------------

  ghost predicate CanStand(ph: Phys, tbl: Frame, r: Frame, v: Va, lvl: nat) {
    && lvl <= 3 && v < VA_LIMIT && tbl in ph.owner && IsTable(ph.mem, tbl) && r in FlatOf(ph).spaces
    && ph.owner[tbl].root == r && ph.owner[tbl].lvl == lvl && ph.owner[tbl].pre == Prefix(v, lvl)
  }

  lemma RootPlaced(ph: Phys, r: Frame, v: Va)
    requires Tree(ph) && r in RootsOf(ph.owner) && v < VA_LIMIT
    ensures CanStand(ph, r, r, v, 0)
  {
    PrefixTop(v);
    assert PlaceOk(ph, r);
  }

  lemma Follow(ph: Phys, tbl: Frame, r: Frame, v: Va, lvl: nat)
    requires Tree(ph) && CanStand(ph, tbl, r, v, lvl) && lvl < 3
    requires ph.mem[tbl].entries[Index(v, lvl)].present && !ph.mem[tbl].entries[Index(v, lvl)].huge
    ensures CanStand(ph, ph.mem[tbl].entries[Index(v, lvl)].frame, r, v, lvl + 1)
  {
    PrefixTop(v);
    PrefixStep(v, lvl);
    assert LinkOk(ph, tbl, Index(v, lvl));
    assert PlaceOk(ph, ph.mem[tbl].entries[Index(v, lvl)].frame);
  }

  lemma Absent(ph: Phys, tbl: Frame, r: Frame, v: Va, lvl: nat)
    requires Tree(ph) && CanStand(ph, tbl, r, v, lvl) && lvl < 3
    requires ph.mem[tbl].entries[Index(v, lvl)].huge || !ph.mem[tbl].entries[Index(v, lvl)].present
    ensures v !in FlatOf(ph).spaces[r] && Leaf(ph.mem, r, v) == ZERO
  {
    PrefixStep(v, lvl);
    AbsentBelow(ph, tbl, Index(v, lvl), v);
  }

  lemma NotNull(ph: Phys, f: Frame)
    requires Rooted(FlatOf(ph)) && f in ph.owner
    ensures f != NULL
  {
    assert f in FlatOf(ph).tables;
  }

  lemma GoodRooted(ph: Phys)
    requires Good(ph)
    ensures Rooted(FlatOf(ph))
  {
  }

  lemma ProtectRooted(s: Flat, r: Frame, lo: nat, hi: nat, w: bool, x: bool)
    requires Inv(s) && r in s.spaces
    ensures Rooted(Protect(s, r, lo, hi, w, x)) && r in Protect(s, r, lo, hi, w, x).spaces
  {
    RootedKept(s, Protect(s, r, lo, hi, w, x));
  }

  lemma GoodIff(ph: Phys)
    requires Valid(ph.pool) && Tree(ph) && NoHuge(ph)
    ensures Good(ph) <==> Inv(FlatOf(ph))
  {
  }

  lemma BootGood(ph: Phys, k: Frame)
    requires Valid(ph.pool) && ph.owner == map[] && ph.kernel == {k} && 0 < k < ph.pool.total
    requires forall f :: 0 <= f < ph.pool.total ==> ph.pool.ref[f] == B(f == k) && !ph.pool.pinned[f]
    ensures Good(ph)
  {
    var s := FlatOf(ph);
    forall f | 0 <= f < s.pool.total ensures CountedAt(s, f) { assert Holders(s.spaces, f) == {}; }
  }

  // ---- the fault handler ---------------------------------------------------

  ghost function Zeroed(ph: Phys, f: Frame): Phys
    requires Shape(ph.pool) && f < ph.pool.total
  {
    Phys(Taken(ph.pool, f), ph.mem[f := Data(ZeroPage())], ph.owner, ph.kernel + {f})
  }

  /** alloc_page and memset: a zeroed page held by the kernel. */
  lemma ZeroStep(ph: Phys, f: Frame, r: Frame)
    requires Good(ph) && 0 < f && IsFree(ph.pool, f) && r in FlatOf(ph).spaces
    ensures Good(Zeroed(ph, f)) && FlatOf(Zeroed(ph, f)) == Grow(FlatOf(ph), r, {}, {f})
    ensures Loose(FlatOf(Zeroed(ph, f)), f) && AllFree(ph.pool, {f})
  {
    hide SpacesOf, TakenAll, Taken, Counted, Leaves, Rooted, LinkOk, PlaceOk, ZeroPage;
    FreshFrame(ph, f);
    FreeUnheld(FlatOf(ph), f);
    var ph1 := ph.(mem := ph.mem[f := Data(ZeroPage())]);
    OutsideFlat(ph, f, ZeroPage());
    OutsideNotHuge(ph, f, Data(ZeroPage()));
    PoolShift(ph1, Taken(ph.pool, f));
    KernelShift(ph1.(pool := Taken(ph.pool, f)), ph.kernel + {f});
    TakenSingle(ph.pool, f);
    assert {} + {f} == {f};
    GrowInv(FlatOf(ph), r, {}, {f});
    ZeroFields(FlatOf(ph), r, f);
  }

  lemma ZeroFields(s: Flat, r: Frame, f: Frame)
    requires Shape(s.pool)
    ensures Grow(s, r, {}, {f}) ==
              s.(pool := TakenAll(s.pool, {f}), kernel := s.kernel + {f}, data := s.data[f := ZeroPage()])
  {
    hide TakenAll;
    assert {} + {f} == {f};
    assert s.tables + AllMapTo({}, r) == s.tables;
    assert (s.data - {}) + AllMapTo({f}, ZeroPage()) == s.data[f := ZeroPage()];
  }

  lemma OutsideNotHuge(ph: Phys, g: Frame, page: Page)
    requires Tree(ph) && NoHuge(ph) && g !in ph.owner
    ensures NoHuge(ph.(mem := ph.mem[g := page]))
  {
    var ph' := ph.(mem := ph.mem[g := page]);
    forall f, i | f in ph'.owner && ph'.owner[f].lvl < 3 && UserSlot(ph'.owner[f].lvl, i)
      ensures !HugeAt(ph', f, i)
    {
      assert !HugeAt(ph, f, i);
    }
  }

  /** Filling a page the kernel holds. */
  lemma DataStep(ph: Phys, f: Frame, bytes: seq<Byte>)
    requires Good(ph) && Loose(FlatOf(ph), f) && |bytes| == PAGE_BYTES
    ensures var ph' := ph.(mem := ph.mem[f := Data(bytes)]);
            Good(ph') && FlatOf(ph') == FlatOf(ph).(data := FlatOf(ph).data[f := bytes]) && Loose(FlatOf(ph'), f)
                && FrameBytes(FlatOf(ph'), f) == bytes
  {
    hide SpacesOf, LinkOk, PlaceOk;
    var s := FlatOf(ph);
    LooseOutside(ph, f);
    OutsideFlat(ph, f, bytes);
    OutsideNotHuge(ph, f, Data(bytes));
    DataInv(s, f, bytes);
  }

  lemma LooseOutside(ph: Phys, f: Frame)
    requires Good(ph) && Loose(FlatOf(ph), f)
    ensures f !in ph.owner
  {
    assert f in ph.owner <==> f in FlatOf(ph).tables;
  }

  lemma DataInv(s: Flat, f: Frame, bytes: seq<Byte>)
    requires Inv(s) && Loose(s, f) && |bytes| == PAGE_BYTES
    ensures Inv(s.(data := s.data[f := bytes]))
  {
    var t := s.(data := s.data[f := bytes]);
    forall g | 0 <= g < t.pool.total ensures CountedAt(t, g) { assert CountedAt(s, g); }
    forall q, w | q in t.spaces && w in t.spaces[q] ensures EntryOk(t, q, w) { assert EntryOk(s, q, w); }
    RootedKept(s, t);
  }

  /** Allocating the page before or after the tables comes to the same. */
  lemma GrowSwap(s: Flat, r: Frame, ts: set<Frame>, f: Frame)
    requires Valid(s.pool) && AllFree(s.pool, {f}) && f !in ts && AllFree(Grow(s, r, {}, {f}).pool, ts)
    ensures Grow(Grow(s, r, {}, {f}), r, ts, {}) == Grow(s, r, ts, {f}) && AllFree(s.pool, ts + {f})
  {
    TakenTwice(s.pool, {} + {f}, ts + {});
    assert {} + {f} + (ts + {}) == ts + {f};
    var none: set<Frame> := {};
    assert s.tables + AllMapTo(none, r) + AllMapTo(ts, r) == s.tables + AllMapTo(ts, r);
    assert (((s.data - {}) + AllMapTo({f}, ZeroPage())) - ts) + AllMapTo({}, ZeroPage()) ==
        (s.data - ts) + AllMapTo({f}, ZeroPage());
    assert s.kernel + {f} + {} == s.kernel + {f};
  }

  lemma RemapData(s: Flat, r: Frame, v: Va, e: Entry, bytes: seq<Byte>)
    requires r in s.spaces
    ensures MapOwned(s.(data := s.data[e.frame := bytes]), r, v, e, bytes) == MapOwned(s, r, v, e, bytes)
  {
  }

  /** The last holder's COW fault. */
  lemma ReuseStep(ph: Phys, pt: Frame, r: Frame, v: Va)
    requires Good(ph) && Holds3(ph, pt, r, v)
    requires var e := ph.mem[pt].entries[Index(v, 3)]; e.present && e.cow && RefCount(ph.pool, e.frame) <= 1
    ensures var e := ph.mem[pt].entries[Index(v, 3)];
            var ph' := SetEntry(ph, pt, Index(v, 3), Privatised(e, e.frame));
            && v in FlatOf(ph).spaces[r] && FlatOf(ph).spaces[r][v] == e
            && Good(ph') && FlatOf(ph') == CowReuse(FlatOf(ph), r, v)
  {
    hide SetEntry, SpacesOf, Counted, Leaves, Rooted, LinkOk, PlaceOk;
    var e := ph.mem[pt].entries[Index(v, 3)];
    LeafIs(ph, pt, r, v);
    SetPteFlat(ph, pt, r, v, Privatised(e, e.frame));
    CowReuseInv(FlatOf(ph), r, v);
    SetEntryRest(ph, pt, Index(v, 3), Privatised(e, e.frame));
  }

  ghost function Copied(ph: Phys, pt: Frame, i: nat, nf: Frame, bytes: seq<Byte>): Phys
    requires IsTable(ph.mem, pt) && i < ENTRIES && nf != pt && Shape(ph.pool) && nf < ph.pool.total
  {
    var e := ph.mem[pt].entries[i];
    var ph1 := ph.(mem := ph.mem[nf := Data(bytes)]);
    SetEntry(ph1, pt, i, Privatised(e, nf)).(pool := Dropped(Taken(ph.pool, nf), e.frame))
  }

  /** A sharer's COW fault. */
  lemma CopyStep(ph: Phys, pt: Frame, r: Frame, v: Va, nf: Frame)
    requires Good(ph) && Holds3(ph, pt, r, v) && 0 < nf && IsFree(ph.pool, nf)
    requires var e := ph.mem[pt].entries[Index(v, 3)]; e.present && e.cow && RefCount(ph.pool, e.frame) > 1
    ensures var e := ph.mem[pt].entries[Index(v, 3)];
            && v in FlatOf(ph).spaces[r] && FlatOf(ph).spaces[r][v] == e && e.frame in ph.mem && ph.mem[e.frame].Data?
            && nf != pt && nf !in ph.kernel
            && 0 < e.frame < ph.pool.total && !IsFree(Taken(ph.pool, nf), e.frame)
            && Good(Copied(ph, pt, Index(v, 3), nf, ph.mem[e.frame].bytes)) && AllFree(ph.pool, {nf})
            && e.frame in FlatOf(ph).data
            && FlatOf(Copied(ph, pt, Index(v, 3), nf, ph.mem[e.frame].bytes)) == CowCopy(FlatOf(ph), r, v, nf)
  {
    hide SetEntry, SpacesOf, Counted, Leaves, Rooted, LinkOk, PlaceOk, Dropped;
    var e := ph.mem[pt].entries[Index(v, 3)];
    var s := FlatOf(ph);
    LeafIs(ph, pt, r, v);
    HeldNotFree(s, r, v);
    FreshFrame(ph, nf);
    var bytes := ph.mem[e.frame].bytes;
    var ph1 := ph.(mem := ph.mem[nf := Data(bytes)]);
    OutsideFlat(ph, nf, bytes);
    OutsideNotHuge(ph, nf, Data(bytes));
    SetPteFlat(ph1, pt, r, v, Privatised(e, nf));
    SetEntryRest(ph1, pt, Index(v, 3), Privatised(e, nf));
    PoolShift(SetEntry(ph1, pt, Index(v, 3), Privatised(e, nf)), Dropped(Taken(ph.pool, nf), e.frame));
    CowCopyInv(s, r, v, nf);
  }

  ghost predicate NoneFree(p: Pool)
    requires Shape(p)
  {
    forall f :: 0 <= f < p.total ==> !p.free[f]
  }

  lemma StallEnabled(s: Flat, r: Frame, ts: set<Frame>, lost: set<Frame>)
    requires Inv(s) && r in s.spaces && AllFree(s.pool, ts + lost) && ts !! lost
    ensures Enabled(s, StallOp(r, ts, lost)) && Apply(s, StallOp(r, ts, lost)) == Grow(s, r, ts, lost)
  {
  }

  lemma FillEnabled(s: Flat, r: Frame, v: Va, f: Frame, ts: set<Frame>, bytes: seq<Byte>, w: bool, u: bool, nx: bool)
    requires Inv(s) && r in s.spaces && v < VA_LIMIT && v !in s.spaces[r] && AllFree(s.pool, ts + {f}) && f !in ts
    requires |bytes| == PAGE_BYTES
    ensures Enabled(s, FillOp(r, v, f, ts, bytes, w, u, nx))
    ensures Apply(s, FillOp(r, v, f, ts, bytes, w, u, nx)) ==
              MapOwned(Grow(s, r, ts, {f}), r, v, FillEntry(f, w, u, nx), bytes)
  {
  }

  lemma CowCopyEnabled(s: Flat, r: Frame, v: Va, f: Frame)
    requires Inv(s) && r in s.spaces && v in s.spaces[r] && s.spaces[r][v].cow
    requires RefCount(s.pool, s.spaces[r][v].frame) > 1
    requires AllFree(s.pool, {f}) && f < s.pool.total && s.spaces[r][v].frame in s.data
    ensures Enabled(s, CowCopyOp(r, v, f)) && Apply(s, CowCopyOp(r, v, f)) == CowCopy(s, r, v, f)
  {
  }

  /** The operation materialises exactly the page owed. */
  ghost predicate Fills(op: Op, r: Frame, v: Va, p: Filling) {
    op.FillOp? && op.r == r && op.v == v && op.bytes == p.bytes && op.w == p.w && op.u == p.u && op.nx == p.nx
  }

  lemma ZeroBytes(s: Flat, r: Frame, f: Frame)
    requires Shape(s.pool)
    ensures FrameBytes(Grow(s, r, {}, {f}), f) == ZeroPage()
  {
    hide TakenAll, ZeroPage;
  }

  lemma PageAfterTables(s: Flat, r: Frame, ts: set<Frame>, f: Frame)
    requires Valid(s.pool) && AllFree(s.pool, ts) && AllFree(Grow(s, r, ts, {}).pool, {f})
    ensures Grow(Grow(s, r, ts, {}), r, {}, {f}) == Grow(s, r, ts, {f}) && AllFree(s.pool, ts + {f}) && f !in ts
  {
    GrowTwice(s, r, ts, {}, {f});
    assert ts + {} == ts;
    assert f in {f};
  }

  lemma HeldTable(ph: Phys, pt: Frame, r: Frame, v: Va)
    requires Holds3(ph, pt, r, v)
    ensures IsTable(ph.mem, pt) && pt in ph.owner && v < VA_LIMIT && r in FlatOf(ph).spaces
  {
  }

  lemma HoldsOutside(ph: Phys, pt: Frame, r: Frame, v: Va, g: Frame, page: Page, p: Pool, k: set<Frame>)
    requires Holds3(ph, pt, r, v) && g !in ph.owner
    ensures Holds3(Phys(p, ph.mem[g := page], ph.owner, k), pt, r, v)
  {
  }

  // ---- teardown ------------------------------------------------------------

  /** Entry `l` of page table `pt` is the leaf entry of its `l`-th page. */
  lemma LeafAt(ph: Phys, pt: Frame, l: nat)
    requires Good(ph) && pt in ph.owner && ph.owner[pt].lvl == 3 && l < ENTRIES
    ensures IsTable(ph.mem, pt) && ph.owner[pt].root in FlatOf(ph).spaces && ph.owner[pt].pre * ENTRIES + l < VA_LIMIT
    ensures var v, r := ph.owner[pt].pre * ENTRIES + l, ph.owner[pt].root;
            && (v in FlatOf(ph).spaces[r] <==> ph.mem[pt].entries[l].present)
            && (v in FlatOf(ph).spaces[r] ==> FlatOf(ph).spaces[r][v] == ph.mem[pt].entries[l])
            && Holds3(ph, pt, r, v) && Index(v, 3) == l
  {
    hide Inv, NoHuge, LinkOk, PlaceOk;
    var v := ph.owner[pt].pre * ENTRIES + l;
    RootKnown(ph, pt);
    StartBound(ph, pt);
    assert First(ph.owner[pt].pre + 1, 3) == First((ph.owner[pt].pre + 1) * ENTRIES, 4);
    PrefixTop(v);
    LeafIs(ph, pt, ph.owner[pt].root, v);
  }

  lemma ReleaseAt(ph: Phys, r: Frame, n: nat, gone: set<Frame>)
    requires Good(ph) && r in FlatOf(ph).spaces && gone <= TablesOf(FlatOf(ph), r) && n in FlatOf(ph).spaces[r]
    ensures var f := FlatOf(ph).spaces[r][n].frame;
            && 0 < f < ph.pool.total && !IsFree(Released(FlatOf(ph), r, 0, n, gone), f)
            && Released(FlatOf(ph), r, 0, n + 1, gone) == Dropped(Released(FlatOf(ph), r, 0, n, gone), f)
  {
    ReleaseLeaf(FlatOf(ph), r, 0, n, gone);
  }

  lemma ReleaseNone(ph: Phys, r: Frame, n: nat, m: nat, gone: set<Frame>)
    requires Good(ph) && r in FlatOf(ph).spaces && n <= m && NoneIn(FlatOf(ph).spaces[r], n, m)
    ensures Released(FlatOf(ph), r, 0, n, gone) == Released(FlatOf(ph), r, 0, m, gone)
  {
    ReleaseSkip(FlatOf(ph), r, 0, n, m, gone);
  }

  /** Entry `i` of `f` leads nowhere: no page and no table below it. */
  lemma ReleaseGap(ph: Phys, f: Frame, i: nat, gone: set<Frame>)
    requires Good(ph) && f in ph.owner && ph.owner[f].lvl < 3 && i < ENTRIES && Child(ph.mem, f, i) == None
    requires ph.owner[f].root in FlatOf(ph).spaces
    ensures var q, l, r := ph.owner[f].pre * ENTRIES + i, ph.owner[f].lvl + 1, ph.owner[f].root;
            && Under(ph.owner, r, l, First(q, l), First(q + 1, l)) == {}
            && Released(FlatOf(ph), r, 0, First(q, l), gone) == Released(FlatOf(ph), r, 0, First(q + 1, l), gone)
  {
    hide Released, First, Under, Inv, Tree, NoHuge, Child;
    var q, l, r := ph.owner[f].pre * ENTRIES + i, ph.owner[f].lvl + 1, ph.owner[f].root;
    NothingUnder(ph, f, i);
    AbsentRange(ph, f, i);
    FirstMonotone(q, q + 1, l);
    ReleaseNone(ph, r, First(q, l), First(q + 1, l), gone);
  }

  lemma ReleaseSelf(ph: Phys, r: Frame, n: nat, gone: set<Frame>, t: Frame)
    requires Good(ph) && r in FlatOf(ph).spaces && gone <= TablesOf(FlatOf(ph), r) && t in TablesOf(FlatOf(ph), r)
    requires t !in gone
    ensures 0 < t < ph.pool.total && !IsFree(Released(FlatOf(ph), r, 0, n, gone), t)
    ensures Released(FlatOf(ph), r, 0, n, gone + {t}) == Dropped(Released(FlatOf(ph), r, 0, n, gone), t)
  {
    ReleaseTable(FlatOf(ph), r, 0, n, gone, t);
  }

  lemma ReleaseStart(ph: Phys, r: Frame)
    requires Good(ph) && r in FlatOf(ph).spaces
    ensures Released(FlatOf(ph), r, 0, 0, {}) == ph.pool
  {
    UnmapStart(FlatOf(ph), r, 0);
  }

  lemma TeardownStep(ph: Phys, r: Frame, gone: set<Frame>)
    requires Good(ph) && r in FlatOf(ph).spaces && gone == TablesOf(FlatOf(ph), r)
    ensures var ph' := Phys(Released(FlatOf(ph), r, 0, VA_LIMIT, gone), ph.mem, Survivors(ph.owner, r), ph.kernel);
            Good(ph') && FlatOf(ph') == Teardown(FlatOf(ph), r)
  {
    hide DropRefs, Survivors, SpacesOf, Counted, Leaves, LinkOk, PlaceOk, Rooted;
    var s := FlatOf(ph);
    var ph1 := ph.(owner := Survivors(ph.owner, r));
    SurvivorsTree(ph, r);
    SurvivorsFlat(ph, r);
    SurvivorsNotHuge(ph, r);
    TeardownInv(s, r);
    WholeSpace(s, r);
    PoolShift(ph1, Released(s, r, 0, VA_LIMIT, gone));
  }

  lemma WholeSpace(s: Flat, r: Frame)
    requires Leaves(s) && r in s.spaces
    ensures Within(s.spaces[r], 0, VA_LIMIT) == s.spaces[r]
  {
    forall v | v in s.spaces[r] ensures v < VA_LIMIT { assert EntryOk(s, r, v); }
  }

  lemma SurvivorsNotHuge(ph: Phys, r: Frame)
    requires NoHuge(ph)
    ensures NoHuge(ph.(owner := Survivors(ph.owner, r)))
  {
    var ph' := ph.(owner := Survivors(ph.owner, r));
    forall f, i | f in ph'.owner && ph'.owner[f].lvl < 3 && UserSlot(ph'.owner[f].lvl, i)
      ensures !HugeAt(ph', f, i)
    {
      assert !HugeAt(ph, f, i);
    }
  }

  lemma FirstDown(pre: nat, lvl: nat)
    requires lvl < 4
    ensures First(pre, lvl) == First(pre * ENTRIES, lvl + 1)
  {
  }

  lemma UnderLeaf(owner: map<Frame, Place>, r: Frame, lo: nat, hi: nat)
    ensures Under(owner, r, 4, lo, hi) == {}
  {
  }

  lemma NothingGone(ph: Phys, r: Frame)
    requires Good(ph) && r in FlatOf(ph).spaces
    ensures {} <= TablesOf(FlatOf(ph), r)
  {
  }

  lemma SelfLast(ph: Phys, f: Frame)
    requires Good(ph) && f in ph.owner
    ensures var p := ph.owner[f];
            && p.lvl <= 3 && f in TablesOf(FlatOf(ph), p.root)
            && Under(ph.owner, p.root, p.lvl, First(p.pre, p.lvl), First(p.pre + 1, p.lvl)) ==
               Under(ph.owner, p.root, p.lvl + 1, First(p.pre, p.lvl), First(p.pre + 1, p.lvl)) + {f}
            && f !in Under(ph.owner, p.root, p.lvl + 1, First(p.pre, p.lvl), First(p.pre + 1, p.lvl))
  {
    assert PlaceOk(ph, f);
    UnderSelf(ph, f);
  }

  lemma RootLast(ph: Phys, r: Frame)
    requires Good(ph) && r in RootsOf(ph.owner)
    ensures Under(ph.owner, r, 1, 0, VA_LIMIT) + {r} == TablesOf(FlatOf(ph), r)
    ensures r !in Under(ph.owner, r, 1, 0, VA_LIMIT)
  {
    UnderRoot(ph, r);
  }

  lemma ChildPlace(ph: Phys, f: Frame, i: nat)
    requires Good(ph) && f in ph.owner && ph.owner[f].lvl < 3 && UserSlot(ph.owner[f].lvl, i)
    requires Child(ph.mem, f, i).Some?
    ensures var c := Child(ph.mem, f, i).value;
            c in ph.owner && ph.owner[c] ==
                Place(ph.owner[f].root, ph.owner[f].lvl + 1, ph.owner[f].pre * ENTRIES + i, f)
  {
    assert LinkOk(ph, f, i);
  }

  /** Frames still free in the middle of a fork were free when it began. */
  lemma ForkFreeBack(s: Flat, p: Frame, c: Frame, ts: set<Frame>, n: nat, new1: set<Frame>)
    requires Shape(s.pool) && p in s.spaces && AllFree(s.pool, ts + {c}) && AllFree(Fork(s, p, c, ts, n).pool, new1)
    ensures AllFree(s.pool, new1) && AllFree(s.pool, ts + new1 + {c})
  {
    hide Uses, Within;
    var q := TakenAll(s.pool, ts + {c});
    assert Fork(s, p, c, ts, n).pool.free == q.free;
  }

  lemma SameEntry(m: Memory, f: Frame, i: nat)
    requires IsTable(m, f) && i < ENTRIES
    ensures WithEntry(m, f, i, m[f].entries[i]) == m
  {
    assert m[f].entries[i := m[f].entries[i]] == m[f].entries;
  }

  lemma LeafRange(pre: nat)
    ensures First(pre, 3) == pre * ENTRIES
  {
  }

  lemma NewRootFresh(s: Flat, p: Frame, c: Frame)
    requires Inv(s) && p in s.spaces && AllFree(s.pool, {c})
    ensures p != c && AllFree(s.pool, {} + {c})
  {
    assert c in {c};
    FreeUnheld(s, c);
    var none: set<Frame> := {};
    assert none + {c} == {c};
  }

  lemma AbortEnabled(s: Flat, p: Frame, c: Frame, ts: set<Frame>, n: nat)
    requires Inv(s) && p in s.spaces && AllFree(s.pool, ts + {c}) && NoSaturation(s, p, VA_LIMIT) && n <= VA_LIMIT
    ensures Enabled(s, AbortOp(p, c, ts, n)) && Apply(s, AbortOp(p, c, ts, n)) == Teardown(Fork(s, p, c, ts, n), c)
  {
    hide Fork, Teardown;
    ForkShape(s, p, c, ts, n);
    RoomBelow(s.pool, s.spaces[p], n);
  }

  lemma ForkEnabled(s: Flat, p: Frame, c: Frame, ts: set<Frame>)
    requires Inv(s) && p in s.spaces && AllFree(s.pool, ts + {c}) && NoSaturation(s, p, VA_LIMIT)
    ensures Enabled(s, ForkOp(p, c, ts - {c})) && Apply(s, ForkOp(p, c, ts - {c})) == Fork(s, p, c, ts, VA_LIMIT)
  {
    assert ts - {c} + {c} == ts + {c};
  }

  // ---- what a fault asks for -----------------------------------------------

  const USER_STACK_TOP: nat := 0x0000_7FFF_FFFF_E000
  const USER_STACK_MAX_PAGES: nat := 128
  const USER_STACK_LOW: nat := USER_STACK_TOP - (USER_STACK_MAX_PAGES - 1) * PAGE_BYTES
  const USER_SPACE_MIN: nat := 0x1000

  /** The mmap region containing the faulting address, if any; `file` is its file snapshot. */
  datatype Vma = Vma(start: nat, end: nat, write: bool, exec: bool, file: seq<Byte>)

  /** The page to be materialised: contents and permissions. */
  datatype Filling = Filling(bytes: seq<Byte>, w: bool, u: bool, nx: bool)

  predicate InHeap(cr2: nat, heapStart: nat, brk: nat) {
    heapStart >= USER_SPACE_MIN && brk > heapStart && heapStart <= cr2 < brk
  }

  predicate InStack(cr2: nat) {
    USER_STACK_LOW <= cr2 < USER_STACK_TOP + PAGE_BYTES
  }

  predicate InGuard(cr2: nat) {
    USER_STACK_LOW - PAGE_BYTES <= cr2 < USER_STACK_LOW
  }

  /** The page's slice of the snapshot, zero past its end. */
  function FileSlice(file: seq<Byte>, off: nat): (p: seq<Byte>)
    ensures |p| == PAGE_BYTES
    ensures forall i :: 0 <= i < PAGE_BYTES ==> p[i] == if off + i < |file| then file[off + i] else 0
  {
    seq(PAGE_BYTES, i requires 0 <= i => if off + i < |file| then file[off + i] else 0)
  }

  /** What a not-present user fault is owed: heap first, then mmap, stack, demand marker. */
  function Owed(cr2: nat, heapStart: nat, brk: nat, vma: Option<Vma>, marker: Entry): Option<Filling>
    requires vma.Some? ==> vma.value.start <= cr2
  {
    if InHeap(cr2, heapStart, brk) then Some(Filling(ZeroPage(), true, true, true))
    else if vma.Some? then
      Some(Filling(FileSlice(vma.value.file, PageBase(cr2, vma.value.start)), vma.value.write, true, !vma.value.exec))
    else if InStack(cr2) then Some(Filling(ZeroPage(), true, true, true))
    else if InGuard(cr2) then None
    else if marker.demand then Some(Filling(ZeroPage(), true, marker.user, marker.nx))
    else None
  }

  /** `(cr2 & ~0xFFF) - start`, zero when the region does not start on a page boundary. */
  function PageBase(cr2: nat, start: nat): nat {
    var base := cr2 / PAGE_BYTES * PAGE_BYTES;
    if base < start then 0 else base - start
  }
}
