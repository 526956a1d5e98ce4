/** kernel/paging.c over real page tables: the walks, loops and fault handler, proved against
    the flat operations of `SpaceOps` and so, by `CowRefinement`, against eager copying.
    Addresses are page numbers; TLB maintenance and the kernel's own address space are not
    modelled. */
module Paging {
  import opened Frames
  import opened AddressSpaces
  import opened SpaceOps
  import opened PageTables
  import opened WalkSteps
  import opened PagingSteps
  import opened CowRefinement
  import opened TeardownWalk

  class Mmu {
    const alloc: PageAllocator
    var mem: Memory
    var kernelPml4: Frame
    var demandFaults: nat
    var cowFaults: nat
    ghost var owner: map<Frame, Place>
    ghost var kernel: set<Frame>

    ghost function Ph(): Phys
      reads this, alloc, alloc.bitmap, alloc.refcount, alloc.pins
    {
      Phys(alloc.View(), mem, owner, kernel)
    }

    ghost function S(): Flat
      reads this, alloc, alloc.bitmap, alloc.refcount, alloc.pins
    {
      FlatOf(Ph())
    }

    ghost predicate Ok()
      reads this, alloc, alloc.bitmap, alloc.refcount, alloc.pins
    {
      && alloc.Ok() && Good(Ph())
      && kernelPml4 in kernel && IsTable(mem, kernelPml4)
    }

    /** The part of init_paging that user spaces depend on: a PML4 page for the kernel holding
        the mirror entry. */
    constructor (a: PageAllocator, mirror: Entry)
      requires a.Ok() && (forall f :: 0 <= f < a.totalPages ==> a.refcount[f] == 0 && !a.pins[f])
      requires exists f :: 0 <= f < a.totalPages && a.bitmap[f]
      modifies a`freePages, a.bitmap, a.refcount
      ensures Ok() && alloc == a && owner == map[] && kernel == {kernelPml4}
    {
      alloc := a;
      mem := map[];
      owner := map[];
      kernel := {};
      demandFaults, cowFaults := 0, 0;
      kernelPml4 := NULL;
      new;
      hide Good, FlatOf, Valid, RootPage;
      var k := alloc.AllocPage();
      kernelPml4 := k;
      kernel := {k};
      mem := map[k := RootPage(mirror)];
      BootGood(Ph(), k);
    }

    /** `t` is the level-`lvl` table above page `v` of the space rooted at `r`. */
    ghost predicate Above(t: Frame, r: Frame, v: Va, lvl: nat)
      requires lvl <= 3
      reads this
    {
      t in owner && owner[t].root == r && owner[t].lvl == lvl && owner[t].pre == Prefix(v, lvl)
    }

    /** The entry for `v` in `tbl` is empty: allocate a table, zero it and link it there. */
    method LinkNew(tbl: Frame, v: Va, lvl: nat, user: bool) returns (g: Frame, ghost ts: set<Frame>)
      requires Ok() && CanDescend(Ph(), tbl, v, lvl) && !mem[tbl].entries[Index(v, lvl)].present
      modifies this`mem, this`owner, alloc`freePages, alloc.bitmap, alloc.refcount
      ensures Ok() && AllFree(old(S()).pool, ts) && S() == Grow(old(S()), old(owner[tbl].root), ts, {})
      ensures Extends(old(owner), owner)
      ensures g != NULL ==> Above(g, old(owner[tbl].root), v, lvl + 1)
      ensures g == NULL ==> NoneFree(S().pool)
    {
      hide Good, FlatOf, Grow, TakenAll, Valid, Taken, EmptyTable, TableEntry, Inv, Tree, NoHuge, Prefix, RootsOf,
           AllFree;
      ghost var ph := Ph();
      g := alloc.AllocPage();
      if g == NULL {
        GrowNothing(S(), owner[tbl].root);
        return NULL, {};
      }
      LinkStep(ph, tbl, v, lvl, g, user);
      FreshFrame(ph, g);
      RootKnown(ph, tbl);
      LinkMem(mem, tbl, Index(v, lvl), g, user);
      PrefixStep(v, lvl);
      mem := WithEntry(mem[g := EmptyTable()], tbl, Index(v, lvl), TableEntry(g, user));
      owner := owner[g := Place(owner[tbl].root, lvl + 1, owner[tbl].pre * ENTRIES + Index(v, lvl), tbl)];
      assert Ph() == Link(ph, tbl, Index(v, lvl), g, user);
      return g, {g};
    }

    /** One level of pte_ptr with `create`: follow the entry, or link an empty table. */
    method Descend(tbl: Frame, v: Va, lvl: nat) returns (next: Frame, ghost ts: set<Frame>)
      requires Ok() && CanDescend(Ph(), tbl, v, lvl)
      modifies this`mem, this`owner, alloc`freePages, alloc.bitmap, alloc.refcount
      ensures Ok() && AllFree(old(S()).pool, ts) && S() == Grow(old(S()), old(owner[tbl].root), ts, {})
      ensures Extends(old(owner), owner)
      ensures next != NULL ==> Above(next, old(owner[tbl].root), v, lvl + 1)
      ensures next == NULL ==> NoneFree(S().pool)
    {
      hide Good, FlatOf, Grow, TakenAll;
      var e := mem[tbl].entries[Index(v, lvl)];
      NotHuge(Ph(), tbl, v, lvl);
      if e.huge { return NULL, {}; }
      if !e.present {
        next, ts := LinkNew(tbl, v, lvl, true);
        return;
      }
      GrowNothing(S(), owner[tbl].root);
      FollowStep(Ph(), tbl, v, lvl);
      return e.frame, {};
    }

    /** pte_ptr with `create`: the page table that holds the leaf entry for `v`, or NULL when a
        table could not be allocated.  Creating tables on the way changes no translation. */
    method PtePtrCreate(pml4: Frame, v: Va) returns (pt: Frame, ghost ts: set<Frame>)
      requires Ok() && pml4 in S().spaces && v < VA_LIMIT
      modifies this`mem, this`owner, alloc`freePages, alloc.bitmap, alloc.refcount
      ensures Ok() && AllFree(old(S()).pool, ts) && S() == Grow(old(S()), pml4, ts, {})
      ensures Extends(old(owner), owner)
      ensures pt != NULL ==> Holds3(Ph(), pt, pml4, v)
      ensures pt == NULL ==> NoneFree(S().pool)
    {
      hide Good, FlatOf, Grow, TakenAll, Valid;
      ghost var s := S();
      RootPlace(Ph(), pml4, v);
      GrowNothing(s, pml4);
      var lvl := 0;
      var tbl := pml4;
      ts := {};
      while lvl < 3
        invariant lvl <= 3 && Ok() && Above(tbl, pml4, v, lvl) && Extends(old(owner), owner)
        invariant AllFree(s.pool, ts) && S() == Grow(s, pml4, ts, {})
      {
        ghost var new1;
        RootKnown(Ph(), tbl);
        tbl, new1 := Descend(tbl, v, lvl);
        MoreTables(s, pml4, ts, new1);
        ts := ts + new1;
        if tbl == NULL { return NULL, ts; }
        lvl := lvl + 1;
      }
      RootKnown(Ph(), tbl);
      return tbl, ts;
    }

    /** pte_ptr without `create`: the page table that holds the leaf entry for `v`, or NULL when
        the walk stops early, in which case `v` is not mapped. */
    method FindPte(pml4: Frame, v: Va) returns (pt: Frame)
      requires Tree(Ph()) && Rooted(S()) && pml4 in S().spaces && v < VA_LIMIT
      ensures pt != NULL ==> Holds3(Ph(), pt, pml4, v)
      ensures pt == NULL ==> v !in S().spaces[pml4] && Leaf(mem, pml4, v) == ZERO
    {
      hide FlatOf, Child;
      RootPlaced(Ph(), pml4, v);
      var lvl := 0;
      var tbl := pml4;
      while lvl < 3
        invariant lvl <= 3 && CanStand(Ph(), tbl, pml4, v, lvl)
      {
        var e := mem[tbl].entries[Index(v, lvl)];
        if e.huge || !e.present {
          Absent(Ph(), tbl, pml4, v, lvl);
          return NULL;
        }
        Follow(Ph(), tbl, pml4, v, lvl);
        tbl := e.frame;
        lvl := lvl + 1;
      }
      NotNull(Ph(), tbl);
      return tbl;
    }

    /** One level of map_pml4: like pte_ptr but without a test for huge entries. */
    method DescendToMap(tbl: Frame, v: Va, lvl: nat, user: bool) returns (next: Frame, ghost ts: set<Frame>)
      requires Ok() && CanDescend(Ph(), tbl, v, lvl)
      modifies this`mem, this`owner, alloc`freePages, alloc.bitmap, alloc.refcount
      ensures Ok() && AllFree(old(S()).pool, ts) && S() == Grow(old(S()), old(owner[tbl].root), ts, {})
      ensures Extends(old(owner), owner)
      ensures next != NULL ==> Above(next, old(owner[tbl].root), v, lvl + 1)
      ensures next == NULL ==> NoneFree(S().pool)
    {
      hide Good, FlatOf, Grow, TakenAll;
      var e := mem[tbl].entries[Index(v, lvl)];
      if !e.present {
        next, ts := LinkNew(tbl, v, lvl, user);
        return;
      }
      GrowNothing(S(), owner[tbl].root);
      NotHuge(Ph(), tbl, v, lvl);
      FollowStep(Ph(), tbl, v, lvl);
      return e.frame, {};
    }

    /** The leaf entry written. */
    method PutLeaf(pt: Frame, pml4: Frame, phys: Frame, v: Va, user: bool, nx: bool)
      requires Ok() && Holds3(Ph(), pt, pml4, v) && Loose(S(), phys)
      requires (v in S().spaces[pml4] ==> S().spaces[pml4][v].frame !in kernel)
      modifies this`mem, this`kernel
      ensures Ok() && S() == if v in old(S()).spaces[pml4]
                then MapOver(old(S()), pml4, v, MapEntry(phys, user, nx), FrameBytes(old(S()), phys))
                             else MapOwned(old(S()), pml4, v, MapEntry(phys, user, nx), FrameBytes(old(S()), phys))
    {
      hide Good, FlatOf, Valid, Inv, Tree, NoHuge, Loose, FrameBytes, MapOwned, MapOver;
      ghost var mine := kernel - {phys};
      LooseData(Ph(), phys);
      if v in S().spaces[pml4] {
        MapOverStep(Ph(), pt, pml4, v, MapEntry(phys, user, nx));
        mine := mine + {S().spaces[pml4][v].frame};
      } else {
        MapStep(Ph(), pt, pml4, v, MapEntry(phys, user, nx));
      }
      mem := WithEntry(mem, pt, Index(v, 3), MapEntry(phys, user, nx));
      kernel := mine;
    }

    /** map_pml4 on a user space, for a frame the kernel has just allocated: afterwards the walk
        for `v` finds exactly this frame and every other translation is as before.  A frame mapped
        there before keeps its reference.  When a table cannot be allocated the frame stays with the
        kernel and nothing is mapped. */
    method MapPageDir(pml4: Frame, phys: Frame, v: Va, user: bool, nx: bool)
        returns (ghost done: bool, ghost ts: set<Frame>)
      requires Ok() && pml4 in S().spaces && v < VA_LIMIT
      requires (v in S().spaces[pml4] ==> S().spaces[pml4][v].frame !in kernel)
      requires Loose(S(), phys)
      modifies this`mem, this`owner, this`kernel, alloc`freePages, alloc.bitmap, alloc.refcount
      ensures Ok() && AllFree(old(S()).pool, ts) && phys !in ts
      ensures done && v in old(S()).spaces[pml4] ==>
                S() == MapOver(Grow(old(S()), pml4, ts, {}), pml4, v, MapEntry(phys, user, nx),
                    FrameBytes(old(S()), phys))
      ensures done && v !in old(S()).spaces[pml4] ==>
                S() == MapOwned(Grow(old(S()), pml4, ts, {}), pml4, v, MapEntry(phys, user, nx),
                    FrameBytes(old(S()), phys))
      ensures !done ==> S() == Grow(old(S()), pml4, ts, {}) && NoneFree(S().pool)
    {
      hide Good, FlatOf, Grow, TakenAll, Valid, Inv, Tree, NoHuge, Loose, FrameBytes;
      ghost var s := S();
      LooseData(Ph(), phys);
      RootPlace(Ph(), pml4, v);
      GrowNothing(s, pml4);
      GoodFlat(Ph());
      var lvl := 0;
      var tbl := pml4;
      ts := {};
      while lvl < 3
        invariant lvl <= 3 && Ok() && Above(tbl, pml4, v, lvl) && kernel == old(kernel)
        invariant AllFree(s.pool, ts) && S() == Grow(s, pml4, ts, {})
      {
        ghost var new1;
        RootKnown(Ph(), tbl);
        tbl, new1 := DescendToMap(tbl, v, lvl, user);
        MoreTables(s, pml4, ts, new1);
        ts := ts + new1;
        if tbl == NULL {
          LooseNotTaken(s, phys, ts);
          return false, ts;
        }
        lvl := lvl + 1;
      }
      LooseNotTaken(s, phys, ts);
      LooseKept(s, pml4, phys, ts, {});
      RootKnown(Ph(), tbl);
      PutLeaf(tbl, pml4, phys, v, user, nx);
      return true, ts;
    }

    /** alloc_page_directory: an empty space that shares only the kernel mirror. */
    method AllocPageDirectory() returns (c: Frame)
      requires Ok()
      modifies this`mem, this`owner, alloc`freePages, alloc.bitmap, alloc.refcount
      ensures Ok() && kernel == old(kernel) && Extends(old(owner), owner)
      ensures c == NULL ==> S() == old(S()) && forall f :: 0 <= f < alloc.totalPages ==> !alloc.bitmap[f]
      ensures c != NULL ==> AllFree(old(S()).pool, {c}) && S() == NewSpace(old(S()), c)
    {
      hide Good, FlatOf, NewSpace, TakenAll, Valid, Taken, RootPage;
      ghost var ph := Ph();
      c := alloc.AllocPage();
      if c == NULL { return; }
      var top := mem[kernelPml4].entries[KERNEL_SLOT];
      var mirror := if top.present then top else ZERO;
      RootStep(ph, c, mirror);
      FreshFrame(ph, c);
      mem := mem[c := RootPage(mirror)];
      owner := owner[c := Place(c, 0, 0, c)];
      assert Ph() == Root(ph, c, mirror);
    }

    /** One iteration of vm_free_range. */
    method FreeOne(pml4: Frame, va: Va, ghost s: Flat, ghost lo: nat)
      requires Ok() && Shape(s.pool) && Inv(s) && pml4 in s.spaces && lo <= va < VA_LIMIT
      requires S() == Unmap(s, pml4, lo, va)
      modifies this`mem, alloc`freePages, alloc.bitmap, alloc.refcount
      ensures Ok() && S() == Unmap(s, pml4, lo, va + 1)
    {
      hide Good, FlatOf, Unmap, Valid, Dropped, Tree, Inv, Rooted, NoHuge, RootsOf, Index;
      GoodFlat(Ph());
      GoodRooted(Ph());
      UnmapMember(s, pml4, lo, va);
      var pt := FindPte(pml4, va);
      if pt != NULL && mem[pt].entries[Index(va, 3)].present {
        UnmapStep(s, Ph(), pt, pml4, lo, va);
        ghost var ph := Ph();
        alloc.FreePage(mem[pt].entries[Index(va, 3)].frame);
        mem := WithEntry(mem, pt, Index(va, 3), ZERO);
        assert Ph() == SetEntry(ph, pt, Index(va, 3), ZERO).(pool := alloc.View());
      } else {
        if pt != NULL { LeafIs(Ph(), pt, pml4, va); }
        UnmapSkip(s, pml4, lo, va);
      }
    }

    /** vm_free_range over pages `[lo, hi)`: exactly the mapped pages of the range go, each
        giving back one reference. */
    method FreeRange(pml4: Frame, lo: nat, hi: nat)
      requires Ok() && pml4 in S().spaces && lo <= hi <= VA_LIMIT
      modifies this`mem, alloc`freePages, alloc.bitmap, alloc.refcount
      ensures Ok() && S() == Unmap(old(S()), pml4, lo, hi)
    {
      hide Good, FlatOf, Unmap, Valid, Inv;
      ghost var s := S();
      GoodFlat(Ph());
      UnmapStart(s, pml4, lo);
      var va := lo;
      while va < hi
        invariant lo <= va <= hi && Ok() && S() == Unmap(s, pml4, lo, va)
      {
        FreeOne(pml4, va, s, lo);
        va := va + 1;
      }
    }

    /** vm_protect_range: rewrites the flags of every mapped page of the range and moves no
        frame.  The machine stays sound when every page made writable has one holder. */
    method ProtectRange(pml4: Frame, lo: nat, hi: nat, w: bool, x: bool)
      requires Ok() && pml4 in S().spaces && lo <= hi <= VA_LIMIT
      modifies this`mem
      ensures S() == Protect(old(S()), pml4, lo, hi, w, x)
      ensures Ok() <==> GrantSafe(old(S()), pml4, lo, hi, w)
    {
      hide Good, FlatOf, Protect, Valid, Tree, Inv, NoHuge, GrantSafe, Rooted, Reprotected;
      ghost var s := S();
      GoodFlat(Ph());
      ProtectStart(s, pml4, lo, w, x);
      var va := lo;
      while va < hi
        invariant lo <= va <= hi && S() == Protect(s, pml4, lo, va, w, x) && Tree(Ph()) && NoHuge(Ph())
                  && IsTable(mem, kernelPml4)
      {
        ProtectRooted(s, pml4, lo, va, w, x);
        var pt := FindPte(pml4, va);
        if pt != NULL && mem[pt].entries[Index(va, 3)].present {
          ProtectStep(s, Ph(), pt, pml4, lo, va, w, x);
          mem := WithEntry(mem, pt, Index(va, 3), Reprotected(mem[pt].entries[Index(va, 3)], w, x));
        } else {
          if pt != NULL { LeafIs(Ph(), pt, pml4, va); }
          ProtectMember(s, pml4, lo, va, w, x);
          ProtectSkip(s, pml4, lo, va, w, x);
        }
        va := va + 1;
      }
      ProtectInv(s, pml4, lo, hi, w, x);
      GoodIff(Ph());
    }

    // ---- vm_handle_fault -----------------------------------------------------

    /** alloc_page followed by memset. */
    method AllocZeroed(ghost r: Frame) returns (f: Frame)
      requires Ok() && r in S().spaces
      modifies this`mem, this`kernel, alloc`freePages, alloc.bitmap, alloc.refcount
      ensures Ok()
      ensures f == NULL ==> Ph() == old(Ph()) && NoneFree(S().pool)
      ensures f != NULL ==> AllFree(old(S()).pool, {f}) && S() == Grow(old(S()), r, {}, {f}) && Loose(S(), f)
      ensures f != NULL ==> f !in owner && mem == old(mem)[f := Data(ZeroPage())]
    {
      hide Good, FlatOf, Grow, Valid, Taken, ZeroPage, Loose, AllFree;
      ghost var ph := Ph();
      f := alloc.AllocPage();
      if f == NULL { return; }
      ZeroStep(ph, f, r);
      FreshFrame(ph, f);
      mem := mem[f := Data(ZeroPage())];
      kernel := kernel + {f};
      assert Ph() == Zeroed(ph, f);
    }

    /** The lazy-heap and stack-growth branches: a zeroed page through map_page_dir. */
    method FillHeap(pml4: Frame, v: Va) returns (ok: bool, ghost op: Op)
      requires Ok() && pml4 in S().spaces && v < VA_LIMIT && v !in S().spaces[pml4]
      modifies this`mem, this`owner, this`kernel, alloc`freePages, alloc.bitmap, alloc.refcount
      ensures Ok() && Inv(old(S())) && Enabled(old(S()), op) && S() == Apply(old(S()), op)
      ensures ok ==> op.StallOp? || Fills(op, pml4, v, Filling(ZeroPage(), true, true, true))
      ensures !ok ==> op == StallOp(pml4, {}, {})
      ensures op.StallOp? ==> NoneFree(S().pool)
    {
      hide Good, FlatOf, Grow, Valid, Loose, MapOwned, Inv, ZeroPage;
      ghost var s := S();
      GoodFlat(Ph());
      var page := AllocZeroed(pml4);
      if page == NULL {
        GrowNothing(s, pml4);
        StallEnabled(s, pml4, {}, {});
        return false, StallOp(pml4, {}, {});
      }
      ghost var done, ts := MapPageDir(pml4, page, v, true, true);
      GrowSwap(s, pml4, ts, page);
      ZeroBytes(s, pml4, page);
      if done {
        FillEnabled(s, pml4, v, page, ts, ZeroPage(), true, true, true);
        op := FillOp(pml4, v, page, ts, ZeroPage(), true, true, true);
      } else {
        StallEnabled(s, pml4, ts, {page});
        op := StallOp(pml4, ts, {page});
      }
      ok := true;
    }

    /** The mmap branch: tables first, then the page, its file slice, and the entry itself. */
    method FillVma(pml4: Frame, v: Va, w: bool, x: bool, bytes: seq<Byte>) returns (ok: bool, ghost op: Op)
      requires Ok() && pml4 in S().spaces && v < VA_LIMIT && v !in S().spaces[pml4] && |bytes| == PAGE_BYTES
      modifies this`mem, this`owner, this`kernel, alloc`freePages, alloc.bitmap, alloc.refcount
      ensures Ok() && Inv(old(S())) && Enabled(old(S()), op) && S() == Apply(old(S()), op)
      ensures ok ==> Fills(op, pml4, v, Filling(bytes, w, true, !x))
      ensures !ok ==> op.StallOp?
      ensures op.StallOp? ==> NoneFree(S().pool)
    {
      hide Good, FlatOf, Grow, Valid, Loose, MapOwned, Inv, FrameBytes, Holds3;
      ghost var s := S();
      GoodFlat(Ph());
      var pt, ts := PtePtrCreate(pml4, v);
      if pt == NULL {
        StallEnabled(s, pml4, ts, {});
        return false, StallOp(pml4, ts, {});
      }
      ghost var before := Ph();
      var page := AllocZeroed(pml4);
      if page == NULL {
        StallEnabled(s, pml4, ts, {});
        return false, StallOp(pml4, ts, {});
      }
      HoldsOutside(before, pt, pml4, v, page, Data(ZeroPage()), alloc.View(), kernel);
      PageAfterTables(s, pml4, ts, page);
      FillEnabled(s, pml4, v, page, ts, bytes, w, true, !x);
      Install(pt, pml4, v, FillEntry(page, w, true, !x), bytes);
      return true, FillOp(pml4, v, page, ts, bytes, w, true, !x);
    }

    /** The demand-marker branch: the entry exists, only the page is missing. */
    method FillDemand(pt: Frame, pml4: Frame, v: Va) returns (ok: bool, ghost op: Op)
      requires Ok() && Holds3(Ph(), pt, pml4, v) && v !in S().spaces[pml4]
      modifies this`mem, this`kernel, alloc`freePages, alloc.bitmap, alloc.refcount
      ensures Ok() && Inv(old(S())) && Enabled(old(S()), op) && S() == Apply(old(S()), op)
      ensures ok ==> Fills(op, pml4, v,
                Filling(ZeroPage(), true, old(mem[pt].entries[Index(v, 3)]).user, old(mem[pt].entries[Index(v, 3)]).nx))
      ensures !ok ==> op == StallOp(pml4, {}, {})
      ensures op.StallOp? ==> NoneFree(S().pool)
    {
      hide Good, FlatOf, Grow, Valid, Loose, MapOwned, Inv, Holds3, ZeroPage;
      ghost var s, before := S(), Ph();
      GoodFlat(Ph());
      GrowNothing(s, pml4);
      HeldTable(before, pt, pml4, v);
      var page := AllocZeroed(pml4);
      if page == NULL {
        StallEnabled(s, pml4, {}, {});
        return false, StallOp(pml4, {}, {});
      }
      HoldsOutside(before, pt, pml4, v, page, Data(ZeroPage()), alloc.View(), kernel);
      var e := mem[pt].entries[Index(v, 3)];
      ghost var none: set<Frame> := {};
      assert none + {page} == {page};
      FillEnabled(s, pml4, v, page, {}, ZeroPage(), true, e.user, e.nx);
      Install(pt, pml4, v, FillEntry(page, true, e.user, e.nx), ZeroPage());
      return true, FillOp(pml4, v, page, {}, ZeroPage(), true, e.user, e.nx);
    }

    /** Fill the fresh page `e.frame` and publish it as the leaf entry of `v`. */
    method Install(pt: Frame, pml4: Frame, v: Va, e: Entry, bytes: seq<Byte>)
      requires Ok() && Holds3(Ph(), pt, pml4, v) && v !in S().spaces[pml4] && Loose(S(), e.frame)
      requires e.present && (e.writable ==> !e.cow) && |bytes| == PAGE_BYTES
      modifies this`mem, this`kernel
      ensures Ok() && S() == MapOwned(old(S()), pml4, v, e, bytes)
    {
      hide Good, FlatOf, Valid, Loose, MapOwned, Inv, FrameBytes, Holds3;
      ghost var s := S();
      LooseOutside(Ph(), e.frame);
      LooseData(Ph(), e.frame);
      DataStep(Ph(), e.frame, bytes);
      HoldsOutside(Ph(), pt, pml4, v, e.frame, Data(bytes), alloc.View(), kernel);
      mem := mem[e.frame := Data(bytes)];
      MapStep(Ph(), pt, pml4, v, e);
      RemapData(s, pml4, v, e, bytes);
      HeldTable(Ph(), pt, pml4, v);
      mem := WithEntry(mem, pt, Index(v, 3), e);
      kernel := kernel - {e.frame};
    }

    /** The copy-on-write branch of a sharer. */
    method CowCopyAt(pt: Frame, pml4: Frame, v: Va) returns (ok: bool, ghost op: Op)
      requires Ok() && Holds3(Ph(), pt, pml4, v) && mem[pt].entries[Index(v, 3)].present
      requires mem[pt].entries[Index(v, 3)].cow
      requires RefCount(alloc.View(), mem[pt].entries[Index(v, 3)].frame) > 1
      modifies this`mem, alloc`freePages, alloc.bitmap, alloc.refcount
      ensures Ok() && Inv(old(S())) && Enabled(old(S()), op) && S() == Apply(old(S()), op)
      ensures ok ==> op.CowCopyOp? && op.r == pml4 && op.v == v
      ensures !ok ==> op == StallOp(pml4, {}, {})
      ensures op.StallOp? ==> NoneFree(S().pool)
    {
      hide Good, FlatOf, Valid, Inv, Dropped, Taken, Holds3, RootsOf, CowCopy;
      ghost var ph := Ph();
      GoodFlat(ph);
      HeldTable(ph, pt, pml4, v);
      var e := mem[pt].entries[Index(v, 3)];
      var newp := alloc.AllocPage();
      if newp == NULL {
        GrowNothing(FlatOf(ph), pml4);
        StallEnabled(FlatOf(ph), pml4, {}, {});
        return false, StallOp(pml4, {}, {});
      }
      CopyStep(ph, pt, pml4, v, newp);
      CowCopyEnabled(FlatOf(ph), pml4, v, newp);
      alloc.FreePage(e.frame);
      mem := mem[newp := Data(mem[e.frame].bytes)];
      mem := WithEntry(mem, pt, Index(v, 3), Privatised(e, newp));
      assert Ph() == Copied(ph, pt, Index(v, 3), newp, ph.mem[e.frame].bytes);
      return true, CowCopyOp(pml4, v, newp);
    }

    /** The copy-on-write branch. */
    method CowFaultAt(pt: Frame, pml4: Frame, v: Va) returns (ok: bool, ghost op: Op)
      requires Ok() && Holds3(Ph(), pt, pml4, v) && mem[pt].entries[Index(v, 3)].present
      requires mem[pt].entries[Index(v, 3)].cow
      modifies this`mem, alloc`freePages, alloc.bitmap, alloc.refcount
      ensures Ok() && Inv(old(S())) && Enabled(old(S()), op) && S() == Apply(old(S()), op)
      ensures ok ==> op == CowReuseOp(pml4, v) || (op.CowCopyOp? && op.r == pml4 && op.v == v)
      ensures !ok ==> op == StallOp(pml4, {}, {})
      ensures op.StallOp? ==> NoneFree(S().pool)
    {
      hide Good, FlatOf, Valid, Inv;
      ghost var ph := Ph();
      GoodFlat(ph);
      var e := mem[pt].entries[Index(v, 3)];
      var n := alloc.GetRefcount(e.frame);
      if n > 1 {
        ok, op := CowCopyAt(pt, pml4, v);
        return;
      }
      ReuseStep(ph, pt, pml4, v);
      mem := WithEntry(mem, pt, Index(v, 3), Privatised(e, e.frame));
      return true, CowReuseOp(pml4, v);
    }

    /** The three windows of vm_handle_fault that need no existing entry. */
    method FaultInWindow(pml4: Frame, cr2: nat, heapStart: nat, brk: nat, vma: Option<Vma>)
        returns (ok: bool, ghost op: Op)
      requires Ok() && pml4 in S().spaces && cr2 / PAGE_BYTES < VA_LIMIT && cr2 / PAGE_BYTES !in S().spaces[pml4]
      requires vma.Some? ==> vma.value.start <= cr2
      requires InHeap(cr2, heapStart, brk) || vma.Some? || InStack(cr2)
      modifies this`mem, this`owner, this`kernel, alloc`freePages, alloc.bitmap, alloc.refcount
      ensures Ok() && Inv(old(S())) && Enabled(old(S()), op) && S() == Apply(old(S()), op)
      ensures ok ==> op.StallOp? || Fills(op, pml4, cr2 / PAGE_BYTES, Owed(cr2, heapStart, brk, vma, ZERO).value)
      ensures !ok ==> op.StallOp?
      ensures op.StallOp? ==> NoneFree(S().pool)
    {
      hide Good, FlatOf, Valid, Inv, Enabled, Apply, Fills, ZeroPage, FileSlice;
      if InHeap(cr2, heapStart, brk) || vma.None? {
        ok, op := FillHeap(pml4, cr2 / PAGE_BYTES);
      } else {
        ok, op := FillVma(pml4, cr2 / PAGE_BYTES, vma.value.write, vma.value.exec,
            FileSlice(vma.value.file, PageBase(cr2, vma.value.start)));
      }
    }

    /** The rest of vm_handle_fault: the existing entry decides. */
    method FaultAtEntry(pml4: Frame, v: Va, present: bool, write: bool) returns (ok: bool, ghost op: Op)
      requires Ok() && pml4 in S().spaces && v < VA_LIMIT && present == (v in S().spaces[pml4])
      modifies this`mem, this`kernel, alloc`freePages, alloc.bitmap, alloc.refcount
      ensures Ok() && Inv(old(S())) && Enabled(old(S()), op) && S() == Apply(old(S()), op)
      ensures ok && !present ==> var e := old(Leaf(mem, pml4, v));
              && e.demand && Fills(op, pml4, v, Filling(ZeroPage(), true, e.user, e.nx))
      ensures ok && present ==> write && (op == CowReuseOp(pml4, v) || (op.CowCopyOp? && op.r == pml4 && op.v == v))
      ensures !ok ==> op == StallOp(pml4, {}, {})
      ensures var e := old(Leaf(mem, pml4, v));
              op.StallOp? && (if present then write && e.cow else e.demand) ==> NoneFree(S().pool)
    {
      hide Good, FlatOf, Valid, Inv, Fills, ZeroPage, Tree, Rooted, Apply, Enabled, Grow;
      GoodFlat(Ph());
      GoodRooted(Ph());
      GrowNothing(S(), pml4);
      StallEnabled(S(), pml4, {}, {});
      var pt := FindPte(pml4, v);
      if pt == NULL { return false, StallOp(pml4, {}, {}); }
      LeafIs(Ph(), pt, pml4, v);
      var e := mem[pt].entries[Index(v, 3)];
      if !present && e.demand {
        ok, op := FillDemand(pt, pml4, v);
      } else if present && write && e.present && e.cow {
        ok, op := CowFaultAt(pt, pml4, v);
      } else {
        return false, StallOp(pml4, {}, {});
      }
    }

    /** vm_handle_fault for a user-mode fault at byte address `cr2`; `present` and `write` are
        the error-code bits the hardware reports.  Whatever happens is one operation of the
        COW machine: the page that is owed appears, or the page becomes private, or nothing
        visible changes. */
    method HandleFault(pml4: Frame, cr2: nat, present: bool, write: bool, heapStart: nat, brk: nat, vma: Option<Vma>)
        returns (ok: bool, ghost op: Op)
      requires Ok() && pml4 in S().spaces && cr2 / PAGE_BYTES < VA_LIMIT
      requires present == (cr2 / PAGE_BYTES in S().spaces[pml4])
      requires vma.Some? ==> vma.value.start <= cr2 < vma.value.end
      modifies this, alloc`freePages, alloc.bitmap, alloc.refcount
      ensures Ok() && Inv(old(S())) && Enabled(old(S()), op) && S() == Apply(old(S()), op)
      ensures ok && !present ==>
        var owed := Owed(cr2, heapStart, brk, vma, old(Leaf(mem, pml4, cr2 / PAGE_BYTES)));
        owed.Some? && (Fills(op, pml4, cr2 / PAGE_BYTES, owed.value) || op.StallOp?)
      ensures ok && present ==> write
      ensures ok && present ==> (op == CowReuseOp(pml4, cr2 / PAGE_BYTES)
                || (op.CowCopyOp? && op.r == pml4 && op.v == cr2 / PAGE_BYTES))
      ensures !ok ==> op.StallOp?
      ensures op.StallOp? && (if present then write && old(Leaf(mem, pml4, cr2 / PAGE_BYTES)).cow && !InGuard(cr2)
                else Owed(cr2, heapStart, brk, vma, old(Leaf(mem, pml4, cr2 / PAGE_BYTES))).Some?) ==>
                    NoneFree(S().pool)
    {
      hide Good, FlatOf, Valid, Inv, Enabled, Apply, Fills, ZeroPage, FileSlice, Grow;
      if !present && (InHeap(cr2, heapStart, brk) || vma.Some? || InStack(cr2)) {
        ok, op := FaultInWindow(pml4, cr2, heapStart, brk, vma);
        if ok { demandFaults := demandFaults + 1; }
      } else if InGuard(cr2) {
        GoodFlat(Ph());
        GrowNothing(S(), pml4);
        StallEnabled(S(), pml4, {}, {});
        return false, StallOp(pml4, {}, {});
      } else {
        ok, op := FaultAtEntry(pml4, cr2 / PAGE_BYTES, present, write);
        if ok && present { cowFaults := cowFaults + 1; }
        if ok && !present { demandFaults := demandFaults + 1; }
      }
    }

    // ---- free_page_directory -------------------------------------------------

    /** The walk stands at page `n` of space `r`, having released the tables `gone`; memory and
        tables are still those of `ph`. */
    ghost predicate Releasing(ph: Phys, r: Frame, n: nat, gone: set<Frame>)
      reads this, alloc, alloc.bitmap, alloc.refcount, alloc.pins
    {
      && Good(ph) && r in FlatOf(ph).spaces && gone <= TablesOf(FlatOf(ph), r)
      && alloc.Ok() && mem == ph.mem && owner == ph.owner && kernel == ph.kernel
      && alloc.View() == Released(FlatOf(ph), r, 0, n, gone)
    }

    /** The innermost loop: drop every present leaf of one page table. */
    method FreeLeaves(pt: Frame, ghost ph: Phys, ghost r: Frame, ghost gone: set<Frame>)
      requires pt in ph.owner && ph.owner[pt].root == r && ph.owner[pt].lvl == 3
      requires Releasing(ph, r, First(ph.owner[pt].pre, 3), gone)
      modifies alloc`freePages, alloc.bitmap, alloc.refcount
      ensures Releasing(ph, r, First(ph.owner[pt].pre + 1, 3), gone)
    {
      hide Good, FlatOf, Released, TablesOf, Dropped, Valid, Holds3;
      RootKnown(ph, pt);
      ghost var lo := ph.owner[pt].pre * ENTRIES;
      var l := 0;
      while l < ENTRIES
        invariant l <= ENTRIES && Releasing(ph, r, lo + l, gone)
      {
        LeafAt(ph, pt, l);
        if mem[pt].entries[l].present {
          ReleaseAt(ph, r, lo + l, gone);
          alloc.FreePage(mem[pt].entries[l].frame);
        } else {
          ReleaseNone(ph, r, lo + l, lo + l + 1, gone);
        }
        l := l + 1;
      }
    }

    /** One of the outer loops: release everything below the first `count` entries of `f`. */
    method FreeEntries(f: Frame, lvl: nat, count: nat, ghost ph: Phys, ghost r: Frame, ghost gone: set<Frame>)
      requires f in ph.owner && ph.owner[f].root == r && ph.owner[f].lvl == lvl < 3 && 0 < count
      requires UserSlot(lvl, count - 1)
      requires Releasing(ph, r, First(ph.owner[f].pre, lvl), gone)
      requires gone !! Under(ph.owner, r, lvl, First(ph.owner[f].pre, lvl), First(ph.owner[f].pre + 1, lvl))
      modifies alloc`freePages, alloc.bitmap, alloc.refcount
      ensures var hi := First(ph.owner[f].pre * ENTRIES + count, lvl + 1);
              Releasing(ph, r, hi, gone + Under(ph.owner, r, lvl + 1, First(ph.owner[f].pre, lvl), hi))
      decreases 3 - lvl, 0
    {
      hide Good, FlatOf, Released, TablesOf, Valid, First, Under;
      RootKnown(ph, f);
      ghost var pre := ph.owner[f].pre;
      ghost var lo := First(pre, lvl);
      FirstDown(pre, lvl);
      UnderNone(ph.owner, r, lvl + 1, lo);
      assert gone + {} == gone;
      var i := 0;
      while i < count
        invariant i <= count
        invariant Releasing(ph, r, First(pre * ENTRIES + i, lvl + 1),
                  gone + Under(ph.owner, r, lvl + 1, lo, First(pre * ENTRIES + i, lvl + 1)))
      {
        ghost var q := pre * ENTRIES + i;
        ghost var sofar := gone + Under(ph.owner, r, lvl + 1, lo, First(q, lvl + 1));
        ghost var next := Under(ph.owner, r, lvl + 1, First(q, lvl + 1), First(q + 1, lvl + 1));
        UnderNext(ph.owner, r, lvl, pre, i);
        var e := mem[f].entries[i];
        if !e.present || e.huge {
          ReleaseGap(ph, f, i, sofar);
          assert sofar + next == sofar;
        } else {
          ChildPlace(ph, f, i);
          FreeTable(e.frame, lvl + 1, ph, r, sofar);
        }
        assert sofar + next == gone + Under(ph.owner, r, lvl + 1, lo, First(q + 1, lvl + 1));
        i := i + 1;
      }
    }

    /** Release everything below table `f`, then `f` itself. */
    method FreeTable(f: Frame, lvl: nat, ghost ph: Phys, ghost r: Frame, ghost gone: set<Frame>)
      requires f in ph.owner && ph.owner[f].root == r && 0 < ph.owner[f].lvl == lvl <= 3
      requires Releasing(ph, r, First(ph.owner[f].pre, lvl), gone)
      requires gone !! Under(ph.owner, r, lvl, First(ph.owner[f].pre, lvl), First(ph.owner[f].pre + 1, lvl))
      modifies alloc`freePages, alloc.bitmap, alloc.refcount
      ensures var lo, hi := First(ph.owner[f].pre, lvl), First(ph.owner[f].pre + 1, lvl);
              Releasing(ph, r, hi, gone + Under(ph.owner, r, lvl, lo, hi))
      decreases 3 - lvl, 1
    {
      hide Good, FlatOf, Released, TablesOf, Valid, First, Under, Dropped;
      ghost var pre := ph.owner[f].pre;
      ghost var lo, hi := First(pre, lvl), First(pre + 1, lvl);
      ghost var below := Under(ph.owner, r, lvl + 1, lo, hi);
      SelfLast(ph, f);
      UnderTables(ph, r, lvl, lo, hi);
      if lvl == 3 {
        FreeLeaves(f, ph, r, gone);
        UnderLeaf(ph.owner, r, lo, hi);
        assert gone + below == gone;
      } else {
        FirstDown(pre + 1, lvl);
        FreeEntries(f, lvl, ENTRIES, ph, r, gone);
      }
      ReleaseSelf(ph, r, hi, gone + below, f);
      alloc.FreePage(f);
      assert gone + below + {f} == gone + (below + {f});
    }

    /** free_page_directory: afterwards the space is gone, each leaf has given back one
        reference, every table frame is free again, and no other space has changed. */
    method FreePageDirectory(pml4: Frame)
      requires Ok() && pml4 in S().spaces
      modifies this`owner, alloc`freePages, alloc.bitmap, alloc.refcount
      ensures Ok() && S() == Teardown(old(S()), pml4)
    {
      hide Good, FlatOf, Released, TablesOf, Valid, First, Under, Dropped, Teardown;
      ghost var ph := Ph();
      RootPlace(ph, pml4, 0);
      FirstTop();
      ReleaseStart(ph, pml4);
      NothingGone(ph, pml4);
      FreeEntries(pml4, 0, KERNEL_SLOT, ph, pml4, {});
      ghost var gone := Under(ph.owner, pml4, 1, 0, VA_LIMIT);
      assert {} + gone == gone;
      RootLast(ph, pml4);
      UnderTables(ph, pml4, 1, 0, VA_LIMIT);
      ReleaseSelf(ph, pml4, VA_LIMIT, gone, pml4);
      alloc.FreePage(pml4);
      TeardownStep(ph, pml4, gone + {pml4});
      owner := Survivors(owner, pml4);
    }

    // ---- clone_page_directory_cow --------------------------------------------

    /** The fork of `p` into `c` that began in state `s` has reached page `n`. */
    ghost predicate Forking(s: Flat, p: Frame, c: Frame, ts: set<Frame>, n: nat)
      reads this, alloc, alloc.bitmap, alloc.refcount, alloc.pins
    {
      && Shape(s.pool) && Valid(s.pool) && Inv(s) && p in s.spaces && p != c && AllFree(s.pool, ts + {c})
      && NoSaturation(s, p, VA_LIMIT)
      && Ok() && S() == Fork(s, p, c, ts, n)
    }

    /** Make room in the child for the leaf entry of `v`. */
    method ChildPte(v: Va, p: Frame, c: Frame, ghost s: Flat, ghost ts: set<Frame>)
        returns (cpt: Frame, ghost more: set<Frame>)
      requires Forking(s, p, c, ts, v) && v < VA_LIMIT
      modifies this`mem, this`owner, alloc`freePages, alloc.bitmap, alloc.refcount
      ensures Forking(s, p, c, more, v) && Extends(old(owner), owner) && S().spaces == old(S()).spaces
      ensures cpt != NULL ==> Holds3(Ph(), cpt, c, v)
      ensures cpt == NULL ==> NoneFree(S().pool)
    {
      hide Good, FlatOf, Valid, Inv, Fork, NoSaturation, Grow, AllFree, Holds3;
      ForkMember(s, p, c, ts, v);
      ghost var new1;
      cpt, new1 := PtePtrCreate(c, v);
      ForkFreeBack(s, p, c, ts, v, new1);
      ForkGrow(s, p, c, ts, v, new1);
      more := ts + new1;
    }

    /** Write the entry on both sides, COW if it was writable, and count the new reference. */
    method ShareEntry(pt: Frame, cpt: Frame, i: nat, e: Entry)
      requires alloc.Ok() && IsTable(mem, pt) && IsTable(mem, cpt) && pt != cpt && i < ENTRIES
      requires e == mem[pt].entries[i] && !IsFree(alloc.View(), e.frame)
      modifies this`mem, alloc.refcount
      ensures alloc.Ok() && Ph() == CopyEntry(old(Ph()), pt, cpt, i)
      ensures old(IsTable(mem, kernelPml4)) ==> IsTable(mem, kernelPml4)
    {
      hide Valid, Shared;
      if e.writable {
        mem := WithEntry(mem, pt, i, e.(writable := false, cow := true));
        mem := WithEntry(mem, cpt, i, e.(writable := false, cow := true));
      } else {
        SameEntry(mem, pt, i);
        mem := WithEntry(mem, cpt, i, e);
      }
      alloc.PageIncref(e.frame);
    }

    /** The body of the innermost loop for a present entry: share it with the child. */
    method CopyLeaf(pt: Frame, v: Va, p: Frame, c: Frame, ghost s: Flat, ghost ts: set<Frame>)
        returns (ok: bool, ghost more: set<Frame>)
      requires Forking(s, p, c, ts, v) && Holds3(Ph(), pt, p, v) && mem[pt].entries[Index(v, 3)].present
      modifies this`mem, this`owner, alloc`freePages, alloc.bitmap, alloc.refcount
      ensures Extends(old(owner), owner)
      ensures Forking(s, p, c, more, if ok then v + 1 else v)
      ensures !ok ==> NoneFree(S().pool)
    {
      hide Good, FlatOf, Valid, Inv, Fork, NoSaturation, AllFree, Tree, Shared, CopyEntry, RootsOf, Index;
      GoodFlat(Ph());
      LeafIs(Ph(), pt, p, v);
      var e := mem[pt].entries[Index(v, 3)];
      var cpt;
      cpt, more := ChildPte(v, p, c, s, ts);
      if cpt == NULL { return false, more; }
      GoodFlat(Ph());
      RootKnown(Ph(), pt);
      LeafIs(Ph(), pt, p, v);
      ForkStep(s, Ph(), p, c, more, pt, cpt, v);
      ShareEntry(pt, cpt, Index(v, 3), e);
      return true, more;
    }

    /** The innermost loop of the clone, over one page table of the parent. */
    method CloneLeaves(pt: Frame, base: Va, p: Frame, c: Frame, ghost s: Flat, ghost ts: set<Frame>)
        returns (ok: bool, ghost more: set<Frame>, ghost n: nat)
      requires pt in owner && owner[pt].root == p && owner[pt].lvl == 3 && base == owner[pt].pre * ENTRIES
      requires Forking(s, p, c, ts, base)
      modifies this`mem, this`owner, alloc`freePages, alloc.bitmap, alloc.refcount
      ensures Extends(old(owner), owner) && n <= VA_LIMIT && Forking(s, p, c, more, n)
      ensures ok ==> n == First(old(owner[pt].pre) + 1, 3)
      ensures !ok ==> NoneFree(S().pool)
    {
      hide Good, FlatOf, Fork, NoSaturation, AllFree, Inv, Valid, Holds3;
      ghost var pre := owner[pt].pre;
      LeafAt(Ph(), pt, 0);
      n, more := pre * ENTRIES, ts;
      var l := 0;
      while l < ENTRIES
        invariant l <= ENTRIES && n == pre * ENTRIES + l && n <= VA_LIMIT && Forking(s, p, c, more, n)
                  && Extends(old(owner), owner)
      {
        LeafAt(Ph(), pt, l);
        if mem[pt].entries[l].present {
          var fine;
          fine, more := CopyLeaf(pt, base + l, p, c, s, more);
          if !fine { return false, more, n; }
        } else {
          ForkMember(s, p, c, more, n);
          ForkSkip(s, p, c, more, n, n + 1);
        }
        n := n + 1;
        l := l + 1;
      }
      ok := true;
    }

    /** One of the outer loops of the clone, over the first `count` entries of a parent table. */
    method CloneEntries(f: Frame, lvl: nat, count: nat, pre: nat, p: Frame, c: Frame, ghost s: Flat,
        ghost ts: set<Frame>)
        returns (ok: bool, ghost more: set<Frame>, ghost n: nat)
      requires f in owner && owner[f].root == p && owner[f].lvl == lvl < 3 && owner[f].pre == pre && 0 < count
      requires UserSlot(lvl, count - 1)
      requires Forking(s, p, c, ts, First(pre, lvl)) && First(pre * ENTRIES + count, lvl + 1) <= VA_LIMIT
      modifies this`mem, this`owner, alloc`freePages, alloc.bitmap, alloc.refcount
      ensures Extends(old(owner), owner) && n <= VA_LIMIT && Forking(s, p, c, more, n)
      ensures ok ==> n == First(pre * ENTRIES + count, lvl + 1)
      ensures !ok ==> NoneFree(S().pool)
      decreases 3 - lvl, 0
    {
      hide Good, FlatOf, Fork, NoSaturation, AllFree, Inv, Valid, First;
      FirstDown(pre, lvl);
      n, more := First(pre, lvl), ts;
      FirstMonotone(pre * ENTRIES, pre * ENTRIES + count, lvl + 1);
      var i := 0;
      while i < count
        invariant i <= count && n == First(pre * ENTRIES + i, lvl + 1) && Forking(s, p, c, more, n)
                  && Extends(old(owner), owner)
      {
        RootKnown(Ph(), f);
        FirstMonotone(pre * ENTRIES + i, pre * ENTRIES + i + 1, lvl + 1);
        FirstMonotone(pre * ENTRIES + i + 1, pre * ENTRIES + count, lvl + 1);
        var e := mem[f].entries[i];
        if !e.present || e.huge {
          ForkAbsent(s, Ph(), p, c, more, n, f, i);
          ForkSkip(s, p, c, more, n, First(pre * ENTRIES + i + 1, lvl + 1));
          n := First(pre * ENTRIES + i + 1, lvl + 1);
        } else {
          ChildPlace(Ph(), f, i);
          var fine;
          fine, more, n := CloneTable(e.frame, lvl + 1, pre * ENTRIES + i, p, c, s, more);
          if !fine { return false, more, n; }
        }
        i := i + 1;
      }
      ok := true;
    }

    /** Everything below one parent table. */
    method CloneTable(f: Frame, lvl: nat, pre: nat, p: Frame, c: Frame, ghost s: Flat, ghost ts: set<Frame>)
        returns (ok: bool, ghost more: set<Frame>, ghost n: nat)
      requires f in owner && owner[f].root == p && 0 < owner[f].lvl == lvl <= 3 && owner[f].pre == pre
      requires Forking(s, p, c, ts, First(pre, lvl)) && First(pre + 1, lvl) <= VA_LIMIT
      modifies this`mem, this`owner, alloc`freePages, alloc.bitmap, alloc.refcount
      ensures Extends(old(owner), owner) && n <= VA_LIMIT && Forking(s, p, c, more, n)
      ensures ok ==> n == First(pre + 1, lvl)
      ensures !ok ==> NoneFree(S().pool)
      decreases 3 - lvl, 1
    {
      hide Good, FlatOf, Fork, NoSaturation, AllFree, Inv, Valid, First;
      if lvl == 3 {
        LeafRange(pre);
        ok, more, n := CloneLeaves(f, pre * ENTRIES, p, c, s, ts);
      } else {
        FirstDown(pre + 1, lvl);
        ok, more, n := CloneEntries(f, lvl, ENTRIES, pre, p, c, s, ts);
      }
    }

    /** clone_page_directory_cow.  On success parent and child hold the same pages, writable ones
        COW on both sides.  When a table for the child cannot be allocated the walk stops at
        some page `n` and the half-built child is torn down again, which nobody can see and which by
        ForkTeardownConserves gives back every frame and reference. */
    method CloneCow(p: Frame) returns (c: Frame, ghost made: Frame, ghost ts: set<Frame>, ghost n: nat)
      requires Ok() && p in S().spaces && NoSaturation(S(), p, VA_LIMIT)
      modifies this`mem, this`owner, alloc`freePages, alloc.bitmap, alloc.refcount
      ensures Ok()
      ensures c != NULL ==> c == made && Inv(old(S())) && Enabled(old(S()), ForkOp(p, c, ts))
      ensures c != NULL ==> S() == Apply(old(S()), ForkOp(p, c, ts))
      ensures c == NULL && made == NULL ==> S() == old(S()) && NoneFree(S().pool)
      ensures c == NULL && made != NULL ==> Inv(old(S())) && Enabled(old(S()), AbortOp(p, made, ts, n))
      ensures c == NULL && made != NULL ==> S() == Apply(old(S()), AbortOp(p, made, ts, n))
      ensures c == NULL && made != NULL ==> NoneFree(Fork(old(S()), p, made, ts, n).pool)
    {
      hide Good, FlatOf, Fork, NoSaturation, AllFree, Inv, Valid, Teardown, NewSpace, Enabled, Apply;
      ghost var s := S();
      GoodFlat(Ph());
      RootPlace(Ph(), p, 0);
      var child := AllocPageDirectory();
      if child == NULL { return NULL, NULL, {}, 0; }
      NewRootFresh(s, p, child);
      ForkStart(s, p, child);
      FirstTop();
      FirstDown(0, 0);
      var fine;
      fine, ts, n := CloneEntries(p, 0, KERNEL_SLOT, 0, p, child, s, {});
      ForkMember(s, p, child, ts, n);
      made := child;
      if !fine {
        AbortEnabled(s, p, child, ts, n);
        FreePageDirectory(child);
        return NULL, made, ts, n;
      }
      ForkEnabled(s, p, child, ts);
      ts := ts - {child};
      c := child;
    }
  }
}
