/** One iteration of each page-table walk, on flat spaces: how the closed forms of `SpaceOps`
    move when a walk passes one more page.  These are the inductive steps of the loops in
    `Paging`. */
module WalkSteps {
  import opened Frames
  import opened AddressSpaces
  import opened SpaceOps

  // ---- allocating tables ---------------------------------------------------

  lemma TakenTwice(p: Pool, a: set<Frame>, b: set<Frame>)
    requires Shape(p)
    ensures TakenAll(TakenAll(p, a), b) == TakenAll(p, a + b)
  {
    assert TakenAll(TakenAll(p, a), b).free == TakenAll(p, a + b).free;
    assert TakenAll(TakenAll(p, a), b).ref == TakenAll(p, a + b).ref;
  }

  lemma GrowTwice(s: Flat, r: Frame, a: set<Frame>, b: set<Frame>, k: set<Frame>)
    requires Shape(s.pool)
    ensures Grow(Grow(s, r, a, {}), r, b, k) == Grow(s, r, a + b, k)
  {
    TakenTwice(s.pool, a + {}, b + k);
    assert a + {} + (b + k) == a + b + k;
    assert s.tables + AllMapTo(a, r) + AllMapTo(b, r) == s.tables + AllMapTo(a + b, r);
    assert s.kernel + {} + k == s.kernel + k;
    assert ((s.data - a) + AllMapTo({}, ZeroPage()) - b) + AllMapTo(k, ZeroPage()) ==
        (s.data - (a + b)) + AllMapTo(k, ZeroPage());
  }

  lemma GrowNothing(s: Flat, r: Frame)
    requires Valid(s.pool)
    ensures Grow(s, r, {}, {}) == s && AllFree(s.pool, {})
  {
    TakenAllNone(s.pool);
    var none: set<Frame> := {};
    assert none + none == none;
    assert s.tables + AllMapTo(none, r) == s.tables;
    assert (s.data - {}) + AllMapTo({}, ZeroPage()) == s.data;
  }

  // ---- one page further ----------------------------------------------------

  lemma WithinAdvance(sp: Space, lo: nat, n: nat, f: Frame)
    requires lo <= n
    ensures |Uses(Within(sp, lo, n + 1), f)| == |Uses(Within(sp, lo, n), f)| + B(n in sp && sp[n].frame == f)
  {
    if n in sp {
      assert Within(sp, lo, n + 1) == Put(Within(sp, lo, n), n, sp[n]);
      UsesPut(Within(sp, lo, n), n, sp[n], f);
    } else {
      assert Within(sp, lo, n + 1) == Within(sp, lo, n);
    }
  }

  ghost predicate NoneIn(sp: Space, lo: nat, hi: nat) {
    forall v :: v in sp ==> !(lo <= v < hi)
  }

  // ---- fork ----------------------------------------------------------------

  lemma UsesEmpty(sp: Space, n: nat, f: Frame)
    ensures |Uses(Within(sp, n, n), f)| == 0
  {
    assert Uses(Within(sp, n, n), f) == {};
  }

  lemma AddRefsNone(p: Pool, sp: Space)
    requires Valid(p) && forall f :: 0 <= f < p.total ==> |Uses(sp, f)| == 0
    ensures AddRefs(p, sp) == p
  {
    assert AddRefs(p, sp).ref == p.ref;
  }

  lemma ForkStart(s: Flat, p: Frame, c: Frame)
    requires Valid(s.pool) && p in s.spaces && p != c && AllFree(s.pool, {c})
    ensures Fork(s, p, c, {}, 0) == NewSpace(s, c)
  {
    var sp := s.spaces[p];
    assert {} + {c} == {c};
    TakenAllValid(s.pool, {c});
    forall f | 0 <= f < s.pool.total ensures |Uses(Within(sp, 0, 0), f)| == 0 { UsesEmpty(sp, 0, f); }
    AddRefsNone(TakenAll(s.pool, {c}), Within(sp, 0, 0));
    assert CowedBelow(sp, 0) == sp && CowedCopy(sp, 0) == map[];
    assert s.tables + AllMapTo({c}, c) == s.tables[c := c];
    assert s.spaces[p := sp] == s.spaces;
  }

  lemma ForkSkip(s: Flat, p: Frame, c: Frame, ts: set<Frame>, n: nat, m: nat)
    requires Shape(s.pool) && p in s.spaces && n <= m && NoneIn(s.spaces[p], n, m)
    ensures Fork(s, p, c, ts, n) == Fork(s, p, c, ts, m)
  {
    var sp := s.spaces[p];
    assert Within(sp, 0, n) == Within(sp, 0, m);
    assert CowedBelow(sp, n) == CowedBelow(sp, m);
    assert CowedCopy(sp, n) == CowedCopy(sp, m);
  }

  lemma ForkGrowPool(p: Pool, used: Space, ts: set<Frame>, c: Frame, new1: set<Frame>)
    requires Shape(p) && forall f :: f in new1 && f < p.total ==> |Uses(used, f)| == 0
    requires forall f :: f in new1 ==> f < p.total
    ensures TakenAll(AddRefs(TakenAll(p, ts + {c}), used), new1) == AddRefs(TakenAll(p, ts + new1 + {c}), used)
  {
    var a, b := TakenAll(AddRefs(TakenAll(p, ts + {c}), used), new1), AddRefs(TakenAll(p, ts + new1 + {c}), used);
    assert a.free == b.free;
    assert a.ref == b.ref;
  }

  lemma JoinTables(t: map<Frame, Frame>, d: map<Frame, seq<Byte>>, ts: set<Frame>, c: Frame, new1: set<Frame>)
    ensures t + AllMapTo(ts + {c}, c) + AllMapTo(new1, c) == t + AllMapTo(ts + new1 + {c}, c)
    ensures (d - (ts + {c}) - new1) + AllMapTo({}, ZeroPage()) == d - (ts + new1 + {c})
  {
  }

  lemma ForkGrowMaps(s: Flat, p: Frame, c: Frame, ts: set<Frame>, n: nat, new1: set<Frame>)
    requires Shape(s.pool) && p in s.spaces
    ensures var a, b := Grow(Fork(s, p, c, ts, n), c, new1, {}), Fork(s, p, c, ts + new1, n);
            a.tables == b.tables && a.data == b.data && a.kernel == b.kernel && a.spaces == b.spaces
  {
    JoinTables(s.tables, s.data, ts, c, new1);
  }

  lemma ForkGrowFields(s: Flat, p: Frame, c: Frame, ts: set<Frame>, n: nat, new1: set<Frame>)
    requires Shape(s.pool) && p in s.spaces
    requires forall f :: f in new1 ==> f < s.pool.total && |Uses(Within(s.spaces[p], 0, n), f)| == 0
    ensures Grow(Fork(s, p, c, ts, n), c, new1, {}).pool == Fork(s, p, c, ts + new1, n).pool
  {
    assert new1 + {} == new1;
    ForkGrowPool(s.pool, Within(s.spaces[p], 0, n), ts, c, new1);
  }

  /** Tables the child needs can be counted with the ones it already has. */
  lemma ForkGrow(s: Flat, p: Frame, c: Frame, ts: set<Frame>, n: nat, new1: set<Frame>)
    requires Inv(s) && p in s.spaces && AllFree(s.pool, new1)
    ensures Grow(Fork(s, p, c, ts, n), c, new1, {}) == Fork(s, p, c, ts + new1, n)
  {
    forall f | f in new1 ensures |Uses(Within(s.spaces[p], 0, n), f)| == 0 { UnusedWhenFree(s, p, n, f); }
    ForkGrowFields(s, p, c, ts, n, new1);
    ForkGrowMaps(s, p, c, ts, n, new1);
  }

  lemma AddRefsAdvance(p: Pool, sp: Space, n: nat)
    requires Shape(p) && n in sp && sp[n].frame < p.total && (forall f :: 0 <= f < p.total ==> p.ref[f] <= MAX_REF)
    ensures AddRefs(p, Within(sp, 0, n + 1)) == Shared(AddRefs(p, Within(sp, 0, n)), sp[n].frame)
  {
    var a, b := AddRefs(p, Within(sp, 0, n + 1)), Shared(AddRefs(p, Within(sp, 0, n)), sp[n].frame);
    forall f | 0 <= f < MAX_PAGES ensures a.ref[f] == b.ref[f] { WithinAdvance(sp, 0, n, f); }
    assert a.ref == b.ref;
  }

  lemma CowedAdvance(sp: Space, n: nat)
    requires n in sp
    ensures CowedBelow(sp, n + 1) == Put(CowedBelow(sp, n), n, Cowed(sp[n]))
    ensures CowedCopy(sp, n + 1) == Put(CowedCopy(sp, n), n, Cowed(sp[n]))
  {
  }

  lemma ReplaceTwo(m: map<Frame, Space>, p: Frame, c: Frame, a: Space, b: Space, a': Space, b': Space)
    ensures m[p := a][c := b][p := a'][c := b'] == m[p := a'][c := b']
  {
  }

  /** The state after one more entry has been copied. */
  ghost function BothPut(f: Flat, p: Frame, c: Frame, n: Va, e: Entry): Flat
    requires Shape(f.pool) && p in f.spaces && c in f.spaces
  {
    f.(spaces := f.spaces[p := Put(f.spaces[p], n, e)][c := Put(f.spaces[c], n, e)], pool := Shared(f.pool, e.frame))
  }

  lemma ForkAdvanceFields(s: Flat, p: Frame, c: Frame, ts: set<Frame>, n: nat)
    requires Shape(s.pool) && Valid(TakenAll(s.pool, ts + {c})) && p in s.spaces && n in s.spaces[p] && p != c
    requires s.spaces[p][n].frame < s.pool.total
    ensures Fork(s, p, c, ts, n + 1) == BothPut(Fork(s, p, c, ts, n), p, c, n, Cowed(s.spaces[p][n]))
  {
    var sp := s.spaces[p];
    AddRefsAdvance(TakenAll(s.pool, ts + {c}), sp, n);
    CowedAdvance(sp, n);
    ReplaceTwo(s.spaces, p, c, CowedBelow(sp, n), CowedCopy(sp, n), CowedBelow(sp, n + 1), CowedCopy(sp, n + 1));
  }

  /** Passing a mapped page: both sides get the COW entry, the frame gets one more reference. */
  lemma ForkAdvance(s: Flat, p: Frame, c: Frame, ts: set<Frame>, n: nat)
    requires Inv(s) && p in s.spaces && n in s.spaces[p] && p != c && AllFree(s.pool, ts + {c})
    ensures Fork(s, p, c, ts, n + 1) == BothPut(Fork(s, p, c, ts, n), p, c, n, Cowed(s.spaces[p][n]))
  {
    assert EntryOk(s, p, n);
    TakenAllValid(s.pool, ts + {c});
    ForkAdvanceFields(s, p, c, ts, n);
  }

  // ---- removing pages ------------------------------------------------------

  /** Dropping one more reference of `g`, frame by frame. */
  lemma DropOneMoreAt(p: Pool, sp: Space, sq: Space, ts: set<Frame>, tt: set<Frame>, g: Frame, f: Frame)
    requires Shape(p) && g < p.total && f < MAX_PAGES
    requires f < p.total ==> |Uses(sq, f)| + B(f in tt) == |Uses(sp, f)| + B(f in ts) + B(f == g)
    requires |Uses(sp, g)| + B(g in ts) + 1 + B(p.pinned[g]) <= p.ref[g] && !p.free[g]
    ensures DropRefs(p, sq, tt).ref[f] == Dropped(DropRefs(p, sp, ts), g).ref[f]
    ensures DropRefs(p, sq, tt).free[f] == Dropped(DropRefs(p, sp, ts), g).free[f]
    ensures !IsFree(DropRefs(p, sp, ts), g)
  {
  }

  lemma DropOneMore(p: Pool, sp: Space, sq: Space, ts: set<Frame>, tt: set<Frame>, g: Frame)
    requires Valid(p) && g < p.total
    requires forall f :: 0 <= f < p.total ==> |Uses(sq, f)| + B(f in tt) == |Uses(sp, f)| + B(f in ts) + B(f == g)
    requires |Uses(sp, g)| + B(g in ts) + 1 + B(p.pinned[g]) <= p.ref[g]
    ensures DropRefs(p, sq, tt).ref == Dropped(DropRefs(p, sp, ts), g).ref
    ensures DropRefs(p, sq, tt).free == Dropped(DropRefs(p, sp, ts), g).free
    ensures !IsFree(DropRefs(p, sp, ts), g)
  {
    forall f | 0 <= f < MAX_PAGES
      ensures DropRefs(p, sq, tt).ref[f] == Dropped(DropRefs(p, sp, ts), g).ref[f]
      ensures DropRefs(p, sq, tt).free[f] == Dropped(DropRefs(p, sp, ts), g).free[f]
      ensures !IsFree(DropRefs(p, sp, ts), g)
    {
      DropOneMoreAt(p, sp, sq, ts, tt, g, f);
    }
    DropOneMoreAt(p, sp, sq, ts, tt, g, g);
  }

  lemma DropOneMorePool(p: Pool, sp: Space, sq: Space, ts: set<Frame>, tt: set<Frame>, g: Frame)
    requires Valid(p) && Valid(DropRefs(p, sp, ts)) && g < p.total
    requires forall f :: 0 <= f < p.total ==> |Uses(sq, f)| + B(f in tt) == |Uses(sp, f)| + B(f in ts) + B(f == g)
    requires |Uses(sp, g)| + B(g in ts) + 1 + B(p.pinned[g]) <= p.ref[g]
    ensures DropRefs(p, sq, tt) == Dropped(DropRefs(p, sp, ts), g)
    ensures !IsFree(DropRefs(p, sp, ts), g)
  {
    DropOneMore(p, sp, sq, ts, tt, g);
    var d := DropRefs(p, sp, ts);
    if d.ref[g] <= 1 && !d.pinned[g] { CountUpdatePrefix(d.free, p.total, g, true); }
  }

    /** The pool once a walk has released the leaves in `[lo, n)` and the tables `gone`. */
  ghost function Released(s: Flat, r: Frame, lo: nat, n: nat, gone: set<Frame>): Pool
    requires Shape(s.pool) && r in s.spaces
  {
    DropRefs(s.pool, Within(s.spaces[r], lo, n), gone)
  }

  lemma ReleasedBound(s: Flat, r: Frame, lo: nat, n: nat, gone: set<Frame>, f: Frame)
    requires Inv(s) && r in s.spaces && gone <= TablesOf(s, r) && f < s.pool.total
    ensures |Uses(Within(s.spaces[r], lo, n), f)| + B(f in gone) + B(s.pool.pinned[f]) <= s.pool.ref[f]
    ensures f in TablesOf(s, r) && f !in gone ==>
              |Uses(Within(s.spaces[r], lo, n), f)| + B(f in gone) + 1 + B(s.pool.pinned[f]) <= s.pool.ref[f]
    ensures f == NULL ==> |Uses(Within(s.spaces[r], lo, n), f)| + B(f in gone) == 0
  {
    UsesBound(s, r, Within(s.spaces[r], lo, n), f);
  }

  lemma ReleasedValid(s: Flat, r: Frame, lo: nat, n: nat, gone: set<Frame>)
    requires Inv(s) && r in s.spaces && gone <= TablesOf(s, r)
    ensures Valid(Released(s, r, lo, n, gone))
  {
    var sp := Within(s.spaces[r], lo, n);
    forall f | 0 <= f < s.pool.total
      ensures |Uses(sp, f)| + B(f in gone) + B(s.pool.pinned[f]) <= s.pool.ref[f]
      ensures f == NULL ==> |Uses(sp, f)| + B(f in gone) == 0
    {
      ReleasedBound(s, r, lo, n, gone, f);
    }
    DropRefsValid(s, sp, gone);
  }

  lemma ReleaseLeaf(s: Flat, r: Frame, lo: nat, n: nat, gone: set<Frame>)
    requires Inv(s) && r in s.spaces && gone <= TablesOf(s, r) && n in s.spaces[r] && lo <= n
    ensures var f := s.spaces[r][n].frame;
            && 0 < f < s.pool.total && !IsFree(Released(s, r, lo, n, gone), f)
            && Released(s, r, lo, n + 1, gone) == Dropped(Released(s, r, lo, n, gone), f)
  {
    hide DropRefs;
    var sp, f := s.spaces[r], s.spaces[r][n].frame;
    assert EntryOk(s, r, n);
    ReleasedValid(s, r, lo, n, gone);
    ReleasedBound(s, r, lo, n + 1, gone, f);
    forall g | 0 <= g < s.pool.total
      ensures |Uses(Within(sp, lo, n + 1), g)| + B(g in gone) == |Uses(Within(sp, lo, n), g)| + B(g in gone) + B(g == f)
    {
      WithinAdvance(sp, lo, n, g);
    }
    DropOneMorePool(s.pool, Within(sp, lo, n), Within(sp, lo, n + 1), gone, gone, f);
  }

  lemma ReleaseTable(s: Flat, r: Frame, lo: nat, n: nat, gone: set<Frame>, t: Frame)
    requires Inv(s) && r in s.spaces && gone <= TablesOf(s, r) && t in TablesOf(s, r) && t !in gone
    ensures 0 < t < s.pool.total && !IsFree(Released(s, r, lo, n, gone), t)
    ensures Released(s, r, lo, n, gone + {t}) == Dropped(Released(s, r, lo, n, gone), t)
  {
    hide DropRefs, Within, Counted, Leaves, PinsHeld;
    ReleasedValid(s, r, lo, n, gone);
    ReleasedBound(s, r, lo, n, gone, t);
    DropOneMorePool(s.pool, Within(s.spaces[r], lo, n), Within(s.spaces[r], lo, n), gone, gone + {t}, t);
  }

  lemma ReleaseSkip(s: Flat, r: Frame, lo: nat, n: nat, m: nat, gone: set<Frame>)
    requires Shape(s.pool) && r in s.spaces && lo <= n <= m && NoneIn(s.spaces[r], n, m)
    ensures Released(s, r, lo, n, gone) == Released(s, r, lo, m, gone)
  {
    assert Within(s.spaces[r], lo, n) == Within(s.spaces[r], lo, m);
  }

  /** vm_free_range passing a mapped page. */
  lemma UnmapAdvance(s: Flat, r: Frame, lo: nat, n: nat)
    requires Inv(s) && r in s.spaces && n in s.spaces[r] && lo <= n
    ensures var u, f := Unmap(s, r, lo, n), s.spaces[r][n].frame;
            && n in u.spaces[r] && u.spaces[r][n].frame == f && Shape(u.pool)
            && Unmap(s, r, lo, n + 1) == u.(spaces := u.spaces[r := u.spaces[r] - {n}], pool := Dropped(u.pool, f))
  {
    hide DropRefs;
    ReleaseLeaf(s, r, lo, n, {});
    WithoutAdvance(s.spaces[r], lo, n);
  }

  lemma WithoutAdvance(sp: Space, lo: nat, n: nat)
    requires lo <= n && n in sp
    ensures n in Without(sp, lo, n) && Without(sp, lo, n)[n] == sp[n]
    ensures Without(sp, lo, n + 1) == Without(sp, lo, n) - {n}
  {
  }

  lemma UnmapSkip(s: Flat, r: Frame, lo: nat, n: nat)
    requires Shape(s.pool) && r in s.spaces && n !in s.spaces[r]
    ensures Unmap(s, r, lo, n + 1) == Unmap(s, r, lo, n)
  {
    assert Within(s.spaces[r], lo, n + 1) == Within(s.spaces[r], lo, n);
    assert Without(s.spaces[r], lo, n + 1) == Without(s.spaces[r], lo, n);
  }

  lemma DropNothing(p: Pool, sp: Space, ts: set<Frame>)
    requires Valid(p) && forall f :: 0 <= f < p.total ==> |Uses(sp, f)| + B(f in ts) == 0
    ensures DropRefs(p, sp, ts) == p
  {
    var q := DropRefs(p, sp, ts);
    forall f | 0 <= f < MAX_PAGES ensures q.free[f] == p.free[f] && q.ref[f] == p.ref[f] {}
    assert q.free == p.free;
    assert q.ref == p.ref;
  }

  lemma UnmapStart(s: Flat, r: Frame, lo: nat)
    requires Valid(s.pool) && r in s.spaces
    ensures Unmap(s, r, lo, lo) == s
  {
    hide DropRefs;
    forall f | 0 <= f < s.pool.total
      ensures |Uses(Within(s.spaces[r], lo, lo), f)| == 0
    {
      UsesEmpty(s.spaces[r], lo, f);
    }
    DropNothing(s.pool, Within(s.spaces[r], lo, lo), {});
    assert Without(s.spaces[r], lo, lo) == s.spaces[r];
  }

  // ---- protection ----------------------------------------------------------

  lemma ProtectAdvance(s: Flat, r: Frame, lo: nat, n: nat, w: bool, x: bool)
    requires r in s.spaces && n in s.spaces[r] && lo <= n
    ensures var u := Protect(s, r, lo, n, w, x);
            && n in u.spaces[r] && u.spaces[r][n] == s.spaces[r][n]
            && Protect(s, r, lo, n + 1, w, x) ==
                 u.(spaces := u.spaces[r := Put(u.spaces[r], n, Reprotected(s.spaces[r][n], w, x))])
  {
    var sp := s.spaces[r];
    assert ProtectedSpace(sp, lo, n + 1, w, x) == Put(ProtectedSpace(sp, lo, n, w, x), n, Reprotected(sp[n], w, x));
  }

  lemma ProtectSkip(s: Flat, r: Frame, lo: nat, n: nat, w: bool, x: bool)
    requires r in s.spaces && n !in s.spaces[r]
    ensures Protect(s, r, lo, n + 1, w, x) == Protect(s, r, lo, n, w, x)
  {
    assert ProtectedSpace(s.spaces[r], lo, n + 1, w, x) == ProtectedSpace(s.spaces[r], lo, n, w, x);
  }

  lemma ProtectStart(s: Flat, r: Frame, lo: nat, w: bool, x: bool)
    requires r in s.spaces
    ensures Protect(s, r, lo, lo, w, x) == s
  {
    assert ProtectedSpace(s.spaces[r], lo, lo, w, x) == s.spaces[r];
  }
}
