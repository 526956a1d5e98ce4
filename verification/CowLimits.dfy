/** States reached from boot at the limits of copy-on-write: where a fork saturates a count and
    where mprotect departs from the simple specification. */
module CowLimits {
  import opened Frames
  import opened AddressSpaces
  import opened SpaceOps
  import opened CowRefinement

  const TOTAL: nat := 1100
  const PAGE: Frame := 2

  /** Root and tables of the `k`-th space. */
  function Root(k: nat): Frame { 4 * k + 3 }

  function Tables(k: nat): set<Frame> { {4 * k + 4, 4 * k + 5, 4 * k + 6} }

  /** After boot the kernel holds its own page directory and nothing else is allocated. */
  function BootPool(): (p: Pool)
    ensures Shape(p)
  {
    var free := seq(MAX_PAGES, i => 2 <= i < TOTAL);
    Pool(TOTAL, free, seq(MAX_PAGES, i => if i == 1 then 1 else 0), seq(MAX_PAGES, i => false),
        CountTrue(free[..TOTAL]))
  }

  function Boot(): Flat { Flat(BootPool(), map[], map[], {1}, map[]) }

  lemma BootInv()
    ensures Inv(Boot())
  {
    hide CountTrue;
    var s := Boot();
    forall f | 0 <= f < s.pool.total ensures CountedAt(s, f) { assert Holders(s.spaces, f) == {}; }
  }

  // ---- reaching states -----------------------------------------------------

  ghost predicate RunTo(states: seq<Flat>, ops: seq<Op>, s: Flat) {
    Run(states, ops) && states[0] == Boot() && states[|ops|] == s
  }

  /** Some run of operations leads from boot to `s`. */
  ghost predicate Reached(s: Flat) {
    Inv(s) && exists states, ops {:trigger RunTo(states, ops, s)} :: RunTo(states, ops, s)
  }

  lemma BootReached()
    ensures Reached(Boot())
  {
    hide Inv, Boot;
    BootInv();
    assert RunTo([Boot()], [], Boot());
  }

  /** One more operation. */
  lemma Reach(s: Flat, op: Op)
    requires Reached(s) && Enabled(s, op)
    ensures Reached(Apply(s, op))
  {
    hide Inv, Enabled, Boot, Run;
    ApplyInv(s, op);
    var states, ops :| RunTo(states, ops, s);
    RunLength(states, ops);
    OneMore(states, ops, op);
    assert RunTo(states + [Apply(s, op)], ops + [op], Apply(s, op));
  }

  lemma RunLength(states: seq<Flat>, ops: seq<Op>)
    requires Run(states, ops)
    ensures |states| == |ops| + 1
  {
  }

  lemma OneMore(states: seq<Flat>, ops: seq<Op>, op: Op)
    requires Run(states, ops) && Inv(states[|ops|]) && Enabled(states[|ops|], op)
    ensures Run(states + [Apply(states[|ops|], op)], ops + [op])
  {
    hide Inv, Enabled, Apply;
    var states', ops' := states + [Apply(states[|ops|], op)], ops + [op];
    forall i | 0 <= i < |ops'| ensures StepOk(states'[i], ops'[i], states'[i + 1]) {
      if i < |ops| { assert ops'[i] == ops[i] && StepOk(states[i], ops[i], states[i + 1]); }
    }
  }

  // ---- the first process and its page --------------------------------------

  ghost predicate FreeFrom(p: Pool, f: Frame)
    requires Shape(p)
  {
    p.total == TOTAL && forall g {:trigger p.free[g]} :: f <= g < TOTAL ==> p.free[g]
  }

  /** Page 0 of the first space holds frame PAGE, `k` spaces share it, and frames from the `k`-th
      root on are free. */
  ghost predicate Shares(s: Flat, k: nat, e: Entry) {
    && Shape(s.pool) && FreeFrom(s.pool, Root(k)) && |s.spaces| == k && Root(0) in s.spaces
    && s.spaces[Root(0)] == map[0 := e]
    && e.frame == PAGE && s.pool.ref[PAGE] == k
  }

  lemma FirstSpace() returns (s: Flat)
    ensures Reached(s) && s.spaces == map[Root(0) := map[]] && Shape(s.pool) && FreeFrom(s.pool, 4) && s.pool.free[PAGE]
  {
    hide Inv, CountTrue, RunTo;
    BootReached();
    var op := NewSpaceOp(Root(0));
    assert Enabled(Boot(), op);
    Reach(Boot(), op);
    s := Apply(Boot(), op);
    assert s.spaces == map[Root(0) := map[]];
  }

  lemma FirstPage(w: bool) returns (s: Flat)
    ensures Reached(s) && Shares(s, 1, FillEntry(PAGE, w, true, true))
  {
    hide Inv, CountTrue, RunTo, Fill;
    var t := FirstSpace();
    var op := FillOp(Root(0), 0, PAGE, Tables(0), ZeroPage(), w, true, true);
    assert Enabled(t, op);
    Reach(t, op);
    s := Apply(t, op);
    FilledPage(t, w);
  }

  lemma FilledPage(t: Flat, w: bool)
    requires t.spaces == map[Root(0) := map[]] && Shape(t.pool) && FreeFrom(t.pool, 4)
    ensures Shares(Fill(t, Root(0), 0, PAGE, Tables(0), ZeroPage(), w, true, true), 1, FillEntry(PAGE, w, true, true))
  {
    hide CountTrue;
    var s := Fill(t, Root(0), 0, PAGE, Tables(0), ZeroPage(), w, true, true);
    assert s.spaces == map[Root(0) := map[0 := FillEntry(PAGE, w, true, true)]];
  }

  // ---- forking it ----------------------------------------------------------

  /** One page, one use. */
  lemma OneUse(e: Entry, f: Frame)
    ensures Within(map[0 := e], 0, VA_LIMIT) == map[0 := e] && |Uses(map[0 := e], f)| == if f == e.frame then 1 else 0
  {
    assert Uses(map[0 := e], f) == if f == e.frame then {0} else {};
  }

  lemma RefBound(s: Flat, f: Frame)
    requires Inv(s) && f < s.pool.total
    ensures s.pool.ref[f] <= MAX_REF
  {
  }

  lemma FreeRoot(s: Flat, k: nat, e: Entry)
    requires Inv(s) && k <= MAX_REF && Shares(s, k, e)
    ensures Root(k) !in s.spaces && AllFree(s.pool, Tables(k) + {Root(k)})
  {
    hide CountTrue, Counted, Leaves;
    FreeUnheld(s, Root(k));
  }

  /** One more fork of the first process is possible exactly while the count has room. */
  lemma ForkPossible(s: Flat, k: nat, e: Entry)
    requires Inv(s) && 0 < k <= MAX_REF && Shares(s, k, e)
    ensures NoSaturation(s, Root(0), VA_LIMIT) <==> k < MAX_REF
  {
    hide Inv, CountTrue, Uses;
    forall f | 0 <= f < s.pool.total
      ensures s.pool.ref[f] + |Uses(Within(s.spaces[Root(0)], 0, VA_LIMIT), f)| <= MAX_REF <==> f != PAGE || k < MAX_REF
    {
      OneUse(e, f);
      RefBound(s, f);
    }
  }

  lemma ForkPool(s: Flat, k: nat, e: Entry)
    requires 0 < k < MAX_REF && Shares(s, k, e)
    ensures var p := AddRefs(TakenAll(s.pool, Tables(k) + {Root(k)}), Within(s.spaces[Root(0)], 0, VA_LIMIT));
            FreeFrom(p, Root(k + 1)) && p.ref[PAGE] == k + 1
  {
    hide CountTrue, Uses;
    OneUse(e, PAGE);
  }

  lemma ForkShares(s: Flat, k: nat, e: Entry)
    requires 0 < k < MAX_REF && Shares(s, k, e) && Root(k) !in s.spaces
    ensures Shares(Fork(s, Root(0), Root(k), Tables(k), VA_LIMIT), k + 1, Cowed(e))
    ensures Fork(s, Root(0), Root(k), Tables(k), VA_LIMIT).spaces ==
              s.spaces[Root(0) := map[0 := Cowed(e)]][Root(k) := map[0 := Cowed(e)]]
  {
    hide CountTrue, Uses, AddRefs, TakenAll, FreeFrom, CowedBelow, CowedCopy, Within, AllMapTo;
    ForkPool(s, k, e);
    CowedPage(e);
    var t := Fork(s, Root(0), Root(k), Tables(k), VA_LIMIT);
    OneSpaceMore(s.spaces, t.spaces, map[0 := Cowed(e)], Root(k));
  }

  lemma CowedPage(e: Entry)
    ensures CowedBelow(map[0 := e], VA_LIMIT) == map[0 := Cowed(e)] == CowedCopy(map[0 := e], VA_LIMIT)
  {
  }

  lemma OneSpaceMore(a: map<Frame, Space>, b: map<Frame, Space>, sp: Space, c: Frame)
    requires Root(0) in a && c !in a && b == a[Root(0) := sp][c := sp]
    ensures |b| == |a| + 1
  {
    assert b.Keys == a.Keys + {c};
    assert |b| == |b.Keys| && |a| == |a.Keys|;
  }

  lemma ForkOnce(s: Flat, k: nat, e: Entry) returns (t: Flat)
    requires Reached(s) && 0 < k < MAX_REF && Shares(s, k, e)
    ensures Reached(t) && Shares(t, k + 1, Cowed(e))
    ensures t.spaces == s.spaces[Root(0) := map[0 := Cowed(e)]][Root(k) := map[0 := Cowed(e)]]
  {
    hide Inv, RunTo, Fork, CountTrue;
    var op := ForkOp(Root(0), Root(k), Tables(k));
    FreeRoot(s, k, e);
    ForkPossible(s, k, e);
    ForkShares(s, k, e);
    Reach(s, op);
    t := Apply(s, op);
  }

  /** The first process forks until `k` processes share its page. */
  lemma {:induction false} ForkTimes(k: nat) returns (s: Flat, e: Entry)
    requires 0 < k <= MAX_REF
    ensures Reached(s) && Shares(s, k, e)
  {
    hide Reached, Shares;
    if k == 1 {
      s := FirstPage(true);
      e := FillEntry(PAGE, true, true, true);
    } else {
      s, e := ForkTimes(k - 1);
      s := ForkOnce(s, k - 1, e);
      e := Cowed(e);
    }
  }

  // ---- the limits ----------------------------------------------------------

  /** Boot, one process with one page, 254 forks: with 255 processes the next fork leaves the
      counts wrong. */
  lemma SaturatedFork() returns (s: Flat, c: Frame, ts: set<Frame>)
    ensures Reached(s) && |s.spaces| == 255 && Root(0) in s.spaces && AllFree(s.pool, ts + {c})
    ensures !Inv(Fork(s, Root(0), c, ts, VA_LIMIT))
  {
    hide RunTo, Fork, Inv, CountTrue;
    var e;
    s, e := ForkTimes(255);
    c, ts := Root(255), Tables(255);
    FreeRoot(s, 255, e);
    ForkPossible(s, 255, e);
    ForkInv(s, Root(0), c, ts, VA_LIMIT);
  }

  /** Boot, a read-only page, a fork, then mprotect granting write: the page would be writable in
      one process while the other still shares its frame. */
  lemma SharedGrant() returns (s: Flat)
    ensures Reached(s) && Root(0) in s.spaces && !Inv(Protect(s, Root(0), 0, 1, true, false))
  {
    hide RunTo, Inv, Shares, Protect;
    var e := FillEntry(PAGE, false, true, true);
    var t := FirstPage(false);
    s := ForkOnce(t, 1, e);
    assert s.spaces[Root(0)][0].frame == s.spaces[Root(1)][0].frame;
    assert !Sole(s.spaces, Root(0), 0);
    assert !GrantSafe(s, Root(0), 0, 1, true);
    ProtectInv(s, Root(0), 0, 1, true, false);
  }

  /** Boot, a writable page, a fork, then mprotect taking write away: the page stays writable by
      faulting, unlike in the specification. */
  lemma LingeringWrite() returns (s: Flat, op: Op)
    ensures Reached(s) && Inv(s) && Enabled(s, op) && op == ProtectOp(Root(0), 0, 1, false, false)
    ensures Abs(Apply(s, op)) != EagerStep(Abs(s), op)
  {
    hide RunTo, Inv, Shares, Abs, EagerStep, Protect;
    var e := FillEntry(PAGE, true, true, true);
    var t := FirstPage(true);
    s := ForkOnce(t, 1, e);
    op := ProtectOp(Root(0), 0, 1, false, false);
    assert 0 in s.spaces[Root(0)] && s.spaces[Root(0)][0].cow;
    assert GrantSafe(s, Root(0), 0, 1, false);
    ApplyAbs(s, op);
  }
}
