/** The bookkeeping of free_page_directory: which table frames a post-order walk has released
    by the time it has passed a given page. */
module TeardownWalk {
  import opened Frames
  import opened AddressSpaces
  import opened SpaceOps
  import opened PageTables

  /** Where the pages below a table begin. */
  function Start(p: Place): nat
    requires p.lvl <= 3
  {
    First(p.pre, p.lvl)
  }

  /** Tables of `r`, at level `lvl` or below, whose pages begin in `[lo, hi)`. */
  ghost function Under(owner: map<Frame, Place>, r: Frame, lvl: nat, lo: nat, hi: nat): set<Frame> {
    set g | g in owner && owner[g].root == r && lvl <= owner[g].lvl <= 3 && lo <= Start(owner[g]) < hi
  }

  lemma {:induction false} StartPrefix(pre: nat, lvl: nat)
    requires lvl <= 4
    ensures Prefix(First(pre, lvl), lvl) == pre
  {
    FirstMonotone(pre, pre + 1, lvl);
    InRange(First(pre, lvl), pre, lvl);
  }

  lemma {:induction false} NodeShorter(m: Memory, r: Frame, v: Va, lvl: nat, k: nat)
    requires k <= lvl <= 3 && Node(m, r, v, lvl).Some?
    ensures Node(m, r, v, k).Some?
    decreases lvl - k
  {
    if k < lvl { NodeShorter(m, r, v, lvl - 1, k); }
  }

  /** A table whose pages begin below `f` hangs under the entry of `f` that covers its start. */
  lemma HangsBelow(ph: Phys, f: Frame, g: Frame)
    requires Tree(ph) && f in ph.owner && g in ph.owner && ph.owner[f].root == ph.owner[g].root
    requires ph.owner[f].lvl < ph.owner[g].lvl <= 3
    requires First(ph.owner[f].pre, ph.owner[f].lvl) <= Start(ph.owner[g]) < First(ph.owner[f].pre + 1, ph.owner[f].lvl)
    ensures Child(ph.mem, f, Index(Start(ph.owner[g]), ph.owner[f].lvl)).Some?
  {
    var v, lf, lg := Start(ph.owner[g]), ph.owner[f].lvl, ph.owner[g].lvl;
    StartPrefix(ph.owner[g].pre, lg);
    PlacedNode(ph, g, v);
    InRange(v, ph.owner[f].pre, lf);
    PlacedNode(ph, f, v);
    NodeShorter(ph.mem, ph.owner[g].root, v, lg, lf + 1);
  }

  /** Nothing hangs under an entry that leads nowhere. */
  lemma NothingUnder(ph: Phys, f: Frame, i: nat)
    requires Tree(ph) && f in ph.owner && ph.owner[f].lvl < 3 && i < ENTRIES && Child(ph.mem, f, i) == None
    ensures var q, l := ph.owner[f].pre * ENTRIES + i, ph.owner[f].lvl + 1;
            Under(ph.owner, ph.owner[f].root, l, First(q, l), First(q + 1, l)) == {}
  {
    var q, l, r := ph.owner[f].pre * ENTRIES + i, ph.owner[f].lvl + 1, ph.owner[f].root;
    var hung := Under(ph.owner, r, l, First(q, l), First(q + 1, l));
    if g :| g in hung {
      var v := Start(ph.owner[g]);
      InRange(v, q, l);
      PrefixStep(v, l - 1);
      InRange(v, ph.owner[f].pre, l - 1);
      HangsBelow(ph, f, g);
    }
  }

  /** Below and including `f` are `f` itself and what hangs under its entries. */
  lemma UnderSelf(ph: Phys, f: Frame)
    requires Tree(ph) && f in ph.owner && ph.owner[f].lvl <= 3
    ensures var p := ph.owner[f];
            && Under(ph.owner, p.root, p.lvl, First(p.pre, p.lvl), First(p.pre + 1, p.lvl)) ==
               Under(ph.owner, p.root, p.lvl + 1, First(p.pre, p.lvl), First(p.pre + 1, p.lvl)) + {f}
            && f !in Under(ph.owner, p.root, p.lvl + 1, First(p.pre, p.lvl), First(p.pre + 1, p.lvl))
  {
    var p := ph.owner[f];
    FirstMonotone(p.pre, p.pre + 1, p.lvl);
    forall g | g in ph.owner && ph.owner[g].root == p.root && ph.owner[g].lvl == p.lvl
        && First(p.pre, p.lvl) <= Start(ph.owner[g]) < First(p.pre + 1, p.lvl)
      ensures g == f
    {
      var v := Start(ph.owner[g]);
      StartPrefix(ph.owner[g].pre, p.lvl);
      InRange(v, p.pre, p.lvl);
      PlacedNode(ph, g, v);
      PlacedNode(ph, f, v);
    }
  }

  /** Every table lies below the kernel mirror. */
  lemma {:induction false} StartBound(ph: Phys, g: Frame)
    requires Tree(ph) && g in ph.owner && 0 < ph.owner[g].lvl <= 3
    ensures First(ph.owner[g].pre + 1, ph.owner[g].lvl) <= VA_LIMIT
    decreases ph.owner[g].lvl
  {
    assert PlaceOk(ph, g);
    var p := ph.owner[g];
    if p.lvl == 1 {
      assert PlaceOk(ph, p.parent);
      FirstTop();
      FirstMonotone(p.pre + 1, KERNEL_SLOT, 1);
    } else {
      StartBound(ph, p.parent);
      FirstMonotone(p.pre + 1, (p.pre / ENTRIES + 1) * ENTRIES, p.lvl);
    }
  }

  /** A complete walk from the root has met every table of the space. */
  lemma UnderRoot(ph: Phys, r: Frame)
    requires Tree(ph) && r in ph.owner && ph.owner[r].lvl == 0
    ensures Under(ph.owner, r, 1, 0, VA_LIMIT) + {r} == TablesOf(FlatOf(ph), r)
    ensures r !in Under(ph.owner, r, 1, 0, VA_LIMIT)
  {
    forall g | g in ph.owner && ph.owner[g].root == r
      ensures ph.owner[g].lvl <= 3 && (ph.owner[g].lvl == 0 ==> g == r)
      ensures (ph.owner[g].lvl > 0 ==> Start(ph.owner[g]) < VA_LIMIT)
    {
      assert PlaceOk(ph, g);
      if ph.owner[g].lvl > 0 {
        StartBound(ph, g);
        FirstMonotone(ph.owner[g].pre, ph.owner[g].pre + 1, ph.owner[g].lvl);
      }
    }
    assert PlaceOk(ph, r);
  }

  lemma UnderTables(ph: Phys, r: Frame, lvl: nat, lo: nat, hi: nat)
    ensures Under(ph.owner, r, lvl, lo, hi) <= TablesOf(FlatOf(ph), r)
  {
  }

  lemma FirstOrder(pre: nat, lvl: nat, i: nat)
    requires lvl < 3 && i < ENTRIES
    ensures First(pre, lvl) <= First(pre * ENTRIES + i, lvl + 1) < First(pre * ENTRIES + i + 1,
              lvl + 1) <= First(pre + 1, lvl)
  {
    FirstMonotone(pre * ENTRIES, pre * ENTRIES + i, lvl + 1);
    FirstMonotone(pre * ENTRIES + i, pre * ENTRIES + i + 1, lvl + 1);
    FirstMonotone(pre * ENTRIES + i + 1, (pre + 1) * ENTRIES, lvl + 1);
  }

  lemma UnderAdvance(owner: map<Frame, Place>, r: Frame, l: nat, a: nat, b: nat, c: nat, d: nat)
    requires a <= b <= c <= d && 0 < l
    ensures Under(owner, r, l, a, c) == Under(owner, r, l, a, b) + Under(owner, r, l, b, c)
    ensures Under(owner, r, l, a, b) !! Under(owner, r, l, b, c)
    ensures Under(owner, r, l, b, c) <= Under(owner, r, l - 1, a, d)
  {
    hide First;
  }

  /** Going from entry `i` of a level-`lvl` table to the next. */
  lemma UnderNext(owner: map<Frame, Place>, r: Frame, lvl: nat, pre: nat, i: nat)
    requires lvl < 3 && i < ENTRIES
    ensures var l, a, b, c := lvl + 1, First(pre, lvl), First(pre * ENTRIES + i, lvl + 1),
              First(pre * ENTRIES + i + 1, lvl + 1);
            && Under(owner, r, l, a, c) == Under(owner, r, l, a, b) + Under(owner, r, l, b, c)
            && Under(owner, r, l, a, b) !! Under(owner, r, l, b, c)
            && Under(owner, r, l, b, c) <= Under(owner, r, lvl, a, First(pre + 1, lvl))
  {
    hide First, Under;
    FirstOrder(pre, lvl, i);
    UnderAdvance(owner, r, lvl + 1, First(pre, lvl), First(pre * ENTRIES + i, lvl + 1),
        First(pre * ENTRIES + i + 1, lvl + 1), First(pre + 1, lvl));
  }

  lemma UnderNone(owner: map<Frame, Place>, r: Frame, lvl: nat, lo: nat)
    ensures Under(owner, r, lvl, lo, lo) == {}
  {
  }
}
