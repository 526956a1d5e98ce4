/** Copy-on-write refines eager copying: over every run, what each address space reads is what it
    would read if fork had copied every page at once, and what it may do is at least that. */
module CowRefinement {
  import opened Frames
  import opened AddressSpaces
  import opened SpaceOps

  // ---- the eager machine ---------------------------------------------------

  /** A page as its process sees it: contents, and which accesses succeed. */
  datatype PageView = PageView(bytes: seq<Byte>, writable: bool, user: bool, nx: bool)

  type EagerSpace = map<Va, PageView>
  type Eager = map<Frame, EagerSpace>

  /** A COW page counts as writable: the write succeeds, after a fault. */
  function ViewOf(data: map<Frame, seq<Byte>>, e: Entry): PageView {
    PageView(if e.frame in data then data[e.frame] else [], e.writable || e.cow, e.user, e.nx)
  }

  function SpaceView(data: map<Frame, seq<Byte>>, sp: Space): EagerSpace {
    map v | v in sp :: ViewOf(data, sp[v])
  }

  function Abs(s: Flat): Eager {
    map r | r in s.spaces :: SpaceView(s.data, s.spaces[r])
  }

  // ---- operations ----------------------------------------------------------

  /** `ts` are the table frames an operation had to allocate; `f` a data frame it allocated.  A fork
      that runs out of tables at page `n` tears the child down again and is an `AbortOp`. */
  datatype Op =
    | NewSpaceOp(c: Frame)
    | ForkOp(p: Frame, c: Frame, ts: set<Frame>)
    | AbortOp(p: Frame, c: Frame, ts: set<Frame>, n: nat)
    | FillOp(r: Frame, v: Va, f: Frame, ts: set<Frame>, bytes: seq<Byte>, w: bool, u: bool, nx: bool)
    | StallOp(r: Frame, ts: set<Frame>, lost: set<Frame>)
    | LibraryOp(r: Frame, v: Va, f: Frame, ts: set<Frame>, bytes: seq<Byte>, x: bool)
    | CowReuseOp(r: Frame, v: Va)
    | CowCopyOp(r: Frame, v: Va, f: Frame)
    | StoreOp(r: Frame, v: Va, off: nat, b: Byte)
    | UnmapOp(r: Frame, lo: nat, hi: nat)
    | ProtectOp(r: Frame, lo: nat, hi: nat, w: bool, x: bool)
    | TeardownOp(r: Frame)

  function FillEntry(f: Frame, w: bool, u: bool, nx: bool): Entry {
    Entry(true, w, u, false, false, false, nx, f)
  }

  /** No page in the range is COW-marked. */
  ghost predicate NoCow(s: Flat, r: Frame, lo: nat, hi: nat)
    requires r in s.spaces
  {
    forall v :: v in s.spaces[r] && lo <= v < hi ==> !s.spaces[r][v].cow
  }

  /** When the kernel (or, for a store, the hardware) performs the operation. */
  ghost predicate Enabled(s: Flat, op: Op)
    requires Inv(s)
  {
    match op
    case NewSpaceOp(c) => AllFree(s.pool, {c})
    case ForkOp(p, c, ts) => p in s.spaces && AllFree(s.pool, ts + {c}) && c !in ts && NoSaturation(s, p, VA_LIMIT)
    case AbortOp(p, c, ts, n) => p in s.spaces && AllFree(s.pool, ts + {c}) && NoSaturation(s, p, n)
    case FillOp(r, v, f, ts, bytes, w, u, nx) =>
      r in s.spaces && v < VA_LIMIT && v !in s.spaces[r] && AllFree(s.pool, ts + {f}) && f !in ts
          && |bytes| == PAGE_BYTES
    case StallOp(r, ts, lost) => r in s.spaces && AllFree(s.pool, ts + lost) && ts !! lost
    case LibraryOp(r, v, f, ts, bytes, x) =>
      && r in s.spaces && v < VA_LIMIT && v !in s.spaces[r] && AllFree(s.pool, ts)
      && f in s.kernel && s.pool.ref[f] < MAX_REF && f in s.data && s.data[f] == bytes && |bytes| == PAGE_BYTES
    case CowReuseOp(r, v) => r in s.spaces && v in s.spaces[r] && s.spaces[r][v].cow
        && RefCount(s.pool, s.spaces[r][v].frame) <= 1
    case CowCopyOp(r, v, f) =>
      r in s.spaces && v in s.spaces[r] && s.spaces[r][v].cow && RefCount(s.pool, s.spaces[r][v].frame) > 1
          && AllFree(s.pool, {f})
    case StoreOp(r, v, off, b) => r in s.spaces && v in s.spaces[r] && s.spaces[r][v].writable && s.spaces[r][v].user
        && off < PAGE_BYTES
    case UnmapOp(r, lo, hi) => r in s.spaces
    case ProtectOp(r, lo, hi, w, x) => r in s.spaces && GrantSafe(s, r, lo, hi, w)
    case TeardownOp(r) => r in s.spaces
  }

  ghost function Fill(s: Flat, r: Frame, v: Va, f: Frame, ts: set<Frame>, bytes: seq<Byte>, w: bool, u: bool,
      nx: bool): Flat
    requires Shape(s.pool) && r in s.spaces
  {
    MapOwned(Grow(s, r, ts, {f}), r, v, FillEntry(f, w, u, nx), bytes)
  }

  ghost function Library(s: Flat, r: Frame, v: Va, f: Frame, ts: set<Frame>, x: bool): Flat
    requires Shape(s.pool) && r in s.spaces
  {
    MapShared(Grow(s, r, ts, {}), r, v, FillEntry(f, false, true, !x))
  }

  ghost function Apply(s: Flat, op: Op): (t: Flat)
    requires Inv(s) && Enabled(s, op)
  {
    match op
    case NewSpaceOp(c) => NewSpace(s, c)
    case ForkOp(p, c, ts) => Fork(s, p, c, ts, VA_LIMIT)
    case AbortOp(p, c, ts, n) => Teardown(Fork(s, p, c, ts, n), c)
    case FillOp(r, v, f, ts, bytes, w, u, nx) => Fill(s, r, v, f, ts, bytes, w, u, nx)
    case StallOp(r, ts, lost) => Grow(s, r, ts, lost)
    case LibraryOp(r, v, f, ts, bytes, x) => Library(s, r, v, f, ts, x)
    case CowReuseOp(r, v) => CowReuse(s, r, v)
    case CowCopyOp(r, v, f) => assert EntryOk(s, r, v); assert f in {f}; CowCopy(s, r, v, f)
    case StoreOp(r, v, off, b) => assert EntryOk(s, r, v); Store(s, r, v, off, b)
    case UnmapOp(r, lo, hi) => Unmap(s, r, lo, hi)
    case ProtectOp(r, lo, hi, w, x) => Protect(s, r, lo, hi, w, x)
    case TeardownOp(r) => Teardown(s, r)
  }

  /** The specification: fork copies, a store changes one byte of one page of one space, a COW
      fault or a failed allocation changes nothing anybody can see. */
  function EagerStep(m: Eager, op: Op): Eager {
    match op
    case NewSpaceOp(c) => m[c := map[]]
    case ForkOp(p, c, _) => if p in m then m[c := m[p]] else m
    case AbortOp(_, _, _, _) => m
    case FillOp(r, v, _, _, bytes, w, u, nx) => if r in m then m[r := PutView(m[r], v, PageView(bytes, w, u, nx))]
        else m
    case LibraryOp(r, v, _, _, bytes, x) => if r in m then m[r := PutView(m[r], v, PageView(bytes, false, true, !x))]
        else m
    case StallOp(_, _, _) => m
    case CowReuseOp(_, _) => m
    case CowCopyOp(_, _, _) => m
    case StoreOp(r, v, off, b) => if r in m && v in m[r] then m[r := Poke(m[r], v, off, b)] else m
    case UnmapOp(r, lo, hi) => if r in m then m[r := WithoutViews(m[r], lo, hi)] else m
    case ProtectOp(r, lo, hi, w, x) => if r in m then m[r := ProtectViews(m[r], lo, hi, w, x)] else m
    case TeardownOp(r) => m - {r}
  }

  function PutView(es: EagerSpace, v: Va, view: PageView): EagerSpace { es[v := view] }

  function WithoutViews(es: EagerSpace, lo: nat, hi: nat): EagerSpace {
    map v | v in es && !(lo <= v < hi) :: es[v]
  }

  function ProtectViews(es: EagerSpace, lo: nat, hi: nat, w: bool, x: bool): EagerSpace {
    map v | v in es :: if lo <= v < hi then es[v].(writable := w, user := true, nx := !x) else es[v]
  }

  function Poke(es: EagerSpace, v: Va, off: nat, b: Byte): EagerSpace
    requires v in es
  {
    var page := es[v];
    es[v := page.(bytes := if off < |page.bytes| then page.bytes[off := b] else page.bytes)]
  }

  // ---- each step keeps the invariant ---------------------------------------

  lemma FillInv(s: Flat, r: Frame, v: Va, f: Frame, ts: set<Frame>, bytes: seq<Byte>, w: bool, u: bool, nx: bool)
    requires Inv(s) && Enabled(s, FillOp(r, v, f, ts, bytes, w, u, nx))
    ensures Inv(Fill(s, r, v, f, ts, bytes, w, u, nx))
  {
    hide Rooted, Counted, Leaves;
    assert f in ts + {f};
    FreeUnheld(s, f);
    GrowInv(s, r, ts, {f});
    MapOwnedInv(Grow(s, r, ts, {f}), r, v, FillEntry(f, w, u, nx), bytes);
  }

  lemma LibraryInv(s: Flat, r: Frame, v: Va, f: Frame, ts: set<Frame>, bytes: seq<Byte>, x: bool)
    requires Inv(s) && Enabled(s, LibraryOp(r, v, f, ts, bytes, x))
    ensures Inv(Library(s, r, v, f, ts, x))
  {
    assert ts + {} == ts;
    GrowInv(s, r, ts, {});
    var g := Grow(s, r, ts, {});
    assert CountedAt(g, f);
    forall q, u | q in g.spaces && u in g.spaces[q] && g.spaces[q][u].frame == f ensures !g.spaces[q][u].writable {
      assert EntryOk(g, q, u);
    }
    MapSharedInv(g, r, v, FillEntry(f, false, true, !x));
  }

  /** Every operation keeps the accounting and the one-writer rule. */
  lemma ApplyInv(s: Flat, op: Op)
    requires Inv(s) && Enabled(s, op)
    ensures Inv(Apply(s, op))
  {
    match op
    case NewSpaceOp(c) => assert c in {c}; NewSpaceInv(s, c);
    case ForkOp(p, c, ts) => ForkInv(s, p, c, ts, VA_LIMIT);
    case AbortOp(p, c, ts, n) => ForkInv(s, p, c, ts, n); TeardownInv(Fork(s, p, c, ts, n), c);
    case FillOp(r, v, f, ts, bytes, w, u, nx) => FillInv(s, r, v, f, ts, bytes, w, u, nx);
    case StallOp(r, ts, lost) => GrowInv(s, r, ts, lost);
    case LibraryOp(r, v, f, ts, bytes, x) => LibraryInv(s, r, v, f, ts, bytes, x);
    case CowReuseOp(r, v) => CowReuseInv(s, r, v);
    case CowCopyOp(r, v, f) => assert f in {f}; assert EntryOk(s, r, v); CowCopyInv(s, r, v, f);
    case StoreOp(r, v, off, b) => assert EntryOk(s, r, v); StoreInv(s, r, v, off, b);
    case UnmapOp(r, lo, hi) => UnmapInv(s, r, lo, hi);
    case ProtectOp(r, lo, hi, w, x) => ProtectInv(s, r, lo, hi, w, x);
    case TeardownOp(r) => TeardownInv(s, r);
  }

  // ---- each step is the eager step -----------------------------------------

  /** Spaces look the same when the bytes of every frame they map are the same. */
  lemma SpaceViewSame(d: map<Frame, seq<Byte>>, d': map<Frame, seq<Byte>>, sp: Space)
    requires forall v :: v in sp ==> ViewOf(d, sp[v]) == ViewOf(d', sp[v])
    ensures SpaceView(d, sp) == SpaceView(d', sp)
  {
  }

  lemma AbsReplace(s: Flat, t: Flat, r: Frame)
    requires r in s.spaces && t.spaces.Keys == s.spaces.Keys
    requires forall q :: q in s.spaces && q != r ==> SpaceView(t.data, t.spaces[q]) == SpaceView(s.data, s.spaces[q])
    ensures Abs(t) == Abs(s)[r := SpaceView(t.data, t.spaces[r])]
  {
  }

  ghost predicate Unmapped(s: Flat, fs: set<Frame>) {
    forall q, v :: q in s.spaces && v in s.spaces[q] ==> s.spaces[q][v].frame !in fs
  }

  lemma FreshUnmapped(s: Flat, fs: set<Frame>)
    requires Inv(s) && AllFree(s.pool, fs)
    ensures Unmapped(s, fs)
  {
    forall f | f in fs ensures Unmapped(s, {f}) { FreeUnheld(s, f); }
  }

  /** Overwriting frames nobody maps is invisible. */
  lemma FreshViews(s: Flat, d: map<Frame, seq<Byte>>, fs: set<Frame>)
    requires Unmapped(s, fs) && d - fs == s.data - fs
    ensures forall q :: q in s.spaces ==> SpaceView(d, s.spaces[q]) == SpaceView(s.data, s.spaces[q])
  {
    assert forall f :: f !in fs ==> (f in d <==> f in d - fs) && (f in s.data <==> f in s.data - fs);
    assert forall f :: f !in fs && f in d ==> d[f] == (d - fs)[f] == (s.data - fs)[f] == s.data[f];
    forall q | q in s.spaces ensures SpaceView(d, s.spaces[q]) == SpaceView(s.data, s.spaces[q]) {
      SpaceViewSame(d, s.data, s.spaces[q]);
    }
  }

  lemma PutSpaceView(d: map<Frame, seq<Byte>>, sp: Space, v: Va, e: Entry)
    ensures SpaceView(d, Put(sp, v, e)) == PutView(SpaceView(d, sp), v, ViewOf(d, e))
  {
  }

  lemma CowedViews(d: map<Frame, seq<Byte>>, sp: Space)
    requires forall v :: v in sp ==> v < VA_LIMIT
    ensures SpaceView(d, CowedBelow(sp, VA_LIMIT)) == SpaceView(d, CowedCopy(sp, VA_LIMIT)) == SpaceView(d, sp)
  {
  }

  lemma ForkAbs(s: Flat, p: Frame, c: Frame, ts: set<Frame>)
    requires Shape(s.pool) && p in s.spaces && (forall v :: v in s.spaces[p] ==> v < VA_LIMIT) && Unmapped(s, ts + {c})
    ensures Abs(Fork(s, p, c, ts, VA_LIMIT)) == EagerStep(Abs(s), ForkOp(p, c, ts))
  {
    hide AddRefs, TakenAll, SpaceView, CowedBelow, CowedCopy, Within;
    var t := Fork(s, p, c, ts, VA_LIMIT);
    CowedViews(t.data, s.spaces[p]);
    FreshViews(s, t.data, ts + {c});
  }

  lemma FillAbs(s: Flat, r: Frame, v: Va, f: Frame, ts: set<Frame>, bytes: seq<Byte>, w: bool, u: bool, nx: bool)
    requires Shape(s.pool) && r in s.spaces && Unmapped(s, ts + {f})
    ensures Abs(Fill(s, r, v, f, ts, bytes, w, u, nx)) == EagerStep(Abs(s), FillOp(r, v, f, ts, bytes, w, u, nx))
  {
    var t := Fill(s, r, v, f, ts, bytes, w, u, nx);
    assert t.data - (ts + {f}) == s.data - (ts + {f});
    FreshViews(s, t.data, ts + {f});
    PutSpaceView(t.data, s.spaces[r], v, FillEntry(f, w, u, nx));
    AbsReplace(s, t, r);
  }

  lemma LibraryAbs(s: Flat, r: Frame, v: Va, f: Frame, ts: set<Frame>, bytes: seq<Byte>, x: bool)
    requires Shape(s.pool) && r in s.spaces && f in s.data && s.data[f] == bytes && f !in ts && Unmapped(s, ts)
    ensures Abs(Library(s, r, v, f, ts, x)) == EagerStep(Abs(s), LibraryOp(r, v, f, ts, bytes, x))
  {
    var t := Library(s, r, v, f, ts, x);
    assert t.data - ts == s.data - ts;
    FreshViews(s, t.data, ts);
    PutSpaceView(t.data, s.spaces[r], v, FillEntry(f, false, true, !x));
    AbsReplace(s, t, r);
  }

  lemma CowReuseAbs(s: Flat, r: Frame, v: Va)
    requires r in s.spaces && v in s.spaces[r] && s.spaces[r][v].cow
    ensures Abs(CowReuse(s, r, v)) == Abs(s)
  {
    var t := CowReuse(s, r, v);
    PutSpaceView(s.data, s.spaces[r], v, Privatised(s.spaces[r][v], s.spaces[r][v].frame));
    AbsReplace(s, t, r);
    assert SpaceView(s.data, t.spaces[r]) == Abs(s)[r];
  }

  lemma CowCopyAbs(s: Flat, r: Frame, v: Va, f: Frame)
    requires Shape(s.pool) && r in s.spaces && v in s.spaces[r] && s.spaces[r][v].cow && Unmapped(s, {f})
    requires f < s.pool.total && s.spaces[r][v].frame in s.data
    ensures Abs(CowCopy(s, r, v, f)) == Abs(s)
  {
    var t := CowCopy(s, r, v, f);
    assert t.data - {f} == s.data - {f};
    FreshViews(s, t.data, {f});
    PutSpaceView(t.data, s.spaces[r], v, Privatised(s.spaces[r][v], f));
    AbsReplace(s, t, r);
    assert SpaceView(t.data, t.spaces[r]) == Abs(s)[r];
  }

  /** A store reaches one page of one space, because a writable frame has one holder. */
  lemma StoreAbs(s: Flat, r: Frame, v: Va, off: nat, b: Byte)
    requires r in s.spaces && v in s.spaces[r] && Sole(s.spaces, r, v)
    requires s.spaces[r][v].frame in s.data && off < |s.data[s.spaces[r][v].frame]|
    ensures Abs(Store(s, r, v, off, b)) == EagerStep(Abs(s), StoreOp(r, v, off, b))
  {
    var t := Store(s, r, v, off, b);
    forall q | q in s.spaces && q != r ensures SpaceView(t.data, s.spaces[q]) == SpaceView(s.data, s.spaces[q]) {
      SpaceViewSame(t.data, s.data, s.spaces[q]);
    }
    AbsReplace(s, t, r);
    assert SpaceView(t.data, s.spaces[r]) == Poke(SpaceView(s.data, s.spaces[r]), v, off, b);
  }

  lemma UnmapAbs(s: Flat, r: Frame, lo: nat, hi: nat)
    requires Shape(s.pool) && r in s.spaces
    ensures Abs(Unmap(s, r, lo, hi)) == EagerStep(Abs(s), UnmapOp(r, lo, hi))
  {
    hide DropRefs, SpaceView, Without, WithoutViews;
    AbsReplace(s, Unmap(s, r, lo, hi), r);
    WithoutSpaceView(s.data, s.spaces[r], lo, hi);
  }

  lemma WithoutSpaceView(d: map<Frame, seq<Byte>>, sp: Space, lo: nat, hi: nat)
    ensures SpaceView(d, Without(sp, lo, hi)) == WithoutViews(SpaceView(d, sp), lo, hi)
  {
  }

  lemma ProtectSpaceView(d: map<Frame, seq<Byte>>, sp: Space, lo: nat, hi: nat, w: bool, x: bool)
    requires w || forall v :: v in sp && lo <= v < hi ==> !sp[v].cow
    ensures SpaceView(d, ProtectedSpace(sp, lo, hi, w, x)) == ProtectViews(SpaceView(d, sp), lo, hi, w, x)
  {
  }

  /** mprotect has its eager meaning if and only if it grants write or touches no COW page:
      a COW page denied write stays writable through the fault handler. */
  lemma ProtectAbs(s: Flat, r: Frame, lo: nat, hi: nat, w: bool, x: bool)
    requires r in s.spaces
    ensures Abs(Protect(s, r, lo, hi, w, x)) == EagerStep(Abs(s), ProtectOp(r, lo, hi, w, x)) <==>
              w || NoCow(s, r, lo, hi)
  {
    hide SpaceView, ProtectedSpace, ProtectViews;
    var t := Protect(s, r, lo, hi, w, x);
    AbsReplace(s, t, r);
    if w || NoCow(s, r, lo, hi) {
      ProtectSpaceView(s.data, s.spaces[r], lo, hi, w, x);
    } else {
      var v :| v in s.spaces[r] && lo <= v < hi && s.spaces[r][v].cow;
      CowStaysWritable(s.data, s.spaces[r], lo, hi, x, v);
    }
  }

  lemma CowStaysWritable(d: map<Frame, seq<Byte>>, sp: Space, lo: nat, hi: nat, x: bool, v: Va)
    requires v in sp && lo <= v < hi && sp[v].cow
    ensures SpaceView(d, ProtectedSpace(sp, lo, hi, false, x)) != ProtectViews(SpaceView(d, sp), lo, hi, false, x)
  {
    assert SpaceView(d, ProtectedSpace(sp, lo, hi, false, x))[v].writable
        && !ProtectViews(SpaceView(d, sp), lo, hi, false, x)[v].writable;
  }

  lemma NewSpaceAbs(s: Flat, c: Frame)
    requires Shape(s.pool) && Unmapped(s, {c})
    ensures Abs(NewSpace(s, c)) == Abs(s)[c := map[]]
  {
    FreshViews(s, s.data - {c}, {c});
    assert SpaceView(s.data - {c}, map[]) == map[];
  }

  lemma GrowAbs(s: Flat, r: Frame, ts: set<Frame>, ks: set<Frame>)
    requires Shape(s.pool) && Unmapped(s, ts + ks)
    ensures Abs(Grow(s, r, ts, ks)) == Abs(s)
  {
    var t := Grow(s, r, ts, ks);
    assert t.data - (ts + ks) == s.data - (ts + ks);
    FreshViews(s, t.data, ts + ks);
  }

  lemma TeardownAbs(s: Flat, r: Frame)
    requires Shape(s.pool) && r in s.spaces
    ensures Abs(Teardown(s, r)) == Abs(s) - {r}
  {
  }

  lemma PrivateAbs(s: Flat, op: Op)
    requires Inv(s) && Enabled(s, op) && (op.CowReuseOp? || op.CowCopyOp? || op.StoreOp?)
    ensures Abs(Apply(s, op)) == EagerStep(Abs(s), op)
  {
    assert EntryOk(s, op.r, op.v);
    match op
    case CowReuseOp(r, v) => CowReuseAbs(s, r, v);
    case CowCopyOp(r, v, f) => assert f in {f}; FreshUnmapped(s, {f}); CowCopyAbs(s, r, v, f);
    case StoreOp(r, v, off, b) => StoreAbs(s, r, v, off, b);
  }

  lemma FreshAbs(s: Flat, op: Op)
    requires Inv(s) && Enabled(s, op) && (op.NewSpaceOp? || op.ForkOp? || op.FillOp? || op.StallOp? || op.LibraryOp?)
    ensures Abs(Apply(s, op)) == EagerStep(Abs(s), op)
  {
    match op
    case NewSpaceOp(c) => FreshUnmapped(s, {c}); NewSpaceAbs(s, c);
    case ForkOp(p, c, ts) =>
      FreshUnmapped(s, ts + {c});
      forall v | v in s.spaces[p] ensures v < VA_LIMIT { assert EntryOk(s, p, v); }
      ForkAbs(s, p, c, ts);
    case FillOp(r, v, f, ts, bytes, w, u, nx) => FreshUnmapped(s, ts + {f}); FillAbs(s, r, v, f, ts, bytes, w, u, nx);
    case StallOp(r, ts, lost) => FreshUnmapped(s, ts + lost); GrowAbs(s, r, ts, lost);
    case LibraryOp(r, v, f, ts, bytes, x) =>
      FreshUnmapped(s, ts);
      if f in ts { FreeUnheld(s, f); }
      LibraryAbs(s, r, v, f, ts, bytes, x);
  }

  /** A fork that is given up is invisible. */
  lemma AbortAbs(s: Flat, p: Frame, c: Frame, ts: set<Frame>, n: nat)
    requires Inv(s) && p in s.spaces && AllFree(s.pool, ts + {c})
    ensures Abs(Teardown(Fork(s, p, c, ts, n), c)) == Abs(s)
  {
    hide Counted, Rooted, Leaves, PinsHeld, CountTrue, Teardown, Fork, SpaceView, CowedBelow, Abs, DropRefs, AddRefs,
         TakenAll;
    ForkShape(s, p, c, ts, n);
    var t := Teardown(Fork(s, p, c, ts, n), c);
    ForkTeardownShape(s, p, c, ts, n);
    FreshUnmapped(s, ts + {c});
    assert t.data - (ts + {c}) == s.data - (ts + {c});
    FreshViews(s, t.data, ts + {c});
    CowedSame(t.data, s.spaces[p], n);
    AbsReplace(s, t, p);
    AbsPut(s, p);
  }

  lemma ForkShape(s: Flat, p: Frame, c: Frame, ts: set<Frame>, n: nat)
    requires Shape(s.pool) && p in s.spaces
    ensures Shape(Fork(s, p, c, ts, n).pool) && c in Fork(s, p, c, ts, n).spaces
  {
  }

  lemma AbsPut(s: Flat, p: Frame)
    requires p in s.spaces
    ensures Abs(s)[p := SpaceView(s.data, s.spaces[p])] == Abs(s)
  {
  }

  lemma CowedSame(d: map<Frame, seq<Byte>>, sp: Space, n: nat)
    ensures SpaceView(d, CowedBelow(sp, n)) == SpaceView(d, sp)
  {
  }

  /** The operation has its eager meaning to the last right: all but taking write from COW pages. */
  ghost predicate Exact(s: Flat, op: Op) {
    op.ProtectOp? ==> op.w || op.r !in s.spaces || NoCow(s, op.r, op.lo, op.hi)
  }

  /** Each such operation of the COW kernel is the corresponding operation of the eager one, and
      no other is. */
  lemma ApplyAbs(s: Flat, op: Op)
    requires Inv(s) && Enabled(s, op)
    ensures Abs(Apply(s, op)) == EagerStep(Abs(s), op) <==> Exact(s, op)
  {
    match op
    case UnmapOp(r, lo, hi) => UnmapAbs(s, r, lo, hi);
    case ProtectOp(r, lo, hi, w, x) => ProtectAbs(s, r, lo, hi, w, x);
    case TeardownOp(r) => TeardownAbs(s, r);
    case AbortOp(p, c, ts, n) => AbortAbs(s, p, c, ts, n);
    case CowReuseOp(_, _) => PrivateAbs(s, op);
    case CowCopyOp(_, _, _) => PrivateAbs(s, op);
    case StoreOp(_, _, _, _) => PrivateAbs(s, op);
    case _ => FreshAbs(s, op);
  }

  // ---- reading what an eager copy would read -------------------------------

  /** `b` shows the same pages with the same bytes as `a`, and allows at least the same writes. */
  ghost predicate SpaceAgrees(a: EagerSpace, b: EagerSpace) {
    a.Keys == b.Keys && forall v {:trigger a[v]} {:trigger b[v]} ::
        v in a ==> b[v] == a[v].(writable := b[v].writable) && (a[v].writable ==> b[v].writable)
  }

  ghost predicate Agrees(m: Eager, a: Eager) {
    m.Keys == a.Keys && forall r {:trigger m[r]} {:trigger a[r]} :: r in m ==> SpaceAgrees(m[r], a[r])
  }

  lemma AgreesRefl(m: Eager)
    ensures Agrees(m, m)
  {
  }

  lemma AgreesTrans(a: Eager, b: Eager, c: Eager)
    requires Agrees(a, b) && Agrees(b, c)
    ensures Agrees(a, c)
  {
    forall r | r in a ensures SpaceAgrees(a[r], c[r]) {
      var x, y, z := a[r], b[r], c[r];
      forall v | v in x
        ensures z[v] == x[v].(writable := z[v].writable) && (x[v].writable ==> z[v].writable)
      {
        assert v in y;
      }
    }
  }

  /** The eager machine takes agreeing states to agreeing states. */
  lemma EagerMonotone(m: Eager, a: Eager, op: Op)
    requires Agrees(m, a)
    ensures Agrees(EagerStep(m, op), EagerStep(a, op))
  {
    hide PutView, Poke, WithoutViews, ProtectViews, SpaceAgrees;
    AgreesRefl(map[0 := map[]]);
    match op
    case FillOp(r, v, _, _, bytes, w, u, nx) => if r in m { PutAgrees(m[r], a[r], v, PageView(bytes, w, u, nx)); }
    case LibraryOp(r, v, _, _, bytes, x) => if r in m { PutAgrees(m[r], a[r], v, PageView(bytes, false, true, !x)); }
    case StoreOp(r, v, off, b) => if r in m { PokeAgrees(m[r], a[r], v, off, b); }
    case UnmapOp(r, lo, hi) => if r in m { WithoutAgrees(m[r], a[r], lo, hi); }
    case ProtectOp(r, lo, hi, w, x) => if r in m { ProtectAgrees(m[r], a[r], lo, hi, w, x); }
    case NewSpaceOp(c) => EmptyAgrees();
    case _ =>
  }

  lemma EmptyAgrees()
    ensures SpaceAgrees(map[], map[])
  {
  }

  lemma PutAgrees(x: EagerSpace, y: EagerSpace, v: Va, view: PageView)
    requires SpaceAgrees(x, y)
    ensures SpaceAgrees(PutView(x, v, view), PutView(y, v, view))
  {
  }

  lemma PokeAgrees(x: EagerSpace, y: EagerSpace, v: Va, off: nat, b: Byte)
    requires SpaceAgrees(x, y)
    ensures (v in x <==> v in y) && (v in x ==> SpaceAgrees(Poke(x, v, off, b), Poke(y, v, off, b)))
  {
    if v in x { assert y[v] == x[v].(writable := y[v].writable); }
  }

  lemma WithoutAgrees(x: EagerSpace, y: EagerSpace, lo: nat, hi: nat)
    requires SpaceAgrees(x, y)
    ensures SpaceAgrees(WithoutViews(x, lo, hi), WithoutViews(y, lo, hi))
  {
  }

  lemma ProtectAgrees(x: EagerSpace, y: EagerSpace, lo: nat, hi: nat, w: bool, x': bool)
    requires SpaceAgrees(x, y)
    ensures SpaceAgrees(ProtectViews(x, lo, hi, w, x'), ProtectViews(y, lo, hi, w, x'))
  {
    var p, q := ProtectViews(x, lo, hi, w, x'), ProtectViews(y, lo, hi, w, x');
    forall v | v in p
      ensures q[v] == p[v].(writable := q[v].writable) && (p[v].writable ==> q[v].writable)
    {
      assert v in x && v in y;
    }
  }

  /** Any protection change agrees with its eager meaning. */
  lemma ProtectBytes(s: Flat, r: Frame, lo: nat, hi: nat, w: bool, x: bool)
    requires r in s.spaces
    ensures Agrees(EagerStep(Abs(s), ProtectOp(r, lo, hi, w, x)), Abs(Protect(s, r, lo, hi, w, x)))
  {
    hide SpaceView, ProtectedSpace, ProtectViews;
    var t := Protect(s, r, lo, hi, w, x);
    AbsReplace(s, t, r);
    AgreesRefl(Abs(s));
    ProtectSpaceBytes(s.data, s.spaces[r], lo, hi, w, x);
  }

  lemma ProtectSpaceBytes(d: map<Frame, seq<Byte>>, sp: Space, lo: nat, hi: nat, w: bool, x: bool)
    ensures SpaceAgrees(ProtectViews(SpaceView(d, sp), lo, hi, w, x), SpaceView(d, ProtectedSpace(sp, lo, hi, w, x)))
  {
    hide ViewOf, Reprotected;
    var a, b := ProtectViews(SpaceView(d, sp), lo, hi, w, x), SpaceView(d, ProtectedSpace(sp, lo, hi, w, x));
    assert a.Keys == sp.Keys == b.Keys;
    forall v | v in sp
      ensures b[v] == a[v].(writable := b[v].writable) && (a[v].writable ==> b[v].writable)
    {
      ReprotectedView(d, sp[v], w, x);
    }
  }

  lemma ReprotectedView(d: map<Frame, seq<Byte>>, e: Entry, w: bool, x: bool)
    ensures var a, b := ViewOf(d, e).(writable := w, user := true, nx := !x), ViewOf(d, Reprotected(e, w, x));
            b == a.(writable := b.writable) && (a.writable ==> b.writable)
  {
  }

  /** Each operation of the COW kernel agrees with the corresponding operation of the eager one. */
  lemma ApplyAgrees(s: Flat, op: Op)
    requires Inv(s) && Enabled(s, op)
    ensures Agrees(EagerStep(Abs(s), op), Abs(Apply(s, op)))
  {
    hide Agrees, Abs, EagerStep;
    ApplyAbs(s, op);
    if op.ProtectOp? { ProtectBytes(s, op.r, op.lo, op.hi, op.w, op.x); } else { AgreesRefl(Abs(Apply(s, op))); }
  }

  // ---- whole runs ----------------------------------------------------------

  ghost predicate StepOk(s: Flat, op: Op, t: Flat) {
    Inv(s) ==> Enabled(s, op) && t == Apply(s, op)
  }

  /** `states` is a run of `ops`: each operation was possible when it happened. */
  ghost predicate Run(states: seq<Flat>, ops: seq<Op>) {
    |states| == |ops| + 1 && forall i {:trigger ops[i]} :: 0 <= i < |ops| ==> StepOk(states[i], ops[i], states[i + 1])
  }

  function EagerRun(m: Eager, ops: seq<Op>): Eager {
    if ops == [] then m else EagerStep(EagerRun(m, ops[..|ops| - 1]), ops[|ops| - 1])
  }

  /** Copy-on-write fork is indistinguishable from eager copying: in every reachable state every
      space holds the same pages with the same bytes as under eager copying and may write where
      it could, and the frame accounting is exact. */
  lemma {:induction false} CowRefinesEager(states: seq<Flat>, ops: seq<Op>)
    requires Run(states, ops) && Inv(states[0])
    ensures Inv(states[|ops|])
    ensures Agrees(EagerRun(Abs(states[0]), ops), Abs(states[|ops|]))
  {
    hide Agrees, Abs, EagerStep, Inv, Enabled;
    if ops == [] {
      AgreesRefl(Abs(states[0]));
    } else {
      var n := |ops| - 1;
      assert StepOk(states[n], ops[n], states[n + 1]);
      RunPrefix(states, ops);
      CowRefinesEager(states[..n + 1], ops[..n]);
      ApplyInv(states[n], ops[n]);
      ApplyAgrees(states[n], ops[n]);
      EagerMonotone(EagerRun(Abs(states[0]), ops[..n]), Abs(states[n]), ops[n]);
      AgreesTrans(EagerRun(Abs(states[0]), ops), EagerStep(Abs(states[n]), ops[n]), Abs(states[n + 1]));
    }
  }

  lemma RunPrefix(states: seq<Flat>, ops: seq<Op>)
    requires Run(states, ops) && ops != []
    ensures Run(states[..|ops|], ops[..|ops| - 1])
  {
    var n := |ops| - 1;
    forall i | 0 <= i < n
      ensures StepOk(states[..n + 1][i], ops[..n][i], states[..n + 1][i + 1])
    {
      assert StepOk(states[i], ops[i], states[i + 1]);
    }
  }

  /** When mprotect never takes write from a COW page, the rights are the eager ones too. */
  lemma {:induction false} CowRefinesExactly(states: seq<Flat>, ops: seq<Op>)
    requires Run(states, ops) && Inv(states[0]) && forall i {:trigger ops[i]} ::
              0 <= i < |ops| ==> Exact(states[i], ops[i])
    ensures Inv(states[|ops|])
    ensures Abs(states[|ops|]) == EagerRun(Abs(states[0]), ops)
  {
    hide Abs, EagerStep, Inv, Enabled, Exact;
    if ops != [] {
      var n := |ops| - 1;
      assert StepOk(states[n], ops[n], states[n + 1]) && Exact(states[n], ops[n]);
      RunPrefix(states, ops);
      forall i | 0 <= i < n ensures Exact(states[..n + 1][i], ops[..n][i]) { assert Exact(states[i], ops[i]); }
      CowRefinesExactly(states[..n + 1], ops[..n]);
      ApplyInv(states[n], ops[n]);
      ApplyAbs(states[n], ops[n]);
    }
  }

  // ---- fork undone ---------------------------------------------------------

  /** One frame across fork and teardown. */
  lemma ForkTeardownAt(p: Pool, used: Space, copy: Space, ts: set<Frame>, f: Frame)
    requires Shape(p) && f < p.total && p.ref[f] <= MAX_REF && |Uses(copy, f)| == |Uses(used, f)| <= p.ref[f]
    requires f in ts ==> p.free[f] && p.ref[f] == 0
    requires f !in ts && p.free[f] ==> p.ref[f] == 0
    ensures var q := DropRefs(AddRefs(TakenAll(p, ts), used), copy, ts);
            (q.ref[f] == p.ref[f] && q.free[f] == p.free[f]) <==> p.ref[f] + |Uses(used, f)| <= MAX_REF
  {
  }

  lemma TablesBack(tables: map<Frame, Frame>, ts: set<Frame>, c: Frame)
    requires forall t :: t in ts ==> t !in tables
    requires forall t :: t in tables ==> tables[t] != c
    ensures var after := tables + AllMapTo(ts, c);
            (set t | t in after && after[t] == c) == ts && after - ts == tables
  {
  }

  lemma ForkTables(s: Flat, p: Frame, c: Frame, ts: set<Frame>, n: nat)
    requires Inv(s) && p in s.spaces && AllFree(s.pool, ts + {c})
    ensures TablesOf(Fork(s, p, c, ts, n), c) == ts + {c} && c !in s.spaces
    ensures Fork(s, p, c, ts, n).tables - (ts + {c}) == s.tables
  {
    forall f | f in ts + {c} ensures f !in s.tables { FreeUnheld(s, f); }
    assert c in ts + {c};
    TablesBack(s.tables, ts + {c}, c);
  }

  /** The free-page total follows the bitmap. */
  lemma SamePoolByFrame(p: Pool, q: Pool)
    requires Shape(p) && Shape(q) && p.total == q.total && p.pinned == q.pinned
    requires p.freePages == CountTrue(p.free[..p.total]) && q.freePages == CountTrue(q.free[..q.total])
    ensures SamePool(p, q) <==> forall f :: 0 <= f < p.total ==> p.ref[f] == q.ref[f] && p.free[f] == q.free[f]
  {
    if forall f :: 0 <= f < p.total ==> p.free[f] == q.free[f] { assert p.free[..p.total] == q.free[..q.total]; }
  }

  lemma ForkTeardownPool(p: Pool, used: Space, copy: Space, ts: set<Frame>)
    requires Valid(p) && AllFree(p, ts)
    requires forall f :: 0 <= f < p.total ==> |Uses(copy, f)| == |Uses(used, f)| <= p.ref[f]
    ensures SamePool(DropRefs(AddRefs(TakenAll(p, ts), used), copy, ts), p) <==> RoomFor(p, used)
  {
    var q := DropRefs(AddRefs(TakenAll(p, ts), used), copy, ts);
    forall f | 0 <= f < p.total
      ensures (q.ref[f] == p.ref[f] && q.free[f] == p.free[f]) <==> p.ref[f] + |Uses(used, f)| <= MAX_REF
    {
      ForkTeardownAt(p, used, copy, ts, f);
    }
    SamePoolByFrame(q, p);
  }

  lemma ForkTeardownCounts(s: Flat, p: Frame, n: nat)
    requires Inv(s) && p in s.spaces
    ensures forall f :: 0 <= f < s.pool.total ==>
      |Uses(CowedCopy(s.spaces[p], n), f)| == |Uses(Within(s.spaces[p], 0, n), f)| <= s.pool.ref[f]
  {
    var sp := s.spaces[p];
    forall f | 0 <= f < s.pool.total
      ensures |Uses(CowedCopy(sp, n), f)| == |Uses(Within(sp, 0, n), f)| <= s.pool.ref[f]
    {
      UsesSame(Within(sp, 0, n), CowedCopy(sp, n), f);
      UsesBound(s, p, Within(sp, 0, n), f);
    }
  }

  lemma ForkTeardownBalance(s: Flat, p: Frame, c: Frame, ts: set<Frame>, n: nat)
    requires Inv(s) && p in s.spaces && AllFree(s.pool, ts + {c})
    ensures SamePool(DropRefs(AddRefs(TakenAll(s.pool, ts + {c}), Within(s.spaces[p], 0, n)), CowedCopy(s.spaces[p], n),
              ts + {c}), s.pool)
       <==> NoSaturation(s, p, n)
  {
    ForkTeardownCounts(s, p, n);
    ForkTeardownPool(s.pool, Within(s.spaces[p], 0, n), CowedCopy(s.spaces[p], n), ts + {c});
  }

  lemma ForkTeardownShape(s: Flat, p: Frame, c: Frame, ts: set<Frame>, n: nat)
    requires Inv(s) && p in s.spaces && AllFree(s.pool, ts + {c})
    ensures var t := Teardown(Fork(s, p, c, ts, n), c);
            && t.spaces == s.spaces[p := CowedBelow(s.spaces[p], n)] && t.tables == s.tables && t.kernel == s.kernel
            && t.data == s.data - (ts + {c})
            && t.pool == DropRefs(AddRefs(TakenAll(s.pool, ts + {c}), Within(s.spaces[p], 0, n)),
                 CowedCopy(s.spaces[p], n), ts + {c})
  {
    ForkTables(s, p, c, ts, n);
    var f := Fork(s, p, c, ts, n);
    assert f.spaces - {c} == s.spaces[p := CowedBelow(s.spaces[p], n)];
    assert f.spaces[c] == CowedCopy(s.spaces[p], n);
  }

  /** Fork (complete, or stopped by an allocation failure at page `n`) followed by
      free_page_directory of the child gives back every table, and every count, every bitmap bit
      and the free-page total if and only if no 8-bit count saturated on the way. */
  lemma ForkTeardownConserves(s: Flat, p: Frame, c: Frame, ts: set<Frame>, n: nat)
    requires Inv(s) && p in s.spaces && AllFree(s.pool, ts + {c})
    ensures var t := Teardown(Fork(s, p, c, ts, n), c);
            && t.spaces == s.spaces[p := CowedBelow(s.spaces[p], n)]
            && t.tables == s.tables && t.kernel == s.kernel && t.data == s.data - (ts + {c})
            && (SamePool(t.pool, s.pool) <==> NoSaturation(s, p, n))
  {
    ForkTeardownShape(s, p, c, ts, n);
    ForkTeardownBalance(s, p, c, ts, n);
  }

  /** Equal over the managed frames. */
  ghost predicate SamePool(p: Pool, q: Pool)
  {
    && Shape(p) && Shape(q) && p.total == q.total && p.pinned == q.pinned && p.freePages == q.freePages
    && (forall f :: 0 <= f < p.total ==> p.ref[f] == q.ref[f] && p.free[f] == q.free[f])
  }

  // ---- progress ------------------------------------------------------------

  /** A write that the eager machine allows goes through: at once, or after one COW fault,
      unless the fault needs a frame and none is free. */
  lemma WriteGoesThrough(s: Flat, r: Frame, v: Va, off: nat, b: Byte)
    requires Inv(s) && r in s.spaces && v in s.spaces[r] && off < PAGE_BYTES
    requires Abs(s)[r][v].writable && Abs(s)[r][v].user
    ensures
      || Enabled(s, StoreOp(r, v, off, b))
      || (Enabled(s, CowReuseOp(r, v)) && Apply(s, CowReuseOp(r, v)).spaces[r][v].writable
            && Apply(s, CowReuseOp(r, v)).spaces[r][v].user)
      || (forall f :: 0 < f < s.pool.total && s.pool.free[f] ==>
            Enabled(s, CowCopyOp(r, v, f)) && Apply(s, CowCopyOp(r, v, f)).spaces[r][v].writable
                && Apply(s, CowCopyOp(r, v, f)).spaces[r][v].user)
  {
  }

  /** Isolation, read off the eager machine: a store changes no page of any other space and no
      other page of its own. */
  lemma StoreIsolated(s: Flat, r: Frame, v: Va, off: nat, b: Byte, q: Frame, u: Va)
    requires r in s.spaces && v in s.spaces[r] && EntryOk(s, r, v) && s.spaces[r][v].writable && off < PAGE_BYTES
    requires q in s.spaces && u in s.spaces[q]
    ensures ViewOf(Store(s, r, v, off, b).data, s.spaces[q][u]) ==
            if q == r && u == v then ViewOf(s.data, s.spaces[q][u]).(bytes := s.data[s.spaces[r][v].frame][off := b])
                else ViewOf(s.data, s.spaces[q][u])
  {
    assert Sole(s.spaces, r, v);
  }
}
