/** The operations of kernel/paging.c on flat address spaces, in closed form, and the proof
    that each keeps the accounting invariant. */
module SpaceOps {
  import opened Frames
  import opened AddressSpaces

  // ---- batches of pool operations ------------------------------------------

  function Rebuilt(p: Pool, free: seq<bool>, ref: seq<nat>): (q: Pool)
    requires Shape(p) && |free| == |ref| == MAX_PAGES
    ensures Shape(q)
  {
    Pool(p.total, free, ref, p.pinned, CountTrue(free[..p.total]))
  }

  /** alloc_page once for each frame of `ts`. */
  function TakenAll(p: Pool, ts: set<Frame>): (q: Pool)
    requires Shape(p)
    ensures Shape(q) && q.total == p.total && q.pinned == p.pinned
  {
    Rebuilt(p, seq(MAX_PAGES, f requires 0 <= f < MAX_PAGES => p.free[f] && f !in ts),
               seq(MAX_PAGES, f requires 0 <= f < MAX_PAGES => if f in ts then 1 else p.ref[f]))
  }

  /** page_incref once for each use of a frame in `sp`. */
  ghost function AddRefs(p: Pool, sp: Space): (q: Pool)
    requires Shape(p)
    ensures Shape(q) && q.total == p.total && q.pinned == p.pinned
  {
    p.(ref := seq(MAX_PAGES, f requires 0 <= f < MAX_PAGES =>
      if f >= p.total || p.ref[f] > MAX_REF then p.ref[f]
      else if p.ref[f] + |Uses(sp, f)| <= MAX_REF then p.ref[f] + |Uses(sp, f)| else MAX_REF))
  }

  /** free_page once for each use of a frame in `sp` and once for each frame of `ts`. */
  ghost function DropRefs(p: Pool, sp: Space, ts: set<Frame>): (q: Pool)
    requires Shape(p)
    ensures Shape(q) && q.total == p.total && q.pinned == p.pinned
  {
    Rebuilt(p, seq(MAX_PAGES, f requires 0 <= f < MAX_PAGES => p.free[f]
        || (f < p.total && 0 < |Uses(sp, f)| + B(f in ts) == p.ref[f])),
               seq(MAX_PAGES, f requires 0 <= f < MAX_PAGES =>
                 if f < p.total && |Uses(sp, f)| + B(f in ts) <= p.ref[f] then p.ref[f] - |Uses(sp, f)| - B(f in ts)
                     else p.ref[f]))
  }

  ghost predicate AllFree(p: Pool, ts: set<Frame>)
    requires Shape(p)
  {
    forall t :: t in ts ==> 0 < t < p.total && p.free[t]
  }

  // ---- the operations ------------------------------------------------------

  /** A page after memset. */
  function ZeroPage(): (z: seq<Byte>)
    ensures |z| == PAGE_BYTES && forall i :: 0 <= i < PAGE_BYTES ==> z[i] == 0
  {
    seq(PAGE_BYTES, i => 0)
  }

  function AllMapTo<T>(fs: set<Frame>, x: T): (m: map<Frame, T>)
    ensures m.Keys == fs && forall f :: f in fs ==> m[f] == x
  {
    map f | f in fs :: x
  }

  /** Frames `ts` become tables of `r`; frames `ks` are allocated, zeroed and not mapped yet. */
  function Grow(s: Flat, r: Frame, ts: set<Frame>, ks: set<Frame>): (g: Flat)
    requires Shape(s.pool)
    ensures g.spaces == s.spaces && g.kernel == s.kernel + ks && Shape(g.pool) && g.pool.total == s.pool.total
  {
    s.(pool := TakenAll(s.pool, ts + ks), tables := s.tables + AllMapTo(ts, r), kernel := s.kernel + ks,
       data := (s.data - ts) + AllMapTo(ks, ZeroPage()))
  }

  /** alloc_page_directory handing out the empty space rooted at `c`. */
  function NewSpace(s: Flat, c: Frame): Flat
    requires Shape(s.pool)
  {
    s.(pool := TakenAll(s.pool, {c}), tables := s.tables[c := c], spaces := s.spaces[c := map[]], data := s.data - {c})
  }

  /** Map the freshly allocated frame `e.frame`, holding `bytes`, at `v`. */
  function MapOwned(s: Flat, r: Frame, v: Va, e: Entry, bytes: seq<Byte>): Flat
    requires r in s.spaces
  {
    s.(spaces := s.spaces[r := Put(s.spaces[r], v, e)], kernel := s.kernel - {e.frame},
        data := s.data[e.frame := bytes])
  }

  /** The same entry written over a live one: nobody gives back the reference that one stood for, so
      from then on the kernel holds it. */
  function MapOver(s: Flat, r: Frame, v: Va, e: Entry, bytes: seq<Byte>): Flat
    requires r in s.spaces && v in s.spaces[r]
  {
    var t := MapOwned(s, r, v, e, bytes);
    t.(kernel := t.kernel + {s.spaces[r][v].frame})
  }

  /** map_page_ro plus page_incref: one more read-only mapping of a frame already held. */
  function MapShared(s: Flat, r: Frame, v: Va, e: Entry): Flat
    requires Shape(s.pool) && r in s.spaces
  {
    s.(spaces := s.spaces[r := Put(s.spaces[r], v, e)], pool := Shared(s.pool, e.frame))
  }

  /** What fork leaves behind in both parent and child. */
  function Cowed(e: Entry): Entry {
    if e.writable then e.(writable := false, cow := true) else e
  }

  /** The parent once the walk has passed page `n`. */
  function CowedBelow(sp: Space, n: nat): Space {
    map v | v in sp :: if v < n then Cowed(sp[v]) else sp[v]
  }

  /** The child once the walk has passed page `n`. */
  function CowedCopy(sp: Space, n: nat): Space {
    map v | v in sp && v < n :: Cowed(sp[v])
  }

  /** clone_page_directory_cow when its walk stops at page `n`: at VA_LIMIT it is complete,
      earlier a table for the child could not be allocated. */
  ghost function Fork(s: Flat, p: Frame, c: Frame, ts: set<Frame>, n: nat): Flat
    requires Shape(s.pool) && p in s.spaces
  {
    var sp := s.spaces[p];
    s.(pool := AddRefs(TakenAll(s.pool, ts + {c}), Within(sp, 0, n)),
       spaces := s.spaces[p := CowedBelow(sp, n)][c := CowedCopy(sp, n)],
       tables := s.tables + AllMapTo(ts + {c}, c), data := s.data - (ts + {c}))
  }

  /** Every 8-bit count has room for the uses in `sp`. */
  ghost predicate RoomFor(p: Pool, sp: Space)
    requires Shape(p)
  {
    forall f :: 0 <= f < p.total ==> p.ref[f] + |Uses(sp, f)| <= MAX_REF
  }

  /** Fork needs room in every 8-bit count it bumps. */
  ghost predicate NoSaturation(s: Flat, p: Frame, n: nat)
    requires Shape(s.pool) && p in s.spaces
  {
    RoomFor(s.pool, Within(s.spaces[p], 0, n))
  }

  function Within(sp: Space, lo: nat, hi: nat): Space {
    map v | v in sp && lo <= v < hi :: sp[v]
  }

  function Without(sp: Space, lo: nat, hi: nat): Space {
    map v | v in sp && !(lo <= v < hi) :: sp[v]
  }

  /** vm_free_range over the pages `[lo, hi)`. */
  ghost function Unmap(s: Flat, r: Frame, lo: nat, hi: nat): Flat
    requires Shape(s.pool) && r in s.spaces
  {
    s.(pool := DropRefs(s.pool, Within(s.spaces[r], lo, hi), {}), spaces := s.spaces[r := Without(s.spaces[r], lo, hi)])
  }

  ghost function TablesOf(s: Flat, r: Frame): set<Frame> {
    set t | t in s.tables && s.tables[t] == r
  }

  /** free_page_directory. */
  ghost function Teardown(s: Flat, r: Frame): Flat
    requires Shape(s.pool) && r in s.spaces
  {
    s.(pool := DropRefs(s.pool, s.spaces[r], TablesOf(s, r)), spaces := s.spaces - {r},
        tables := s.tables - TablesOf(s, r))
  }

  /** The flag rewrite of vm_protect_range: a COW entry keeps its marker and stays unwritable. */
  function Reprotected(e: Entry, w: bool, x: bool): Entry {
    Entry(true, w && !e.cow, true, false, e.demand, e.cow, !x, e.frame)
  }

  function ProtectedSpace(sp: Space, lo: nat, hi: nat, w: bool, x: bool): Space {
    map v | v in sp :: if lo <= v < hi then Reprotected(sp[v], w, x) else sp[v]
  }

  function Protect(s: Flat, r: Frame, lo: nat, hi: nat, w: bool, x: bool): Flat
    requires r in s.spaces
  {
    s.(spaces := s.spaces[r := ProtectedSpace(s.spaces[r], lo, hi, w, x)])
  }

  /** The entry the COW branch of vm_handle_fault installs. */
  function Privatised(e: Entry, f: Frame): Entry {
    Entry(true, true, e.user, false, false, false, e.nx, f)
  }

  /** The COW fault of the last holder: the frame becomes writable in place. */
  function CowReuse(s: Flat, r: Frame, v: Va): Flat
    requires r in s.spaces && v in s.spaces[r]
  {
    var e := s.spaces[r][v];
    s.(spaces := s.spaces[r := Put(s.spaces[r], v, Privatised(e, e.frame))])
  }

  /** The COW fault of a sharer: move to the private copy `nf` and drop the shared frame. */
  function CowCopy(s: Flat, r: Frame, v: Va, nf: Frame): Flat
    requires Shape(s.pool) && r in s.spaces && v in s.spaces[r]
    requires nf < s.pool.total && s.spaces[r][v].frame in s.data
  {
    var e := s.spaces[r][v];
    s.(pool := Dropped(Taken(s.pool, nf), e.frame),
       spaces := s.spaces[r := Put(s.spaces[r], v, Privatised(e, nf))],
       data := s.data[nf := s.data[e.frame]])
  }

  /** A user store that the hardware lets through. */
  function Store(s: Flat, r: Frame, v: Va, off: nat, b: Byte): Flat
    requires r in s.spaces && v in s.spaces[r]
    requires s.spaces[r][v].frame in s.data && off < |s.data[s.spaces[r][v].frame]|
  {
    var f := s.spaces[r][v].frame;
    s.(data := s.data[f := s.data[f][off := b]])
  }

  // ---- pool facts ----------------------------------------------------------

  lemma TakenAllValid(p: Pool, ts: set<Frame>)
    requires Valid(p) && AllFree(p, ts)
    ensures Valid(TakenAll(p, ts))
  {
  }

  /** Taking the frames one at a time is taking them all. */
  lemma TakenAllOne(p: Pool, ts: set<Frame>, t: Frame)
    requires Valid(p) && AllFree(p, ts + {t}) && t !in ts
    ensures TakenAll(p, ts + {t}) == Taken(TakenAll(p, ts), t)
  {
    var q := TakenAll(p, ts);
    CountUpdatePrefix(q.free, p.total, t, false);
    assert q.free[t := false] == TakenAll(p, ts + {t}).free;
    assert q.ref[t := 1] == TakenAll(p, ts + {t}).ref;
  }

  lemma TakenAllNone(p: Pool)
    requires Valid(p)
    ensures TakenAll(p, {}) == p
  {
    assert TakenAll(p, {}).free == p.free && TakenAll(p, {}).ref == p.ref;
  }

  lemma TakenSingle(p: Pool, t: Frame)
    requires Valid(p) && 0 < t && IsFree(p, t)
    ensures TakenAll(p, {t}) == Taken(p, t)
  {
    TakenAllNone(p);
    TakenAllOne(p, {}, t);
    assert {} + {t} == {t};
  }

  // ---- every operation keeps the invariant ---------------------------------

  lemma UnheldCount(s: Flat, f: Frame)
    requires Inv(s) && f < s.pool.total && s.pool.free[f]
    ensures |Holders(s.spaces, f)| == 0
  {
    assert s.pool.ref[f] == 0 && CountedAt(s, f);
  }

  lemma GrowCounted(s: Flat, r: Frame, ts: set<Frame>, ks: set<Frame>)
    requires Inv(s) && ts !! ks && AllFree(s.pool, ts + ks)
    ensures Counted(Grow(s, r, ts, ks))
  {
    var t := Grow(s, r, ts, ks);
    forall f | 0 <= f < t.pool.total ensures CountedAt(t, f) {
      assert CountedAt(s, f);
      if f in ts + ks { FreeUnheld(s, f); UnheldCount(s, f); }
    }
  }

  lemma GrowLeaves(s: Flat, r: Frame, ts: set<Frame>, ks: set<Frame>)
    requires Inv(s) && AllFree(s.pool, ts + ks)
    ensures Leaves(Grow(s, r, ts, ks))
  {
    var t := Grow(s, r, ts, ks);
    forall q, v | q in t.spaces && v in t.spaces[q] ensures EntryOk(t, q, v) {
      HeldNotFree(s, q, v);
      assert EntryOk(s, q, v);
    }
  }

  /** More tables for a space, more frames for the kernel. */
  lemma RootedMore(s: Flat, t: Flat, r: Frame, ts: set<Frame>, ks: set<Frame>)
    requires Rooted(s) && r in s.spaces && ts !! ks && t.spaces == s.spaces && t.pool.total == s.pool.total
    requires t.tables == s.tables + AllMapTo(ts, r) && t.kernel == s.kernel + ks
    requires forall f :: f in ts + ks ==> 0 < f < s.pool.total && f !in s.kernel && f !in s.tables
    ensures Rooted(t)
  {
    forall k | k in t.tables ensures t.tables[k] in t.spaces && 0 < k < t.pool.total && k !in t.kernel {
      if k in ts { assert k in ts + ks; } else { assert k in s.tables; }
    }
    forall f | f in t.kernel ensures 0 < f < t.pool.total { if f in ks { assert f in ts + ks; } }
  }

  lemma GrowRooted(s: Flat, r: Frame, ts: set<Frame>, ks: set<Frame>)
    requires Inv(s) && r in s.spaces && ts !! ks && AllFree(s.pool, ts + ks)
    ensures Rooted(Grow(s, r, ts, ks)) && PinsHeld(Grow(s, r, ts, ks))
  {
    hide TakenAll, Counted, Leaves, Rooted;
    forall f | f in ts + ks ensures 0 < f < s.pool.total && f !in s.tables && f !in s.kernel { FreeUnheld(s, f); }
    RootedMore(s, Grow(s, r, ts, ks), r, ts, ks);
  }

  lemma GrowInv(s: Flat, r: Frame, ts: set<Frame>, ks: set<Frame>)
    requires Inv(s) && r in s.spaces && ts !! ks && AllFree(s.pool, ts + ks)
    ensures Inv(Grow(s, r, ts, ks))
  {
    TakenAllValid(s.pool, ts + ks);
    GrowRooted(s, r, ts, ks);
    GrowCounted(s, r, ts, ks);
    GrowLeaves(s, r, ts, ks);
  }

  lemma NewSpaceCounted(s: Flat, c: Frame)
    requires Inv(s) && 0 < c < s.pool.total && s.pool.free[c]
    ensures Counted(NewSpace(s, c)) && c !in s.spaces
  {
    var t := NewSpace(s, c);
    FreeUnheld(s, c);
    UnheldCount(s, c);
    forall f | 0 <= f < t.pool.total ensures CountedAt(t, f) {
      assert CountedAt(s, f);
      HoldersAdd(s.spaces, c, map[], f);
      assert Uses(map[], f) == {};
    }
  }

  lemma NewSpaceLeaves(s: Flat, c: Frame)
    requires Inv(s) && 0 < c < s.pool.total && s.pool.free[c]
    ensures Leaves(NewSpace(s, c))
  {
    var t := NewSpace(s, c);
    forall q, v | q in t.spaces && v in t.spaces[q] ensures EntryOk(t, q, v) {
      HeldNotFree(s, q, v);
      assert EntryOk(s, q, v);
    }
  }

  lemma NewSpaceRooted(s: Flat, c: Frame)
    requires Inv(s) && 0 < c < s.pool.total && s.pool.free[c]
    ensures Rooted(NewSpace(s, c)) && PinsHeld(NewSpace(s, c))
  {
    FreeUnheld(s, c);
  }

  lemma NewSpaceInv(s: Flat, c: Frame)
    requires Inv(s) && 0 < c < s.pool.total && s.pool.free[c]
    ensures Inv(NewSpace(s, c)) && c !in s.spaces
  {
    TakenAllValid(s.pool, {c});
    NewSpaceRooted(s, c);
    NewSpaceCounted(s, c);
    NewSpaceLeaves(s, c);
  }

  // One entry written: map_page_dir, map_page_ro, the fault handler.

  /** No leaf entry other than the one at `v` in `r` names `f`. */
  ghost predicate Elsewhere(spaces: map<Frame, Space>, r: Frame, v: Va, f: Frame) {
    exists q, w :: q in spaces && w in spaces[q] && spaces[q][w].frame == f && !(q == r && w == v)
  }

  ghost predicate NewEntryOk(s: Flat, r: Frame, v: Va, e: Entry) {
    && v < VA_LIMIT && e.present && 0 < e.frame < s.pool.total && e.frame !in s.tables
    && e.frame in s.data && |s.data[e.frame]| == PAGE_BYTES
    && (e.writable ==> !e.cow && e.frame !in s.kernel && !Elsewhere(s.spaces, r, v, e.frame))
    && (forall q, w :: q in s.spaces && w in s.spaces[q] && !(q == r && w == v) && s.spaces[q][w].frame == e.frame
          ==> !s.spaces[q][w].writable)
  }

  ghost predicate SameBytes(s: Flat, t: Flat, f: Frame) {
    f in s.data ==> f in t.data && t.data[f] == s.data[f]
  }

  lemma LeavesPut(s: Flat, t: Flat, r: Frame, v: Va, e: Entry)
    requires Leaves(s) && r in s.spaces
    requires t.spaces == s.spaces[r := Put(s.spaces[r], v, e)] && t.tables == s.tables && t.kernel <= s.kernel
    requires t.pool.total == s.pool.total
    requires forall q, w :: q in s.spaces && w in s.spaces[q] && !(q == r && w == v) ==>
      s.spaces[q][w].frame == e.frame || SameBytes(s, t, s.spaces[q][w].frame)
    requires NewEntryOk(s.(data := t.data, kernel := t.kernel), r, v, e)
    ensures Leaves(t)
  {
    forall q, w | q in t.spaces && w in t.spaces[q] ensures EntryOk(t, q, w) {
      if !(q == r && w == v) {
        assert EntryOk(s, q, w);
        assert s.spaces[q][w] == t.spaces[q][w];
      }
    }
  }

  lemma RootedKept(s: Flat, t: Flat)
    requires Rooted(s) && t.spaces.Keys == s.spaces.Keys && t.tables == s.tables && t.kernel <= s.kernel
    requires t.pool.total == s.pool.total
    ensures Rooted(t)
  {
  }

  lemma PutCount(s: Flat, r: Frame, v: Va, e: Entry, f: Frame)
    requires r in s.spaces && v !in s.spaces[r]
    ensures |Holders(s.spaces[r := Put(s.spaces[r], v, e)], f)| == |Holders(s.spaces, f)| + B(e.frame == f)
  {
    HoldersReplace(s.spaces, r, Put(s.spaces[r], v, e), f);
    UsesPut(s.spaces[r], v, e, f);
  }

  lemma RePutCount(s: Flat, r: Frame, v: Va, e: Entry, f: Frame)
    requires r in s.spaces && v in s.spaces[r]
    ensures |Holders(s.spaces[r := Put(s.spaces[r], v, e)], f)| ==
              |Holders(s.spaces, f)| + B(e.frame == f) - B(s.spaces[r][v].frame == f)
  {
    var sp := s.spaces[r];
    HoldersReplace(s.spaces, r, Put(sp, v, e), f);
    UsesDrop(sp, v, f);
    UsesPut(sp - {v}, v, e, f);
    assert (sp - {v})[v := e] == Put(sp, v, e);
  }

  lemma MapOwnedCounted(s: Flat, r: Frame, v: Va, e: Entry, bytes: seq<Byte>)
    requires Shape(s.pool) && Counted(s) && r in s.spaces && v !in s.spaces[r] && e.frame in s.kernel
    ensures Counted(MapOwned(s, r, v, e, bytes))
  {
    var t := MapOwned(s, r, v, e, bytes);
    forall f | 0 <= f < t.pool.total ensures CountedAt(t, f) {
      PutCount(s, r, v, e, f);
      assert CountedAt(s, f);
    }
  }

  lemma MapOwnedLeaves(s: Flat, r: Frame, v: Va, e: Entry, bytes: seq<Byte>)
    requires Leaves(s) && Rooted(s) && r in s.spaces && v !in s.spaces[r] && v < VA_LIMIT
    requires e.present && e.frame in s.kernel && !Elsewhere(s.spaces, r, v, e.frame)
    requires e.writable ==> !e.cow
    requires |bytes| == PAGE_BYTES
    ensures Leaves(MapOwned(s, r, v, e, bytes))
  {
    var t := MapOwned(s, r, v, e, bytes);
    forall q, w | q in s.spaces && w in s.spaces[q] ensures EntryOk(s, q, w) && s.spaces[q][w].frame != e.frame {}
    LeavesPut(s, t, r, v, e);
  }

  /** Mapping a frame nobody else holds moves its one reference from the kernel to the entry. */
  lemma MapOwnedInv(s: Flat, r: Frame, v: Va, e: Entry, bytes: seq<Byte>)
    requires Inv(s) && r in s.spaces && v !in s.spaces[r] && v < VA_LIMIT
    requires e.present && e.frame in s.kernel && !s.pool.pinned[e.frame] && !Elsewhere(s.spaces, r, v, e.frame)
    requires e.writable ==> !e.cow
    requires |bytes| == PAGE_BYTES
    ensures Inv(MapOwned(s, r, v, e, bytes))
  {
    var t := MapOwned(s, r, v, e, bytes);
    RootedKept(s, t);
    MapOwnedCounted(s, r, v, e, bytes);
    MapOwnedLeaves(s, r, v, e, bytes);
    assert PinsHeld(t);
  }

  /** Writing over a live entry leaves every count as large as its holders, and one larger for the
      frame that was mapped there and for no other. */
  lemma OverwriteCounts(s: Flat, r: Frame, v: Va, e: Entry, bytes: seq<Byte>, f: Frame)
    requires Inv(s) && r in s.spaces && v in s.spaces[r] && e.frame in s.kernel && f < s.pool.total
    ensures var t := MapOwned(s, r, v, e, bytes);
            t.pool.ref[f] == |Holders(t.spaces, f)| + B(f in t.tables) + B(f in t.kernel) + B(f == s.spaces[r][v].frame)
  {
    hide Leaves;
    RePutCount(s, r, v, e, f);
    assert CountedAt(s, f);
  }

  lemma MapOverLeaves(s: Flat, r: Frame, v: Va, e: Entry, bytes: seq<Byte>)
    requires Leaves(s) && Rooted(s) && r in s.spaces && v in s.spaces[r] && e.present && e.frame in s.kernel
    requires |bytes| == PAGE_BYTES
    requires (e.writable ==> !e.cow) && s.spaces[r][v].frame !in s.kernel && forall q, w ::
              q in s.spaces && w in s.spaces[q] ==> s.spaces[q][w].frame != e.frame
    ensures Leaves(MapOver(s, r, v, e, bytes))
  {
    var t := MapOver(s, r, v, e, bytes);
    forall q, w | q in t.spaces && w in t.spaces[q] ensures EntryOk(t, q, w) {
      assert EntryOk(s, r, v) && EntryOk(s, q, w);
    }
  }

  /** Accounted to the kernel, the lost reference is again exact. */
  lemma MapOverInv(s: Flat, r: Frame, v: Va, e: Entry, bytes: seq<Byte>)
    requires Inv(s) && r in s.spaces && v in s.spaces[r] && e.present && e.frame in s.kernel && !s.pool.pinned[e.frame]
    requires |bytes| == PAGE_BYTES
    requires (e.writable ==> !e.cow) && s.spaces[r][v].frame !in s.kernel && forall q, w ::
              q in s.spaces && w in s.spaces[q] ==> s.spaces[q][w].frame != e.frame
    ensures Inv(MapOver(s, r, v, e, bytes))
  {
    hide Leaves;
    var t := MapOver(s, r, v, e, bytes);
    assert EntryOk(s, r, v) by { LeafOk(s, r, v); }
    MapOverLeaves(s, r, v, e, bytes);
    forall f | 0 <= f < t.pool.total ensures CountedAt(t, f) { OverwriteCounts(s, r, v, e, bytes, f); }
  }

  lemma LeafOk(s: Flat, r: Frame, v: Va)
    requires Leaves(s) && r in s.spaces && v in s.spaces[r]
    ensures EntryOk(s, r, v)
  {
  }

  /** One more read-only mapping of a held frame adds exactly one to its count below saturation. */
  lemma MapSharedInv(s: Flat, r: Frame, v: Va, e: Entry)
    requires Inv(s) && r in s.spaces && v !in s.spaces[r] && !e.writable
    requires NewEntryOk(s, r, v, e) && s.pool.ref[e.frame] < MAX_REF && !s.pool.free[e.frame]
    ensures Inv(MapShared(s, r, v, e))
  {
    var t := MapShared(s, r, v, e);
    RootedKept(s, t);
    SharedValid(s.pool, e.frame);
    forall f | 0 <= f < t.pool.total ensures CountedAt(t, f) {
      PutCount(s, r, v, e, f);
      assert CountedAt(s, f);
    }
    forall q, w | q in s.spaces && w in s.spaces[q] ensures EntryOk(s, q, w) {}
    LeavesPut(s, t, r, v, e);
  }

  lemma CowReuseCounted(s: Flat, r: Frame, v: Va)
    requires Shape(s.pool) && Counted(s) && r in s.spaces && v in s.spaces[r]
    ensures Counted(CowReuse(s, r, v))
  {
    var t := CowReuse(s, r, v);
    forall f | 0 <= f < t.pool.total ensures CountedAt(t, f) {
      RePutCount(s, r, v, Privatised(s.spaces[r][v], s.spaces[r][v].frame), f);
      assert CountedAt(s, f);
    }
  }

  /** Writing in place is safe: a count of one means no other entry names the frame. */
  lemma CowReuseInv(s: Flat, r: Frame, v: Va)
    requires Inv(s) && r in s.spaces && v in s.spaces[r] && RefCount(s.pool, s.spaces[r][v].frame) <= 1
    ensures Inv(CowReuse(s, r, v)) && Sole(s.spaces, r, v)
  {
    var e := s.spaces[r][v];
    var t := CowReuse(s, r, v);
    assert EntryOk(s, r, v);
    CowReuseCounted(s, r, v);
    RootedKept(s, t);
    HoldersMember(s.spaces, r, v);
    assert CountedAt(s, e.frame);
    assert Sole(s.spaces, r, v);
    forall q, w | q in s.spaces && w in s.spaces[q] ensures EntryOk(s, q, w) {}
    LeavesPut(s, t, r, v, Privatised(e, e.frame));
  }

  lemma CowCopyCounted(s: Flat, r: Frame, v: Va, nf: Frame)
    requires Inv(s) && r in s.spaces && v in s.spaces[r] && s.spaces[r][v].frame in s.data
    requires 0 < nf < s.pool.total && s.pool.free[nf] && RefCount(s.pool, s.spaces[r][v].frame) > 1
    ensures Counted(CowCopy(s, r, v, nf))
  {
    var e := s.spaces[r][v];
    var t := CowCopy(s, r, v, nf);
    HeldNotFree(s, r, v);
    FreeUnheld(s, nf);
    UnheldCount(s, nf);
    forall f | 0 <= f < t.pool.total ensures CountedAt(t, f) {
      RePutCount(s, r, v, Privatised(e, nf), f);
      assert CountedAt(s, f);
    }
  }

  lemma CowCopyLeaves(s: Flat, r: Frame, v: Va, nf: Frame)
    requires Leaves(s) && Rooted(s) && Shape(s.pool) && r in s.spaces && v in s.spaces[r]
    requires s.spaces[r][v].frame in s.data
    requires 0 < nf < s.pool.total && nf !in s.tables && nf !in s.kernel
    requires forall q, w :: q in s.spaces && w in s.spaces[q] ==> s.spaces[q][w].frame != nf
    ensures Leaves(CowCopy(s, r, v, nf))
  {
    forall q, w | q in s.spaces && w in s.spaces[q] ensures EntryOk(s, q, w) {}
    LeavesPut(s, CowCopy(s, r, v, nf), r, v, Privatised(s.spaces[r][v], nf));
  }

  /** A sharer moves to a frame nobody held and gives back exactly one reference. */
  lemma CowCopyInv(s: Flat, r: Frame, v: Va, nf: Frame)
    requires Inv(s) && r in s.spaces && v in s.spaces[r] && s.spaces[r][v].frame in s.data
    requires 0 < nf < s.pool.total && s.pool.free[nf] && RefCount(s.pool, s.spaces[r][v].frame) > 1
    ensures Inv(CowCopy(s, r, v, nf))
  {
    var t := CowCopy(s, r, v, nf);
    HeldNotFree(s, r, v);
    FreeUnheld(s, nf);
    TakenValid(s.pool, nf);
    DroppedValid(Taken(s.pool, nf), s.spaces[r][v].frame);
    CowCopyCounted(s, r, v, nf);
    RootedKept(s, t);
    CowCopyLeaves(s, r, v, nf);
  }

  // Fork.

  lemma ForkHolders(s: Flat, p: Frame, c: Frame, n: nat, f: Frame)
    requires p in s.spaces && c !in s.spaces
    ensures |Holders(s.spaces[p := CowedBelow(s.spaces[p], n)][c := CowedCopy(s.spaces[p], n)], f)|
         == |Holders(s.spaces, f)| + |Uses(Within(s.spaces[p], 0, n), f)|
  {
    var sp := s.spaces[p];
    UsesSame(sp, CowedBelow(sp, n), f);
    UsesSame(Within(sp, 0, n), CowedCopy(sp, n), f);
    HoldersReplace(s.spaces, p, CowedBelow(sp, n), f);
    HoldersAdd(s.spaces[p := CowedBelow(sp, n)], c, CowedCopy(sp, n), f);
  }

  lemma UnusedWhenFree(s: Flat, p: Frame, n: nat, f: Frame)
    requires Inv(s) && p in s.spaces && IsFree(s.pool, f)
    ensures |Uses(Within(s.spaces[p], 0, n), f)| == 0 && |Holders(s.spaces, f)| == 0
  {
    UnheldCount(s, f);
    HoldersSplit(s.spaces, p, f);
    assert Uses(Within(s.spaces[p], 0, n), f) <= Uses(s.spaces[p], f);
  }

  lemma ForkRefAt(p: Pool, used: Space, ts: set<Frame>, f: Frame)
    requires Shape(p) && f < p.total && p.ref[f] <= MAX_REF
    ensures AddRefs(TakenAll(p, ts), used).ref[f] ==
            var r := if f in ts then 1 else p.ref[f]; if r + |Uses(used, f)| <= MAX_REF then r + |Uses(used, f)|
                else MAX_REF
  {
  }

  /** After fork the count of `f` is right exactly when the 8-bit counter had room for it. */
  lemma ForkCountedAt(s: Flat, p: Frame, c: Frame, ts: set<Frame>, n: nat, f: Frame)
    requires Inv(s) && p in s.spaces && AllFree(s.pool, ts + {c}) && f < s.pool.total && c !in s.spaces
    ensures CountedAt(Fork(s, p, c, ts, n), f) <==> s.pool.ref[f] + |Uses(Within(s.spaces[p], 0, n), f)| <= MAX_REF
  {
    hide AddRefs, TakenAll;
    ForkHolders(s, p, c, n, f);
    ForkRefAt(s.pool, Within(s.spaces[p], 0, n), ts + {c}, f);
    assert CountedAt(s, f);
    if f in ts + {c} { FreeUnheld(s, f); UnusedWhenFree(s, p, n, f); }
  }

  /** A frame with one holder that fork has not reached still has one holder. */
  lemma ForkSole(spaces: map<Frame, Space>, p: Frame, c: Frame, n: nat, q: Frame, w: Va)
    requires p in spaces && c !in spaces && q in spaces && w in spaces[q] && Sole(spaces, q, w) && (q == p ==> w >= n)
    ensures Sole(spaces[p := CowedBelow(spaces[p], n)][c := CowedCopy(spaces[p], n)], q, w)
  {
    var after: map<Frame, Space> := spaces[p := CowedBelow(spaces[p], n)][c := CowedCopy(spaces[p], n)];
    forall o, u | o in after && u in after[o] && after[o][u].frame == after[q][w].frame ensures o == q && u == w {
      var o' := if o == c then p else o;
      assert spaces[o'][u].frame == spaces[q][w].frame;
    }
  }

  lemma ForkEntryOk(s: Flat, p: Frame, c: Frame, ts: set<Frame>, n: nat, q: Frame, w: Va)
    requires Inv(s) && p in s.spaces && AllFree(s.pool, ts + {c}) && c !in s.spaces
    requires q in s.spaces && w in s.spaces[q]
    ensures EntryOk(Fork(s, p, c, ts, n), q, w)
  {
    hide AddRefs, TakenAll;
    HeldNotFree(s, q, w);
    if s.spaces[q][w].writable && (q == p ==> w >= n) { ForkSole(s.spaces, p, c, n, q, w); }
  }

  lemma ForkChildEntryOk(s: Flat, p: Frame, c: Frame, ts: set<Frame>, n: nat, w: Va)
    requires Inv(s) && p in s.spaces && AllFree(s.pool, ts + {c}) && c !in s.spaces && w in s.spaces[p] && w < n
    ensures EntryOk(Fork(s, p, c, ts, n), c, w)
  {
    HeldNotFree(s, p, w);
  }

  lemma ForkLeaves(s: Flat, p: Frame, c: Frame, ts: set<Frame>, n: nat)
    requires Inv(s) && p in s.spaces && AllFree(s.pool, ts + {c}) && c !in s.spaces
    ensures Leaves(Fork(s, p, c, ts, n))
  {
    var t := Fork(s, p, c, ts, n);
    forall q, w | q in t.spaces && w in t.spaces[q] ensures EntryOk(t, q, w) {
      if q == c { ForkChildEntryOk(s, p, c, ts, n, w); }
      else { ForkEntryOk(s, p, c, ts, n, q, w); }
    }
  }

  /** New tables owned by the space rooted at one of them. */
  lemma RootedJoin(s: Flat, t: Flat, c: Frame, fs: set<Frame>)
    requires Rooted(s) && t.kernel == s.kernel && t.pool.total == s.pool.total && c in fs
    requires t.tables == s.tables + AllMapTo(fs, c) && t.spaces.Keys == s.spaces.Keys + {c}
    requires forall f :: f in fs ==> 0 < f < s.pool.total && f !in s.kernel && f !in s.tables
    ensures Rooted(t)
  {
    forall r | r in t.spaces ensures r in t.tables && t.tables[r] == r { if r != c { assert r in s.spaces; } }
  }

  lemma ForkRooted(s: Flat, p: Frame, c: Frame, ts: set<Frame>, n: nat)
    requires Inv(s) && p in s.spaces && AllFree(s.pool, ts + {c})
    ensures Rooted(Fork(s, p, c, ts, n)) && PinsHeld(Fork(s, p, c, ts, n)) && c !in s.spaces
  {
    hide AddRefs, TakenAll, Within, CowedBelow, CowedCopy, Counted, Leaves, Rooted;
    forall f | f in ts + {c} ensures 0 < f < s.pool.total && f !in s.tables && f !in s.kernel { FreeUnheld(s, f); }
    assert c in ts + {c};
    assert c !in s.spaces by { RootTables(s, c); }
    RootedJoin(s, Fork(s, p, c, ts, n), c, ts + {c});
  }

  lemma RootTables(s: Flat, c: Frame)
    requires Rooted(s) && c !in s.tables
    ensures c !in s.spaces
  {
  }

  lemma AddRefsValid(p: Pool, sp: Space)
    requires Valid(p) && forall f :: 0 <= f < p.total && p.free[f] ==> |Uses(sp, f)| == 0
    ensures Valid(AddRefs(p, sp))
  {
  }

  lemma ForkPool(s: Flat, p: Frame, c: Frame, ts: set<Frame>, n: nat)
    requires Inv(s) && p in s.spaces && AllFree(s.pool, ts + {c})
    ensures Valid(Fork(s, p, c, ts, n).pool)
  {
    TakenAllValid(s.pool, ts + {c});
    forall f | 0 <= f < s.pool.total && s.pool.free[f]
      ensures |Uses(Within(s.spaces[p], 0, n), f)| == 0
    {
      UnusedWhenFree(s, p, n, f);
    }
    AddRefsValid(TakenAll(s.pool, ts + {c}), Within(s.spaces[p], 0, n));
  }

  lemma ForkCounted(s: Flat, p: Frame, c: Frame, ts: set<Frame>, n: nat)
    requires Inv(s) && p in s.spaces && AllFree(s.pool, ts + {c}) && c !in s.spaces
    ensures Counted(Fork(s, p, c, ts, n)) <==> NoSaturation(s, p, n)
  {
    hide AddRefs, TakenAll;
    var t := Fork(s, p, c, ts, n);
    forall f | 0 <= f < s.pool.total
      ensures CountedAt(t, f) <==> s.pool.ref[f] + |Uses(Within(s.spaces[p], 0, n), f)| <= MAX_REF
    {
      ForkCountedAt(s, p, c, ts, n, f);
    }
  }

  /** Fork keeps the accounting if and only if no 8-bit count it bumps overflows: with 255
      holders of one frame the next fork loses a reference. */
  lemma ForkInv(s: Flat, p: Frame, c: Frame, ts: set<Frame>, n: nat)
    requires Inv(s) && p in s.spaces && AllFree(s.pool, ts + {c})
    ensures Inv(Fork(s, p, c, ts, n)) <==> NoSaturation(s, p, n)
  {
    ForkRooted(s, p, c, ts, n);
    ForkPool(s, p, c, ts, n);
    ForkLeaves(s, p, c, ts, n);
    ForkCounted(s, p, c, ts, n);
  }

  // Removing mappings.

  lemma DropRefsValid(s: Flat, sp: Space, ts: set<Frame>)
    requires Valid(s.pool)
    requires forall f :: 0 <= f < s.pool.total ==> |Uses(sp, f)| + B(f in ts) <= s.pool.ref[f]
    requires forall f :: 0 <= f < s.pool.total && s.pool.pinned[f] ==> |Uses(sp, f)| + B(f in ts) < s.pool.ref[f]
    requires s.pool.total > 0 ==> |Uses(sp, NULL)| + B(NULL in ts) == 0
    ensures Valid(DropRefs(s.pool, sp, ts))
  {
  }

  /** Nothing but the space itself holds the references that leave with it. */
  lemma UsesBound(s: Flat, r: Frame, sp: Space, f: Frame)
    requires Inv(s) && r in s.spaces && f < s.pool.total && sp.Keys <= s.spaces[r].Keys
    requires forall v :: v in sp ==> sp[v].frame == s.spaces[r][v].frame
    ensures |Uses(sp, f)| + B(f in TablesOf(s, r)) <= s.pool.ref[f]
    ensures s.pool.pinned[f] ==> |Uses(sp, f)| + B(f in TablesOf(s, r)) < s.pool.ref[f]
    ensures f == NULL ==> |Uses(sp, f)| + B(f in TablesOf(s, r)) == 0
  {
    assert CountedAt(s, f);
    HoldersSplit(s.spaces, r, f);
    var rest := Uses(s.spaces[r], f) - Uses(sp, f);
    assert Uses(s.spaces[r], f) == Uses(sp, f) + rest;
    if f == NULL {
      forall v | v in sp ensures sp[v].frame != NULL { assert EntryOk(s, r, v); }
      assert Uses(sp, f) == {};
    }
  }

  lemma TeardownPool(s: Flat, r: Frame)
    requires Inv(s) && r in s.spaces
    ensures Valid(Teardown(s, r).pool)
  {
    forall f | 0 <= f < s.pool.total
      ensures |Uses(s.spaces[r], f)| + B(f in TablesOf(s, r)) <= s.pool.ref[f]
      ensures s.pool.pinned[f] ==> |Uses(s.spaces[r], f)| + B(f in TablesOf(s, r)) < s.pool.ref[f]
      ensures f == NULL ==> |Uses(s.spaces[r], f)| + B(f in TablesOf(s, r)) == 0
    {
      UsesBound(s, r, s.spaces[r], f);
    }
    DropRefsValid(s, s.spaces[r], TablesOf(s, r));
  }

  lemma TeardownCounted(s: Flat, r: Frame)
    requires Inv(s) && r in s.spaces
    ensures Counted(Teardown(s, r))
  {
    var t := Teardown(s, r);
    forall f | 0 <= f < t.pool.total ensures CountedAt(t, f) {
      assert CountedAt(s, f);
      UsesBound(s, r, s.spaces[r], f);
      HoldersSplit(s.spaces, r, f);
    }
  }

  lemma TeardownLeaves(s: Flat, r: Frame)
    requires Shape(s.pool) && Leaves(s) && r in s.spaces
    ensures Leaves(Teardown(s, r))
  {
    var t := Teardown(s, r);
    forall q, w | q in t.spaces && w in t.spaces[q] ensures EntryOk(t, q, w) {
      assert EntryOk(s, q, w);
    }
  }

  lemma TeardownRooted(s: Flat, r: Frame)
    requires Shape(s.pool) && Rooted(s) && PinsHeld(s) && r in s.spaces
    ensures Rooted(Teardown(s, r)) && PinsHeld(Teardown(s, r))
  {
  }

  lemma TeardownInv(s: Flat, r: Frame)
    requires Inv(s) && r in s.spaces
    ensures Inv(Teardown(s, r))
  {
    TeardownPool(s, r);
    TeardownCounted(s, r);
    TeardownRooted(s, r);
    TeardownLeaves(s, r);
  }

  lemma UsesCut(sp: Space, lo: nat, hi: nat, f: Frame)
    ensures |Uses(sp, f)| == |Uses(Within(sp, lo, hi), f)| + |Uses(Without(sp, lo, hi), f)|
  {
    assert Uses(sp, f) == Uses(Within(sp, lo, hi), f) + Uses(Without(sp, lo, hi), f);
    assert Uses(Within(sp, lo, hi), f) !! Uses(Without(sp, lo, hi), f);
  }

  lemma UnmapCounted(s: Flat, r: Frame, lo: nat, hi: nat)
    requires Inv(s) && r in s.spaces
    ensures Counted(Unmap(s, r, lo, hi))
  {
    var t, sp := Unmap(s, r, lo, hi), s.spaces[r];
    forall f | 0 <= f < t.pool.total ensures CountedAt(t, f) {
      assert CountedAt(s, f);
      UsesBound(s, r, Within(sp, lo, hi), f);
      HoldersReplace(s.spaces, r, Without(sp, lo, hi), f);
      UsesCut(sp, lo, hi, f);
    }
  }

  lemma UnmapLeaves(s: Flat, r: Frame, lo: nat, hi: nat)
    requires Shape(s.pool) && Leaves(s) && r in s.spaces
    ensures Leaves(Unmap(s, r, lo, hi))
  {
    var t := Unmap(s, r, lo, hi);
    forall q, w | q in t.spaces && w in t.spaces[q] ensures EntryOk(t, q, w) {
      assert EntryOk(s, q, w);
      assert t.spaces[q][w] == s.spaces[q][w];
    }
  }

  lemma UnmapPool(s: Flat, r: Frame, lo: nat, hi: nat)
    requires Inv(s) && r in s.spaces
    ensures Valid(Unmap(s, r, lo, hi).pool)
  {
    var sp := Within(s.spaces[r], lo, hi);
    forall f | 0 <= f < s.pool.total
      ensures |Uses(sp, f)| <= s.pool.ref[f]
      ensures s.pool.pinned[f] ==> |Uses(sp, f)| < s.pool.ref[f]
      ensures f == NULL ==> |Uses(sp, f)| == 0
    {
      UsesBound(s, r, sp, f);
    }
    DropRefsValid(s, sp, {});
  }

  lemma UnmapRooted(s: Flat, r: Frame, lo: nat, hi: nat)
    requires Shape(s.pool) && Rooted(s) && PinsHeld(s) && r in s.spaces
    ensures Rooted(Unmap(s, r, lo, hi)) && PinsHeld(Unmap(s, r, lo, hi))
  {
    RootedKept(s, Unmap(s, r, lo, hi));
  }

  lemma UnmapInv(s: Flat, r: Frame, lo: nat, hi: nat)
    requires Inv(s) && r in s.spaces
    ensures Inv(Unmap(s, r, lo, hi))
  {
    UnmapPool(s, r, lo, hi);
    UnmapCounted(s, r, lo, hi);
    UnmapLeaves(s, r, lo, hi);
    UnmapRooted(s, r, lo, hi);
  }

  // Protection changes and stores.

  /** mprotect may grant write only where nobody else maps or holds the frame. */
  ghost predicate GrantSafe(s: Flat, r: Frame, lo: nat, hi: nat, w: bool)
    requires r in s.spaces
  {
    w ==> forall v {:trigger Sole(s.spaces, r, v)} :: v in s.spaces[r] && lo <= v < hi && !s.spaces[r][v].cow ==>
      s.spaces[r][v].frame !in s.kernel && Sole(s.spaces, r, v)
  }

  lemma ProtectCounted(s: Flat, r: Frame, lo: nat, hi: nat, w: bool, x: bool)
    requires Shape(s.pool) && Counted(s) && r in s.spaces
    ensures Counted(Protect(s, r, lo, hi, w, x))
  {
    var t := Protect(s, r, lo, hi, w, x);
    forall f | 0 <= f < t.pool.total ensures CountedAt(t, f) {
      assert CountedAt(s, f);
      UsesSame(s.spaces[r], t.spaces[r], f);
      HoldersReplace(s.spaces, r, t.spaces[r], f);
    }
  }

  lemma SoleKept(spaces: map<Frame, Space>, r: Frame, sp: Space, q: Frame, w: Va)
    requires r in spaces && sp.Keys == spaces[r].Keys && (forall v :: v in sp ==> sp[v].frame == spaces[r][v].frame)
    requires q in spaces && w in spaces[q]
    ensures Sole(spaces[r := sp], q, w) <==> Sole(spaces, q, w)
  {
    var after: map<Frame, Space> := spaces[r := sp];
    assert forall o, u :: (o in after && u in after[o]) <==> (o in spaces && u in spaces[o]);
    assert forall o, u :: o in spaces && u in spaces[o] ==> after[o][u].frame == spaces[o][u].frame;
  }

  lemma ProtectLeaves(s: Flat, r: Frame, lo: nat, hi: nat, w: bool, x: bool)
    requires Leaves(s) && r in s.spaces
    ensures Leaves(Protect(s, r, lo, hi, w, x)) <==> GrantSafe(s, r, lo, hi, w)
  {
    var t := Protect(s, r, lo, hi, w, x);
    forall q, u | q in s.spaces && u in s.spaces[q] ensures Sole(t.spaces, q, u) <==> Sole(s.spaces, q, u) {
      SoleKept(s.spaces, r, t.spaces[r], q, u);
    }
    forall q, u | q in s.spaces && u in s.spaces[q] ensures EntryOk(s, q, u) {}
    if Leaves(t) {
      forall v | v in s.spaces[r] ensures EntryOk(t, r, v) {}
    }
    if GrantSafe(s, r, lo, hi, w) {
      forall q, u | q in t.spaces && u in t.spaces[q] ensures EntryOk(t, q, u) {}
    }
  }

  /** mprotect keeps pages private if and only if every page it makes writable is COW-marked
      (and so stays read-only) or has no other holder. */
  lemma ProtectInv(s: Flat, r: Frame, lo: nat, hi: nat, w: bool, x: bool)
    requires Inv(s) && r in s.spaces
    ensures Inv(Protect(s, r, lo, hi, w, x)) <==> GrantSafe(s, r, lo, hi, w)
  {
    ProtectCounted(s, r, lo, hi, w, x);
    ProtectLeaves(s, r, lo, hi, w, x);
    RootedKept(s, Protect(s, r, lo, hi, w, x));
  }

  lemma StoreInv(s: Flat, r: Frame, v: Va, off: nat, b: Byte)
    requires Inv(s) && r in s.spaces && v in s.spaces[r] && off < PAGE_BYTES
    requires EntryOk(s, r, v)
    ensures Inv(Store(s, r, v, off, b))
  {
    var t := Store(s, r, v, off, b);
    RootedKept(s, t);
    forall f | 0 <= f < t.pool.total ensures CountedAt(t, f) { assert CountedAt(s, f); }
    forall q, w | q in t.spaces && w in t.spaces[q] ensures EntryOk(t, q, w) { assert EntryOk(s, q, w); }
  }
}
