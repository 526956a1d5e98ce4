/** Address spaces as flat maps over shared frames: what kernel/paging.c does to the leaf
    entries, the reference counts and the page contents, with the radix tree abstracted to
    "which frames are tables of which space".  `PageTables` and `Paging` prove that the
    four-level tables implement these operations; `CowRefinement` proves that over every run
    they are indistinguishable from copying every page at fork. */
module AddressSpaces {
  import opened Frames

  const ENTRIES: nat := 512
  const KERNEL_SLOT: nat := 511                // PML4_HIGHER, the shared kernel mirror
  const VA_LIMIT: nat := 68585259008           // 511 * 512^3: pages below the mirror

  /** A virtual page number below the kernel mirror. */
  type Va = nat
  newtype Byte = b: int | 0 <= b < 256

  /** One page-table entry, its bits taken apart. */
  datatype Entry = Entry(present: bool, writable: bool, user: bool, huge: bool, demand: bool, cow: bool, nx: bool,
      frame: Frame)
  const ZERO := Entry(false, false, false, false, false, false, false, 0)

  type Space = map<Va, Entry>

  function Put(sp: Space, v: Va, e: Entry): Space { sp[v := e] }

  /** `spaces`: per PML4 frame, the present leaf entries.  `tables`: every table frame and the
      space it belongs to.  `kernel`: frames the kernel holds outside any space, including
      frames lost when a mapping could not be completed. */
  datatype Flat = Flat(pool: Pool, spaces: map<Frame, Space>, tables: map<Frame, Frame>, kernel: set<Frame>,
      data: map<Frame, seq<Byte>>)

  function B(b: bool): nat { if b then 1 else 0 }

  ghost function Uses(sp: Space, f: Frame): set<Va> {
    set v | v in sp && sp[v].frame == f
  }

  ghost function Holders(spaces: map<Frame, Space>, f: Frame): set<(Frame, Va)> {
    set r, v | r in spaces && v in spaces[r] && spaces[r][v].frame == f :: (r, v)
  }

  /** No other leaf entry anywhere names the frame mapped at `v` in `r`. */
  ghost predicate Sole(spaces: map<Frame, Space>, r: Frame, v: Va)
    requires r in spaces && v in spaces[r]
  {
    forall q, w :: q in spaces && w in spaces[q] && spaces[q][w].frame == spaces[r][v].frame ==> q == r && w == v
  }

  ghost predicate EntryOk(s: Flat, r: Frame, v: Va)
    requires r in s.spaces && v in s.spaces[r]
  {
    var e := s.spaces[r][v];
    && v < VA_LIMIT
    && e.present && 0 < e.frame < s.pool.total && e.frame !in s.tables
    && e.frame in s.data && |s.data[e.frame]| == PAGE_BYTES
    && (e.writable ==> !e.cow && e.frame !in s.kernel && Sole(s.spaces, r, v))
  }

  ghost predicate CountedAt(s: Flat, f: Frame)
    requires Shape(s.pool) && f < s.pool.total
  {
    s.pool.ref[f] == |Holders(s.spaces, f)| + B(f in s.tables) + B(f in s.kernel)
  }

  /** Every reference count is exactly the number of holders of the frame. */
  ghost predicate Counted(s: Flat)
    requires Shape(s.pool)
  {
    forall f {:trigger CountedAt(s, f)} :: 0 <= f < s.pool.total ==> CountedAt(s, f)
  }

  ghost predicate Rooted(s: Flat) {
    && (forall r :: r in s.spaces ==> r in s.tables && s.tables[r] == r)
    && (forall t :: t in s.tables ==> s.tables[t] in s.spaces && 0 < t < s.pool.total && t !in s.kernel)
    && (forall f :: f in s.kernel ==> 0 < f < s.pool.total)
  }

  ghost predicate PinsHeld(s: Flat)
    requires Shape(s.pool)
  {
    forall f :: 0 <= f < s.pool.total && s.pool.pinned[f] ==> f in s.kernel
  }

  ghost predicate Leaves(s: Flat) {
    forall r, v {:trigger EntryOk(s, r, v)} :: r in s.spaces && v in s.spaces[r] ==> EntryOk(s, r, v)
  }

  ghost predicate Inv(s: Flat) {
    && Valid(s.pool)
    && Rooted(s)
    && Counted(s)
    && Leaves(s)
    && PinsHeld(s)
  }

  // ---- counting holders ----------------------------------------------------

  ghost function Tag(r: Frame, vs: set<Va>): set<(Frame, Va)> {
    set v | v in vs :: (r, v)
  }

  lemma {:induction false} TagSize(r: Frame, vs: set<Va>)
    ensures |Tag(r, vs)| == |vs|
    decreases |vs|
  {
    if v :| v in vs {
      TagSize(r, vs - {v});
      assert Tag(r, vs) == Tag(r, vs - {v}) + {(r, v)};
    }
  }

  /** The holders of a frame are its uses in one space plus its holders elsewhere. */
  lemma HoldersSplit(spaces: map<Frame, Space>, r: Frame, f: Frame)
    requires r in spaces
    ensures |Holders(spaces, f)| == |Holders(spaces - {r}, f)| + |Uses(spaces[r], f)|
  {
    TagSize(r, Uses(spaces[r], f));
    assert Holders(spaces, f) == Holders(spaces - {r}, f) + Tag(r, Uses(spaces[r], f));
    assert Holders(spaces - {r}, f) !! Tag(r, Uses(spaces[r], f));
  }

  /** Replacing one space changes the count by the change in that space's uses. */
  lemma HoldersReplace(spaces: map<Frame, Space>, r: Frame, sp: Space, f: Frame)
    requires r in spaces
    ensures |Holders(spaces[r := sp], f)| + |Uses(spaces[r], f)| == |Holders(spaces, f)| + |Uses(sp, f)|
  {
    HoldersSplit(spaces, r, f);
    HoldersSplit(spaces[r := sp], r, f);
    assert spaces[r := sp] - {r} == spaces - {r};
  }

  lemma HoldersAdd(spaces: map<Frame, Space>, r: Frame, sp: Space, f: Frame)
    requires r !in spaces
    ensures |Holders(spaces[r := sp], f)| == |Holders(spaces, f)| + |Uses(sp, f)|
  {
    HoldersSplit(spaces[r := sp], r, f);
    assert spaces[r := sp] - {r} == spaces;
  }

  lemma UsesPut(sp: Space, v: Va, e: Entry, f: Frame)
    requires v !in sp
    ensures |Uses(sp[v := e], f)| == |Uses(sp, f)| + B(e.frame == f)
  {
    if e.frame == f { assert Uses(sp[v := e], f) == Uses(sp, f) + {v}; }
    else { assert Uses(sp[v := e], f) == Uses(sp, f); }
  }

  lemma UsesDrop(sp: Space, v: Va, f: Frame)
    requires v in sp
    ensures |Uses(sp - {v}, f)| == |Uses(sp, f)| - B(sp[v].frame == f)
  {
    UsesPut(sp - {v}, v, sp[v], f);
    assert (sp - {v})[v := sp[v]] == sp;
  }

  /** Two spaces mapping the same pages to the same frames use every frame equally. */
  lemma UsesSame(sp: Space, sq: Space, f: Frame)
    requires sp.Keys == sq.Keys && forall v :: v in sp ==> sp[v].frame == sq[v].frame
    ensures Uses(sp, f) == Uses(sq, f)
  {
  }

  lemma HoldersMember(spaces: map<Frame, Space>, r: Frame, v: Va)
    requires r in spaces && v in spaces[r]
    ensures (r, v) in Holders(spaces, spaces[r][v].frame)
    ensures |Holders(spaces, spaces[r][v].frame)| >= 1
    ensures |Holders(spaces, spaces[r][v].frame)| == 1 <==> Sole(spaces, r, v)
  {
    var f := spaces[r][v].frame;
    var hs := Holders(spaces, f);
    assert (r, v) in hs;
    var rest := hs - {(r, v)};
    assert |rest| == |hs| - 1;
    if Sole(spaces, r, v) {
      assert rest == {};
    } else {
      var q, w :| q in spaces && w in spaces[q] && spaces[q][w].frame == f && !(q == r && w == v);
      assert (q, w) in rest;
    }
  }

  /** alloc_page never returns a frame that is mapped, pinned, a table or held by the kernel. */
  lemma FreeUnheld(s: Flat, f: Frame)
    requires Inv(s) && f < s.pool.total && s.pool.free[f]
    ensures f !in s.tables && f !in s.kernel && !s.pool.pinned[f]
    ensures forall r, v :: r in s.spaces && v in s.spaces[r] ==> s.spaces[r][v].frame != f
  {
    assert s.pool.ref[f] == 0 && CountedAt(s, f);
    forall r, v | r in s.spaces && v in s.spaces[r] ensures s.spaces[r][v].frame != f {
      HoldersMember(s.spaces, r, v);
    }
  }

  /** A frame that is mapped, a table or held by the kernel is not free. */
  lemma HeldNotFree(s: Flat, r: Frame, v: Va)
    requires Inv(s) && r in s.spaces && v in s.spaces[r]
    ensures EntryOk(s, r, v) && !IsFree(s.pool, s.spaces[r][v].frame) && RefCount(s.pool, s.spaces[r][v].frame) >= 1
  {
    assert EntryOk(s, r, v) && CountedAt(s, s.spaces[r][v].frame);
    HoldersMember(s.spaces, r, v);
  }

  /** What page_get_refcount tells: zero means nobody holds the frame. */
  lemma CountZero(s: Flat, f: Frame)
    requires Inv(s) && f < s.pool.total
    ensures RefCount(s.pool, f) == 0 <==> Holders(s.spaces, f) == {} && f !in s.tables && f !in s.kernel
  {
    hide CountTrue;
    assert CountedAt(s, f);
  }

  /** And at most one means that a mapped page is nobody else's, which the COW fault relies on. */
  lemma CountTellsSharing(s: Flat, r: Frame, v: Va)
    requires Inv(s) && r in s.spaces && v in s.spaces[r]
    ensures RefCount(s.pool, s.spaces[r][v].frame) <= 1 <==> Sole(s.spaces, r, v) && s.spaces[r][v].frame !in s.kernel
  {
    hide CountTrue;
    assert EntryOk(s, r, v) && CountedAt(s, s.spaces[r][v].frame);
    HoldersMember(s.spaces, r, v);
  }
}
