/** The reference-counted physical frame allocator of kernel/memory.c.

    `Pool` is the value of the allocator's static state; the pure operations on it are the
    specification that the methods of `PageAllocator` are proved against.  Bit `p` of the
    bitmap is bit `p % 32` of word `p / 32`; a set bit means "free". */
module Frames {

  const MAX_PAGES: nat := 131072
  const WORD_BITS: nat := 32
  const MAX_REF: nat := 255
  const LOW_1MB_PAGES: nat := 256
  const PAGE_BYTES: nat := 4096

  /** A physical page number; page 0 is never handed out, so 0 doubles as the null result. */
  type Frame = nat
  const NULL: Frame := 0

  datatype Pool = Pool(total: nat, free: seq<bool>, ref: seq<nat>, pinned: seq<bool>, freePages: int)

  function CountTrue(s: seq<bool>): (n: nat)
    ensures n <= |s|
  {
    if s == [] then 0 else CountTrue(s[..|s| - 1]) + if s[|s| - 1] then 1 else 0
  }

  ghost predicate Shape(p: Pool) {
    |p.free| == |p.ref| == |p.pinned| == MAX_PAGES && p.total <= MAX_PAGES
  }

  /** What every allocator operation keeps. */
  ghost predicate Valid(p: Pool) {
    && Shape(p)
    && p.freePages == CountTrue(p.free[..p.total])
    && (forall f :: 0 <= f < p.total ==> p.ref[f] <= MAX_REF)
    && (forall f :: 0 <= f < p.total && p.free[f] ==> p.ref[f] == 0 && !p.pinned[f])
    && (p.total > 0 ==> !p.free[NULL])
  }

  // ---- the pure operations -------------------------------------------------

  /** page_get_refcount. */
  function RefCount(p: Pool, f: Frame): nat
    requires Shape(p)
  {
    if f < p.total then p.ref[f] else 0
  }

  predicate IsFree(p: Pool, f: Frame)
    requires Shape(p)
  {
    f < p.total && p.free[f]
  }

  /** alloc_page having chosen frame `f`. */
  function Taken(p: Pool, f: Frame): (q: Pool)
    requires Shape(p) && f < p.total
    ensures Shape(q)
  {
    p.(free := p.free[f := false], ref := p.ref[f := 1], freePages := p.freePages - 1)
  }

  /** page_incref: saturates at 255 and ignores frames outside the pool. */
  function Shared(p: Pool, f: Frame): (q: Pool)
    requires Shape(p)
    ensures Shape(q)
  {
    if f >= p.total || p.ref[f] >= MAX_REF then p else p.(ref := p.ref[f := p.ref[f] + 1])
  }

  /** free_page: drop one reference, and release the frame with the last one unless pinned. */
  function Dropped(p: Pool, f: Frame): (q: Pool)
    requires Shape(p)
    ensures Shape(q)
  {
    if f >= p.total then p
    else if p.ref[f] > 1 then p.(ref := p.ref[f := p.ref[f] - 1])
    else if p.pinned[f] then p.(ref := p.ref[f := 1])
    else p.(ref := p.ref[f := 0], free := p.free[f := true], freePages := p.freePages + 1)
  }

  function DroppedAll(p: Pool, fs: seq<Frame>): (q: Pool)
    requires Shape(p)
    ensures Shape(q) && q.total == p.total && q.pinned == p.pinned
  {
    if fs == [] then p else Dropped(DroppedAll(p, fs[..|fs| - 1]), fs[|fs| - 1])
  }

  function SharedAll(p: Pool, fs: seq<Frame>): (q: Pool)
    requires Shape(p)
    ensures Shape(q) && q.total == p.total && q.pinned == p.pinned && q.free == p.free && q.freePages == p.freePages
  {
    if fs == [] then p else Shared(SharedAll(p, fs[..|fs| - 1]), fs[|fs| - 1])
  }

  // ---- counting ------------------------------------------------------------

  lemma {:induction false} CountUpdate(s: seq<bool>, i: nat, b: bool)
    requires i < |s|
    ensures CountTrue(s[i := b]) == CountTrue(s) - (if s[i] then 1 else 0) + (if b then 1 else 0)
  {
    var n := |s| - 1;
    if i < n {
      CountUpdate(s[..n], i, b);
      assert s[i := b][..n] == s[..n][i := b];
    } else {
      assert s[i := b][..n] == s[..n];
    }
  }

  lemma CountUpdatePrefix(s: seq<bool>, total: nat, i: nat, b: bool)
    requires i < total <= |s|
    ensures CountTrue(s[i := b][..total]) == CountTrue(s[..total]) - (if s[i] then 1 else 0) + (if b then 1 else 0)
  {
    CountUpdate(s[..total], i, b);
    assert s[i := b][..total] == s[..total][i := b];
  }

  lemma {:induction false} CountNone(s: seq<bool>)
    requires forall i :: 0 <= i < |s| ==> !s[i]
    ensures CountTrue(s) == 0
  {
    if s != [] { CountNone(s[..|s| - 1]); }
  }

  lemma {:induction false} CountAll(s: seq<bool>)
    requires forall i :: 0 <= i < |s| ==> s[i]
    ensures CountTrue(s) == |s|
  {
    if s != [] { CountAll(s[..|s| - 1]); }
  }

  // ---- each operation keeps the invariant ----------------------------------

  lemma TakenValid(p: Pool, f: Frame)
    requires Valid(p) && 0 < f < p.total && p.free[f]
    ensures Valid(Taken(p, f))
  {
    CountUpdatePrefix(p.free, p.total, f, false);
  }

  lemma DroppedValid(p: Pool, f: Frame)
    requires Valid(p) && (f < p.total ==> f != NULL && !p.free[f])
    ensures Valid(Dropped(p, f))
  {
    if f < p.total && p.ref[f] <= 1 && !p.pinned[f] { CountUpdatePrefix(p.free, p.total, f, true); }
  }

  lemma SharedValid(p: Pool, f: Frame)
    requires Valid(p) && (f < p.total ==> !p.free[f])
    ensures Valid(Shared(p, f))
  {
  }

  // ---- whole batches of references -----------------------------------------

  /** Dropping a list of references touches each frame by how often the list names it: the
      order never matters, and a frame returns to the pool exactly when its last reference goes. */
  lemma {:induction false} DroppedAllAt(p: Pool, fs: seq<Frame>, f: Frame)
    requires Shape(p) && f < p.total && multiset(fs)[f] <= p.ref[f] && !p.pinned[f]
    ensures var q, n := DroppedAll(p, fs), multiset(fs)[f];
            q.ref[f] == p.ref[f] - n && q.free[f] == (p.free[f] || (n > 0 && n == p.ref[f]))
  {
    if fs != [] {
      var k := |fs| - 1;
      assert fs == fs[..k] + [fs[k]];
      DroppedAllAt(p, fs[..k], f);
    }
  }

  lemma {:induction false} DroppedAllValid(p: Pool, fs: seq<Frame>)
    requires Valid(p)
    requires forall f :: f in fs ==> 0 < f < p.total && !p.free[f]
    requires forall f :: f in fs && !p.pinned[f] ==> multiset(fs)[f] <= p.ref[f]
    ensures Valid(DroppedAll(p, fs))
    ensures forall f :: 0 <= f < p.total && p.pinned[f] ==> DroppedAll(p, fs).free[f] == p.free[f]
  {
    if fs != [] {
      var k := |fs| - 1;
      assert fs == fs[..k] + [fs[k]];
      forall f | f in fs[..k] ensures f in fs && multiset(fs[..k])[f] <= multiset(fs)[f] {}
      DroppedAllValid(p, fs[..k]);
      assert fs[k] in fs;
      if !p.pinned[fs[k]] { DroppedAllAt(p, fs[..k], fs[k]); }
      DroppedValid(DroppedAll(p, fs[..k]), fs[k]);
    }
  }

  /** Sharing a list of references saturates each count at 255. */
  lemma {:induction false} SharedAllAt(p: Pool, fs: seq<Frame>, f: Frame)
    requires Shape(p) && f < p.total && p.ref[f] <= MAX_REF
    ensures SharedAll(p, fs).ref[f] == if p.ref[f] + multiset(fs)[f] <= MAX_REF then p.ref[f] + multiset(fs)[f]
              else MAX_REF
  {
    if fs != [] {
      var k := |fs| - 1;
      assert fs == fs[..k] + [fs[k]];
      SharedAllAt(p, fs[..k], f);
    }
  }

  // ---- the class -----------------------------------------------------------

  /** A firmware memory-map entry; `kind` 1 is available RAM. */
  datatype Region = Region(base: nat, len: nat, kind: nat)

  /** Page `p` lies wholly inside an available region. */
  ghost predicate Available(rs: seq<Region>, p: nat) { InRegions(rs, |rs|, p) }

  predicate Holds(r: Region, p: nat) {
    r.kind == 1 && r.base <= p * PAGE_BYTES && (p + 1) * PAGE_BYTES <= r.base + r.len
  }

  /** End of the highest available region among the first `n`. */
  function Top(rs: seq<Region>, n: nat): (t: nat)
    requires n <= |rs|
  {
    if n == 0 then 0 else
    var t := Top(rs, n - 1);
    if rs[n - 1].kind == 1 && rs[n - 1].base + rs[n - 1].len > t then rs[n - 1].base + rs[n - 1].len else t
  }

  lemma {:induction false} AvailableBelowTop(rs: seq<Region>, n: nat, r: nat, p: nat)
    requires r < n <= |rs| && Holds(rs[r], p)
    ensures p < Top(rs, n) / PAGE_BYTES
  {
    if r < n - 1 { AvailableBelowTop(rs, n - 1, r, p); }
  }

  function Pages(bytes: nat): nat { if bytes / PAGE_BYTES > MAX_PAGES then MAX_PAGES else bytes / PAGE_BYTES }

  /** First page wholly inside a region, and the first page past it. */
  function StartPage(r: Region): nat { (r.base + PAGE_BYTES - 1) / PAGE_BYTES }

  function EndPage(r: Region): nat { (r.base + r.len) / PAGE_BYTES }

  lemma HoldsPages(r: Region, p: nat)
    ensures Holds(r, p) <==> r.kind == 1 && StartPage(r) <= p < EndPage(r)
  {
  }

  /** Page `p` is free once the first `n` regions are released. */
  ghost predicate InRegions(rs: seq<Region>, n: nat, p: nat)
    requires n <= |rs|
  {
    exists r {:trigger Holds(rs[r], p)} :: 0 <= r < n && Holds(rs[r], p)
  }

  lemma InRegionsMore(rs: seq<Region>, r: nat, p: nat)
    requires r < |rs|
    ensures InRegions(rs, r + 1, p) <==> InRegions(rs, r, p) || Holds(rs[r], p)
  {
  }

  class PageAllocator {
    const bitmap: array<bool>
    const refcount: array<nat>
    const pins: array<bool>
    var totalPages: nat
    var freePages: int

    ghost predicate Ok()
      reads this, bitmap, refcount, pins
    {
      && bitmap.Length == refcount.Length == pins.Length == MAX_PAGES
      && bitmap != pins
      && totalPages <= MAX_PAGES
      && Valid(View())
    }

    ghost function View(): (p: Pool)
      reads this, bitmap, refcount, pins
    {
      Pool(totalPages, bitmap[..], refcount[..], pins[..], freePages)
    }

    /** The static state before init_memory: all zero. */
    constructor ()
      ensures Ok() && View().total == 0
      ensures fresh(bitmap) && fresh(refcount) && fresh(pins)
      ensures forall f :: 0 <= f < MAX_PAGES ==> !bitmap[f] && refcount[f] == 0 && !pins[f]
    {
      bitmap := new bool[MAX_PAGES](i => false);
      refcount := new nat[MAX_PAGES](i => 0);
      pins := new bool[MAX_PAGES](i => false);
      totalPages := 0;
      freePages := 0;
      new;
    }

    // ---- boot ----------------------------------------------------------------

    /** Sizes agree and `free_pages` counts the free bits; nothing is owned yet. */
    ghost predicate Booting()
      reads this, bitmap, refcount, pins
    {
      && bitmap.Length == refcount.Length == pins.Length == MAX_PAGES && bitmap != pins && totalPages <= MAX_PAGES
      && freePages == CountTrue(bitmap[..][..totalPages])
      && (forall f {:trigger refcount[f]} :: 0 <= f < MAX_PAGES ==> refcount[f] == 0)
      && (forall f {:trigger pins[f]} :: 0 <= f < MAX_PAGES ==> !pins[f])
    }

    /** Change one bit below `total_pages` and keep the count. */
    method SetBit(f: Frame, free: bool)
      requires Booting() && f < totalPages && bitmap[f] != free
      modifies this`freePages, bitmap
      ensures Booting() && bitmap[..] == old(bitmap[..])[f := free]
    {
      CountUpdatePrefix(bitmap[..], totalPages, f, free);
      bitmap[f] := free;
      freePages := if free then freePages + 1 else freePages - 1;
      assert bitmap[..] == old(bitmap[..])[f := free];
    }

    /** reserve_low_pages. */
    method ReserveLowPages(end: nat)
      requires Booting()
      modifies this`freePages, bitmap
      ensures Booting()
      ensures forall f {:trigger bitmap[f]} :: 0 <= f < totalPages ==> (bitmap[f] <==> old(bitmap[f]) && f >= end)
    {
      var i := 0;
      while i < end && i < totalPages
        invariant 0 <= i && Booting()
        invariant forall f {:trigger bitmap[f]} ::
                  0 <= f < totalPages ==> (bitmap[f] <==> old(bitmap[f]) && f >= if i < end then i else end)
        invariant i <= end || i == 0
      {
        if bitmap[i] { SetBit(i, false); }
        i := i + 1;
      }
    }

    /** Release the whole pages of one region. */
    method ReleaseRegion(r: Region)
      requires Booting() && r.kind == 1
      modifies this`freePages, bitmap
      ensures Booting()
      ensures forall f {:trigger bitmap[f]} :: 0 <= f < totalPages ==> (bitmap[f] <==> old(bitmap[f]) || Holds(r, f))
    {
      var p, end := StartPage(r), EndPage(r);
      ghost var from := p;
      while p < end
        invariant from <= p && Booting()
        invariant forall f {:trigger bitmap[f]} ::
                  0 <= f < totalPages ==> (bitmap[f] <==> old(bitmap[f]) || (from <= f < p && f < end))
      {
        if p >= totalPages { break; }
        if !bitmap[p] { SetBit(p, true); }
        p := p + 1;
      }
      forall f | 0 <= f < totalPages ensures bitmap[f] <==> old(bitmap[f]) || Holds(r, f) { HoldsPages(r, f); }
    }

    /** init_memory with a firmware map: exactly the available pages above the kernel and the low
        megabyte are free. */
    method InitFromMap(map_: seq<Region>, kernelEnd: nat)
      requires Booting() && |map_| > 0
      modifies this, bitmap
      ensures Ok() && totalPages == Pages(Top(map_, |map_|))
      ensures forall f {:trigger Available(map_, f)} :: 0 <= f < MAX_PAGES && Available(map_, f) ==> f < totalPages
      ensures forall f {:trigger bitmap[f]} ::
                0 <= f < totalPages ==> (bitmap[f] <==> Available(map_, f) && f >= LOW_1MB_PAGES && f >= kernelEnd)
    {
      forall i | 0 <= i < MAX_PAGES { bitmap[i] := false; }
      freePages := 0;
      var top, r := 0, 0;
      while r < |map_|
        invariant 0 <= r <= |map_| && top == Top(map_, r)
      {
        if map_[r].kind == 1 && map_[r].base + map_[r].len > top { top := map_[r].base + map_[r].len; }
        r := r + 1;
      }
      totalPages := Pages(top);
      CountNone(bitmap[..][..totalPages]);
      r := 0;
      while r < |map_|
        invariant 0 <= r <= |map_| && Booting() && totalPages == Pages(top)
        invariant forall f {:trigger bitmap[f]} :: 0 <= f < totalPages ==> (bitmap[f] <==> InRegions(map_, r, f))
      {
        ghost var before := bitmap[..];
        if map_[r].kind == 1 { ReleaseRegion(map_[r]); }
        forall f | 0 <= f < totalPages
          ensures bitmap[f] <==> InRegions(map_, r + 1, f)
        {
          assert before[f] <==> InRegions(map_, r, f); InRegionsMore(map_, r, f);
        }
        r := r + 1;
      }
      ReserveLowPages(if kernelEnd > LOW_1MB_PAGES then kernelEnd else LOW_1MB_PAGES);
      forall f: nat | f < MAX_PAGES && Available(map_, f) ensures f < totalPages {
        var k :| 0 <= k < |map_| && Holds(map_[k], f);
        AvailableBelowTop(map_, |map_|, k, f);
      }
      Booted();
    }

    /** init_memory without a map: everything above the kernel is free. */
    method InitFlat(memSize: nat, kernelEnd: nat)
      requires Booting() && kernelEnd > 0
      modifies this, bitmap
      ensures Ok() && totalPages == Pages(memSize)
      ensures forall f {:trigger bitmap[f]} :: 0 <= f < totalPages ==> (bitmap[f] <==> f >= kernelEnd)
    {
      forall i | 0 <= i < MAX_PAGES { bitmap[i] := true; }
      totalPages := Pages(memSize);
      freePages := totalPages;
      CountAll(bitmap[..][..totalPages]);
      ReserveLowPages(kernelEnd);
      Booted();
    }

    lemma Booted()
      requires Booting() && (totalPages > 0 ==> !bitmap[0])
      ensures Ok()
    {
      assert View().free[..totalPages] == bitmap[..][..totalPages];
    }

    /** __builtin_ctz of bitmap word `w`, or 32 when the word is zero. */
    method LowestSetBit(w: nat) returns (bit: nat)
      requires bitmap.Length == MAX_PAGES && (w + 1) * WORD_BITS <= MAX_PAGES
      ensures bit <= WORD_BITS
      ensures forall b :: w * WORD_BITS <= b < w * WORD_BITS + bit ==> !bitmap[b]
      ensures bit < WORD_BITS ==> bitmap[w * WORD_BITS + bit]
    {
      bit := 0;
      while bit < WORD_BITS && !bitmap[w * WORD_BITS + bit]
        invariant bit <= WORD_BITS
        invariant forall b :: w * WORD_BITS <= b < w * WORD_BITS + bit ==> !bitmap[b]
      {
        bit := bit + 1;
      }
    }

    /** alloc_page: the lowest free frame, or NULL exactly when no frame is free. */
    method AllocPage() returns (f: Frame)
      requires Ok()
      modifies this`freePages, bitmap, refcount
      ensures Ok()
      ensures f == NULL ==> View() == old(View()) && forall g :: 0 <= g < totalPages ==> !bitmap[g]
      ensures f != NULL ==> f < totalPages && old(bitmap[f]) && View() == Taken(old(View()), f)
      ensures f != NULL ==> forall g :: 0 <= g < f ==> !old(bitmap[g])
    {
      ghost var p := View();
      var i := 0;
      while i < MAX_PAGES / WORD_BITS && i * WORD_BITS < totalPages
        invariant 0 <= i <= MAX_PAGES / WORD_BITS
        invariant forall g :: 0 <= g < i * WORD_BITS ==> !bitmap[g]
        invariant View() == p
      {
        var bit := LowestSetBit(i);
        if bit < WORD_BITS {
          var idx := i * WORD_BITS + bit;
          if idx >= totalPages { break; }
          assert p.free[idx];
          bitmap[idx] := false;
          freePages := freePages - 1;
          refcount[idx] := 1;
          assert View() == Taken(p, idx);
          TakenValid(p, idx);
          return idx;
        }
        i := i + 1;
      }
      return NULL;
    }

    method PageIncref(f: Frame)
      requires Ok() && (f < totalPages ==> !bitmap[f])
      modifies refcount
      ensures Ok() && View() == Shared(old(View()), f)
    {
      ghost var p := View();
      SharedValid(p, f);
      if f >= totalPages { return; }
      if refcount[f] < MAX_REF { refcount[f] := refcount[f] + 1; }
      assert View() == Shared(p, f);
    }

    method GetRefcount(f: Frame) returns (n: nat)
      requires Ok()
      ensures n == RefCount(View(), f)
    {
      if f >= totalPages { return 0; }
      return refcount[f];
    }

    method FreePage(f: Frame)
      requires Ok() && (f < totalPages ==> f != NULL && !bitmap[f])
      modifies this`freePages, bitmap, refcount
      ensures Ok() && View() == Dropped(old(View()), f)
    {
      ghost var p := View();
      DroppedValid(p, f);
      if f >= totalPages { return; }
      if refcount[f] > 1 {
        refcount[f] := refcount[f] - 1;
      } else if pins[f] {
        refcount[f] := 1;
      } else {
        refcount[f] := 0;
        bitmap[f] := true;
        freePages := freePages + 1;
      }
      assert View() == Dropped(p, f);
    }

    method PagePin(f: Frame)
      requires Ok() && (f < totalPages ==> !bitmap[f])
      modifies pins
      ensures Ok()
      ensures f < MAX_PAGES ==> View() == old(View()).(pinned := old(View()).pinned[f := true])
      ensures f >= MAX_PAGES ==> View() == old(View())
    {
      ghost var p := View();
      if f < MAX_PAGES { pins[f] := true; assert View() == p.(pinned := p.pinned[f := true]); }
    }
  }
}
