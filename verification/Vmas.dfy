/** The mmap regions of one thread group (kernel/mmap.c): a table of slots and a bump pointer. */
module Vmas {
  const PAGE: nat := 4096
  const TWO64: nat := 0x1_0000_0000_0000_0000
  const MMAP_BASE: nat := 0x1_0000_0000
  const MMAP_MAX: nat := 0x0000_7000_0000_0000
  const USER_SPACE_MIN: nat := 0x1000
  const USER_SPACE_END: nat := 0x0000_8000_0000_0000
  const SLOTS: nat := 16

  /** A slot; `buf` is the identity of its file snapshot, zero if anonymous. */
  datatype Vma = Vma(start: nat, end: nat, prot: nat, used: bool, buf: nat, size: nat)

  const EMPTY: Vma := Vma(0, 0, 0, false, 0, 0)

  /** The slots, the bump pointer, and every range handed out since the last exec. */
  datatype Table = Table(vmas: seq<Vma>, next: nat, issued: seq<(nat, nat)>)

  /** `(length + 0xFFF) & ~0xFFF` on 64 bits. */
  function RoundUp(length: nat): (r: nat)
    ensures r % PAGE == 0
  {
    (length + PAGE - 1) % TWO64 / PAGE * PAGE
  }

  /** Rounding wraps to zero exactly for lengths in the last page of the 64-bit range. */
  lemma RoundUpExact(length: nat)
    requires 0 < length < TWO64
    ensures RoundUp(length) == 0 <==> length > TWO64 - PAGE
    ensures length <= TWO64 - PAGE ==> length <= RoundUp(length) < length + PAGE
  {
  }

  ghost predicate RegionOk(t: Table, v: Vma) {
    v.used ==> v.start % PAGE == 0 && v.end % PAGE == 0 && MMAP_BASE <= v.start < v.end <= t.next
  }

  predicate Overlap(a: nat, b: nat, c: nat, d: nat) { a < d && c < b }

  /** Regions are page-aligned, inside the window, below the bump pointer and pairwise disjoint; a
      slot not in use holds no snapshot; ranges handed out never overlap. */
  ghost predicate TableOk(t: Table) {
    && |t.vmas| == SLOTS && (t.next < MMAP_BASE ==> t.issued == []) && t.next <= MMAP_MAX && t.next % PAGE == 0
    && (forall i {:trigger t.vmas[i]} ::
          0 <= i < SLOTS ==> RegionOk(t, t.vmas[i]) && (!t.vmas[i].used ==> t.vmas[i].buf == 0))
    && (forall i, j {:trigger t.vmas[i], t.vmas[j]} ::
          0 <= i < j < SLOTS && t.vmas[i].used && t.vmas[j].used ==>
              !Overlap(t.vmas[i].start, t.vmas[i].end, t.vmas[j].start, t.vmas[j].end))
    && (forall k {:trigger t.issued[k]} :: 0 <= k < |t.issued| ==> MMAP_BASE <= t.issued[k].0 < t.issued[k].1 <= t.next)
    && (forall k, l {:trigger t.issued[k], t.issued[l]} ::
          0 <= k < l < |t.issued| ==> !Overlap(t.issued[k].0, t.issued[k].1, t.issued[l].0, t.issued[l].1))
  }

  // ---- mmap ----------------------------------------------------------------

  /** The first slot not in use, or the number of slots. */
  function FreeSlot(vs: seq<Vma>): (i: nat)
    ensures i <= |vs| && (i < |vs| ==> !vs[i].used) && forall j :: 0 <= j < i ==> vs[j].used
  {
    if vs == [] then 0 else if !vs[0].used then 0 else FreeSlot(vs[1..]) + 1
  }

  function Base(t: Table): nat { if t.next < MMAP_BASE then MMAP_BASE else t.next }

  /** do_mmap gets as far as recording the region. */
  predicate CanMap(t: Table, length: nat) {
    length > 0 && FreeSlot(t.vmas) < |t.vmas| && Base(t) + RoundUp(length) <= MMAP_MAX
  }

  function Mapped(t: Table, length: nat, prot: nat, buf: nat, size: nat): (r: Table)
    requires CanMap(t, length)
  {
    var b, e := Base(t), Base(t) + RoundUp(length);
    Table(t.vmas[FreeSlot(t.vmas) := Vma(b, e, prot, true, buf, size)], e, t.issued + [(b, e)])
  }

  /** A failed do_mmap may still have moved the bump pointer to the base of the window. */
  function Touched(t: Table): (r: Table) { t.(next := Base(t)) }

  lemma TouchedOk(t: Table)
    requires TableOk(t)
    ensures TableOk(Touched(t))
  {
    forall i | 0 <= i < SLOTS ensures RegionOk(Touched(t), t.vmas[i]) { assert RegionOk(t, t.vmas[i]); }
  }

  /** A new region keeps the table sound and is disjoint from everything handed out before, exactly
      when rounding did not wrap. */
  lemma MappedOk(t: Table, length: nat, prot: nat, buf: nat, size: nat)
    requires TableOk(t) && CanMap(t, length) && length < TWO64
    ensures TableOk(Mapped(t, length, prot, buf, size)) <==> length <= TWO64 - PAGE
  {
    RoundUpExact(length);
    var r, s := Mapped(t, length, prot, buf, size), FreeSlot(t.vmas);
    if length <= TWO64 - PAGE {
      forall i | 0 <= i < SLOTS
        ensures RegionOk(r, r.vmas[i]) && (!r.vmas[i].used ==> r.vmas[i].buf == 0)
      {
        if i != s { assert RegionOk(t, t.vmas[i]); }
      }
      forall i, j | 0 <= i < j < SLOTS && r.vmas[i].used && r.vmas[j].used
        ensures !Overlap(r.vmas[i].start, r.vmas[i].end, r.vmas[j].start, r.vmas[j].end)
      {
        if i != s { assert RegionOk(t, t.vmas[i]); }
        if j != s { assert RegionOk(t, t.vmas[j]); }
      }
    } else {
      assert !RegionOk(r, r.vmas[s]);
    }
  }

  /** With a length whose rounding wraps, two calls in a row return the same address. */
  lemma WrappedTwice(t: Table, length: nat)
    requires TableOk(t) && TWO64 - PAGE < length < TWO64 && CanMap(t, length)
    requires CanMap(Mapped(t, length, 0, 0, 0), length)
    ensures Base(Mapped(t, length, 0, 0, 0)) == Base(t)
  {
    RoundUpExact(length);
  }

  // ---- munmap --------------------------------------------------------------

  /** A used region inside [`addr`, `end`) loses its slot and its snapshot. */
  predicate Covered(v: Vma, addr: nat, end: nat) { v.used && v.start >= addr && v.end <= end }

  function Dropped(v: Vma, addr: nat, end: nat): Vma {
    if Covered(v, addr, end) then v.(used := false, buf := 0, size := if v.buf != 0 then 0 else v.size) else v
  }

  function Unmapped(t: Table, addr: nat, end: nat): (r: Table)
    ensures |r.vmas| == |t.vmas|
  {
    t.(vmas := seq(|t.vmas|, i requires 0 <= i < |t.vmas| => Dropped(t.vmas[i], addr, end)))
  }

  lemma UnmappedOk(t: Table, addr: nat, end: nat)
    requires TableOk(t)
    ensures TableOk(Unmapped(t, addr, end))
  {
    var r := Unmapped(t, addr, end);
    forall i | 0 <= i < SLOTS
      ensures RegionOk(r, r.vmas[i]) && (!r.vmas[i].used ==> r.vmas[i].buf == 0)
    {
      assert RegionOk(t, t.vmas[i]);
    }
    forall i, j | 0 <= i < j < SLOTS && r.vmas[i].used && r.vmas[j].used
      ensures !Overlap(r.vmas[i].start, r.vmas[i].end, r.vmas[j].start, r.vmas[j].end)
    {
      assert t.vmas[i].used && t.vmas[j].used;
    }
  }

  /** The table of a thread: same regions, no snapshots. */
  function Disowned(t: Table): (r: Table)
    ensures |r.vmas| == |t.vmas|
  {
    t.(vmas := seq(|t.vmas|, i requires 0 <= i < |t.vmas| => t.vmas[i].(buf := 0, size := 0)))
  }

  lemma DisownedOk(t: Table)
    requires TableOk(t)
    ensures TableOk(Disowned(t)) && forall i {:trigger Disowned(t).vmas[i]} ::
              0 <= i < SLOTS ==> Disowned(t).vmas[i].buf == 0
  {
    var r := Disowned(t);
    forall i | 0 <= i < SLOTS ensures RegionOk(r, r.vmas[i]) { assert RegionOk(t, t.vmas[i]); }
    forall i, j | 0 <= i < j < SLOTS && r.vmas[i].used && r.vmas[j].used
      ensures !Overlap(r.vmas[i].start, r.vmas[i].end, r.vmas[j].start, r.vmas[j].end)
    {
      assert t.vmas[i].used && t.vmas[j].used;
    }
  }

  // ---- the syscalls --------------------------------------------------------

  /** The table of the group leader, with the kernel heap's live snapshots. */
  class Group {
    const vmas: array<Vma>
    var next: nat
    var live: set<nat>
    ghost var issued: seq<(nat, nat)>

    ghost predicate Valid()
      reads this
    {
      vmas.Length == SLOTS
    }

    ghost function View(): Table
      reads this, vmas
    {
      Table(vmas[..], next, issued)
    }

    /** vma_find. */
    method Find(addr: nat) returns (i: nat)
      requires Valid()
      ensures i <= SLOTS
      ensures i < SLOTS ==> vmas[i].used && vmas[i].start <= addr < vmas[i].end
      ensures i == SLOTS ==> forall j :: 0 <= j < SLOTS ==> !(vmas[j].used && vmas[j].start <= addr < vmas[j].end)
    {
      i := 0;
      while i < SLOTS
        invariant 0 <= i <= SLOTS && forall j :: 0 <= j < i ==> !(vmas[j].used && vmas[j].start <= addr < vmas[j].end)
      {
        if vmas[i].used && addr >= vmas[i].start && addr < vmas[i].end { return; }
        i := i + 1;
      }
    }

    /** An empty table. */
    constructor ()
      ensures Valid() && fresh(vmas) && TableOk(View()) && live == {} && next == 0 && issued == []
    {
      vmas := new Vma[SLOTS](i => EMPTY);
      next, live, issued := 0, {}, [];
    }

    /** do_mmap; `buf` is the snapshot made for a file mapping, zero for an anonymous one, and
        `snapped` is false when it could not be allocated or read. */
    method Mmap(length: nat, prot: nat, buf: nat, size: nat, snapped: bool) returns (base: int)
      requires Valid() && length < TWO64
      modifies this`next, this`issued, vmas
      ensures View() == if length == 0 then old(View()) else if CanMap(old(View()), length) && snapped
                then Mapped(old(View()), length, prot, buf, size) else Touched(old(View()))
      ensures base == if CanMap(old(View()), length) && snapped then Base(old(View())) else -1
    {
      if length == 0 { return -1; }
      ghost var t := View();
      var len := RoundUp(length);
      if next < MMAP_BASE { next := MMAP_BASE; }
      var slot := 0;
      while slot < SLOTS && vmas[slot].used
        invariant 0 <= slot <= SLOTS && forall j :: 0 <= j < slot ==> vmas[j].used
      {
        slot := slot + 1;
      }
      SlotExact(vmas[..], slot);
      if slot == SLOTS { return -1; }
      base := next;
      if base + len > MMAP_MAX { return -1; }
      if !snapped { return -1; }
      next := base + len;
      vmas[slot] := Vma(base, base + len, prot, true, buf, size);
      issued := issued + [(base, base + len)];
      assert vmas[..] == t.vmas[slot := Vma(base, base + len, prot, true, buf, size)];
    }

    /** The table part of do_munmap: covered regions go and their snapshots are freed. */
    method Munmap(addr: nat, length: nat) returns (ok: bool)
      requires Valid() && addr < TWO64 && length < TWO64
      modifies this`live, vmas
      ensures ok <==> length > 0 && RangeOk(addr, length)
      ensures View() == if ok then Unmapped(old(View()), Floor(addr), RangeEnd(addr, length)) else old(View())
      ensures live == if ok then old(live) - Snapshots(old(vmas[..]), Floor(addr), RangeEnd(addr, length), SLOTS)
                else old(live)
    {
      if length == 0 { return false; }
      var from, end := Floor(addr), RangeEnd(addr, length);
      if end <= from || from < USER_SPACE_MIN || end > USER_SPACE_END { return false; }
      ghost var before := vmas[..];
      var i := 0;
      while i < SLOTS
        invariant 0 <= i <= SLOTS && live == old(live) - Snapshots(before, from, end, i)
        invariant forall j {:trigger vmas[j]} ::
                  0 <= j < SLOTS ==> vmas[j] == if j < i then Dropped(before[j], from, end) else before[j]
      {
        if vmas[i].used && vmas[i].start >= from && vmas[i].end <= end {
          if vmas[i].buf != 0 { live := live - {vmas[i].buf}; vmas[i] := vmas[i].(buf := 0, size := 0); }
          vmas[i] := vmas[i].(used := false);
        }
        i := i + 1;
      }
      assert vmas[..] == Unmapped(old(View()), from, end).vmas;
      ok := true;
    }
  }

  /** `addr & ~0xFFF`. */
  function Floor(addr: nat): nat { addr / PAGE * PAGE }

  function RangeEnd(addr: nat, length: nat): nat { (Floor(addr) + RoundUp(length)) % TWO64 }

  predicate RangeOk(addr: nat, length: nat) {
    Floor(addr) < RangeEnd(addr, length) && USER_SPACE_MIN <= Floor(addr) && RangeEnd(addr, length) <= USER_SPACE_END
  }

  /** The snapshots of the covered regions among the first `n` slots. */
  function Snapshots(vs: seq<Vma>, addr: nat, end: nat, n: nat): (s: set<nat>)
    requires n <= |vs|
  {
    if n == 0 then {} else
    var v := vs[n - 1];
    Snapshots(vs, addr, end, n - 1) + (if Covered(v, addr, end) && v.buf != 0 then {v.buf} else {})
  }

  lemma SlotExact(vs: seq<Vma>, s: nat)
    requires s <= |vs| && (s < |vs| ==> !vs[s].used) && forall j :: 0 <= j < s ==> vs[j].used
    ensures FreeSlot(vs) == s
  {
  }
}
