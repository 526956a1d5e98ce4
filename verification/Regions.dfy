/** vm_collect_regions of kernel/paging.c: coalescing the present user pages into runs with
    equal permissions, for /proc/<pid>/maps. */
module Regions {
  import opened Frames
  import opened AddressSpaces
  import opened SpaceOps
  import opened PageTables
  import opened WalkSteps
  import opened PagingSteps

  /** Pages `[start, end)` with the same permissions. */
  datatype Run = Run(start: nat, end: nat, writable: bool, exec: bool)

  /** A page and its permissions; a COW page counts as writable. */
  datatype Listed = Listed(page: nat, writable: bool, exec: bool)

  function ListedOf(v: Va, e: Entry): Listed {
    Listed(v, e.writable || e.cow, !e.nx)
  }

  /** The present pages below `n`, in address order. */
  ghost function PagesBelow(sp: Space, n: nat): seq<Listed> {
    if n == 0 then [] else PagesBelow(sp, n - 1) + if n - 1 in sp then [ListedOf(n - 1, sp[n - 1])] else []
  }

  predicate Joins(out: seq<Run>, p: Listed) {
    out != [] && out[|out| - 1].end == p.page && out[|out| - 1].writable == p.writable && out[|out| - 1].exec == p.exec
  }

  /** Extend the last run by one page, or start a new run. */
  function Add(out: seq<Run>, p: Listed): seq<Run> {
    if Joins(out, p) then out[..|out| - 1] + [out[|out| - 1].(end := p.page + 1)]
    else out + [Run(p.page, p.page + 1, p.writable, p.exec)]
  }

  /** The regions after the walk has passed the pages below `n`. */
  ghost function RunsBelow(sp: Space, n: nat): seq<Run> {
    if n == 0 then [] else if n - 1 in sp then Add(RunsBelow(sp, n - 1), ListedOf(n - 1, sp[n - 1]))
        else RunsBelow(sp, n - 1)
  }

  // ---- what a list of runs stands for -----------------------------------

  function ExpandOne(r: Run): (ps: seq<Listed>)
    requires r.start <= r.end
  {
    seq(r.end - r.start, i requires 0 <= i => Listed(r.start + i, r.writable, r.exec))
  }

  ghost predicate Proper(out: seq<Run>) {
    forall i :: 0 <= i < |out| ==> out[i].start < out[i].end
  }

  ghost function Expand(out: seq<Run>): seq<Listed>
    requires Proper(out)
  {
    if out == [] then [] else Expand(out[..|out| - 1]) + ExpandOne(out[|out| - 1])
  }

  /** Neighbouring regions are in order and could not be merged. */
  ghost predicate Maximal(out: seq<Run>) {
    forall i :: 0 <= i < |out| - 1 ==>
      out[i].end <= out[i + 1].start
          && !(out[i].end == out[i + 1].start && out[i].writable == out[i + 1].writable
               && out[i].exec == out[i + 1].exec)
  }

  ghost predicate EndsBy(out: seq<Run>, n: nat) {
    out != [] ==> out[|out| - 1].end <= n
  }

  lemma AddProper(out: seq<Run>, p: Listed)
    requires Proper(out) && Maximal(out) && EndsBy(out, p.page)
    ensures Proper(Add(out, p)) && Maximal(Add(out, p)) && EndsBy(Add(out, p), p.page + 1)
  {
  }

  lemma ExpandOneMore(r: Run, p: Listed)
    requires r.start <= r.end == p.page && r.writable == p.writable && r.exec == p.exec
    ensures ExpandOne(r.(end := p.page + 1)) == ExpandOne(r) + [p]
  {
  }

  lemma ExpandSnoc(out: seq<Run>, r: Run)
    requires Proper(out) && r.start < r.end
    ensures Proper(out + [r]) && Expand(out + [r]) == Expand(out) + ExpandOne(r)
  {
    assert (out + [r])[..|out|] == out;
  }

  lemma AddExpands(out: seq<Run>, p: Listed)
    requires Proper(out) && EndsBy(out, p.page)
    ensures Proper(Add(out, p)) && Expand(Add(out, p)) == Expand(out) + [p]
  {
    hide Expand, ExpandOne;
    var k := |out| - 1;
    if Joins(out, p) {
      var r := out[k];
      assert out == out[..k] + [r];
      ExpandSnoc(out[..k], r);
      ExpandSnoc(out[..k], r.(end := p.page + 1));
      ExpandOneMore(r, p);
      assert Expand(out[..k]) + (ExpandOne(r) + [p]) == (Expand(out[..k]) + ExpandOne(r)) + [p];
    } else {
      var r := Run(p.page, p.page + 1, p.writable, p.exec);
      ExpandSnoc(out, r);
      ExpandSingle(r);
    }
  }

  lemma ExpandSingle(r: Run)
    requires r.end == r.start + 1
    ensures ExpandOne(r) == [Listed(r.start, r.writable, r.exec)]
  {
  }

  /** Coalescing is lossless and maximal: expanding the regions gives back exactly the present
      pages in address order with their permissions, and no two neighbours could be merged. */
  lemma {:induction false} RunsExact(sp: Space, n: nat)
    ensures Proper(RunsBelow(sp, n)) && Maximal(RunsBelow(sp, n)) && EndsBy(RunsBelow(sp, n), n)
    ensures Expand(RunsBelow(sp, n)) == PagesBelow(sp, n)
  {
    if n > 0 {
      RunsExact(sp, n - 1);
      if n - 1 in sp {
        AddProper(RunsBelow(sp, n - 1), ListedOf(n - 1, sp[n - 1]));
        AddExpands(RunsBelow(sp, n - 1), ListedOf(n - 1, sp[n - 1]));
      } else {
        assert PagesBelow(sp, n) == PagesBelow(sp, n - 1);
      }
    }
  }

  /** Once a page starts a new region, the regions before it are final. */
  lemma {:induction false} RunsPrefix(sp: Space, n: nat, m: nat)
    requires n < m && n in sp && !Joins(RunsBelow(sp, n), ListedOf(n, sp[n]))
    ensures RunsBelow(sp, n) < RunsBelow(sp, m)
  {
    if n + 1 < m { RunsPrefix(sp, n, m - 1); }
  }

  lemma {:induction false} RunsSkip(sp: Space, n: nat, m: nat)
    requires n <= m && NoneIn(sp, n, m)
    ensures RunsBelow(sp, n) == RunsBelow(sp, m)
  {
    if n < m { RunsSkip(sp, n, m - 1); }
  }

  // ---- the walk ------------------------------------------------------------

  /** The walk over memory `m` stands at page `n`, or has stopped there because the next page
      needs a region beyond `max`. */
  ghost predicate Collecting(sp: Space, out: seq<Run>, max: nat, n: nat, full: bool) {
    && out == RunsBelow(sp, n) && |out| <= max
    && (full ==> |out| == max && n < VA_LIMIT && n in sp && !Joins(out, ListedOf(n, sp[n])))
  }

  class Collector {
    const mem: Memory
    const max: nat
    ghost const ph: Phys
    var out: seq<Run>

    constructor (ghost ph: Phys, mem: Memory, max: nat)
      requires mem == ph.mem
      ensures this.ph == ph && this.mem == mem && this.max == max && out == []
    {
      this.ph := ph;
      this.mem := mem;
      this.max := max;
      out := [];
    }

    ghost predicate At(r: Frame, n: nat, full: bool)
      reads this
    {
      mem == ph.mem && Good(ph) && r in FlatOf(ph).spaces && Collecting(FlatOf(ph).spaces[r], out, max, n, full)
    }

    /** The innermost loop, over one page table whose first page is `base`. */
    method Leaves(pt: Frame, base: Va, ghost r: Frame) returns (full: bool, ghost n: nat)
      requires pt in ph.owner && ph.owner[pt].root == r && ph.owner[pt].lvl == 3 && base == ph.owner[pt].pre * ENTRIES
      requires At(r, base, false)
      modifies this
      ensures At(r, n, full) && (!full ==> n == base + ENTRIES)
    {
      hide Good, FlatOf, Holds3;
      ghost var sp := FlatOf(ph).spaces[r];
      LeafAt(ph, pt, 0);
      var l := 0;
      while l < ENTRIES
        invariant l <= ENTRIES && At(r, base + l, false)
      {
        LeafAt(ph, pt, l);
        var e := mem[pt].entries[l];
        if e.present {
          var p := ListedOf(base + l, e);
          if !Joins(out, p) && |out| >= max { return true, base + l; }
          out := Add(out, p);
        }
        l := l + 1;
      }
      return false, base + ENTRIES;
    }

    /** The outer loops, over the first `count` entries of a table. */
    method Entries(f: Frame, lvl: nat, count: nat, pre: nat, ghost r: Frame) returns (full: bool, ghost n: nat)
      requires f in ph.owner && ph.owner[f].root == r && ph.owner[f].lvl == lvl < 3 && ph.owner[f].pre == pre
      requires 0 < count && UserSlot(lvl, count - 1)
      requires At(r, First(pre, lvl), false)
      modifies this
      ensures At(r, n, full) && (!full ==> n == First(pre * ENTRIES + count, lvl + 1))
      decreases 3 - lvl, 0
    {
      hide Good, FlatOf, First, RunsBelow;
      RootKnown(ph, f);
      FirstDown(pre, lvl);
      n := First(pre, lvl);
      var i := 0;
      while i < count
        invariant i <= count && n == First(pre * ENTRIES + i, lvl + 1) && At(r, n, false)
      {
        var e := mem[f].entries[i];
        if !e.present || e.huge {
          EmptyRange(ph, f, i);
          FirstMonotone(pre * ENTRIES + i, pre * ENTRIES + i + 1, lvl + 1);
          RunsSkip(FlatOf(ph).spaces[r], n, First(pre * ENTRIES + i + 1, lvl + 1));
          n := First(pre * ENTRIES + i + 1, lvl + 1);
        } else {
          ChildPlace(ph, f, i);
          full, n := Below(e.frame, lvl + 1, pre * ENTRIES + i, r);
          if full { return; }
        }
        i := i + 1;
      }
      full := false;
    }

    method Below(f: Frame, lvl: nat, pre: nat, ghost r: Frame) returns (full: bool, ghost n: nat)
      requires f in ph.owner && ph.owner[f].root == r && 0 < ph.owner[f].lvl == lvl <= 3 && ph.owner[f].pre == pre
      requires At(r, First(pre, lvl), false)
      modifies this
      ensures At(r, n, full) && (!full ==> n == First(pre + 1, lvl))
      decreases 3 - lvl, 1
    {
      hide Good, FlatOf, First, RunsBelow;
      if lvl == 3 {
        LeafRange(pre);
        LeafRange(pre + 1);
        full, n := Leaves(f, pre * ENTRIES, r);
      } else {
        FirstDown(pre + 1, lvl);
        full, n := Entries(f, lvl, ENTRIES, pre, r);
      }
    }
  }

  lemma EmptyRange(ph: Phys, f: Frame, i: nat)
    requires Good(ph) && f in ph.owner && ph.owner[f].lvl < 3 && i < ENTRIES && Child(ph.mem, f, i) == None
    requires ph.owner[f].root in FlatOf(ph).spaces
    ensures NoneIn(FlatOf(ph).spaces[ph.owner[f].root], First(ph.owner[f].pre * ENTRIES + i, ph.owner[f].lvl + 1),
              First(ph.owner[f].pre * ENTRIES + i + 1, ph.owner[f].lvl + 1))
  {
    hide First, SpaceOf;
    AbsentRange(ph, f, i);
  }

  /** vm_collect_regions: the regions of all present pages below the kernel mirror, or the first
      `max` of them. */
  method CollectRegions(ghost ph: Phys, mem: Memory, pml4: Frame, max: nat) returns (out: seq<Run>)
    requires Good(ph) && mem == ph.mem && pml4 in FlatOf(ph).spaces
    ensures |out| <= max && out <= RunsBelow(FlatOf(ph).spaces[pml4], VA_LIMIT)
    ensures |out| < max ==> out == RunsBelow(FlatOf(ph).spaces[pml4], VA_LIMIT)
  {
    hide Good, FlatOf, First, RunsBelow;
    ghost var sp := FlatOf(ph).spaces[pml4];
    NoRuns(sp);
    if max == 0 { return []; }
    RootPlace(ph, pml4, 0);
    FirstTop();
    var c := new Collector(ph, mem, max);
    var full;
    ghost var n;
    full, n := c.Entries(pml4, 0, KERNEL_SLOT, 0, pml4);
    out := c.out;
    if full { RunsPrefix(sp, n, VA_LIMIT); }
  }

  lemma NoRuns(sp: Space)
    ensures RunsBelow(sp, 0) == []
  {
  }
}
