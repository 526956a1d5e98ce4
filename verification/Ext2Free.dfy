/** Freeing a file's blocks: free_inode_blocks releases exactly the blocks of one tree. */
module Ext2Free {
  import opened DiskBytes
  import opened Ext2Layout
  import opened Ext2Trees
  import opened Ext2Alloc
  import opened Ext2Files
  import opened Ext2Writing
  import opened Ext2Volume

  /** One of the slots in `seen` holds block `b`. */
  ghost predicate Hit(d: Disk, n: Inode, seen: iset<Slot>, b: nat) {
    b != 0 && exists s {:trigger At(d, n, s)} :: s in seen && At(d, n, s) == b
  }

  ghost predicate ReleasedBit(g: Geom, d0: Disk, d: Disk, n: Inode, seen: iset<Slot>, b: nat)
    requires DiskOk(g, d0) && DiskOk(g, d) && InRange(g, b)
  {
    Used(g, d, b) <==> Used(g, d0, b) && !Hit(d0, n, seen, b)
  }

  /** The walk so far: the blocks of the slots in `seen` are free again, nothing else moved. */
  ghost predicate Released(g: Geom, v0: Vol, v: Vol, n: Inode, seen: iset<Slot>) {
    && DiskOk(g, v0.d) && DiskOk(g, v.d) && |v0.sb| == SB_BYTES && |v.sb| == SB_BYTES
    && (forall c {:trigger v.d[c]} :: 0 <= c < |v.d| && c != g.bbm && c != g.bgdBlock ==> v.d[c] == v0.d[c])
    && (forall b {:trigger ReleasedBit(g, v0.d, v.d, n, seen, b)} ::
          InRange(g, b) ==> ReleasedBit(g, v0.d, v.d, n, seen, b))
    && (Counted(g, v0) ==> Counted(g, v)) && DirCount(g, v.d) == DirCount(g, v0.d)
  }

  /** ext2_free_block. */
  function FreedBlock(g: Geom, v: Vol, b: nat): (w: Vol)
    requires DiskOk(g, v.d) && |v.sb| == SB_BYTES
    ensures |w.d| == |v.d| && |w.sb| == SB_BYTES
  {
    if b < g.first || b - g.first >= g.bs * 8 then v else Give(g, v, Blocks, b - g.first)
  }

  lemma ReleasedStart(g: Geom, v: Vol, n: Inode)
    requires VolOk(g, v)
    ensures Released(g, v, v, n, iset{})
  {
    hide Marked, TableEnd, Counted;
    forall b | InRange(g, b) ensures ReleasedBit(g, v.d, v.d, n, iset{}, b) {}
  }

  lemma HitMore(d: Disk, n: Inode, seen: iset<Slot>, s: Slot, b: nat)
    ensures Hit(d, n, seen + iset{s}, b) <==> Hit(d, n, seen, b) || (b != 0 && At(d, n, s) == b)
  {
    hide At;
    if Hit(d, n, seen, b) {
      var t :| t in seen && At(d, n, t) == b;
      assert t in seen + iset{s};
    }
    if b != 0 && At(d, n, s) == b { assert s in seen + iset{s}; }
  }

  /** Freeing the block of one more slot, or passing an empty slot. */
  lemma ReleaseSlot(g: Geom, v0: Vol, v: Vol, n: Inode, seen: iset<Slot>, s: Slot)
    requires Released(g, v0, v, n, seen)
    requires At(v0.d, n, s) != 0 ==> InRange(g, At(v0.d, n, s))
    ensures Released(g, v0, if At(v0.d, n, s) == 0 then v else FreedBlock(g, v, At(v0.d, n, s)), n, seen + iset{s})
  {
    hide Marked, TableEnd, Counted, At, Hit, Give, DirCount;
    var x := At(v0.d, n, s);
    var w := if x == 0 then v else FreedBlock(g, v, x);
    if x != 0 {
      GiveStep(g, v, Blocks, x - g.first);
      GiveCount(g, v, Blocks, x - g.first);
    }
    forall b: nat | InRange(g, b) ensures ReleasedBit(g, v0.d, w.d, n, seen + iset{s}, b) {
      assert ReleasedBit(g, v0.d, v.d, n, seen, b);
      HitMore(v0.d, n, seen, s, b);
      if x != 0 { assert Marked(w.d[g.bbm], b - g.first) <==> b != x && Marked(v.d[g.bbm], b - g.first); }
    }
  }

  /** Pointer blocks read the same during the walk. */
  lemma PointerBlockKept(g: Geom, v0: Vol, v: Vol, n: Inode, seen: iset<Slot>, s: Slot)
    requires Released(g, v0, v, n, seen) && At(v0.d, n, s) != 0 && DataBlock(g, v0.d, At(v0.d, n, s))
    ensures v.d[At(v0.d, n, s)] == v0.d[At(v0.d, n, s)]
  {
  }

  // ---- the slots in the order of the walk ----------------------------------

  ghost function DirectTo(i: nat): iset<Slot> { iset s: Slot | s.Direct? && s.k < i }

  ghost function IndTo(i: nat): iset<Slot> { DirectTo(DIRECT) + iset s: Slot | s.IndEntry? && s.k < i }

  ghost function SinglesDone(g: Geom): iset<Slot> { IndTo(PtrsPerBlock(g)) + iset{Ind} }

  ghost function LeavesTo(g: Geom, j: nat, i: nat): iset<Slot> {
    DoublesTo(g, j) + iset s: Slot | s.DIndLeaf? && s.j == j && s.k < i
  }

  ghost function DoublesTo(g: Geom, j: nat): iset<Slot> {
    SinglesDone(g) + iset s: Slot | (s.DIndLeaf? && s.j < j && s.k < PtrsPerBlock(g)) || (s.DIndEntry? && s.j < j)
  }

  ghost function AllSlots(g: Geom): iset<Slot> { DoublesTo(g, PtrsPerBlock(g)) + iset{DInd} }

  /** Slots outside the walk are always empty. */
  lemma AllSlotsCover(g: Geom, d: Disk, n: Inode, s: Slot)
    requires DiskOk(g, d) && (forall t {:trigger At(d, n, t)} :: At(d, n, t) < |d|) && s !in AllSlots(g)
    ensures At(d, n, s) == 0
  {
    match s
    case IndEntry(k) => assert At(d, n, Ind) < |d|;
    case DIndEntry(j) => assert At(d, n, DInd) < |d|;
    case DIndLeaf(j, k) => assert At(d, n, DInd) < |d| && At(d, n, DIndEntry(j)) < |d|;
    case _ =>
  }

  /** Every block of the tree is a used data block. */
  ghost predicate TreeOk(g: Geom, d: Disk, n: Inode)
    requires DiskOk(g, d)
  {
    forall s {:trigger At(d, n, s)} :: At(d, n, s) != 0 ==> DataBlock(g, d, At(d, n, s))
  }

  /** The inode with `block[0..i)` zeroed. */
  function Zeroed(n: Inode, i: nat): (m: Inode)
    requires i <= 15
  {
    if i == 0 then n else SetPointer(Zeroed(n, i - 1), i - 1, 0)
  }

  lemma {:induction false} ZeroedPointer(n: Inode, i: nat, j: nat)
    requires i <= 15 && j < 15
    ensures Pointer(Zeroed(n, i), j) == if j < i then 0 else Pointer(n, j)
  {
    if i > 0 {
      ZeroedPointer(n, i - 1, j);
      PointerAfterSet(Zeroed(n, i - 1), i - 1, 0, j);
    }
  }

  /** An already empty `block[i]` stays as it is. */
  lemma ZeroedSkip(n: Inode, i: nat)
    requires i < 15 && Pointer(n, i) == 0
    ensures Zeroed(n, i + 1) == Zeroed(n, i)
  {
    ZeroedPointer(n, i, i);
    RewriteSame(Zeroed(n, i), OFF_BLOCK + 4 * i);
  }

  lemma RewriteSame(s: seq<Octet>, o: nat)
    requires o + 4 <= |s|
    ensures Put32(s, o, Get32(s, o)) == s
  {
  }
}
