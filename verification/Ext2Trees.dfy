/** Block trees of ext2 inodes: which blocks an inode reaches and through which slot, the
    well-formedness that keeps trees disjoint, and how each elementary disk update moves it. */
module Ext2Trees {
  import opened DiskBytes
  import opened Ext2Layout

  /** A place in an inode's block tree that can hold a block number. */
  datatype Slot = Direct(k: nat) | Ind | IndEntry(k: nat) | DInd | DIndEntry(j: nat) | DIndLeaf(j: nat, k: nat)

  function PtrsPerBlock(g: Geom): nat { g.bs / 4 }

  /** The `k`-th pointer of pointer block `b`, zero if there is none. */
  function Ref(d: Disk, b: nat, k: nat): (r: nat)
    ensures r < TWO32
  {
    if b == 0 || b >= |d| || 4 * k + 4 > |d[b]| then 0 else Get32(d[b], 4 * k)
  }

  /** The block number in a slot, zero if empty. */
  function At(d: Disk, n: Inode, s: Slot): (b: nat)
    ensures b < TWO32
  {
    match s
    case Direct(k) => if k < DIRECT then Pointer(n, k) else 0
    case Ind => Pointer(n, 12)
    case IndEntry(k) => Ref(d, Pointer(n, 12), k)
    case DInd => Pointer(n, 13)
    case DIndEntry(j) => Ref(d, Pointer(n, 13), j)
    case DIndLeaf(j, k) => Ref(d, Ref(d, Pointer(n, 13), j), k)
  }

  /** Slots whose block is itself a block of pointers. */
  predicate IsPointer(s: Slot) { s.Ind? || s.DInd? || s.DIndEntry? }

  // ---- well-formed trees ---------------------------------------------------

  /** `b` is a data block of the group and is marked used. */
  ghost predicate DataBlock(g: Geom, d: Disk, b: nat)
    requires DiskOk(g, d)
  {
    g.first <= b < g.total && !Meta(g, b) && Marked(d[g.bbm], b - g.first)
  }

  ghost predicate SlotGood(g: Geom, d: Disk, n: Inode, s: Slot)
    requires DiskOk(g, d)
  {
    At(d, n, s) != 0 ==> DataBlock(g, d, At(d, n, s))
  }

  ghost predicate Apart(d: Disk, i: nat, n: Inode, s: Slot, j: nat, m: Inode, t: Slot) {
    At(d, n, s) != 0 && At(d, n, s) == At(d, m, t) ==> i == j && s == t
  }

  type Nodes = map<nat, Inode>

  /** Every block reached is a used data block, and it is reached through one slot of one inode. */
  ghost predicate Trees(g: Geom, d: Disk, nodes: Nodes)
    requires DiskOk(g, d)
  {
    && (forall i, s {:trigger SlotGood(g, d, nodes[i], s)} :: i in nodes ==> SlotGood(g, d, nodes[i], s))
    && (forall i, s, j, t {:trigger Apart(d, i, nodes[i], s, j, nodes[j], t)} ::
          i in nodes && j in nodes ==> Apart(d, i, nodes[i], s, j, nodes[j], t))
  }

  /** No tree reaches `b`. */
  ghost predicate Unreached(d: Disk, nodes: Nodes, b: nat) {
    forall i, s {:trigger At(d, nodes[i], s)} :: i in nodes ==> At(d, nodes[i], s) != b
  }

  /** The file is the same on both disks: same tree, same blocks. */
  ghost predicate SameFile(d: Disk, d': Disk, n: Inode) {
    |d'| == |d| && forall s {:trigger At(d, n, s)} {:trigger At(d', n, s)} ::
        At(d', n, s) == At(d, n, s) && (0 < At(d, n, s) < |d| ==> d'[At(d, n, s)] == d[At(d, n, s)])
  }

  /** The tree of `n` has the same blocks on both disks. */
  ghost predicate SameSlots(d: Disk, d': Disk, n: Inode) {
    forall s {:trigger At(d, n, s)} {:trigger At(d', n, s)} :: At(d', n, s) == At(d, n, s)
  }

  lemma SameFileTrans(d: Disk, e: Disk, f: Disk, n: Inode)
    requires SameFile(d, e, n) && SameFile(e, f, n)
    ensures SameFile(d, f, n)
  {
    forall s ensures At(f, n, s) == At(d, n, s) && (0 < At(d, n, s) < |d| ==> f[At(d, n, s)] == d[At(d, n, s)]) {
      assert At(e, n, s) == At(d, n, s);
      assert At(f, n, s) == At(e, n, s);
    }
  }

  // ---- frames --------------------------------------------------------------

  lemma RefKept(d: Disk, d': Disk, b: nat, k: nat)
    requires |d'| == |d| && (0 < b < |d| ==> d'[b] == d[b])
    ensures Ref(d', b, k) == Ref(d, b, k)
  {
  }

  /** A tree whose pointer blocks are untouched is unchanged. */
  lemma AtKept(d: Disk, d': Disk, n: Inode, s: Slot)
    requires |d'| == |d| && forall t {:trigger At(d, n, t)} ::
              IsPointer(t) && 0 < At(d, n, t) < |d| ==> d'[At(d, n, t)] == d[At(d, n, t)]
    ensures At(d', n, s) == At(d, n, s)
  {
    match s
    case IndEntry(k) => assert At(d, n, Ind) == Pointer(n, 12); RefKept(d, d', Pointer(n, 12), k);
    case DIndEntry(j) => assert At(d, n, DInd) == Pointer(n, 13); RefKept(d, d', Pointer(n, 13), j);
    case DIndLeaf(j, k) =>
      assert At(d, n, DInd) == Pointer(n, 13);
      RefKept(d, d', Pointer(n, 13), j);
      assert At(d, n, DIndEntry(j)) == Ref(d, Pointer(n, 13), j);
      RefKept(d, d', Ref(d, Pointer(n, 13), j), k);
    case _ =>
  }

  /** Blocks outside the file may change freely. */
  lemma SameFileKept(d: Disk, d': Disk, n: Inode)
    requires |d'| == |d| && forall t {:trigger At(d, n, t)} ::
              0 < At(d, n, t) < |d| ==> d'[At(d, n, t)] == d[At(d, n, t)]
    ensures SameFile(d, d', n)
  {
    forall s ensures At(d', n, s) == At(d, n, s) { AtKept(d, d', n, s); }
  }

  /** Same trees and a bitmap that only gained marks. */
  lemma TreesKept(g: Geom, d: Disk, d': Disk, nodes: Nodes)
    requires DiskOk(g, d) && DiskOk(g, d') && Trees(g, d, nodes)
    requires forall i, s {:trigger At(d', nodes[i], s)} :: i in nodes ==> At(d', nodes[i], s) == At(d, nodes[i], s)
    requires forall b {:trigger DataBlock(g, d', b)} :: DataBlock(g, d, b) ==> DataBlock(g, d', b)
    ensures Trees(g, d', nodes)
  {
    forall i, s | i in nodes ensures SlotGood(g, d', nodes[i], s) {
      assert SlotGood(g, d, nodes[i], s);
      assert At(d', nodes[i], s) == At(d, nodes[i], s);
    }
    forall i, s, j, t | i in nodes && j in nodes ensures Apart(d', i, nodes[i], s, j, nodes[j], t) {
      assert Apart(d, i, nodes[i], s, j, nodes[j], t);
      assert At(d', nodes[i], s) == At(d, nodes[i], s) && At(d', nodes[j], t) == At(d, nodes[j], t);
    }
  }

  // ---- a block written behind the trees' back ------------------------------

  ghost predicate MarksKept(g: Geom, d: Disk, d': Disk)
    requires DiskOk(g, d) && DiskOk(g, d')
  {
    forall b {:trigger DataBlock(g, d', b)} :: DataBlock(g, d, b) ==> DataBlock(g, d', b)
  }

  /** Writing blocks that no tree reaches keeps every tree and every file. */
  lemma OutsideWrite(g: Geom, d: Disk, d': Disk, nodes: Nodes)
    requires DiskOk(g, d) && DiskOk(g, d') && Trees(g, d, nodes) && MarksKept(g, d, d')
    requires forall i, s {:trigger At(d, nodes[i], s)} ::
              i in nodes && At(d, nodes[i], s) != 0
              ==> At(d, nodes[i], s) < |d| && d'[At(d, nodes[i], s)] == d[At(d, nodes[i], s)]
    ensures Trees(g, d', nodes) && forall i {:trigger nodes[i]} :: i in nodes ==> SameFile(d, d', nodes[i])
  {
    forall i | i in nodes ensures SameFile(d, d', nodes[i]) { SameFileKept(d, d', nodes[i]); }
    TreesKept(g, d, d', nodes);
  }

  /** Writing a data block of one file: all trees stay, all other files stay. */
  lemma DataWrite(g: Geom, d: Disk, nodes: Nodes, i: nat, s: Slot, bytes: Block)
    requires DiskOk(g, d) && Trees(g, d, nodes) && i in nodes && !IsPointer(s) && At(d, nodes[i], s) != 0
    requires |bytes| == g.bs
    ensures At(d, nodes[i], s) < |d|
    ensures var d' := d[At(d, nodes[i], s) := bytes];
            && DiskOk(g, d') && Trees(g, d', nodes)
            && (forall j, t {:trigger At(d', nodes[j], t)} :: j in nodes ==> At(d', nodes[j], t) == At(d, nodes[j], t))
            && (forall j {:trigger nodes[j]} :: j in nodes && j != i ==> SameFile(d, d', nodes[j]))
  {
    assert SlotGood(g, d, nodes[i], s);
    var b := At(d, nodes[i], s);
    var d' := d[b := bytes];
    assert DiskOk(g, d');
    forall j, t | j in nodes ensures At(d', nodes[j], t) == At(d, nodes[j], t) {
      forall u | IsPointer(u) && 0 < At(d, nodes[j], u) < |d| ensures d'[At(d, nodes[j], u)] == d[At(d, nodes[j], u)] {
        assert Apart(d, i, nodes[i], s, j, nodes[j], u);
      }
      AtKept(d, d', nodes[j], t);
    }
    TreesKept(g, d, d', nodes);
    forall j | j in nodes && j != i ensures SameFile(d, d', nodes[j]) {
      forall u ensures 0 < At(d, nodes[j], u) < |d| ==> d'[At(d, nodes[j], u)] == d[At(d, nodes[j], u)] {
        assert Apart(d, i, nodes[i], s, j, nodes[j], u);
      }
      SameFileKept(d, d', nodes[j]);
    }
  }

  // ---- new blocks ----------------------------------------------------------

  /** `b` is marked used and nobody reaches it: just allocated. */
  ghost predicate Fresh(g: Geom, d: Disk, nodes: Nodes, b: nat)
    requires DiskOk(g, d)
  {
    DataBlock(g, d, b) && Unreached(d, nodes, b)
  }

  /** Filling one empty slot with a fresh block keeps the trees well-formed. */
  lemma AddSlot(g: Geom, d: Disk, d': Disk, nodes: Nodes, n': Inode, i: nat, s0: Slot, b: nat)
    requires DiskOk(g, d) && DiskOk(g, d') && Trees(g, d, nodes) && i in nodes && MarksKept(g, d, d')
    requires Fresh(g, d, nodes, b) && At(d', n', s0) == b
    requires forall s {:trigger At(d', n', s)} :: s != s0 ==> At(d', n', s) == At(d, nodes[i], s)
    requires forall j, s {:trigger At(d', nodes[j], s)} ::
              j in nodes && j != i ==> At(d', nodes[j], s) == At(d, nodes[j], s)
    ensures Trees(g, d', nodes[i := n'])
  {
    var m := nodes[i := n'];
    forall j, s | j in m ensures SlotGood(g, d', m[j], s) {
      assert SlotGood(g, d, nodes[j], s);
      if j != i { assert At(d', nodes[j], s) == At(d, nodes[j], s); }
    }
    forall j, s, k, t | j in m && k in m ensures Apart(d', j, m[j], s, k, m[k], t) {
      assert Apart(d, j, nodes[j], s, k, nodes[k], t);
      if j != i { assert At(d', nodes[j], s) == At(d, nodes[j], s); }
      if k != i { assert At(d', nodes[k], t) == At(d, nodes[k], t); }
    }
  }

  function TopSlot(k: nat): Slot { if k < DIRECT then Direct(k) else Ind }

  /** Storing a fresh block in `inode.block[k]`; an indirect block must be zeroed. */
  lemma HangTop(g: Geom, d: Disk, nodes: Nodes, i: nat, k: nat, b: nat)
    requires DiskOk(g, d) && Trees(g, d, nodes) && i in nodes && k <= DIRECT && Pointer(nodes[i], k) == 0
    requires Fresh(g, d, nodes, b) && (k == DIRECT ==> d[b] == Zeros(g.bs))
    ensures var n' := SetPointer(nodes[i], k, b);
            && Trees(g, d, nodes[i := n']) && At(d, n', TopSlot(k)) == b
            && forall s {:trigger At(d, n', s)} :: s != TopSlot(k) ==> At(d, n', s) == At(d, nodes[i], s)
  {
    var n, n' := nodes[i], SetPointer(nodes[i], k, b);
    forall s | s != TopSlot(k) ensures At(d, n', s) == At(d, n, s) { HangTopOthers(g, d, n, k, b, s); }
    PointerAfterSet(n, k, b, k);
    AddSlot(g, d, d, nodes, n', i, TopSlot(k), b);
  }

  lemma HangTopOthers(g: Geom, d: Disk, n: Inode, k: nat, b: nat, s: Slot)
    requires DiskOk(g, d) && k <= DIRECT && Pointer(n, k) == 0 && 0 < b < g.total
    requires (k == DIRECT ==> d[b] == Zeros(g.bs)) && s != TopSlot(k)
    ensures At(d, SetPointer(n, k, b), s) == At(d, n, s)
  {
    PointerAfterSet(n, k, b, 12);
    PointerAfterSet(n, k, b, 13);
    match s
    case Direct(j) => if j < DIRECT { PointerAfterSet(n, k, b, j); }
    case IndEntry(j) => if k == DIRECT && 4 * j + 4 <= g.bs { ZeroField(g.bs, 4 * j); }
    case _ =>
  }

  /** Storing a fresh block in entry `k` of the indirect block. */
  lemma HangEntry(g: Geom, d: Disk, nodes: Nodes, i: nat, k: nat, b: nat)
    requires DiskOk(g, d) && Trees(g, d, nodes) && i in nodes && k < PtrsPerBlock(g)
    requires At(d, nodes[i], Ind) != 0 && At(d, nodes[i], IndEntry(k)) == 0 && Fresh(g, d, nodes, b)
    ensures At(d, nodes[i], Ind) < |d|
    ensures var p := At(d, nodes[i], Ind);
            var d' := d[p := Put32(d[p], 4 * k, b)];
            && DiskOk(g, d') && Trees(g, d', nodes) && At(d', nodes[i], IndEntry(k)) == b
            && (forall s {:trigger At(d', nodes[i], s)} ::
                  s != IndEntry(k) ==> At(d', nodes[i], s) == At(d, nodes[i], s))
            && (forall j {:trigger nodes[j]} :: j in nodes && j != i ==> SameFile(d, d', nodes[j]))
  {
    assert SlotGood(g, d, nodes[i], Ind);
    var n, p := nodes[i], At(d, nodes[i], Ind);
    var d' := d[p := Put32(d[p], 4 * k, b)];
    assert DiskOk(g, d');
    GetPut32(d[p], 4 * k, b);
    forall s | s != IndEntry(k) ensures At(d', n, s) == At(d, n, s) {
      HangEntryOthers(g, d, nodes, i, k, b, s);
    }
    forall j | j in nodes && j != i ensures SameFile(d, d', nodes[j]) {
      forall u ensures 0 < At(d, nodes[j], u) < |d| ==> d'[At(d, nodes[j], u)] == d[At(d, nodes[j], u)] {
        assert Apart(d, i, nodes[i], Ind, j, nodes[j], u);
      }
      SameFileKept(d, d', nodes[j]);
    }
    AddSlot(g, d, d', nodes, n, i, IndEntry(k), b);
    assert nodes[i := n] == nodes;
  }

  lemma HangEntryOthers(g: Geom, d: Disk, nodes: Nodes, i: nat, k: nat, b: nat, s: Slot)
    requires DiskOk(g, d) && Trees(g, d, nodes) && i in nodes && k < PtrsPerBlock(g) && b < TWO32
    requires 0 < At(d, nodes[i], Ind) < |d| && s != IndEntry(k)
    ensures var p := At(d, nodes[i], Ind);
            At(d[p := Put32(d[p], 4 * k, b)], nodes[i], s) == At(d, nodes[i], s)
  {
    var n, p := nodes[i], At(d, nodes[i], Ind);
    match s
    case IndEntry(j) => if 4 * j + 4 <= |d[p]| { OtherField32(d[p], 4 * k, b, 4 * j); }
    case DIndEntry(j) => assert Apart(d, i, n, Ind, i, n, DInd);
    case DIndLeaf(j, l) => assert Apart(d, i, n, Ind, i, n, DInd); assert Apart(d, i, n, Ind, i, n, DIndEntry(j));
    case _ =>
  }
}
