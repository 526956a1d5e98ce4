/** What ext2_write_file keeps true while it runs, one lemma per kind of disk update. */
module Ext2Writing {
  import opened DiskBytes
  import opened Ext2Layout
  import opened Ext2Trees
  import opened Ext2Alloc
  import opened Ext2Files

  /** Every other file is as it was. */
  ghost predicate Others(d0: Disk, d: Disk, nodes: Nodes, ino: nat) {
    forall j {:trigger nodes[j]} :: j in nodes && j != ino ==> SameFile(d0, d, nodes[j])
  }

  /** The inode bitmap and the inode table are as they were. */
  ghost predicate TableKept(g: Geom, d0: Disk, d: Disk)
    requires GeomOk(g) && |d| == |d0| == g.total
  {
    d[g.ibm] == d0[g.ibm] && forall b {:trigger d[b]} :: g.itab <= b < TableEnd(g) ==> d[b] == d0[b]
  }

  /** Only the pointers `block[0..12]` of the inode may differ. */
  ghost predicate HeadKept(n0: Inode, n: Inode) {
    n[..OFF_BLOCK] == n0[..OFF_BLOCK] && n[OFF_BLOCK + 52..] == n0[OFF_BLOCK + 52..]
  }

  /** A write of inode `ino` in progress: `n` is the driver's local copy of the inode. */
  ghost predicate Writing(g: Geom, v0: Vol, v: Vol, nodes: Nodes, ino: nat, n: Inode) {
    && VolOk(g, v0) && VolOk(g, v) && ino in nodes && (Counted(g, v0) ==> Counted(g, v))
    && Trees(g, v.d, nodes[ino := n]) && Others(v0.d, v.d, nodes, ino) && TableKept(g, v0.d, v.d)
    && HeadKept(nodes[ino], n) && Grown(g, v0.d, nodes[ino], v.d, n)
  }

  lemma WritingStart(g: Geom, v: Vol, nodes: Nodes, ino: nat)
    requires VolOk(g, v) && Trees(g, v.d, nodes) && ino in nodes
    ensures Writing(g, v, v, nodes, ino, nodes[ino])
  {
    hide Marked, TableEnd;
    GrownStart(g, v.d, nodes, ino);
    assert nodes[ino := nodes[ino]] == nodes;
  }

  lemma OthersTrans(d0: Disk, d: Disk, d': Disk, nodes: Nodes, ino: nat, n: Inode)
    requires Others(d0, d, nodes, ino)
    requires forall j {:trigger nodes[ino := n][j]} :: j in nodes && j != ino ==> SameFile(d, d', nodes[ino := n][j])
    ensures Others(d0, d', nodes, ino)
  {
    hide SameFile;
    forall j | j in nodes && j != ino ensures SameFile(d0, d', nodes[j]) {
      assert nodes[ino := n][j] == nodes[j];
      SameFileTrans(d0, d, d', nodes[j]);
    }
  }

  lemma BitsAfterNew(g: Geom, v: Vol, b: nat, d': Disk)
    requires VolOk(g, v) && FreeData(g, v.d, b) && DiskOk(g, d') && d'[g.bbm] == NewBlock(g, v, b).d[g.bbm]
    ensures forall c {:trigger Used(g, d', c)} :: InRange(g, c) ==> (Used(g, d', c) <==> c == b || Used(g, v.d, c))
  {
    hide Marked, NewBlock, TableEnd;
    NewBlockVol(g, v, b);
  }

  lemma HeadSet(n0: Inode, n: Inode, k: nat, b: nat)
    requires HeadKept(n0, n) && k <= DIRECT && b < TWO32
    ensures HeadKept(n0, SetPointer(n, k, b))
  {
    GetPut32(n, OFF_BLOCK + 4 * k, b);
    var m := SetPointer(n, k, b);
    assert m[..OFF_BLOCK] == n[..OFF_BLOCK] && m[OFF_BLOCK + 52..] == n[OFF_BLOCK + 52..];
  }

  lemma TableAfterNew(g: Geom, v0: Vol, v: Vol, b: nat)
    requires VolOk(g, v) && VolOk(g, v0) && TableKept(g, v0.d, v.d) && FreeData(g, v.d, b)
    ensures TableKept(g, v0.d, NewBlock(g, v, b).d)
  {
    hide Marked, NewBlock, TableEnd;
    NewBlockVol(g, v, b);
    var w := NewBlock(g, v, b);
    forall c | g.itab <= c < TableEnd(g) ensures w.d[c] == v0.d[c] { assert w.d[c] == v.d[c]; }
  }

  // ---- a new block in the inode --------------------------------------------

  lemma TopStep(g: Geom, v0: Vol, v: Vol, nodes: Nodes, ino: nat, n: Inode, k: nat, b: nat)
    requires Writing(g, v0, v, nodes, ino, n) && k <= DIRECT && Pointer(n, k) == 0 && FreeData(g, v.d, b)
    ensures Writing(g, v0, NewBlock(g, v, b), nodes, ino, SetPointer(n, k, b))
    ensures OneSlot(v.d, n, NewBlock(g, v, b).d, SetPointer(n, k, b), TopSlot(k), b)
    ensures SameFile(v.d, NewBlock(g, v, b).d, n)
  {
    hide Marked, NewBlock, TableEnd, SameFile, Trees, Counted, SetPointer, Ref, Pointer, Used;
    var m, w, n' := nodes[ino := n], NewBlock(g, v, b), SetPointer(n, k, b);
    NewBlockTrees(g, v, m, b);
    NewBlockVol(g, v, b);
    assert m[ino] == n;
    HangTop(g, w.d, m, ino, k, b);
    assert m[ino := n'] == nodes[ino := n'];
    OthersTrans(v0.d, v.d, w.d, nodes, ino, n);
    TableAfterNew(g, v0, v, b);
    HeadSet(nodes[ino], n, k, b);
    TopOneSlot(g, v, n, k, b);
    TopGrown(g, v0, v, nodes[ino], n, k, b);
  }

  lemma TopOneSlot(g: Geom, v: Vol, n: Inode, k: nat, b: nat)
    requires VolOk(g, v) && k <= DIRECT && Pointer(n, k) == 0 && FreeData(g, v.d, b)
    requires SameFile(v.d, NewBlock(g, v, b).d, n)
    ensures b != 0 && OneSlot(v.d, n, NewBlock(g, v, b).d, SetPointer(n, k, b), TopSlot(k), b)
  {
    hide Marked, TableEnd, Counted;
    var w, n' := NewBlock(g, v, b), SetPointer(n, k, b);
    NewBlockVol(g, v, b);
    PointerAfterSet(n, k, b, k);
    forall t | t != TopSlot(k) ensures At(w.d, n', t) == At(v.d, n, t) {
      HangTopOthers(g, w.d, n, k, b, t);
      assert At(w.d, n, t) == At(v.d, n, t);
    }
  }

  lemma TopGrown(g: Geom, v0: Vol, v: Vol, n0: Inode, n: Inode, k: nat, b: nat)
    requires VolOk(g, v0) && VolOk(g, v) && k <= DIRECT && FreeData(g, v.d, b) && Grown(g, v0.d, n0, v.d, n)
    requires OneSlot(v.d, n, NewBlock(g, v, b).d, SetPointer(n, k, b), TopSlot(k), b)
    ensures DiskOk(g, NewBlock(g, v, b).d) && Grown(g, v0.d, n0, NewBlock(g, v, b).d, SetPointer(n, k, b))
  {
    hide Marked, NewBlock, TableEnd, OneSlot, Grown, SetPointer;
    NewBlockVol(g, v, b);
    BitsAfterNew(g, v, b, NewBlock(g, v, b).d);
    assert InRange(g, 0) ==> Meta(g, 0);
    GrownStep(g, v0.d, n0, v.d, n, NewBlock(g, v, b).d, SetPointer(n, k, b), TopSlot(k), b);
  }

  // ---- a new block in the indirect block -----------------------------------

  /** ext2_alloc_block, then the updated indirect block written back. */
  function NewEntry(g: Geom, v: Vol, p: nat, k: nat, b: nat): (w: Vol)
    requires DiskOk(g, v.d) && |v.sb| == SB_BYTES && InRange(g, b) && p < |v.d| && 4 * k + 4 <= |v.d[p]|
    ensures |w.d| == |v.d| && |w.sb| == SB_BYTES
  {
    var w := NewBlock(g, v, b);
    w.(d := w.d[p := Put32(v.d[p], 4 * k, b)])
  }

  lemma EntryStep(g: Geom, v0: Vol, v: Vol, nodes: Nodes, ino: nat, n: Inode, k: nat, b: nat)
    requires Writing(g, v0, v, nodes, ino, n) && k < PtrsPerBlock(g) && FreeData(g, v.d, b)
    requires At(v.d, n, Ind) != 0 && At(v.d, n, IndEntry(k)) == 0
    ensures At(v.d, n, Ind) < |v.d| && |v.d[At(v.d, n, Ind)]| == g.bs
    ensures Writing(g, v0, NewEntry(g, v, At(v.d, n, Ind), k, b), nodes, ino, n)
    ensures OneSlot(v.d, n, NewEntry(g, v, At(v.d, n, Ind), k, b).d, n, IndEntry(k), b)
    ensures forall c {:trigger NewEntry(g, v, At(v.d, n, Ind), k, b).d[c]} ::
              0 <= c < |v.d| && c != g.bbm && c != g.bgdBlock && c != b && c != At(v.d, n, Ind)
              ==> NewEntry(g, v, At(v.d, n, Ind), k, b).d[c] == v.d[c]
  {
    hide Marked, NewBlock, TableEnd, Trees, Counted, Grown, Ref, At, Put32, SameFile;
    var m, t, p := nodes[ino := n], NewBlock(g, v, b), At(v.d, n, Ind);
    assert m[ino] == n;
    EntryTrees(g, v, m, ino, k, b);
    var w := NewEntry(g, v, p, k, b);
    OthersTrans(v0.d, v.d, w.d, nodes, ino, n);
    EntryMeta(g, v0, v, n, k, b);
    BitsAfterNew(g, v, b, w.d);
    assert InRange(g, 0) ==> Meta(g, 0);
    GrownStep(g, v0.d, nodes[ino], v.d, n, w.d, n, IndEntry(k), b);
  }

  lemma EntryTrees(g: Geom, v: Vol, m: Nodes, ino: nat, k: nat, b: nat)
    requires VolOk(g, v) && Trees(g, v.d, m) && ino in m && k < PtrsPerBlock(g) && FreeData(g, v.d, b)
    requires At(v.d, m[ino], Ind) != 0 && At(v.d, m[ino], IndEntry(k)) == 0
    ensures DataBlock(g, v.d, At(v.d, m[ino], Ind)) && At(v.d, m[ino], Ind) != b
    ensures var w := NewEntry(g, v, At(v.d, m[ino], Ind), k, b);
            && DiskOk(g, w.d) && Trees(g, w.d, m) && OneSlot(v.d, m[ino], w.d, m[ino], IndEntry(k), b)
            && (forall j {:trigger m[j]} :: j in m && j != ino ==> SameFile(v.d, w.d, m[j]))
  {
    hide Marked, TableEnd, Counted, SameFile, Trees;
    var t, n, p := NewBlock(g, v, b), m[ino], At(v.d, m[ino], Ind);
    TreesSlot(g, v.d, m, ino, Ind);
    NewBlockTrees(g, v, m, b);
    NewBlockVol(g, v, b);
    SameAt(v.d, t.d, n, Ind);
    SameAt(v.d, t.d, n, IndEntry(k));
    assert t.d[p] == v.d[p];
    HangEntry(g, t.d, m, ino, k, b);
    var w := NewEntry(g, v, p, k, b);
    forall s | s != IndEntry(k)
      ensures At(w.d, n, s) == At(v.d, n, s)
    {
      SameAt(v.d, t.d, n, s); assert At(w.d, n, s) == At(t.d, n, s);
    }
    forall j | j in m && j != ino ensures SameFile(v.d, w.d, m[j]) { SameFileTrans(v.d, t.d, w.d, m[j]); }
  }

  lemma SameAt(d: Disk, d': Disk, n: Inode, s: Slot)
    requires SameFile(d, d', n)
    ensures At(d', n, s) == At(d, n, s)
  {
  }

  lemma TreesSlot(g: Geom, d: Disk, m: Nodes, i: nat, s: Slot)
    requires DiskOk(g, d) && Trees(g, d, m) && i in m
    ensures SlotGood(g, d, m[i], s)
  {
  }

  lemma EntryMeta(g: Geom, v0: Vol, v: Vol, n: Inode, k: nat, b: nat)
    requires VolOk(g, v0) && VolOk(g, v) && TableKept(g, v0.d, v.d) && k < PtrsPerBlock(g) && FreeData(g, v.d, b)
    requires DataBlock(g, v.d, At(v.d, n, Ind)) && DiskOk(g, NewEntry(g, v, At(v.d, n, Ind), k, b).d)
    ensures VolOk(g, NewEntry(g, v, At(v.d, n, Ind), k, b))
    ensures TableKept(g, v0.d, NewEntry(g, v, At(v.d, n, Ind), k, b).d)
    ensures Counted(g, v) ==> Counted(g, NewEntry(g, v, At(v.d, n, Ind), k, b))
    ensures NewEntry(g, v, At(v.d, n, Ind), k, b).d[g.bbm] == NewBlock(g, v, b).d[g.bbm]
    ensures forall c {:trigger NewEntry(g, v, At(v.d, n, Ind), k, b).d[c]} ::
              0 <= c < |v.d| && c != g.bbm && c != g.bgdBlock && c != b && c != At(v.d, n, Ind)
              ==> NewEntry(g, v, At(v.d, n, Ind), k, b).d[c] == v.d[c]
  {
    hide Marked, NewBlock, TableEnd, At, Put32, Clear;
    var p := At(v.d, n, Ind);
    NewBlockVol(g, v, b);
    TableAfterNew(g, v0, v, b);
    var t, w := NewBlock(g, v, b), NewEntry(g, v, p, k, b);
    forall c | 0 <= c < |v.d| && c != p ensures w.d[c] == t.d[c] {}
    assert w.d[g.bbm] == t.d[g.bbm] && w.d[g.ibm] == t.d[g.ibm] && w.d[g.bgdBlock] == t.d[g.bgdBlock] && w.sb == t.sb;
  }

  // ---- the data block ------------------------------------------------------

  lemma DataStep(g: Geom, v0: Vol, v: Vol, nodes: Nodes, ino: nat, n: Inode, s: Slot, bytes: Block)
    requires Writing(g, v0, v, nodes, ino, n) && !IsPointer(s) && At(v.d, n, s) != 0 && |bytes| == g.bs
    ensures At(v.d, n, s) < |v.d|
    ensures Writing(g, v0, v.(d := v.d[At(v.d, n, s) := bytes]), nodes, ino, n)
    ensures forall t {:trigger At(v.d[At(v.d, n, s) := bytes], n, t)} ::
              At(v.d[At(v.d, n, s) := bytes], n, t) == At(v.d, n, t)
  {
    hide Marked, TableEnd, Trees, Grown, Ref, At, SameFile, Clear;
    var m := nodes[ino := n];
    assert m[ino] == n;
    TreesSlot(g, v.d, m, ino, s);
    DataWrite(g, v.d, m, ino, s, bytes);
    var b := At(v.d, n, s);
    var w := v.(d := v.d[b := bytes]);
    OthersTrans(v0.d, v.d, w.d, nodes, ino, n);
    DataMeta(g, v0, v, b, bytes);
    forall t ensures At(w.d, n, t) == At(v.d, n, t) { assert At(w.d, m[ino], t) == At(v.d, m[ino], t); }
    GrownKept(g, v0.d, nodes[ino], v.d, n, w.d, n);
  }

  lemma DataMeta(g: Geom, v0: Vol, v: Vol, b: nat, bytes: Block)
    requires VolOk(g, v0) && VolOk(g, v) && TableKept(g, v0.d, v.d) && DataBlock(g, v.d, b) && |bytes| == g.bs
    ensures var w := v.(d := v.d[b := bytes]);
            VolOk(g, w) && TableKept(g, v0.d, w.d) && (Counted(g, v) ==> Counted(g, w)) && w.d[g.bbm] == v.d[g.bbm]
  {
    hide Marked, TableEnd, Clear;
    var w := v.(d := v.d[b := bytes]);
    assert w.d[g.bbm] == v.d[g.bbm] && w.d[g.ibm] == v.d[g.ibm] && w.d[g.bgdBlock] == v.d[g.bgdBlock];
    forall c | g.itab <= c < TableEnd(g) ensures w.d[c] == v0.d[c] { assert v.d[c] == v0.d[c]; }
  }

  lemma GrownKept(g: Geom, d0: Disk, n0: Inode, d: Disk, n: Inode, d': Disk, n': Inode)
    requires DiskOk(g, d0) && DiskOk(g, d) && DiskOk(g, d') && Grown(g, d0, n0, d, n) && d'[g.bbm] == d[g.bbm]
    requires forall t {:trigger At(d', n', t)} {:trigger At(d, n, t)} :: At(d', n', t) == At(d, n, t)
    ensures Grown(g, d0, n0, d', n')
  {
    hide Marked, At, Ref, DiskOk;
    forall t
      ensures Extends(g, d0, n0, d', n', t)
    {
      assert Extends(g, d0, n0, d, n, t); assert At(d', n', t) == At(d, n, t);
    }
    forall c | InRange(g, c) ensures GainedBit(g, d0, d', n', c) {
      assert GainedBit(g, d0, d, n, c);
      assert Used(g, d', c) == Used(g, d, c);
      assert Reaches(d', n', c) <==> Reaches(d, n, c);
    }
  }

  // ---- blocks already written ----------------------------------------------

  lemma WrittenTop(g: Geom, v: Vol, n: Inode, w: Vol, n': Inode, data: seq<Octet>, k: nat, s: Slot, b: nat)
    requires PtrsPerBlock(g) > 0 && Written(g, v.d, n, data, k) && OneSlot(v.d, n, w.d, n', s, b)
    requires SameFile(v.d, w.d, n)
    ensures Written(g, w.d, n', data, k)
  {
    hide At, FileSlot, Chunk;
    forall j | 0 <= j < k ensures HoldsChunk(g, w.d, n', data, j) {
      assert HoldsChunk(g, v.d, n, data, j);
      assert At(w.d, n', FileSlot(g, j)) == At(v.d, n, FileSlot(g, j));
    }
  }

  lemma WrittenEntry(g: Geom, v: Vol, m: Nodes, ino: nat, w: Vol, data: seq<Octet>, k: nat, e: nat, b: nat)
    requires VolOk(g, v) && Trees(g, v.d, m) && ino in m && FreeData(g, v.d, b)
    requires Written(g, v.d, m[ino], data, k) && OneSlot(v.d, m[ino], w.d, m[ino], IndEntry(e), b)
    requires forall c {:trigger w.d[c]} ::
              0 <= c < |v.d| && c != g.bbm && c != g.bgdBlock && c != b && c != At(v.d, m[ino], Ind)
              ==> w.d[c] == v.d[c]
    ensures Written(g, w.d, m[ino], data, k)
  {
    hide At, Chunk, Marked, TableEnd;
    var n := m[ino];
    forall j | 0 <= j < k ensures HoldsChunk(g, w.d, n, data, j) {
      assert HoldsChunk(g, v.d, n, data, j);
      var t := FileSlot(g, j);
      assert At(w.d, n, t) == At(v.d, n, t);
      assert SlotGood(g, v.d, m[ino], t);
      assert Apart(v.d, ino, m[ino], t, ino, m[ino], Ind);
      assert w.d[At(v.d, n, t)] == v.d[At(v.d, n, t)];
    }
  }

  lemma WrittenData(g: Geom, v: Vol, m: Nodes, ino: nat, data: seq<Octet>, k: nat)
    requires VolOk(g, v) && Trees(g, v.d, m) && ino in m && k < DIRECT + PtrsPerBlock(g) && k * g.bs <= |data|
    requires Written(g, v.d, m[ino], data, k) && 0 < At(v.d, m[ino], FileSlot(g, k)) < |v.d|
    requires forall t {:trigger At(v.d[At(v.d, m[ino], FileSlot(g, k)) := Chunk(g, data, k)], m[ino], t)} ::
              At(v.d[At(v.d, m[ino], FileSlot(g, k)) := Chunk(g, data, k)], m[ino], t) == At(v.d, m[ino], t)
    ensures Written(g, v.d[At(v.d, m[ino], FileSlot(g, k)) := Chunk(g, data, k)], m[ino], data, k + 1)
  {
    hide At, Chunk, Marked, TableEnd;
    var n, b := m[ino], At(v.d, m[ino], FileSlot(g, k));
    var d' := v.d[b := Chunk(g, data, k)];
    forall j | 0 <= j < k + 1 ensures HoldsChunk(g, d', n, data, j) {
      var t := FileSlot(g, j);
      assert At(d', n, t) == At(v.d, n, t);
      if j < k {
        assert HoldsChunk(g, v.d, n, data, j);
        assert Apart(v.d, ino, m[ino], t, ino, m[ino], FileSlot(g, k));
      }
    }
  }
}
