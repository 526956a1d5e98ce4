/** Well-formed volumes, and what finishing or abandoning a write leaves behind. */
module Ext2Volume {
  import opened DiskBytes
  import opened Ext2Layout
  import opened Ext2Trees
  import opened Ext2Alloc
  import opened Ext2Files
  import opened Ext2Writing

  /** Inode `i` is marked in the inode bitmap. */
  predicate Live(g: Geom, d: Disk, i: nat)
    requires DiskOk(g, d)
  {
    InoOk(g, i) && Marked(d[g.ibm], i - 1)
  }

  /** The inodes in use. */
  function NodesOf(g: Geom, d: Disk): (m: Nodes)
    requires DiskOk(g, d)
  {
    map i: nat | i <= g.ipg && Live(g, d, i) :: InodeAt(g, d, i)
  }

  ghost predicate WellFormed(g: Geom, v: Vol) { VolOk(g, v) && Counted(g, v) && Trees(g, v.d, NodesOf(g, v.d)) }

  // ---- inode updates -------------------------------------------------------

  /** Offset of the superblock inside its block: it is always at byte 1024 of the disk. */
  function SbAt(g: Geom): nat { if g.bs == 1024 then 0 else 1024 }

  /** ext2_write_inode, then ext2_sync_superblock. */
  function Stored(g: Geom, v: Vol, ino: nat, n: Inode): (w: Vol)
    requires DiskOk(g, v.d) && |v.sb| == SB_BYTES && InoOk(g, ino)
    ensures |w.d| == |v.d| && w.sb == v.sb
  {
    var d := WithInode(g, v.d, ino, n);
    v.(d := d[g.sbBlock := Splice(d[g.sbBlock], SbAt(g), v.sb)])
  }

  lemma StoredFrame(g: Geom, v: Vol, ino: nat, n: Inode)
    requires VolOk(g, v) && InoOk(g, ino)
    ensures VolOk(g, Stored(g, v, ino, n)) && (Counted(g, v) ==> Counted(g, Stored(g, v, ino, n)))
    ensures forall c {:trigger Stored(g, v, ino, n).d[c]} ::
              0 <= c < |v.d| && c != g.sbBlock && c != InoBlock(g, ino) ==> Stored(g, v, ino, n).d[c] == v.d[c]
    ensures forall j {:trigger InodeAt(g, Stored(g, v, ino, n).d, j)} ::
              InoOk(g, j) ==> InodeAt(g, Stored(g, v, ino, n).d, j) == if j == ino then n else InodeAt(g, v.d, j)
  {
    hide Marked, Clear, InoOff, TableEnd, Splice, SbAt;
    StoredShape(g, v, ino, n);
    var w := Stored(g, v, ino, n);
    forall j | InoOk(g, j) ensures InodeAt(g, w.d, j) == if j == ino then n else InodeAt(g, v.d, j) {
      InodeAfterWrite(g, v.d, ino, n, j);
      assert w.d[InoBlock(g, j)] == WithInode(g, v.d, ino, n)[InoBlock(g, j)];
    }
    assert w.d[g.bbm] == v.d[g.bbm] && w.d[g.ibm] == v.d[g.ibm] && w.d[g.bgdBlock] == v.d[g.bgdBlock];
  }

  lemma StoredShape(g: Geom, v: Vol, ino: nat, n: Inode)
    requires DiskOk(g, v.d) && |v.sb| == SB_BYTES && InoOk(g, ino)
    ensures DiskOk(g, Stored(g, v, ino, n).d) && g.sbBlock != g.bgdBlock
  {
    hide InoOff, TableEnd;
    var w := Stored(g, v, ino, n);
    assert w.d[g.bgdBlock] == v.d[g.bgdBlock];
  }

  /** Inodes with the same `block[]` reach the same blocks. */
  ghost predicate SamePointers(n: Inode, m: Inode) { n[OFF_BLOCK..] == m[OFF_BLOCK..] }

  lemma SamePointersAt(d: Disk, n: Inode, m: Inode, s: Slot)
    requires SamePointers(n, m)
    ensures At(d, n, s) == At(d, m, s)
  {
    forall i: nat | i < 15 ensures Pointer(n, i) == Pointer(m, i) {
      assert forall q :: 0 <= q < 88 ==> n[OFF_BLOCK..][q] == m[OFF_BLOCK..][q];
      assert forall q :: OFF_BLOCK <= q < 128 ==>
          n[q] == n[OFF_BLOCK..][q - OFF_BLOCK] && m[q] == m[OFF_BLOCK..][q - OFF_BLOCK];
    }
    PointersDecide(d, n, m, s);
  }

  lemma PointersDecide(d: Disk, n: Inode, m: Inode, s: Slot)
    requires forall i {:trigger Pointer(n, i)} {:trigger Pointer(m, i)} ::
              0 <= i < 15 ==> Pointer(n, i) == Pointer(m, i)
    ensures At(d, n, s) == At(d, m, s)
  {
    hide Ref, Pointer;
    assert Pointer(n, 12) == Pointer(m, 12) && Pointer(n, 13) == Pointer(m, 13);
    match s
    case Direct(k) => assert k < DIRECT ==> Pointer(n, k) == Pointer(m, k);
    case _ =>
  }

  /** Storing an inode with unchanged pointers keeps every tree. */
  lemma StoredTrees(g: Geom, v: Vol, nodes: Nodes, ino: nat, n: Inode, n': Inode)
    requires VolOk(g, v) && Trees(g, v.d, nodes[ino := n]) && InoOk(g, ino) && SamePointers(n, n')
    ensures DiskOk(g, Stored(g, v, ino, n').d) && Trees(g, Stored(g, v, ino, n').d, nodes[ino := n'])
    ensures forall j {:trigger nodes[j]} :: j in nodes && j != ino ==> SameFile(v.d, Stored(g, v, ino, n').d, nodes[j])
    ensures SameFile(v.d, Stored(g, v, ino, n').d, n)
  {
    hide Marked, TableEnd, Stored, At, Ref, SamePointers, Counted, InodeAt;
    var m, m', w := nodes[ino := n], nodes[ino := n'], Stored(g, v, ino, n');
    StoredFrame(g, v, ino, n');
    forall i, s | i in m && At(v.d, m[i], s) != 0
      ensures At(v.d, m[i], s) < |v.d| && w.d[At(v.d, m[i], s)] == v.d[At(v.d, m[i], s)]
    {
      assert SlotGood(g, v.d, m[i], s);
    }
    OutsideWrite(g, v.d, w.d, m);
    assert m[ino] == n;
    forall j | j in nodes && j != ino ensures SameFile(v.d, w.d, nodes[j]) { assert m[j] == nodes[j]; }
    RenamedTrees(g, w.d, m, ino, n');
    assert m[ino := n'] == m';
  }

  lemma RenamedTrees(g: Geom, d: Disk, m: Nodes, ino: nat, n': Inode)
    requires DiskOk(g, d) && Trees(g, d, m) && ino in m && SamePointers(m[ino], n')
    ensures Trees(g, d, m[ino := n'])
  {
    hide Marked, TableEnd, At, Ref, SamePointers;
    var m' := m[ino := n'];
    forall i, s | i in m' ensures SlotGood(g, d, m'[i], s) {
      assert SlotGood(g, d, m[i], s);
      SamePointersAt(d, m[ino], n', s);
    }
    forall i, s, j, t | i in m' && j in m' ensures Apart(d, i, m'[i], s, j, m'[j], t) {
      assert Apart(d, i, m[i], s, j, m[j], t);
      SamePointersAt(d, m[ino], n', s);
      SamePointersAt(d, m[ino], n', t);
    }
  }

  // ---- a finished write ----------------------------------------------------

  /** The inode as ext2_write_file leaves it: size, i_blocks and times set, the rest kept. */
  function Finished(g: Geom, n: Inode, len: nat, now: nat): (m: Inode)
    requires GeomOk(g) && len < TWO32 && now < TWO32
  {
    var needed := (len + g.bs - 1) % TWO32 / g.bs;
    var meta := if Pointer(n, 12) != 0 then 1 else 0;
    Put32(Put32(Put32(Put32(n, OFF_SIZE, len), OFF_BLOCKS, (needed + meta) * (g.bs / 512) % TWO32), OFF_CTIME, now),
        OFF_MTIME, now)
  }

  /** Bytes outside size, times and i_blocks. */
  predicate Stamp(q: int) {
    OFF_SIZE <= q < OFF_SIZE + 4 || OFF_CTIME <= q < OFF_MTIME + 4 || OFF_BLOCKS <= q < OFF_BLOCKS + 4
  }

  lemma FinishedFields(g: Geom, n: Inode, len: nat, now: nat)
    requires GeomOk(g) && len < TWO32 && now < TWO32
    ensures Size(Finished(g, n, len, now)) == len && SamePointers(n, Finished(g, n, len, now))
    ensures forall q {:trigger Finished(g, n, len, now)[q]} ::
              0 <= q < INODE_BYTES && !Stamp(q) ==> Finished(g, n, len, now)[q] == n[q]
  {
    hide Get32, Put32;
    var needed := (len + g.bs - 1) % TWO32 / g.bs;
    var meta := if Pointer(n, 12) != 0 then 1 else 0;
    var blocks := (needed + meta) * (g.bs / 512) % TWO32;
    var a := Put32(n, OFF_SIZE, len);
    var b := Put32(a, OFF_BLOCKS, blocks);
    var c := Put32(b, OFF_CTIME, now);
    GetPut32(n, OFF_SIZE, len);
    GetPut32(a, OFF_BLOCKS, blocks);
    GetPut32(b, OFF_CTIME, now);
    GetPut32(c, OFF_MTIME, now);
    OtherField32(a, OFF_BLOCKS, blocks, OFF_SIZE);
    OtherField32(b, OFF_CTIME, now, OFF_SIZE);
    OtherField32(c, OFF_MTIME, now, OFF_SIZE);
    assert Finished(g, n, len, now) == Put32(c, OFF_MTIME, now);
  }

  lemma NodesKept(g: Geom, d0: Disk, d: Disk)
    requires DiskOk(g, d0) && DiskOk(g, d) && TableKept(g, d0, d)
    ensures NodesOf(g, d) == NodesOf(g, d0)
  {
    hide Marked, TableEnd, InoOff;
    forall i: nat | InoOk(g, i)
      ensures InodeAt(g, d, i) == InodeAt(g, d0, i)
    {
      assert d[InoBlock(g, i)] == d0[InoBlock(g, i)];
    }
    assert forall i: nat {:trigger Live(g, d, i)} :: Live(g, d, i) <==> Live(g, d0, i);
  }

  lemma InNodes(g: Geom, d: Disk, i: nat)
    requires DiskOk(g, d) && i in NodesOf(g, d)
    ensures InoOk(g, i) && Live(g, d, i) && NodesOf(g, d)[i] == InodeAt(g, d, i)
  {
  }

  lemma NodesStored(g: Geom, v: Vol, ino: nat, n: Inode)
    requires VolOk(g, v) && Live(g, v.d, ino)
    ensures DiskOk(g, Stored(g, v, ino, n).d) && NodesOf(g, Stored(g, v, ino, n).d) == NodesOf(g, v.d)[ino := n]
  {
    hide Marked, TableEnd, InoOff, Stored, InodeAt, Counted;
    StoredFrame(g, v, ino, n);
    var w := Stored(g, v, ino, n);
    assert w.d[g.ibm] == v.d[g.ibm];
    assert forall i: nat {:trigger Live(g, w.d, i)} :: Live(g, w.d, i) <==> Live(g, v.d, i);
  }

  /** The inode bitmap is as it was. */
  ghost predicate TableBitsKept(g: Geom, v0: Vol, w: Vol)
    requires DiskOk(g, v0.d) && DiskOk(g, w.d)
  {
    w.d[g.ibm] == v0.d[g.ibm]
  }

  /** Everything of the inode but size, times, i_blocks and `block[0..12]` is as it was. */
  ghost predicate InodeKept(n0: Inode, n: Inode) {
    forall q {:trigger n[q]} :: 0 <= q < INODE_BYTES && !Stamp(q) && !(OFF_BLOCK <= q < OFF_BLOCK + 52)
        ==> n[q] == n0[q]
  }

  lemma FinishedKeeps(g: Geom, n0: Inode, n: Inode, len: nat, now: nat)
    requires GeomOk(g) && len < TWO32 && now < TWO32 && HeadKept(n0, n)
    ensures InodeKept(n0, Finished(g, n, len, now))
  {
    hide Finished;
    FinishedFields(g, n, len, now);
    assert forall q {:trigger n[q]} :: 0 <= q < OFF_BLOCK ==> n[q] == n[..OFF_BLOCK][q] && n0[q] == n0[..OFF_BLOCK][q];
    assert forall q {:trigger n[q]} ::
        OFF_BLOCK + 52 <= q < INODE_BYTES ==>
            n[q] == n[OFF_BLOCK + 52..][q - 92] && n0[q] == n0[OFF_BLOCK + 52..][q - 92];
  }

  ghost predicate WroteAll(g: Geom, v0: Vol, w: Vol, ino: nat, n': Inode, data: seq<Octet>)
    requires WellFormed(g, v0)
  {
    var nodes := NodesOf(g, v0.d);
    && WellFormed(g, w) && ino in nodes && NodesOf(g, w.d) == nodes[ino := n']
    && Size(n') == |data| && Contents(g, w.d, n') == data && InodeKept(nodes[ino], n') && Others(v0.d, w.d, nodes, ino)
    && TableBitsKept(g, v0, w)
    && Grown(g, v0.d, nodes[ino], w.d, n')
  }

  /** A finished write: the file reads back as `data`, every other file is untouched. */
  lemma FinishStep(g: Geom, v0: Vol, v: Vol, ino: nat, n: Inode, data: seq<Octet>, k: nat, now: nat)
    requires WellFormed(g, v0) && Writing(g, v0, v, NodesOf(g, v0.d), ino, n) && |data| < TWO32 && now < TWO32
    requires Written(g, v.d, n, data, k) && |data| <= k * g.bs && k <= DIRECT + PtrsPerBlock(g)
    ensures InoOk(g, ino)
    ensures WroteAll(g, v0, Stored(g, v, ino, Finished(g, n, |data|, now)), ino, Finished(g, n, |data|, now), data)
  {
    hide Marked, TableEnd, InoOff, Stored, InodeAt, Finished, Trees, Grown, SameFile, At, Ref, Chunk, ReadFrom, Live,
         SamePointers, NodesOf, CountedIn, MetaMarked, HeadKept, InoOk, Written, InodeKept, Get32;
    InNodes(g, v0.d, ino);
    var nodes, n' := NodesOf(g, v0.d), Finished(g, n, |data|, now);
    FinishedFields(g, n, |data|, now);
    NodesKept(g, v0.d, v.d);
    StoredTrees(g, v, nodes, ino, n, n');
    StoredFrame(g, v, ino, n');
    InNodes(g, v.d, ino);
    NodesStored(g, v, ino, n');
    var w := Stored(g, v, ino, n');
    assert nodes[ino := n][ino] == n;
    OthersTrans(v0.d, v.d, w.d, nodes, ino, n);
    ReadBack(g, v.d, n, data, 0, k);
    StoredRead(g, v, w, n, n', |data|);
    StoredGrown(g, v0.d, nodes[ino], v.d, n, w.d, n');
    FinishedKeeps(g, nodes[ino], n, |data|, now);
  }

  lemma StoredRead(g: Geom, v: Vol, w: Vol, n: Inode, n': Inode, len: nat)
    requires DiskOk(g, v.d) && DiskOk(g, w.d) && SameFile(v.d, w.d, n) && SamePointers(n, n')
    ensures ReadFrom(g, w.d, n', 0, len) == ReadFrom(g, v.d, n, 0, len)
  {
    SameRead(g, v.d, w.d, n, 0, len);
    RenamedRead(g, w.d, n, n', 0, len);
  }

  lemma {:induction false} RenamedRead(g: Geom, d: Disk, n: Inode, n': Inode, k: nat, remaining: nat)
    requires DiskOk(g, d) && SamePointers(n, n')
    ensures ReadFrom(g, d, n', k, remaining) == ReadFrom(g, d, n, k, remaining)
    decreases remaining
  {
    hide At, Ref, SamePointers;
    SamePointersAt(d, n, n', FileSlot(g, k));
    var b := FileBlock(g, d, n, k);
    assert FileBlock(g, d, n', k) == b;
    if remaining > 0 && 0 < b < |d| { RenamedRead(g, d, n, n', k + 1, remaining - Min(remaining, g.bs)); }
  }

  lemma StoredGrown(g: Geom, d0: Disk, n0: Inode, d: Disk, n: Inode, d': Disk, n': Inode)
    requires DiskOk(g, d0) && DiskOk(g, d) && DiskOk(g, d') && Grown(g, d0, n0, d, n) && d'[g.bbm] == d[g.bbm]
    requires SameFile(d, d', n) && SamePointers(n, n')
    ensures Grown(g, d0, n0, d', n')
  {
    hide At, Ref, SamePointers, Grown;
    forall t ensures At(d', n', t) == At(d, n, t) { SamePointersAt(d', n, n', t); }
    GrownKept(g, d0, n0, d, n, d', n');
  }

  /** A write given up half-way: the volume stays well-formed and no other file changes. */
  lemma AbandonStep(g: Geom, v0: Vol, v: Vol, ino: nat, n: Inode)
    requires WellFormed(g, v0) && Writing(g, v0, v, NodesOf(g, v0.d), ino, n)
    ensures WellFormed(g, v) && NodesOf(g, v.d) == NodesOf(g, v0.d) && Others(v0.d, v.d, NodesOf(g, v0.d), ino)
  {
    hide Marked, TableEnd, InodeAt, SameFile, At, Ref, NodesOf;
    var nodes := NodesOf(g, v0.d);
    NodesKept(g, v0.d, v.d);
    var m := nodes[ino := n];
    forall s ensures At(v.d, nodes[ino], s) == 0 || At(v.d, nodes[ino], s) == At(v.d, n, s) {
      OldSlot(g, v0.d, nodes[ino], v.d, n, s);
    }
    forall i, s | i in nodes ensures SlotGood(g, v.d, nodes[i], s) { assert SlotGood(g, v.d, m[i], s); }
    forall i, s, j, t | i in nodes && j in nodes
      ensures Apart(v.d, i, nodes[i], s, j, nodes[j], t)
    {
      assert Apart(v.d, i, m[i], s, j, m[j], t);
    }
  }

  lemma OldSlot(g: Geom, d0: Disk, n0: Inode, d: Disk, n: Inode, s: Slot)
    requires DiskOk(g, d0) && DiskOk(g, d) && Grown(g, d0, n0, d, n) && HeadKept(n0, n)
    ensures At(d, n0, s) == 0 || At(d, n0, s) == At(d, n, s)
  {
    hide Used;
    assert Extends(g, d0, n0, d, n, Ind) && Extends(g, d0, n0, d, n, s);
    assert n[OFF_BLOCK + 52..][0] == n[92] && n[OFF_BLOCK + 52..][1] == n[93] && n[OFF_BLOCK + 52..][2] == n[94]
        && n[OFF_BLOCK + 52..][3] == n[95];
    assert Pointer(n, 13) == Pointer(n0, 13);
  }
}
