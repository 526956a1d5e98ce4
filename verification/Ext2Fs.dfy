/** The whole file system state: disjoint trees, exact counters and sound directories, and how the
    elementary disk updates of directory operations keep it. */
module Ext2Fs {
  import opened DiskBytes
  import opened Ext2Layout
  import opened Ext2Trees
  import opened Ext2Alloc
  import opened Ext2Files
  import opened Ext2Writing
  import opened Ext2Volume
  import opened Ext2Dirents
  import opened Ext2Dirs
  import opened Ext2Free

  ghost predicate DirNode(g: Geom, d: Disk, n: Inode)
    requires g.bs > 0
  {
    IsDir(n) ==> DirOk(g, d, n) && !IsRegular(n)
  }

  ghost predicate DirsOk(g: Geom, d: Disk, nodes: Nodes)
    requires g.bs > 0
  {
    forall i {:trigger nodes[i]} :: i in nodes ==> DirNode(g, d, nodes[i])
  }

  ghost predicate Fs(g: Geom, v: Vol, nodes: Nodes) {
    VolOk(g, v) && Counted(g, v) && Trees(g, v.d, nodes) && DirsOk(g, v.d, nodes)
  }

  /** The inode table holds `nodes`. */
  ghost predicate Tabled(g: Geom, d: Disk, nodes: Nodes)
    requires DiskOk(g, d)
  {
    forall i {:trigger nodes[i]} :: i in nodes ==> InoOk(g, i) && InodeAt(g, d, i) == nodes[i]
  }

  ghost predicate SameFiles(d: Disk, d': Disk, nodes: Nodes) {
    forall i {:trigger nodes[i]} :: i in nodes ==> SameFile(d, d', nodes[i])
  }

  /** A file system at rest: everything above for the inodes in use. */
  ghost predicate FsOk(g: Geom, v: Vol) { DiskOk(g, v.d) && Fs(g, v, NodesOf(g, v.d)) }

  // ---- updates no tree sees ------------------------------------------------

  lemma SameDirs(g: Geom, d: Disk, d': Disk, nodes: Nodes)
    requires g.bs > 0 && DirsOk(g, d, nodes) && SameFiles(d, d', nodes)
    ensures DirsOk(g, d', nodes)
  {
    hide DirOk, IsDir, IsRegular, SameFile;
    forall i | i in nodes ensures DirNode(g, d', nodes[i]) {
      assert DirNode(g, d, nodes[i]);
      if IsDir(nodes[i]) { DirSame(g, d, d', nodes[i]); }
    }
  }

  /** Only metadata blocks changed, and the block bitmap did not. */
  lemma MetaWrite(g: Geom, v: Vol, v': Vol, nodes: Nodes)
    requires Fs(g, v, nodes) && VolOk(g, v') && Counted(g, v') && v'.d[g.bbm] == v.d[g.bbm]
    requires forall c {:trigger v'.d[c]} :: 0 <= c < |v.d| && !Meta(g, c) ==> v'.d[c] == v.d[c]
    ensures Fs(g, v', nodes) && SameFiles(v.d, v'.d, nodes)
  {
    hide Marked, TableEnd, Counted, DirsOk, SameFile, At, Meta;
    forall i, s | i in nodes && At(v.d, nodes[i], s) != 0
      ensures At(v.d, nodes[i], s) < |v.d| && v'.d[At(v.d, nodes[i], s)] == v.d[At(v.d, nodes[i], s)]
    {
      assert SlotGood(g, v.d, nodes[i], s);
    }
    OutsideWrite(g, v.d, v'.d, nodes);
    SameDirs(g, v.d, v'.d, nodes);
  }

  /** A block no tree reaches changed. */
  lemma FreshWrite(g: Geom, v: Vol, nodes: Nodes, b: nat, bytes: Block)
    requires Fs(g, v, nodes) && Fresh(g, v.d, nodes, b) && |bytes| == g.bs
    ensures var v' := v.(d := v.d[b := bytes]);
            Fs(g, v', nodes) && SameFiles(v.d, v'.d, nodes) && Fresh(g, v'.d, nodes, b) && v'.d[g.bbm] == v.d[g.bbm]
  {
    hide Marked, TableEnd, Clear, DirsOk, SameFile, At;
    var v' := v.(d := v.d[b := bytes]);
    assert v'.d[g.bbm] == v.d[g.bbm] && v'.d[g.ibm] == v.d[g.ibm] && v'.d[g.bgdBlock] == v.d[g.bgdBlock];
    forall i, s | i in nodes && At(v.d, nodes[i], s) != 0
      ensures At(v.d, nodes[i], s) < |v.d| && v'.d[At(v.d, nodes[i], s)] == v.d[At(v.d, nodes[i], s)]
    {
      assert SlotGood(g, v.d, nodes[i], s);
    }
    OutsideWrite(g, v.d, v'.d, nodes);
    SameDirs(g, v.d, v'.d, nodes);
    forall i, s | i in nodes ensures At(v'.d, nodes[i], s) != b { SameAt(v.d, v'.d, nodes[i], s); }
  }

  /** A new block for the file system. */
  lemma NewBlockFs(g: Geom, v: Vol, nodes: Nodes, b: nat)
    requires Fs(g, v, nodes) && FreeData(g, v.d, b)
    ensures Fs(g, NewBlock(g, v, b), nodes) && Fresh(g, NewBlock(g, v, b).d, nodes, b)
    ensures SameFiles(v.d, NewBlock(g, v, b).d, nodes)
  {
    hide Marked, TableEnd, CountedIn, DirsOk, SameFile, At, NewBlock, Trees;
    NewBlockTrees(g, v, nodes, b);
    NewBlockVol(g, v, b);
    SameDirs(g, v.d, NewBlock(g, v, b).d, nodes);
  }

  // ---- a directory block rewritten -----------------------------------------

  /** Writing block `i` of directory `p`: other files stay, the listing changes in that block. */
  lemma DirWrite(g: Geom, v: Vol, nodes: Nodes, p: nat, i: nat, bytes: Block) returns (a: seq<Entry>, b: seq<Entry>)
    requires Fs(g, v, nodes) && p in nodes && IsDir(nodes[p]) && DirOk(g, v.d, nodes[p]) && i < DirBlocks(g, nodes[p])
    requires |bytes| == g.bs && Tiled(bytes, 0)
    ensures i < DIRECT && Pointer(nodes[p], i) < |v.d| && Tiled(v.d[Pointer(nodes[p], i)], 0)
    ensures DirPrefix(v.d[Pointer(nodes[p], i) := bytes], nodes[p], DirBlocks(g, nodes[p]))
    ensures Entries(g, v.d, nodes[p]) == a + LiveFrom(v.d[Pointer(nodes[p], i)], 0) + b
    ensures Listing(v.d[Pointer(nodes[p], i) := bytes], nodes[p], DirBlocks(g, nodes[p])) == a + LiveFrom(bytes, 0) + b
    ensures Unique(a + LiveFrom(bytes, 0) + b) ==>
              var v' := v.(d := v.d[Pointer(nodes[p], i) := bytes]);
              && Fs(g, v', nodes) && Others(v.d, v'.d, nodes, p) && v'.d[g.bbm] == v.d[g.bbm] && TableKept(g, v.d, v'.d)
              && SameSlots(v.d, v'.d, nodes[p])
  {
    hide Marked, TableEnd, Clear, SameFile, Tiled, LiveFrom, Unique, IsDir, IsRegular, Get32;
    var n, k := nodes[p], DirBlocks(g, nodes[p]);
    assert DirBlockOk(v.d, n, i);
    assert At(v.d, n, Direct(i)) == Pointer(n, i);
    var x := Pointer(n, i);
    var d' := v.d[x := bytes];
    forall j | 0 <= j < k && j != i ensures BlockSame(v.d, d', n, n, j) {
      assert DirBlockOk(v.d, n, j);
      assert At(v.d, n, Direct(j)) == Pointer(n, j);
      assert Apart(v.d, p, nodes[p], Direct(i), p, nodes[p], Direct(j));
    }
    assert DirBlockOk(d', n, i);
    a, b := ListingUpdate(v.d, d', n, k, i);
    if Unique(a + LiveFrom(bytes, 0) + b) { DirWriteFs(g, v, nodes, p, i, bytes); }
  }

  lemma DirWriteFs(g: Geom, v: Vol, nodes: Nodes, p: nat, i: nat, bytes: Block)
    requires Fs(g, v, nodes) && p in nodes && IsDir(nodes[p]) && DirOk(g, v.d, nodes[p]) && i < DirBlocks(g, nodes[p])
    requires i < DIRECT
    requires |bytes| == g.bs && 0 < Pointer(nodes[p], i) < |v.d|
    requires DirPrefix(v.d[Pointer(nodes[p], i) := bytes], nodes[p], DirBlocks(g, nodes[p]))
    requires Unique(Listing(v.d[Pointer(nodes[p], i) := bytes], nodes[p], DirBlocks(g, nodes[p])))
    ensures var v' := v.(d := v.d[Pointer(nodes[p], i) := bytes]);
            && Fs(g, v', nodes) && Others(v.d, v'.d, nodes, p) && v'.d[g.bbm] == v.d[g.bbm] && TableKept(g, v.d, v'.d)
            && SameSlots(v.d, v'.d, nodes[p])
  {
    hide Marked, TableEnd, Clear, SameFile, Tiled, LiveFrom, Unique, IsDir, IsRegular, Listing, Trees, Get32, DirPrefix;
    var n, x := nodes[p], Pointer(nodes[p], i);
    assert At(v.d, n, Direct(i)) == x;
    TreesSlot(g, v.d, nodes, p, Direct(i));
    DataWrite(g, v.d, nodes, p, Direct(i), bytes);
    DataMeta(g, v, v, x, bytes);
    var d' := v.d[x := bytes];
    forall j | j in nodes ensures DirNode(g, d', nodes[j]) {
      assert DirNode(g, v.d, nodes[j]);
      if j != p && IsDir(nodes[j]) { DirSame(g, v.d, d', nodes[j]); }
    }
  }

  // ---- a directory gains a block -------------------------------------------

  /** The directory inode with one more block. */
  function Grew(g: Geom, n: Inode, k: nat, b: nat): (m: Inode)
    requires k < DIRECT && b < TWO32
  {
    Put32(SetPointer(n, k, b), OFF_SIZE, (Size(n) + g.bs) % TWO32)
  }

  lemma GrewFields(g: Geom, n: Inode, k: nat, b: nat)
    requires GeomOk(g) && k < DIRECT && b < TWO32 && Size(n) == k * g.bs
    ensures Size(Grew(g, n, k, b)) == (k + 1) * g.bs && DirBlocks(g, Grew(g, n, k, b)) == k + 1
    ensures SamePointers(SetPointer(n, k, b), Grew(g, n, k, b))
    ensures IsDir(Grew(g, n, k, b)) == IsDir(n) && IsRegular(Grew(g, n, k, b)) == IsRegular(n)
    ensures forall j {:trigger Pointer(Grew(g, n, k, b), j)} ::
              0 <= j < 15 ==> Pointer(Grew(g, n, k, b), j) == if j == k then b else Pointer(n, j)
  {
    hide Bit, Get32, Put32;
    var t, m := SetPointer(n, k, b), Grew(g, n, k, b);
    assert (k + 1) * g.bs == k * g.bs + g.bs;
    SmallProduct(g, k);
    GetPut32(t, OFF_SIZE, Size(n) + g.bs);
    GetPut32(n, OFF_BLOCK + 4 * k, b);
    assert m[0] == n[0] && m[1] == n[1];
    QuotientExact(k + 1, g.bs);
    forall j | 0 <= j < 15 ensures Pointer(m, j) == if j == k then b else Pointer(n, j) {
      PointerAfterSet(n, k, b, j);
      OtherField32(t, OFF_SIZE, Size(n) + g.bs, OFF_BLOCK + 4 * j);
    }
  }

  lemma SmallProduct(g: Geom, k: nat)
    requires GeomOk(g) && k < DIRECT
    ensures k * g.bs + g.bs < TWO32
  {
    MulMonotone(k, DIRECT, g.bs);
  }

  lemma QuotientExact(q: nat, z: nat)
    requires z > 0
    ensures q * z / z == q
  {
    var r := q * z / z;
    assert q * z == z * r + q * z % z;
    assert (r + 1) * z == r * z + z && (q + 1) * z == q * z + z;
    if r < q { MulMonotone(r + 1, q, z); }
    if q < r { MulMonotone(q + 1, r, z); }
  }

  /** A fresh block holding one entry becomes the next block of a directory. */
  lemma DirGrow(g: Geom, v: Vol, nodes: Nodes, p: nat, b: nat, e: Entry)
    requires Fs(g, v, nodes) && p in nodes && IsDir(nodes[p]) && DirOk(g, v.d, nodes[p])
    requires DirBlocks(g, nodes[p]) < DIRECT
    requires Fresh(g, v.d, nodes, b) && Tiled(v.d[b], 0) && LiveFrom(v.d[b], 0) == [e] && e.ino != 0
    requires Find(Entries(g, v.d, nodes[p]), e.name) == 0
    ensures var n' := Grew(g, nodes[p], DirBlocks(g, nodes[p]), b);
            && Fs(g, v, nodes[p := n']) && IsDir(n') && DirOk(g, v.d, n')
            && Entries(g, v.d, n') == Entries(g, v.d, nodes[p]) + [e]
  {
    hide Marked, TableEnd, Counted, At, Trees, IsDir, IsRegular, Grew, SetPointer, Get32, SamePointers;
    var n, k := nodes[p], DirBlocks(g, nodes[p]);
    var t, n' := SetPointer(n, k, b), Grew(g, n, k, b);
    GrewFields(g, n, k, b);
    HangTop(g, v.d, nodes, p, k, b);
    var m := nodes[p := t];
    RenamedTrees(g, v.d, m, p, n');
    assert m[p := n'] == nodes[p := n'];
    DirGrowEntries(g, v.d, n, n', b, e);
    var m' := nodes[p := n'];
    forall i | i in m' ensures DirNode(g, v.d, m'[i]) { assert DirNode(g, v.d, nodes[i]); }
  }

  lemma DirGrowEntries(g: Geom, d: Disk, n: Inode, n': Inode, b: nat, e: Entry)
    requires GeomOk(g) && DirOk(g, d, n) && DirBlocks(g, n) < DIRECT && DirBlocks(g, n') == DirBlocks(g, n) + 1
    requires Size(n') == DirBlocks(g, n') * g.bs
    requires forall j {:trigger Pointer(n', j)} ::
              0 <= j < 15 ==> Pointer(n', j) == if j == DirBlocks(g, n) then b else Pointer(n, j)
    requires 0 < b < |d| && Tiled(d[b], 0) && LiveFrom(d[b], 0) == [e] && e.ino != 0
    requires Find(Entries(g, d, n), e.name) == 0
    ensures DirOk(g, d, n') && Entries(g, d, n') == Entries(g, d, n) + [e]
  {
    hide Tiled, LiveFrom, Find, Pointer, Size;
    var k := DirBlocks(g, n);
    forall i | 0 <= i < k ensures BlockSame(d, d, n, n', i) { assert DirBlockOk(d, n, i); }
    ListingSame(d, d, n, n', k);
    forall i | 0 <= i < k + 1 ensures DirBlockOk(d, n', i) { if i < k { assert DirBlockOk(d, n', i); } }
    var es := Entries(g, d, n);
    assert Listing(d, n', k + 1) == es + [e];
    assert es + [] == es && es + ([e] + []) == es + [e];
    BindingsInsert(es, e, []);
  }

  // ---- inodes come and go --------------------------------------------------

  lemma EmptyNode(d: Disk, n: Inode, s: Slot)
    requires forall i {:trigger Pointer(n, i)} :: 0 <= i < 15 ==> Pointer(n, i) == 0
    ensures At(d, n, s) == 0
  {
    assert Pointer(n, 12) == 0 && Pointer(n, 13) == 0;
  }

  /** A new inode without blocks. */
  lemma NodeAdd(g: Geom, v: Vol, nodes: Nodes, ino: nat, n: Inode)
    requires Fs(g, v, nodes) && ino !in nodes
    requires (forall i {:trigger Pointer(n, i)} :: 0 <= i < 15 ==> Pointer(n, i) == 0) && DirNode(g, v.d, n)
    ensures Fs(g, v, nodes[ino := n])
  {
    hide Marked, TableEnd, Counted, At, Pointer, DirNode;
    var m := nodes[ino := n];
    forall i, s | i in m ensures SlotGood(g, v.d, m[i], s) {
      EmptyNode(v.d, n, s);
      if i != ino { assert SlotGood(g, v.d, nodes[i], s); }
    }
    forall i, s, j, t | i in m && j in m ensures Apart(v.d, i, m[i], s, j, m[j], t) {
      EmptyNode(v.d, n, s);
      EmptyNode(v.d, n, t);
      if i != ino && j != ino { assert Apart(v.d, i, nodes[i], s, j, nodes[j], t); }
    }
  }

  /** The blocks of one file are released and its inode forgotten. */
  lemma NodeDrop(g: Geom, v0: Vol, v: Vol, nodes: Nodes, ino: nat)
    requires Fs(g, v0, nodes) && ino in nodes && Released(g, v0, v, nodes[ino], AllSlots(g))
    ensures Fs(g, v, nodes - {ino}) && SameFiles(v0.d, v.d, nodes - {ino})
    ensures forall b {:trigger Used(g, v.d, b)} ::
              InRange(g, b) ==> (Used(g, v.d, b) <==> Used(g, v0.d, b) && (b == 0 || !Reaches(v0.d, nodes[ino], b)))
  {
    hide TableEnd, Counted, At, SameFile, DirsOk, Hit, AllSlots;
    var m, n := nodes - {ino}, nodes[ino];
    forall b | InRange(g, b) ensures Used(g, v.d, b) <==> Used(g, v0.d, b) && (b == 0 || !Reaches(v0.d, n, b)) {
      assert ReleasedBit(g, v0.d, v.d, n, AllSlots(g), b);
      HitAll(g, v0, nodes, ino, b);
    }
    DropMeta(g, v0, v, nodes, ino);
    assert Trees(g, v0.d, m) by { SubTrees(g, v0.d, nodes, ino); }
    forall i, s | i in m && At(v0.d, m[i], s) != 0
      ensures At(v0.d, m[i], s) < |v0.d| && v.d[At(v0.d, m[i], s)] == v0.d[At(v0.d, m[i], s)]
    {
      assert SlotGood(g, v0.d, m[i], s);
    }
    DropTrees(g, v0, v, nodes, ino);
    SameDirs(g, v0.d, v.d, m) by { SubDirs(g, v0.d, nodes, ino); }
  }

  lemma HitAll(g: Geom, v: Vol, nodes: Nodes, ino: nat, b: nat)
    requires VolOk(g, v) && Trees(g, v.d, nodes) && ino in nodes
    ensures Hit(v.d, nodes[ino], AllSlots(g), b) <==> b != 0 && Reaches(v.d, nodes[ino], b)
  {
    hide Marked, TableEnd, At, AllSlots;
    var n := nodes[ino];
    if b != 0 && Reaches(v.d, n, b) {
      var s :| At(v.d, n, s) == b;
      forall t ensures At(v.d, n, t) < |v.d| { assert SlotGood(g, v.d, nodes[ino], t); }
      if s !in AllSlots(g) { AllSlotsCover(g, v.d, n, s); }
    }
  }

  lemma DropMeta(g: Geom, v0: Vol, v: Vol, nodes: Nodes, ino: nat)
    requires VolOk(g, v0) && Trees(g, v0.d, nodes) && ino in nodes && Released(g, v0, v, nodes[ino], AllSlots(g))
    ensures VolOk(g, v)
  {
    hide TableEnd, Counted, At, AllSlots;
    var n := nodes[ino];
    forall b | g.first <= b < g.total && Meta(g, b) ensures Marked(v.d[g.bbm], b - g.first) {
      assert ReleasedBit(g, v0.d, v.d, n, AllSlots(g), b);
      HitAll(g, v0, nodes, ino, b);
      if b != 0 && Reaches(v0.d, n, b) {
        var s :| At(v0.d, n, s) == b;
        TreesSlot(g, v0.d, nodes, ino, s);
      }
    }
  }

  lemma TreesApart(g: Geom, d: Disk, m: Nodes, i: nat, s: Slot, j: nat, t: Slot)
    requires DiskOk(g, d) && Trees(g, d, m) && i in m && j in m
    ensures Apart(d, i, m[i], s, j, m[j], t)
  {
  }

  lemma SubTrees(g: Geom, d: Disk, nodes: Nodes, ino: nat)
    requires DiskOk(g, d) && Trees(g, d, nodes)
    ensures Trees(g, d, nodes - {ino})
  {
    hide Marked, TableEnd, At;
    var m := nodes - {ino};
    forall i, s | i in m ensures SlotGood(g, d, m[i], s) { assert SlotGood(g, d, nodes[i], s); }
    forall i, s, j, t | i in m && j in m
      ensures Apart(d, i, m[i], s, j, m[j], t)
    {
      assert Apart(d, i, nodes[i], s, j, nodes[j], t);
    }
  }

  lemma SubDirs(g: Geom, d: Disk, nodes: Nodes, ino: nat)
    requires g.bs > 0 && DirsOk(g, d, nodes)
    ensures DirsOk(g, d, nodes - {ino})
  {
    hide DirNode;
    forall i | i in nodes - {ino} ensures DirNode(g, d, (nodes - {ino})[i]) { assert DirNode(g, d, nodes[i]); }
  }

  /** The other trees keep their blocks. */
  lemma DropTrees(g: Geom, v0: Vol, v: Vol, nodes: Nodes, ino: nat)
    requires VolOk(g, v0) && Trees(g, v0.d, nodes) && ino in nodes && Released(g, v0, v, nodes[ino], AllSlots(g))
    ensures Trees(g, v.d, nodes - {ino}) && SameFiles(v0.d, v.d, nodes - {ino})
  {
    hide TableEnd, Counted, At, AllSlots, SameFile;
    var m, n := nodes - {ino}, nodes[ino];
    forall i | i in m ensures SameFile(v0.d, v.d, m[i]) {
      forall s
        ensures 0 < At(v0.d, m[i], s) < |v0.d| ==> v.d[At(v0.d, m[i], s)] == v0.d[At(v0.d, m[i], s)]
      {
        assert SlotGood(g, v0.d, nodes[i], s);
      }
      SameFileKept(v0.d, v.d, m[i]);
    }
    forall i, s | i in m ensures SlotGood(g, v.d, m[i], s) {
      SameAt(v0.d, v.d, m[i], s);
      assert SlotGood(g, v0.d, nodes[i], s);
      var b := At(v0.d, m[i], s);
      if b != 0 {
        assert ReleasedBit(g, v0.d, v.d, n, AllSlots(g), b);
        HitAll(g, v0, nodes, ino, b);
        if Reaches(v0.d, n, b) {
          var t :| At(v0.d, n, t) == b;
          TreesApart(g, v0.d, nodes, i, s, ino, t);
        }
      }
    }
    forall i, s, j, t | i in m && j in m ensures Apart(v.d, i, m[i], s, j, m[j], t) {
      SameAt(v0.d, v.d, m[i], s);
      SameAt(v0.d, v.d, m[j], t);
      assert Apart(v0.d, i, nodes[i], s, j, nodes[j], t);
    }
  }

  // ---- adding a binding ----------------------------------------------------

  /** Bytes of an inode outside size and `block[0..12)`. */
  ghost predicate OnlyGrew(n: Inode, m: Inode) {
    forall q {:trigger m[q]} ::
      0 <= q < INODE_BYTES && !(OFF_SIZE <= q < OFF_SIZE + 4) && !(OFF_BLOCK <= q < OFF_BLOCK + 48) ==> m[q] == n[q]
  }

  /** Directory `p` gained exactly the binding `name -> ino`; `pb` is the block it gained, if any.
      Every other inode and file is as it was. */
  ghost predicate Added(g: Geom, v0: Vol, v: Vol, nodes: Nodes, p: nat, n': Inode, name: Name, ino: nat, pb: nat) {
    && Fs(g, v0, nodes) && p in nodes && Fs(g, v, nodes[p := n']) && Tabled(g, v.d, nodes[p := n'])
    && v.d[g.ibm] == v0.d[g.ibm]
    && IsDir(nodes[p]) && DirOk(g, v0.d, nodes[p]) && IsDir(n') && DirOk(g, v.d, n') && OnlyGrew(nodes[p], n')
    && name !in Bindings(Entries(g, v0.d, nodes[p]))
    && Bindings(Entries(g, v.d, n')) == Bindings(Entries(g, v0.d, nodes[p]))[name := ino]
    && Others(v0.d, v.d, nodes, p)
    && BitsPlus(g, v0.d, v.d, pb)
  }

  /** The block bitmap gained block `pb` and nothing else. */
  ghost predicate BitsPlus(g: Geom, d0: Disk, d: Disk, pb: nat)
    requires DiskOk(g, d0) && DiskOk(g, d)
  {
    && (pb != 0 ==> InRange(g, pb) && !Used(g, d0, pb))
    && forall b {:trigger Used(g, d, b)} ::
         InRange(g, b) ==> (Used(g, d, b) <==> Used(g, d0, b) || (pb != 0 && b == pb))
  }

  lemma SameBits(g: Geom, d0: Disk, d: Disk)
    requires DiskOk(g, d0) && DiskOk(g, d) && d[g.bbm] == d0[g.bbm]
    ensures BitsPlus(g, d0, d, 0)
  {
  }

  lemma TabledKept(g: Geom, d0: Disk, d: Disk, nodes: Nodes)
    requires DiskOk(g, d0) && DiskOk(g, d) && Tabled(g, d0, nodes) && TableKept(g, d0, d)
    ensures Tabled(g, d, nodes)
  {
    hide Marked, TableEnd, InoOff;
    forall i | i in nodes ensures InoOk(g, i) && InodeAt(g, d, i) == nodes[i] {
      assert InodeAt(g, d0, i) == nodes[i];
      assert d[InoBlock(g, i)] == d0[InoBlock(g, i)];
    }
  }

  /** A new block of a directory that holds one entry. */
  lemma OneEntryBlock(bs: nat, ino: nat, name: Name, kind: Octet)
    requires HDR + |name| <= bs < TWO16 && bs % 4 == 0 && |name| < 256 && NameOk(name) && 0 < ino < TWO32
    ensures Tiled(Record(ino, bs, name, kind), 0)
    ensures LiveFrom(Record(ino, bs, name, kind), 0) == [Entry(ino, name, kind)]
  {
    hide Record, NameOk;
    var r := Record(ino, bs, name, kind);
    RecordPlaced(r, 0, ino, bs, name, kind);
    assert Splice(r, 0, r) == r;
    assert Tiled(r, bs) && LiveFrom(r, bs) == [];
    Unfold(r, 0);
  }

  /** The record at `off` makes room for the new entry. */
  function Inserted(b: Block, off: nat, ino: nat, name: Name, kind: Octet): (b': Block)
    requires RecOk(b, off) && |name| < 256 && Fits(b, off, name) && ino < TWO32
    ensures |b'| == |b|
  {
    if FitsDead(b, off, name) then InsertDead(b, off, ino, name, kind) else InsertSplit(b, off, ino, name, kind)
  }

  lemma InsertedAdds(b: Block, off: nat, ino: nat, name: Name, kind: Octet) returns (x: seq<Entry>, y: seq<Entry>)
    requires Tiled(b, 0) && Boundary(b, 0, off) && RecOk(b, off) && |name| < 256 && NameOk(name) && 0 < ino < TWO32
    requires Fits(b, off, name)
    ensures Tiled(Inserted(b, off, ino, name, kind), 0) && LiveFrom(b, 0) == x + y
    ensures LiveFrom(Inserted(b, off, ino, name, kind), 0) == x + ([Entry(ino, name, kind)] + y)
  {
    hide Tiled, LiveFrom, Boundary, Between, InsertDead, InsertSplit, NameOk;
    if FitsDead(b, off, name) {
      InsertDeadAdds(b, off, ino, name, kind);
      x, y := Between(b, 0, off), LiveFrom(b, off + RecLen(b, off));
    } else {
      InsertSplitAdds(b, off, ino, name, kind);
      x, y := Between(b, 0, off) + One(b, off), LiveFrom(b, off + RecLen(b, off));
    }
  }

  lemma AddInBlock(g: Geom, v: Vol, nodes: Nodes, p: nat, i: nat, off: nat, ino: nat, name: Name, kind: Octet)
    requires Fs(g, v, nodes) && Tabled(g, v.d, nodes) && p in nodes && IsDir(nodes[p]) && DirOk(g, v.d, nodes[p])
    requires i < DirBlocks(g, nodes[p])
    requires |name| < 256 && NameOk(name) && 0 < ino < TWO32 && Find(Entries(g, v.d, nodes[p]), name) == 0
    requires i < DIRECT && Pointer(nodes[p], i) < |v.d| && Boundary(v.d[Pointer(nodes[p], i)], 0, off)
    requires RecOk(v.d[Pointer(nodes[p], i)], off)
    requires Fits(v.d[Pointer(nodes[p], i)], off, name)
    ensures var x := Pointer(nodes[p], i);
            Added(g, v, v.(d := v.d[x := Inserted(v.d[x], off, ino, name, kind)]), nodes, p, nodes[p], name, ino, 0)
  {
    hide Marked, TableEnd, Counted, MetaMarked, Tiled, LiveFrom, Boundary, RecOk, Inserted, NameOk, Trees, DirsOk,
         Unique, Find, Bindings, Listing, Others, IsDir, Get32, TableKept, Fits;
    var n, x := nodes[p], Pointer(nodes[p], i);
    assert DirBlockOk(v.d, n, i);
    var old_ := v.d[x];
    var new_ := Inserted(old_, off, ino, name, kind);
    var y, z := InsertedAdds(old_, off, ino, name, kind);
    var a, b := DirWrite(g, v, nodes, p, i, new_);
    var e := Entry(ino, name, kind);
    assert a + (y + z) + b == (a + y) + (z + b);
    assert a + (y + ([e] + z)) + b == (a + y) + ([e] + (z + b));
    BindingsInsert(a + y, e, z + b);
    Unbound(g, v.d, n, name);
    var v' := v.(d := v.d[x := new_]);
    TabledKept(g, v.d, v'.d, nodes);
    SameBits(g, v.d, v'.d);
    assert nodes[p := n] == nodes;
    assert Fs(g, v', nodes) && DirOk(g, v'.d, n) by { FsDir(g, v', nodes, p); }
    assert v'.d[g.ibm] == v.d[g.ibm] by { KeptIbm(g, v.d, v'.d); }
  }

  lemma FsDir(g: Geom, v: Vol, nodes: Nodes, p: nat)
    requires Fs(g, v, nodes) && p in nodes && IsDir(nodes[p])
    ensures DirOk(g, v.d, nodes[p]) && !IsRegular(nodes[p])
  {
    assert DirNode(g, v.d, nodes[p]);
  }

  lemma KeptIbm(g: Geom, d0: Disk, d: Disk)
    requires GeomOk(g) && |d| == |d0| == g.total && TableKept(g, d0, d)
    ensures d[g.ibm] == d0[g.ibm]
  {
  }

  // ---- writing inodes ------------------------------------------------------

  lemma InodeStore(g: Geom, v: Vol, nodes: Nodes, ino: nat, n: Inode)
    requires Fs(g, v, nodes) && InoOk(g, ino)
    ensures var v' := v.(d := WithInode(g, v.d, ino, n));
            && Fs(g, v', nodes) && SameFiles(v.d, v'.d, nodes) && v'.d[g.bbm] == v.d[g.bbm] && v'.d[g.ibm] == v.d[g.ibm]
            && (forall j {:trigger InodeAt(g, v'.d, j)} ::
                  InoOk(g, j) ==> InodeAt(g, v'.d, j) == if j == ino then n else InodeAt(g, v.d, j))
  {
    hide Marked, TableEnd, Clear, InoOff, Trees, DirsOk, SameFile;
    var v' := v.(d := WithInode(g, v.d, ino, n));
    assert Meta(g, InoBlock(g, ino));
    assert v'.d[g.bbm] == v.d[g.bbm] && v'.d[g.ibm] == v.d[g.ibm] && v'.d[g.bgdBlock] == v.d[g.bgdBlock];
    assert DiskOk(g, v'.d);
    assert VolOk(g, v') && Counted(g, v');
    MetaWrite(g, v, v', nodes);
    forall j | InoOk(g, j)
      ensures InodeAt(g, v'.d, j) == if j == ino then n else InodeAt(g, v.d, j)
    {
      InodeAfterWrite(g, v.d, ino, n, j);
    }
  }

  lemma TabledStore(g: Geom, v: Vol, nodes: Nodes, ino: nat, n: Inode)
    requires Fs(g, v, nodes) && InoOk(g, ino) && Tabled(g, v.d, nodes)
    ensures DiskOk(g, WithInode(g, v.d, ino, n)) && Tabled(g, WithInode(g, v.d, ino, n), nodes[ino := n])
  {
    hide Marked, TableEnd, Counted, InodeAt, WithInode, SameFiles, Trees, DirsOk;
    InodeStore(g, v, nodes, ino, n);
    var m, d' := nodes[ino := n], WithInode(g, v.d, ino, n);
    forall i | i in m
      ensures InoOk(g, i) && InodeAt(g, d', i) == m[i]
    {
      if i != ino { assert InodeAt(g, v.d, i) == nodes[i]; }
    }
  }

  /** Rewriting an inode with its own bytes changes nothing. */
  lemma StoreSame(g: Geom, d: Disk, ino: nat)
    requires GeomOk(g) && Shape(g, d) && InoOk(g, ino)
    ensures WithInode(g, d, ino, InodeAt(g, d, ino)) == d
  {
    hide TableEnd, InoOff;
    var b, o := d[InoBlock(g, ino)], InoOff(g, ino);
    assert Splice(b, o, b[o..o + INODE_BYTES]) == b;
  }

  // ---- adding a binding in a new block -------------------------------------

  /** The volume after the directory gained block `b` with one record and its inode was written. */
  function GrownDir(g: Geom, v: Vol, p: nat, n: Inode, b: nat, ino: nat, name: Name, kind: Octet): (w: Vol)
    requires GeomOk(g) && DiskOk(g, v.d) && |v.sb| == SB_BYTES && InRange(g, b) && InoOk(g, p)
    requires DirBlocks(g, n) < DIRECT
    requires HDR + |name| <= g.bs && |name| < 256 && ino < TWO32
  {
    NewBlockShape(g, v, b);
    var w := NewBlock(g, v, b);
    w.(d := WithInode(g, w.d[b := Record(ino, g.bs, name, kind)], p, Grew(g, n, DirBlocks(g, n), b)))
  }

  lemma NewBlockShape(g: Geom, v: Vol, b: nat)
    requires DiskOk(g, v.d) && |v.sb| == SB_BYTES && InRange(g, b)
    ensures Shape(g, NewBlock(g, v, b).d)
  {
    hide Mark, Less16, Less32, TableEnd;
  }

  lemma GrewOnly(g: Geom, n: Inode, k: nat, b: nat)
    requires k < DIRECT && b < TWO32
    ensures OnlyGrew(n, Grew(g, n, k, b))
  {
    hide Get32;
    GetPut32(n, OFF_BLOCK + 4 * k, b);
    GetPut32(SetPointer(n, k, b), OFF_SIZE, (Size(n) + g.bs) % TWO32);
  }

  lemma AddGrow(g: Geom, v: Vol, nodes: Nodes, p: nat, b: nat, ino: nat, name: Name, kind: Octet)
    requires Fs(g, v, nodes) && Tabled(g, v.d, nodes) && p in nodes && IsDir(nodes[p]) && DirOk(g, v.d, nodes[p])
    requires DirBlocks(g, nodes[p]) < DIRECT
    requires |name| < MAX_FILENAME && NameOk(name) && 0 < ino < TWO32 && Find(Entries(g, v.d, nodes[p]), name) == 0
    requires FreeData(g, v.d, b)
    ensures InoOk(g, p)
    ensures Added(g, v, GrownDir(g, v, p, nodes[p], b, ino, name, kind), nodes, p,
              Grew(g, nodes[p], DirBlocks(g, nodes[p]), b), name, ino, b)
  {
    hide Marked, TableEnd, Counted, MetaMarked, Tiled, LiveFrom, NameOk, Trees, DirsOk, Unique, Find, Bindings, Listing,
         SameFile, IsDir, Get32, TableKept, Record, NewBlock, WithInode, Grew, DirOk, Used, InodeAt, OnlyGrew, Fresh,
         BitsPlus, Tabled;
    var n, k := nodes[p], DirBlocks(g, nodes[p]);
    InTable(g, v.d, nodes, p);
    var v1 := NewBlock(g, v, b);
    NewBlockFs(g, v, nodes, b);
    var v2 := v1.(d := v1.d[b := Record(ino, g.bs, name, kind)]);
    FreshWrite(g, v1, nodes, b, Record(ino, g.bs, name, kind));
    AllSame(v.d, v1.d, v2.d, nodes);
    AddGrowTable(g, v, nodes, b, ino, name, kind);
    DirSame(g, v.d, v2.d, n) by { assert SameFile(v.d, v2.d, nodes[p]); }
    OneEntryBlock(g.bs, ino, name, kind);
    var e, n' := Entry(ino, name, kind), Grew(g, n, k, b);
    DirGrow(g, v2, nodes, p, b, e);
    var m := nodes[p := n'];
    InodeStore(g, v2, m, p, n');
    var v3 := v2.(d := WithInode(g, v2.d, p, n'));
    TabledStore(g, v2, nodes, p, n');
    assert v3 == GrownDir(g, v, p, n, b, ino, name, kind);
    assert SameFile(v2.d, v3.d, m[p]);
    DirSame(g, v2.d, v3.d, n');
    var es := Entries(g, v.d, n);
    assert es + [] == es && es + ([e] + []) == es + [e];
    assert Unique(es) by { DirUnique(g, v.d, n); }
    BindingsInsert(es, e, []);
    Unbound(g, v.d, n, name);
    GrewOnly(g, n, k, b);
    AddGrowBits(g, v, v3, b);
    forall j | j in nodes && j != p ensures SameFile(v.d, v3.d, nodes[j]) {
      assert m[j] == nodes[j];
      SameFileTrans(v.d, v2.d, v3.d, nodes[j]);
    }
  }

  lemma InTable(g: Geom, d: Disk, nodes: Nodes, p: nat)
    requires DiskOk(g, d) && Tabled(g, d, nodes) && p in nodes
    ensures InoOk(g, p) && InodeAt(g, d, p) == nodes[p]
  {
  }

  lemma Unbound(g: Geom, d: Disk, n: Inode, name: Name)
    requires g.bs > 0 && DirOk(g, d, n)
    ensures name in Bindings(Entries(g, d, n)) <==> Find(Entries(g, d, n), name) != 0
  {
    hide Bindings, Find, Listing;
    BindingsFind(Entries(g, d, n), name);
  }

  lemma DirUnique(g: Geom, d: Disk, n: Inode)
    requires g.bs > 0 && DirOk(g, d, n)
    ensures Unique(Entries(g, d, n))
  {
  }

  lemma AllSame(d: Disk, e: Disk, f: Disk, nodes: Nodes)
    requires SameFiles(d, e, nodes) && SameFiles(e, f, nodes)
    ensures SameFiles(d, f, nodes)
  {
    hide SameFile;
    forall i | i in nodes ensures SameFile(d, f, nodes[i]) { SameFileTrans(d, e, f, nodes[i]); }
  }

  lemma AddGrowTable(g: Geom, v: Vol, nodes: Nodes, b: nat, ino: nat, name: Name, kind: Octet)
    requires VolOk(g, v) && Tabled(g, v.d, nodes) && FreeData(g, v.d, b) && |name| < MAX_FILENAME && ino < TWO32
    ensures var d := NewBlock(g, v, b).d[b := Record(ino, g.bs, name, kind)];
            DiskOk(g, d) && Tabled(g, d, nodes) && d[g.ibm] == v.d[g.ibm] && d[g.bbm] == NewBlock(g, v, b).d[g.bbm]
  {
    hide Marked, TableEnd, Counted, NewBlock, Record, InodeAt;
    NewBlockVol(g, v, b);
    var t := NewBlock(g, v, b);
    var d := t.d[b := Record(ino, g.bs, name, kind)];
    assert d[g.bgdBlock] == t.d[g.bgdBlock];
    forall c | g.itab <= c < TableEnd(g) ensures d[c] == v.d[c] { assert t.d[c] == v.d[c]; }
    TabledKept(g, v.d, d, nodes);
  }

  lemma AddGrowBits(g: Geom, v: Vol, v3: Vol, b: nat)
    requires VolOk(g, v) && FreeData(g, v.d, b) && DiskOk(g, v3.d) && v3.d[g.bbm] == NewBlock(g, v, b).d[g.bbm]
    ensures BitsPlus(g, v.d, v3.d, b)
  {
    hide Marked, TableEnd, NewBlock;
    NewBlockVol(g, v, b);
    BitsAfterNew(g, v, b, v3.d);
  }

  // ---- removing a binding --------------------------------------------------

  /** Directory `p` lost exactly the binding of `name`; nothing else changed. */
  ghost predicate Removed(g: Geom, v0: Vol, v: Vol, nodes: Nodes, p: nat, name: Name) {
    && Fs(g, v0, nodes) && Fs(g, v, nodes) && p in nodes && IsDir(nodes[p]) && DirOk(g, v0.d, nodes[p])
    && DirOk(g, v.d, nodes[p])
    && Bindings(Entries(g, v.d, nodes[p])) == Bindings(Entries(g, v0.d, nodes[p])) - {name}
    && Others(v0.d, v.d, nodes, p) && TableKept(g, v0.d, v.d) && v.d[g.bbm] == v0.d[g.bbm]
    && v.d[g.bgdBlock] == v0.d[g.bgdBlock] && v.sb == v0.sb && SameSlots(v0.d, v.d, nodes[p])
  }

  /** The blocks of a directory are not metadata. */
  lemma DirBlockPlain(g: Geom, v: Vol, nodes: Nodes, p: nat, i: nat)
    requires Fs(g, v, nodes) && p in nodes && DirOk(g, v.d, nodes[p]) && i < DIRECT && i < DirBlocks(g, nodes[p])
    ensures !Meta(g, Pointer(nodes[p], i))
  {
    hide Marked, TableEnd, Counted, MetaMarked, Tiled, LiveFrom, Unique, Listing, DirsOk, Get32;
    assert DirBlockOk(v.d, nodes[p], i);
    assert At(v.d, nodes[p], Direct(i)) == Pointer(nodes[p], i);
    assert SlotGood(g, v.d, nodes[p], Direct(i));
  }

  lemma RemoveInBlock(g: Geom, v: Vol, nodes: Nodes, p: nat, i: nat, off: nat, name: Name)
    requires Fs(g, v, nodes) && p in nodes && IsDir(nodes[p]) && DirOk(g, v.d, nodes[p]) && i < DirBlocks(g, nodes[p])
    requires i < DIRECT && Pointer(nodes[p], i) < |v.d| && Boundary(v.d[Pointer(nodes[p], i)], 0, off)
    requires RecOk(v.d[Pointer(nodes[p], i)], off)
    requires RecIno(v.d[Pointer(nodes[p], i)], off) != 0 && EntryAt(v.d[Pointer(nodes[p], i)], off).name == name
    ensures var x := Pointer(nodes[p], i);
            Removed(g, v, v.(d := v.d[x := Kill(v.d[x], off)]), nodes, p, name)
  {
    hide Marked, TableEnd, Counted, MetaMarked, Tiled, LiveFrom, Boundary, Between, Kill, NameOk, Trees, DirsOk, Unique,
         Find, Bindings, Listing, Others, IsDir, Get32, TableKept, SameSlots;
    var n, x := nodes[p], Pointer(nodes[p], i);
    assert DirBlockOk(v.d, n, i);
    var old_ := v.d[x];
    KillRemoves(old_, off);
    var a, b := DirWrite(g, v, nodes, p, i, Kill(old_, off));
    var e, y, z := EntryAt(old_, off), Between(old_, 0, off), LiveFrom(old_, off + RecLen(old_, off));
    assert One(old_, off) == [e];
    assert a + (y + ([e] + z)) + b == (a + y) + ([e] + (z + b));
    assert a + (y + z) + b == (a + y) + (z + b);
    BindingsRemove(a + y, e, z + b);
    DirBlockPlain(g, v, nodes, p, i);
    FsDir(g, v.(d := v.d[x := Kill(old_, off)]), nodes, p);
  }
}
