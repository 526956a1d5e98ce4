/** Whole operations on names: what create, unlink and their parts do to the file system. */
module Ext2Names {
  import opened DiskBytes
  import opened Ext2Layout
  import opened Ext2Trees
  import opened Ext2Alloc
  import opened Ext2Files
  import opened Ext2Writing
  import opened Ext2Volume
  import opened Ext2Free
  import opened Ext2Dirents
  import opened Ext2Dirs
  import opened Ext2Fs

  /** The inodes in use are exactly `nodes`. */
  ghost predicate LiveSet(g: Geom, d: Disk, nodes: Nodes)
    requires DiskOk(g, d)
  {
    forall i: nat {:trigger Live(g, d, i)} :: Live(g, d, i) <==> i in nodes
  }

  /** A file system holding `nodes`. */
  ghost predicate Rest(g: Geom, v: Vol, nodes: Nodes) {
    Fs(g, v, nodes) && Tabled(g, v.d, nodes) && LiveSet(g, v.d, nodes)
  }

  lemma RestNodes(g: Geom, v: Vol, nodes: Nodes)
    requires Rest(g, v, nodes)
    ensures FsOk(g, v) && NodesOf(g, v.d) == nodes && WellFormed(g, v)
  {
    hide Marked, TableEnd, Counted, InodeAt, Trees, DirsOk, MetaMarked;
    forall i: nat | i in nodes
      ensures i in NodesOf(g, v.d) && NodesOf(g, v.d)[i] == nodes[i]
    {
      assert Live(g, v.d, i); InTable(g, v.d, nodes, i);
    }
    forall i: nat | i in NodesOf(g, v.d) ensures i in nodes { InNodes(g, v.d, i); }
    assert NodesOf(g, v.d) == nodes;
  }

  lemma NodesRest(g: Geom, v: Vol)
    requires FsOk(g, v)
    ensures Rest(g, v, NodesOf(g, v.d)) && WellFormed(g, v)
  {
    hide Marked, TableEnd, Counted, InodeAt, Trees, DirsOk, MetaMarked;
    var nodes := NodesOf(g, v.d);
    forall i | i in nodes ensures InoOk(g, i) && InodeAt(g, v.d, i) == nodes[i] { InNodes(g, v.d, i); }
    forall i: nat ensures Live(g, v.d, i) <==> i in nodes {}
  }

  // ---- the inode bitmap ----------------------------------------------------

  ghost predicate TableSame(g: Geom, d0: Disk, d: Disk)
    requires GeomOk(g) && |d| == |d0| == g.total
  {
    forall b {:trigger d[b]} :: g.itab <= b < TableEnd(g) ==> d[b] == d0[b]
  }

  lemma TabledSame(g: Geom, d0: Disk, d: Disk, nodes: Nodes)
    requires DiskOk(g, d0) && DiskOk(g, d) && Tabled(g, d0, nodes) && TableSame(g, d0, d)
    ensures Tabled(g, d, nodes)
  {
    hide Marked, TableEnd, InoOff;
    forall i | i in nodes ensures InoOk(g, i) && InodeAt(g, d, i) == nodes[i] {
      assert InodeAt(g, d0, i) == nodes[i];
      assert d[InoBlock(g, i)] == d0[InoBlock(g, i)];
    }
  }

  /** Taking an inode bit. */
  lemma InodeTaken(g: Geom, v: Vol, nodes: Nodes, ino: nat)
    requires Fs(g, v, nodes) && Tabled(g, v.d, nodes) && InoOk(g, ino) && !Live(g, v.d, ino)
    ensures var w := Take(g, v, Inodes, ino - 1);
            && Fs(g, w, nodes) && SameFiles(v.d, w.d, nodes) && Tabled(g, w.d, nodes) && w.d[g.bbm] == v.d[g.bbm]
            && (forall i: nat {:trigger Live(g, w.d, i)} :: Live(g, w.d, i) <==> i == ino || Live(g, v.d, i))
  {
    hide TableEnd, Clear, Trees, DirsOk, SameFile, Take, InodeAt, Mark, Bit;
    TakeStep(g, v, Inodes, ino - 1);
    var w := Take(g, v, Inodes, ino - 1);
    InodeBitFs(g, v, w, nodes);
  }

  lemma InodeGiven(g: Geom, v: Vol, nodes: Nodes, ino: nat)
    requires Fs(g, v, nodes) && Tabled(g, v.d, nodes) && InoOk(g, ino)
    ensures var w := Give(g, v, Inodes, ino - 1);
            && Fs(g, w, nodes) && SameFiles(v.d, w.d, nodes) && Tabled(g, w.d, nodes) && w.d[g.bbm] == v.d[g.bbm]
            && (forall i: nat {:trigger Live(g, w.d, i)} :: Live(g, w.d, i) <==> i != ino && Live(g, v.d, i))
  {
    hide TableEnd, Clear, Trees, DirsOk, SameFile, Give, InodeAt, Unmark, Bit;
    GiveStep(g, v, Inodes, ino - 1);
    var w := Give(g, v, Inodes, ino - 1);
    InodeBitFs(g, v, w, nodes);
  }

  lemma InodeBitFs(g: Geom, v: Vol, w: Vol, nodes: Nodes)
    requires Fs(g, v, nodes) && Tabled(g, v.d, nodes) && DiskOk(g, w.d) && |w.sb| == SB_BYTES && Counted(g, w)
    requires forall b {:trigger w.d[b]} :: 0 <= b < |v.d| && b != g.ibm && b != g.bgdBlock ==> w.d[b] == v.d[b]
    ensures Fs(g, w, nodes) && SameFiles(v.d, w.d, nodes) && Tabled(g, w.d, nodes) && w.d[g.bbm] == v.d[g.bbm]
  {
    hide Marked, TableEnd, Counted, Trees, DirsOk, SameFile, InodeAt;
    assert w.d[g.bbm] == v.d[g.bbm];
    assert MetaMarked(g, w.d);
    MetaWrite(g, v, w, nodes);
    TabledSame(g, v.d, w.d, nodes);
  }

  /** ext2_sync_superblock. */
  function Synced(g: Geom, v: Vol): (w: Vol)
    requires DiskOk(g, v.d) && |v.sb| == SB_BYTES
  {
    v.(d := v.d[g.sbBlock := Splice(v.d[g.sbBlock], SbAt(g), v.sb)])
  }

  lemma SyncedFs(g: Geom, v: Vol, nodes: Nodes)
    requires Fs(g, v, nodes) && Tabled(g, v.d, nodes)
    ensures var w := Synced(g, v);
            && Fs(g, w, nodes) && SameFiles(v.d, w.d, nodes) && Tabled(g, w.d, nodes) && w.d[g.bbm] == v.d[g.bbm]
            && w.d[g.ibm] == v.d[g.ibm]
  {
    hide Marked, TableEnd, Clear, Trees, DirsOk, SameFile, InodeAt, Splice, SbAt;
    var w := Synced(g, v);
    assert w.d[g.bbm] == v.d[g.bbm] && w.d[g.ibm] == v.d[g.ibm] && w.d[g.bgdBlock] == v.d[g.bgdBlock];
    assert DiskOk(g, w.d) && MetaMarked(g, w.d) && Counted(g, w);
    MetaWrite(g, v, w, nodes);
    TabledSame(g, v.d, w.d, nodes);
  }

  lemma LiveKept(g: Geom, d0: Disk, d: Disk, nodes: Nodes)
    requires DiskOk(g, d0) && DiskOk(g, d) && LiveSet(g, d0, nodes) && d[g.ibm] == d0[g.ibm]
    ensures LiveSet(g, d, nodes)
  {
    hide Marked, TableEnd;
    forall i: nat ensures Live(g, d, i) <==> i in nodes { assert Live(g, d, i) <==> Live(g, d0, i); }
  }

  // ---- creating a file -----------------------------------------------------

  const OFF_ATIME: nat := 8
  const MODE_FILE: nat := 0x81A4

  /** The inode ext2_create_file writes: a regular file, one link, no blocks. */
  function NewFile(now: nat): (n: Inode)
    requires now < TWO32
  {
    Put32(Put32(Put32(Put16(Put16(Zeros(INODE_BYTES), OFF_MODE, MODE_FILE), OFF_LINKS, 1), OFF_ATIME, now), OFF_CTIME,
        now), OFF_MTIME, now)
  }

  function Links(n: Inode): nat { Get16(n, OFF_LINKS) }

  lemma NewFileFields(now: nat)
    requires now < TWO32
    ensures IsRegular(NewFile(now)) && !IsDir(NewFile(now)) && Size(NewFile(now)) == 0 && Links(NewFile(now)) == 1
    ensures forall i {:trigger Pointer(NewFile(now), i)} :: 0 <= i < 15 ==> Pointer(NewFile(now), i) == 0
  {
    hide Bit, Put32;
    var z := Zeros(INODE_BYTES);
    var a := Put16(z, OFF_MODE, MODE_FILE);
    var b := Put16(a, OFF_LINKS, 1);
    var c := Put32(b, OFF_ATIME, now);
    var e := Put32(c, OFF_CTIME, now);
    var f := Put32(e, OFF_MTIME, now);
    GetPut16(z, OFF_MODE, MODE_FILE);
    GetPut16(a, OFF_LINKS, 1);
    GetPut32(b, OFF_ATIME, now);
    GetPut32(c, OFF_CTIME, now);
    GetPut32(e, OFF_MTIME, now);
    assert f == NewFile(now);
    assert forall q {:trigger f[q]} ::
        0 <= q < INODE_BYTES && q != 0 && q != 1 && q != 26 && q != 27 && !(8 <= q < 20) ==> f[q] == 0;
    assert f[0] == a[0] && f[1] == a[1] && f[26] == b[26] && f[27] == b[27];
    ModeBits();
    assert Get16(f, OFF_MODE) == MODE_FILE;
  }

  lemma ModeBits()
    ensures Bit(MODE_FILE, IFREG) && !Bit(MODE_FILE, IFDIR)
  {
    assert Bit(1, 0) && Bit(2, 1) && Bit(4, 2) && Bit(8, 3) && Bit(16, 4) && Bit(32, 5) && Bit(64, 6) && Bit(129, 7);
    assert Bit(259, 8) && Bit(518, 9) && Bit(1037, 10) && Bit(2074, 11) && Bit(4148, 12) && Bit(8297, 13)
        && Bit(16594, 14) && Bit(33188, 15);
    assert !Bit(2, 0) && !Bit(4, 1) && !Bit(8, 2) && !Bit(16, 3) && !Bit(32, 4) && !Bit(64, 5) && !Bit(129, 6)
        && !Bit(259, 7);
    assert !Bit(518, 8) && !Bit(1037, 9) && !Bit(2074, 10) && !Bit(4148, 11) && !Bit(8297, 12) && !Bit(16594, 13)
        && !Bit(33188, 14);
  }

  /** Inode `ino` is new, called `name` in directory `p`, and nothing else changed but the block
      `pb` the directory may have gained. */
  ghost predicate Created(g: Geom, v0: Vol, v: Vol, nodes: Nodes, p: nat, p': Inode, name: Name, ino: nat, now: nat,
      pb: nat)
  {
    && Rest(g, v0, nodes) && p in nodes && ino !in nodes && InoOk(g, ino) && now < TWO32
    && Rest(g, v, nodes[ino := NewFile(now)][p := p'])
    && IsDir(nodes[p]) && DirOk(g, v0.d, nodes[p]) && IsDir(p') && DirOk(g, v.d, p') && OnlyGrew(nodes[p], p')
    && name !in Bindings(Entries(g, v0.d, nodes[p]))
    && Bindings(Entries(g, v.d, p')) == Bindings(Entries(g, v0.d, nodes[p]))[name := ino]
    && Others(v0.d, v.d, nodes, p) && BitsPlus(g, v0.d, v.d, pb)
  }

  /** Nothing visible changed: same inodes, same files, same block bitmap. */
  ghost predicate Unchanged(g: Geom, v0: Vol, v: Vol, nodes: Nodes) {
    Rest(g, v0, nodes) && Rest(g, v, nodes) && SameFiles(v0.d, v.d, nodes) && BitsPlus(g, v0.d, v.d, 0)
  }

  /** The bit taken and the inode written, before it has a name. */
  ghost predicate Unnamed(g: Geom, v0: Vol, v: Vol, nodes: Nodes, ino: nat, now: nat) {
    && Rest(g, v0, nodes) && ino !in nodes && InoOk(g, ino) && now < TWO32
    && Rest(g, v, nodes[ino := NewFile(now)]) && SameFiles(v0.d, v.d, nodes) && v.d[g.bbm] == v0.d[g.bbm]
  }

  lemma UnnamedStep(g: Geom, v: Vol, nodes: Nodes, ino: nat, now: nat)
    requires Rest(g, v, nodes) && InoOk(g, ino) && !Live(g, v.d, ino) && now < TWO32
    ensures var t := Take(g, v, Inodes, ino - 1);
            DiskOk(g, t.d) && Unnamed(g, v, t.(d := WithInode(g, t.d, ino, NewFile(now))), nodes, ino, now)
  {
    hide Marked, TableEnd, Counted, MetaMarked, Trees, DirsOk, SameFile, InodeAt, Take, WithInode, NewFile, DirNode,
         Pointer, IsDir, Tabled, SameFiles;
    var t, n := Take(g, v, Inodes, ino - 1), NewFile(now);
    InodeTaken(g, v, nodes, ino);
    assert ino !in nodes;
    InodeStore(g, t, nodes, ino, n);
    TabledStore(g, t, nodes, ino, n);
    var w := t.(d := WithInode(g, t.d, ino, n));
    AllSame(v.d, t.d, w.d, nodes);
    NewFileFields(now);
    assert DirNode(g, w.d, n) by { NotDir(g, w.d, n); }
    NodeAdd(g, w, nodes, ino, n);
    forall i: nat ensures Live(g, w.d, i) <==> i in nodes[ino := n] { assert Live(g, w.d, i) <==> Live(g, t.d, i); }
  }

  lemma NotDir(g: Geom, d: Disk, n: Inode)
    requires g.bs > 0 && !IsDir(n)
    ensures DirNode(g, d, n)
  {
  }

  /** Naming the inode completes the creation. */
  lemma CreatedStep(g: Geom, v0: Vol, v1: Vol, v2: Vol, nodes: Nodes, p: nat, p': Inode, name: Name, ino: nat, now: nat,
      pb: nat)
    requires Unnamed(g, v0, v1, nodes, ino, now) && p in nodes
    requires Added(g, v1, v2, nodes[ino := NewFile(now)], p, p', name, ino, pb)
    ensures Created(g, v0, Synced(g, v2), nodes, p, p', name, ino, now, pb)
  {
    hide Marked, TableEnd, Counted, MetaMarked, Trees, DirsOk, SameFile, InodeAt, Synced, NewFile, IsDir, Tabled,
         Bindings, DirOk, Used, Live, OnlyGrew;
    var m := nodes[ino := NewFile(now)];
    var m' := m[p := p'];
    assert m[p] == nodes[p];
    var w := Synced(g, v2);
    SyncedFs(g, v2, m');
    assert LiveSet(g, v2.d, m') by {
      LiveKept(g, v1.d, v2.d, m);
      forall i: nat ensures Live(g, v2.d, i) <==> i in m' { assert Live(g, v2.d, i) <==> i in m; }
    }
    LiveKept(g, v2.d, w.d, m');
    assert SameFile(v0.d, v1.d, nodes[p]) && SameFile(v2.d, w.d, m'[p]);
    FsDir(g, v0, nodes, p);
    DirSame(g, v0.d, v1.d, nodes[p]);
    DirSame(g, v2.d, w.d, p');
    forall j | j in nodes && j != p ensures SameFile(v0.d, w.d, nodes[j]) {
      assert m[j] == nodes[j] && m'[j] == nodes[j];
      SameFileTrans(v0.d, v1.d, v2.d, nodes[j]);
      SameFileTrans(v0.d, v2.d, w.d, nodes[j]);
    }
    assert BitsPlus(g, v0.d, w.d, pb) by { BitsThrough(g, v0.d, v1.d, v2.d, w.d, pb); }
  }

  lemma BitsThrough(g: Geom, a: Disk, b: Disk, c: Disk, e: Disk, pb: nat)
    requires DiskOk(g, a) && DiskOk(g, b) && DiskOk(g, c) && DiskOk(g, e) && b[g.bbm] == a[g.bbm]
    requires e[g.bbm] == c[g.bbm] && BitsPlus(g, b, c, pb)
    ensures BitsPlus(g, a, e, pb)
  {
    hide Marked, DiskOk;
    forall x | InRange(g, x)
      ensures Used(g, e, x) <==> Used(g, a, x) || (pb != 0 && x == pb)
    {
      assert Used(g, c, x) == Used(g, e, x);
    }
  }

  /** Giving the inode back undoes an unnamed creation. */
  lemma UndoneStep(g: Geom, v0: Vol, v: Vol, nodes: Nodes, ino: nat, now: nat)
    requires Unnamed(g, v0, v, nodes, ino, now)
    ensures Unchanged(g, v0, Give(g, v, Inodes, ino - 1), nodes)
  {
    hide Marked, TableEnd, Counted, MetaMarked, Trees, DirsOk, SameFile, InodeAt, Give, NewFile;
    var m, w := nodes[ino := NewFile(now)], Give(g, v, Inodes, ino - 1);
    FewerNodes(g, v, nodes, m);
    InodeGiven(g, v, nodes, ino);
    AllSame(v0.d, v.d, w.d, nodes);
    SameBits(g, v0.d, w.d);
    forall i: nat ensures Live(g, w.d, i) <==> i in nodes { assert Live(g, v.d, i) <==> i in m; }
  }

  lemma FewerNodes(g: Geom, v: Vol, nodes: Nodes, m: Nodes)
    requires Fs(g, v, m) && Tabled(g, v.d, m) && forall i {:trigger nodes[i]} ::
              i in nodes ==> i in m && m[i] == nodes[i]
    ensures Fs(g, v, nodes) && Tabled(g, v.d, nodes)
  {
    hide Marked, TableEnd, Counted, MetaMarked, InodeAt, At, DirNode;
    forall i, s | i in nodes ensures SlotGood(g, v.d, nodes[i], s) { assert SlotGood(g, v.d, m[i], s); }
    forall i, s, j, t | i in nodes && j in nodes
      ensures Apart(v.d, i, nodes[i], s, j, nodes[j], t)
    {
      assert Apart(v.d, i, m[i], s, j, m[j], t);
    }
    forall i | i in nodes ensures DirNode(g, v.d, nodes[i]) { assert DirNode(g, v.d, m[i]); }
  }

  // ---- link counts ---------------------------------------------------------

  /** Only bytes outside the mode, the size and the pointers differ. */
  ghost predicate Relinked(n: Inode, m: Inode) {
    SamePointers(n, m) && Size(m) == Size(n) && IsDir(m) == IsDir(n) && IsRegular(m) == IsRegular(n)
  }

  lemma RelinkedRefl(n: Inode)
    ensures Relinked(n, n)
  {
  }

  lemma LinksSet(n: Inode, k: nat)
    requires k < TWO16
    ensures Relinked(n, Put16(n, OFF_LINKS, k)) && Links(Put16(n, OFF_LINKS, k)) == k
  {
    hide Bit;
    var m := Put16(n, OFF_LINKS, k);
    GetPut16(n, OFF_LINKS, k);
    assert m[0] == n[0] && m[1] == n[1] && m[4] == n[4] && m[5] == n[5] && m[6] == n[6] && m[7] == n[7];
  }

  lemma SameFileRenamed(d: Disk, d': Disk, n: Inode, m: Inode)
    requires SameFile(d, d', n) && SamePointers(m, n)
    ensures SameFile(d, d', m)
  {
    hide At, SamePointers;
    forall s ensures At(d', m, s) == At(d, m, s) && (0 < At(d, m, s) < |d| ==> d'[At(d, m, s)] == d[At(d, m, s)]) {
      SamePointersAt(d, m, n, s);
      SamePointersAt(d', m, n, s);
      assert At(d', n, s) == At(d, n, s);
    }
  }

  // ---- unlinking a file ----------------------------------------------------

  /** The block bitmap lost exactly the blocks of file `n`. */
  ghost predicate BitsMinus(g: Geom, d0: Disk, d: Disk, n: Inode)
    requires DiskOk(g, d0) && DiskOk(g, d)
  {
    forall b {:trigger Used(g, d, b)} ::
        InRange(g, b) ==> (Used(g, d, b) <==> Used(g, d0, b) && (b == 0 || !Reaches(d0, n, b)))
  }

  /** The binding of `name` is gone from directory `p`; `left` are the inodes that remain. */
  ghost predicate Unlinked(g: Geom, v0: Vol, v: Vol, nodes: Nodes, left: Nodes, p: nat, name: Name, ino: nat) {
    && Rest(g, v0, nodes) && Rest(g, v, left) && p in nodes && ino in nodes && p != ino && p in left
    && left[p] == nodes[p]
    && IsDir(nodes[p]) && DirOk(g, v0.d, nodes[p]) && DirOk(g, v.d, nodes[p])
    && Bindings(Entries(g, v.d, nodes[p])) == Bindings(Entries(g, v0.d, nodes[p])) - {name}
    && (ino in left ==> Relinked(nodes[ino], left[ino]) && SameFile(v0.d, v.d, nodes[ino]))
    && forall j {:trigger nodes[j]} ::
         j in nodes && j != p && j != ino ==> j in left && left[j] == nodes[j] && SameFile(v0.d, v.d, nodes[j])
  }

  lemma TabledOther(g: Geom, v: Vol, nodes: Nodes, ino: nat, n: Inode)
    requires Fs(g, v, nodes) && InoOk(g, ino) && Tabled(g, v.d, nodes) && ino !in nodes
    ensures DiskOk(g, WithInode(g, v.d, ino, n)) && Tabled(g, WithInode(g, v.d, ino, n), nodes)
  {
    hide Marked, TableEnd, Counted, InodeAt, WithInode, SameFiles, Trees, DirsOk;
    InodeStore(g, v, nodes, ino, n);
    var d' := WithInode(g, v.d, ino, n);
    forall i | i in nodes
      ensures InoOk(g, i) && InodeAt(g, d', i) == nodes[i]
    {
      assert InodeAt(g, v.d, i) == nodes[i];
    }
  }

  /** Blocks freed, dead inode written, inode bit given back, superblock synced. */
  function Reaped(g: Geom, v: Vol, ino: nat, dead: Inode): (w: Vol)
    requires DiskOk(g, v.d) && |v.sb| == SB_BYTES && InoOk(g, ino)
  {
    WithShape(g, v.d, ino, dead);
    var w := v.(d := WithInode(g, v.d, ino, dead));
    GiveShape(g, w, Inodes, ino - 1);
    Synced(g, Give(g, w, Inodes, ino - 1))
  }

  lemma WithShape(g: Geom, d: Disk, ino: nat, n: Inode)
    requires DiskOk(g, d) && InoOk(g, ino)
    ensures DiskOk(g, WithInode(g, d, ino, n))
  {
    hide InoOff, TableEnd;
    assert WithInode(g, d, ino, n)[g.bgdBlock] == d[g.bgdBlock];
  }

  /** The last link: the file's blocks and its inode are free again. */
  lemma UnlinkedLast(g: Geom, v0: Vol, v1: Vol, v2: Vol, nodes: Nodes, p: nat, name: Name, ino: nat, dead: Inode)
    requires Rest(g, v0, nodes) && Removed(g, v0, v1, nodes, p, name) && ino in nodes && ino != p
    requires Released(g, v1, v2, nodes[ino], AllSlots(g))
    ensures InoOk(g, ino) && UnlinkedFile(g, v0, Reaped(g, v2, ino, dead), nodes, p, name, ino)
  {
    hide Marked, TableEnd, Counted, MetaMarked, Trees, DirsOk, SameFile, InodeAt, Synced, IsDir, Bindings, DirOk, Used,
         WithInode, Give, AllSlots, Reaches, Live, At;
    InTable(g, v0.d, nodes, ino);
    var m := nodes - {ino};
    UnlinkedBlocks(g, v0, v1, v2, nodes, p, name, ino);
    var v3 := v2.(d := WithInode(g, v2.d, ino, dead));
    InodeStore(g, v2, m, ino, dead);
    TabledOther(g, v2, m, ino, dead);
    var v4 := Give(g, v3, Inodes, ino - 1);
    InodeGiven(g, v3, m, ino);
    var v5 := Synced(g, v4);
    SyncedFs(g, v4, m);
    assert v5 == Reaped(g, v2, ino, dead);
    AllSame(v2.d, v3.d, v4.d, m);
    AllSame(v2.d, v4.d, v5.d, m);
    UnlinkedLive(g, v0, v1, v2, v3, v4, v5, nodes, ino);
    assert m[p] == nodes[p];
    assert SameFile(v1.d, v2.d, m[p]) && SameFile(v2.d, v5.d, m[p]);
    DirSame(g, v1.d, v2.d, nodes[p]);
    DirSame(g, v2.d, v5.d, nodes[p]);
    forall j | j in nodes && j != p && j != ino ensures SameFile(v0.d, v5.d, nodes[j]) {
      assert m[j] == nodes[j];
      SameFileTrans(v0.d, v1.d, v2.d, nodes[j]);
      SameFileTrans(v0.d, v2.d, v5.d, nodes[j]);
    }
    forall b | InRange(g, b)
      ensures Used(g, v5.d, b) <==> Used(g, v0.d, b) && (b == 0 || !Reaches(v0.d, nodes[ino], b))
    {
      UsedSame(g, v2.d, v5.d, b);
    }
  }

  /** A file with more links, or none counted: only the binding and the link count change. */
  lemma UnlinkedMore(g: Geom, v0: Vol, v1: Vol, nodes: Nodes, p: nat, name: Name, ino: nat, n: Inode)
    requires Rest(g, v0, nodes) && Removed(g, v0, v1, nodes, p, name) && ino in nodes && ino != p && !IsDir(n)
    requires Relinked(nodes[ino], n)
    ensures InoOk(g, ino) && DiskOk(g, WithInode(g, v1.d, ino, n))
    ensures var w := Synced(g, v1.(d := WithInode(g, v1.d, ino, n)));
            Unlinked(g, v0, w, nodes, nodes[ino := n], p, name, ino) && w.d[g.bbm] == v0.d[g.bbm]
  {
    hide Marked, TableEnd, Counted, MetaMarked, DirsOk, Trees, SameFile, InodeAt, Synced, IsDir, Bindings, DirOk,
         WithInode, Live, At, SamePointers, DirNode, Tabled, IsRegular, Size;
    InTable(g, v0.d, nodes, ino);
    TabledKept(g, v0.d, v1.d, nodes);
    var m := nodes[ino := n];
    RenamedTrees(g, v1.d, nodes, ino, n);
    assert DirsOk(g, v1.d, m) by { RenamedDirs(g, v1, nodes, ino, n); }
    InodeStore(g, v1, m, ino, n);
    TabledStore(g, v1, nodes, ino, n);
    var v2 := v1.(d := WithInode(g, v1.d, ino, n));
    SyncedFs(g, v2, m);
    var w := Synced(g, v2);
    AllSame(v1.d, v2.d, w.d, m);
    LiveKept(g, v0.d, w.d, nodes);
    assert LiveSet(g, w.d, m);
    assert m[p] == nodes[p] && SameFile(v1.d, w.d, m[p]);
    DirSame(g, v1.d, w.d, nodes[p]);
    assert m[ino] == n && SameFile(v1.d, w.d, m[ino]) && SameFile(v0.d, v1.d, nodes[ino]);
    SameFileRenamed(v1.d, w.d, n, nodes[ino]);
    SameFileTrans(v0.d, v1.d, w.d, nodes[ino]);
    forall j | j in nodes && j != p && j != ino ensures SameFile(v0.d, w.d, nodes[j]) {
      assert m[j] == nodes[j];
      SameFileTrans(v0.d, v1.d, w.d, nodes[j]);
    }
  }

  lemma RenamedDirs(g: Geom, v: Vol, nodes: Nodes, ino: nat, n: Inode)
    requires g.bs > 0 && DirsOk(g, v.d, nodes) && !IsDir(n)
    ensures DirsOk(g, v.d, nodes[ino := n])
  {
    hide DirOk, IsDir, IsRegular;
    var m := nodes[ino := n];
    forall i | i in m ensures DirNode(g, v.d, m[i]) { if i != ino { assert DirNode(g, v.d, nodes[i]); } }
  }

  /** Freeing depends on the pointers only. */
  lemma ReleasedRenamed(g: Geom, v0: Vol, v: Vol, n: Inode, m: Inode)
    requires Released(g, v0, v, m, AllSlots(g)) && SamePointers(n, m)
    ensures Released(g, v0, v, n, AllSlots(g))
  {
    hide Marked, TableEnd, Counted, At, AllSlots, SamePointers;
    forall b | InRange(g, b) ensures ReleasedBit(g, v0.d, v.d, n, AllSlots(g), b) {
      assert ReleasedBit(g, v0.d, v.d, m, AllSlots(g), b);
      forall s ensures At(v0.d, n, s) == At(v0.d, m, s) { SamePointersAt(v0.d, n, m, s); }
      assert Hit(v0.d, n, AllSlots(g), b) <==> Hit(v0.d, m, AllSlots(g), b);
    }
  }

  lemma UsedSame(g: Geom, d: Disk, d': Disk, b: nat)
    requires DiskOk(g, d) && DiskOk(g, d') && d'[g.bbm] == d[g.bbm] && InRange(g, b)
    ensures Used(g, d', b) == Used(g, d, b)
  {
  }

  lemma UnlinkedBlocks(g: Geom, v0: Vol, v1: Vol, v2: Vol, nodes: Nodes, p: nat, name: Name, ino: nat)
    requires Rest(g, v0, nodes) && Removed(g, v0, v1, nodes, p, name) && ino in nodes && ino != p
    requires Released(g, v1, v2, nodes[ino], AllSlots(g))
    ensures Fs(g, v2, nodes - {ino}) && Tabled(g, v2.d, nodes - {ino}) && SameFiles(v1.d, v2.d, nodes - {ino})
    ensures v2.d[g.ibm] == v0.d[g.ibm]
    ensures BitsMinus(g, v0.d, v2.d, nodes[ino])
  {
    hide Marked, TableEnd, Counted, MetaMarked, Trees, DirsOk, SameFile, InodeAt, IsDir, Bindings, DirOk, AllSlots, At,
         Live, ReleasedBit;
    NodeDrop(g, v1, v2, nodes, ino);
    assert SameFile(v0.d, v1.d, nodes[ino]);
    forall b
      ensures Reaches(v1.d, nodes[ino], b) <==> Reaches(v0.d, nodes[ino], b)
    {
      ReachesSame(v0.d, v1.d, nodes[ino], b);
    }
    TabledKept(g, v0.d, v1.d, nodes);
    FewerTabled(g, v1.d, nodes, ino);
    TabledSame(g, v1.d, v2.d, nodes - {ino});
  }

  lemma FewerTabled(g: Geom, d: Disk, nodes: Nodes, ino: nat)
    requires DiskOk(g, d) && Tabled(g, d, nodes)
    ensures Tabled(g, d, nodes - {ino})
  {
    hide InodeAt;
    var m := nodes - {ino};
    forall i | i in m ensures InoOk(g, i) && InodeAt(g, d, i) == m[i] { assert InodeAt(g, d, i) == nodes[i]; }
  }

  lemma ReachesSame(d: Disk, d': Disk, n: Inode, b: nat)
    requires SameFile(d, d', n)
    ensures Reaches(d', n, b) <==> Reaches(d, n, b)
  {
    hide At;
    if Reaches(d', n, b) { var s :| At(d', n, s) == b; assert At(d, n, s) == b; }
    if Reaches(d, n, b) { var s :| At(d, n, s) == b; assert At(d', n, s) == b; }
  }

  lemma UnlinkedLive(g: Geom, v0: Vol, v1: Vol, v2: Vol, v3: Vol, v4: Vol, v5: Vol, nodes: Nodes, ino: nat)
    requires DiskOk(g, v0.d) && DiskOk(g, v2.d) && DiskOk(g, v3.d) && DiskOk(g, v4.d) && DiskOk(g, v5.d)
    requires LiveSet(g, v0.d, nodes)
    requires v2.d[g.ibm] == v0.d[g.ibm] && v3.d[g.ibm] == v2.d[g.ibm] && v5.d[g.ibm] == v4.d[g.ibm]
    requires forall i: nat {:trigger Live(g, v4.d, i)} :: Live(g, v4.d, i) <==> i != ino && Live(g, v3.d, i)
    ensures LiveSet(g, v5.d, nodes - {ino})
  {
    hide Marked, TableEnd;
    forall i: nat ensures Live(g, v5.d, i) <==> i in nodes - {ino} {
      assert Live(g, v5.d, i) <==> Live(g, v4.d, i);
      assert Live(g, v3.d, i) <==> Live(g, v0.d, i);
    }
  }

  // ---- create, write, unlink -----------------------------------------------

  /** A file created as `name` in `p`, written with `data`, and unlinked again. */
  ghost predicate Story(g: Geom, v0: Vol, v1: Vol, v2: Vol, v3: Vol, nodes: Nodes, p: nat, p': Inode, name: Name,
      ino: nat, now: nat, pb: nat, n: Inode, data: seq<Octet>)
  {
    && Created(g, v0, v1, nodes, p, p', name, ino, now, pb)
    && WroteFile(g, v1, v2, ino, n, data) && UnlinkedFile(g, v2, v3, nodes[ino := n][p := p'], p, name, ino)
  }

  ghost predicate WroteFile(g: Geom, v: Vol, w: Vol, ino: nat, n: Inode, data: seq<Octet>) {
    WellFormed(g, v) && WroteAll(g, v, w, ino, n, data)
  }

  /** The last link removed: inode and blocks are free again. */
  ghost predicate UnlinkedFile(g: Geom, v: Vol, w: Vol, nodes: Nodes, p: nat, name: Name, ino: nat) {
    Unlinked(g, v, w, nodes, nodes - {ino}, p, name, ino) && BitsMinus(g, v.d, w.d, nodes[ino])
  }

  /** Both bitmaps, the counters and the directory's bindings are back; `pb` is the block the
      directory may have gained. */
  ghost predicate Restored(g: Geom, v: Vol, w: Vol, n: Inode, n': Inode, pb: nat) {
    && VolOk(g, v) && VolOk(g, w) && BitsPlus(g, v.d, w.d, pb)
    && (forall i: nat {:trigger Live(g, w.d, i)} :: Live(g, w.d, i) <==> Live(g, v.d, i))
    && Fewer(g, v, w, if pb == 0 then 0 else 1)
    && DirOk(g, v.d, n) && DirOk(g, w.d, n') && Bindings(Entries(g, w.d, n')) == Bindings(Entries(g, v.d, n))
  }

  /** Creating a file, writing it and unlinking it gives every block and inode back. */
  lemma CreateWriteUnlink(g: Geom, v0: Vol, v1: Vol, v2: Vol, v3: Vol, nodes: Nodes, p: nat, p': Inode, name: Name,
      ino: nat, now: nat, pb: nat, n: Inode, data: seq<Octet>)
    requires Story(g, v0, v1, v2, v3, nodes, p, p', name, ino, now, pb, n, data)
    ensures p in nodes && Restored(g, v0, v3, nodes[p], p', pb)
  {
    hide Marked, TableEnd, Counted, MetaMarked, Trees, DirsOk, SameFile, InodeAt, IsDir, DirOk, At, Live, Used, NewFile,
         Bindings, Contents, InodeKept, OnlyGrew, Reaches, Fewer, Grown;
    var m1 := nodes[ino := NewFile(now)][p := p'];
    assert m1[ino := n] == nodes[ino := n][p := p'];
    RestNodes(g, v1, m1);
    forall b | InRange(g, b) ensures Used(g, v3.d, b) <==> Used(g, v0.d, b) || (pb != 0 && b == pb) {
      WrittenBits(g, v1, v2, m1[ino], n, now, b) by { assert m1[ino] == NewFile(now); }
    }
    forall i: nat ensures Live(g, v3.d, i) <==> Live(g, v0.d, i) { assert i in m1[ino := n] - {ino} <==> i in nodes; }
    CountersFollow(g, v0, v3, pb);
    var m2 := m1[ino := n];
    assert m2[p] == p' && SameFile(v1.d, v2.d, m1[p]);
    DirSame(g, v1.d, v2.d, p');
    assert Bindings(Entries(g, v0.d, nodes[p]))[name := ino] - {name} == Bindings(Entries(g, v0.d, nodes[p]));
  }

  /** Every block of a file that started empty was free before the write. */
  lemma WrittenBits(g: Geom, v1: Vol, v2: Vol, n0: Inode, n: Inode, now: nat, b: nat)
    requires VolOk(g, v1) && VolOk(g, v2) && Grown(g, v1.d, n0, v2.d, n) && now < TWO32 && n0 == NewFile(now)
    requires InRange(g, b)
    ensures Used(g, v2.d, b) && (b == 0 || !Reaches(v2.d, n, b)) <==> Used(g, v1.d, b)
  {
    hide Used, NewFile, TableEnd;
    assert GainedBit(g, v1.d, v2.d, n, b);
    if b == 0 { assert Meta(g, b); MetaUsed(g, v1, b); MetaUsed(g, v2, b); }
    if b != 0 && Reaches(v2.d, n, b) {
      var s :| At(v2.d, n, s) == b;
      assert Extends(g, v1.d, n0, v2.d, n, s);
      NewFileFields(now);
      EmptyNode(v1.d, n0, s);
    }
  }

  lemma MetaUsed(g: Geom, v: Vol, b: nat)
    requires VolOk(g, v) && InRange(g, b) && Meta(g, b)
    ensures Used(g, v.d, b)
  {
  }

  /** The free-block counters, in the descriptor and in the superblock, are down by `k`, the
      free-inode counters unchanged. */
  ghost predicate Fewer(g: Geom, v: Vol, w: Vol, k: nat)
    requires DiskOk(g, v.d) && DiskOk(g, w.d) && |v.sb| == SB_BYTES && |w.sb| == SB_BYTES
  {
    && Get16(w.d[g.bgdBlock], BGD_FREE_BLOCKS) + k == Get16(v.d[g.bgdBlock], BGD_FREE_BLOCKS)
    && Get16(w.d[g.bgdBlock], BGD_FREE_INODES) == Get16(v.d[g.bgdBlock], BGD_FREE_INODES)
    && Get32(w.sb, SB_FREE_BLOCKS) + k == Get32(v.sb, SB_FREE_BLOCKS)
    && Get32(w.sb, SB_FREE_INODES) == Get32(v.sb, SB_FREE_INODES)
  }

  lemma CountersFollow(g: Geom, v: Vol, w: Vol, pb: nat)
    requires VolOk(g, v) && VolOk(g, w) && Counted(g, v) && Counted(g, w) && BitsPlus(g, v.d, w.d, pb)
    requires forall i: nat {:trigger Live(g, w.d, i)} :: Live(g, w.d, i) <==> Live(g, v.d, i)
    ensures Fewer(g, v, w, if pb == 0 then 0 else 1)
  {
    hide TableEnd, Clear, Bit;
    forall j | 0 <= j < g.ipg
      ensures Marked(w.d[g.ibm], j) <==> Marked(v.d[g.ibm], j)
    {
      assert Live(g, w.d, j + 1) <==> Live(g, v.d, j + 1);
    }
    ClearSame(v.d[g.ibm], w.d[g.ibm], g.ipg);
    ClearBlocks(g, v.d, w.d, pb);
  }

  lemma ClearBlocks(g: Geom, d: Disk, d': Disk, pb: nat)
    requires DiskOk(g, d) && DiskOk(g, d') && BitsPlus(g, d, d', pb)
    ensures Clear(d'[g.bbm], g.total - g.first) + (if pb == 0 then 0 else 1) == Clear(d[g.bbm], g.total - g.first)
  {
    hide TableEnd, Clear, Bit;
    forall j | 0 <= j < g.total - g.first
      ensures Marked(d'[g.bbm], j) <==> Marked(d[g.bbm], j) || (pb != 0 && j == pb - g.first)
    {
      assert Used(g, d', g.first + j) <==> Used(g, d, g.first + j) || (pb != 0 && g.first + j == pb);
    }
    if pb == 0 {
      ClearSame(d[g.bbm], d'[g.bbm], g.total - g.first);
    } else {
      ClearFlip(d[g.bbm], d'[g.bbm], pb - g.first, g.total - g.first);
    }
  }

  // ---- writing a file keeps the names --------------------------------------

  lemma ModeKept(n0: Inode, n: Inode)
    requires InodeKept(n0, n)
    ensures IsDir(n) == IsDir(n0) && IsRegular(n) == IsRegular(n0) && Links(n) == Links(n0)
  {
    hide Bit;
    assert n[0] == n0[0] && n[1] == n0[1] && n[26] == n0[26] && n[27] == n0[27];
  }

  /** A written regular file is not a directory, so every directory is as it was. */
  lemma WriteKeepsNames(g: Geom, v0: Vol, w: Vol, ino: nat, n: Inode, data: seq<Octet>)
    requires FsOk(g, v0) && WellFormed(g, v0) && WroteAll(g, v0, w, ino, n, data) && IsRegular(NodesOf(g, v0.d)[ino])
    ensures FsOk(g, w)
  {
    hide Marked, TableEnd, Counted, MetaMarked, Trees, SameFile, InodeAt, IsDir, IsRegular, DirOk, At, Grown, InodeKept,
         Contents, NodesOf;
    var nodes := NodesOf(g, v0.d);
    var m := nodes[ino := n];
    assert DirNode(g, v0.d, nodes[ino]);
    ModeKept(nodes[ino], n);
    forall i | i in m ensures DirNode(g, w.d, m[i]) {
      if i != ino {
        assert DirNode(g, v0.d, nodes[i]);
        if IsDir(nodes[i]) { DirSame(g, v0.d, w.d, nodes[i]); }
      }
    }
  }

  /** The same after a write that was given up. */
  lemma AbandonKeepsNames(g: Geom, v0: Vol, w: Vol, ino: nat)
    requires FsOk(g, v0) && WellFormed(g, w) && NodesOf(g, w.d) == NodesOf(g, v0.d)
    requires Others(v0.d, w.d, NodesOf(g, v0.d), ino)
    requires ino in NodesOf(g, v0.d) && IsRegular(NodesOf(g, v0.d)[ino])
    ensures FsOk(g, w)
  {
    hide Marked, TableEnd, Counted, MetaMarked, Trees, SameFile, InodeAt, IsDir, IsRegular, DirOk, At, NodesOf;
    var nodes := NodesOf(g, v0.d);
    forall i | i in nodes ensures DirNode(g, w.d, nodes[i]) {
      assert DirNode(g, v0.d, nodes[i]);
      if i != ino && IsDir(nodes[i]) { DirSame(g, v0.d, w.d, nodes[i]); }
    }
  }

  /** Over the whole volume: the written file reads back exactly, every other inode and its contents
      are unchanged. */
  lemma RoundTrip(g: Geom, v: Vol, w: Vol, ino: nat, n: Inode, data: seq<Octet>, j: nat)
    requires WroteFile(g, v, w, ino, n, data) && j in NodesOf(g, v.d)
    ensures Contents(g, w.d, InodeAt(g, w.d, ino)) == data && Size(InodeAt(g, w.d, ino)) == |data|
    ensures j != ino ==> j in NodesOf(g, w.d) && NodesOf(g, w.d)[j] == NodesOf(g, v.d)[j]
    ensures j != ino ==> Contents(g, w.d, NodesOf(g, v.d)[j]) == Contents(g, v.d, NodesOf(g, v.d)[j])
  {
    hide Marked, TableEnd, Counted, MetaMarked, Trees, InodeAt, Grown, InodeKept, At, ReadFrom, NodesOf;
    InNodes(g, w.d, ino);
    if j != ino { SameRead(g, v.d, w.d, NodesOf(g, v.d)[j], 0, Size(NodesOf(g, v.d)[j])); }
  }

  /** The lookup function of a directory after its bindings changed. */
  lemma FindInBindings(g: Geom, d: Disk, n: Inode, d': Disk, n': Inode, name: Name, ino: nat, x: Name)
    requires g.bs > 0 && DirOk(g, d, n) && DirOk(g, d', n') && ino != 0
    ensures Bindings(Entries(g, d', n')) == Bindings(Entries(g, d, n))[name := ino] ==>
              Find(Entries(g, d', n'), x) == if x == name then ino else Find(Entries(g, d, n), x)
    ensures Bindings(Entries(g, d', n')) == Bindings(Entries(g, d, n)) - {name} ==>
              Find(Entries(g, d', n'), x) == if x == name then 0 else Find(Entries(g, d, n), x)
  {
    hide Bindings, Find, Unique, Entries, DirOk;
    DirUnique(g, d, n);
    DirUnique(g, d', n');
    BindingsFind(Entries(g, d, n), x);
    BindingsFind(Entries(g, d', n'), x);
  }
}
