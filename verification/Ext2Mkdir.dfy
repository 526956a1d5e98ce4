/** Making a directory: its first block with "." and "..", its inode, and the steps that bring both
    into the file system. */
module Ext2Mkdir {
  import opened DiskBytes
  import opened Ext2Layout
  import opened Ext2Trees
  import opened Ext2Alloc
  import opened Ext2Files
  import opened Ext2Writing
  import opened Ext2Volume
  import opened Ext2Free
  import opened Ext2Dirents
  import opened Ext2Dirs
  import opened Ext2Fs
  import opened Ext2Names
  import opened Ext2Paths

  const MODE_DIR: nat := 0x41FF
  const DOT: Name := [46]
  const DOTDOT: Name := [46, 46]
  const DOT_LEN: nat := 12

  // ---- the first block -----------------------------------------------------

  function DotBlock(bs: nat, ino: nat, parent: nat): (b: Block)
    requires 1024 <= bs < TWO16 && ino < TWO32 && parent < TWO32
    ensures |b| == bs
  {
    Record(ino, DOT_LEN, DOT, FT_DIR) + Record(parent, bs - DOT_LEN, DOTDOT, FT_DIR)
  }

  lemma DotBlockLists(bs: nat, ino: nat, parent: nat)
    requires 1024 <= bs < TWO16 && bs % 4 == 0 && 0 < ino < TWO32 && 0 < parent < TWO32
    ensures Tiled(DotBlock(bs, ino, parent), 0)
    ensures LiveFrom(DotBlock(bs, ino, parent), 0) == [Entry(ino, DOT, FT_DIR), Entry(parent, DOTDOT, FT_DIR)]
  {
    hide Record, Tiled, LiveFrom, EntryAt;
    var a, c, b := Record(ino, DOT_LEN, DOT, FT_DIR), Record(parent, bs - DOT_LEN, DOTDOT, FT_DIR),
        DotBlock(bs, ino, parent);
    assert NameOk(DOT) && NameOk(DOTDOT);
    RecordPlaced(b, 0, ino, DOT_LEN, DOT, FT_DIR);
    assert Splice(b, 0, a) == b;
    RecordPlaced(b, DOT_LEN, parent, bs - DOT_LEN, DOTDOT, FT_DIR);
    assert Splice(b, DOT_LEN, c) == b;
    TwoRecords(b, DOT_LEN);
  }

  /** A block of exactly two live records. */
  lemma TwoRecords(b: Block, m: nat)
    requires RecOk(b, 0) && RecLen(b, 0) == m && RecOk(b, m) && m + RecLen(b, m) == |b| && RecIno(b, 0) != 0
    requires RecIno(b, m) != 0
    ensures Tiled(b, 0) && LiveFrom(b, 0) == [EntryAt(b, 0), EntryAt(b, m)]
  {
    hide NameOk, EntryAt;
    assert Tiled(b, |b|) && Tiled(b, m) && Tiled(b, 0);
    assert LiveFrom(b, |b|) == [] && LiveFrom(b, m) == [EntryAt(b, m)] + []
        && LiveFrom(b, 0) == [EntryAt(b, 0)] + LiveFrom(b, m);
  }

  // ---- the inode -----------------------------------------------------------

  /** The inode ext2_mkdir writes, before its block is known. */
  function BareDir(g: Geom, now: nat): (n: Inode)
    requires GeomOk(g) && now < TWO32
  {
    Put32(Put32(Put32(Put32(Put32(Put16(Put16(Zeros(INODE_BYTES), OFF_MODE, MODE_DIR), OFF_LINKS, 2), OFF_SIZE, g.bs),
        OFF_BLOCKS, g.bs / 512), OFF_ATIME, now), OFF_CTIME, now), OFF_MTIME, now)
  }

  function NewDir(g: Geom, now: nat, b: nat): (n: Inode)
    requires GeomOk(g) && now < TWO32 && b < TWO32
  {
    SetPointer(BareDir(g, now), 0, b)
  }

  lemma BareDirFields(g: Geom, now: nat)
    requires GeomOk(g) && now < TWO32
    ensures IsDir(BareDir(g, now)) && !IsRegular(BareDir(g, now)) && Size(BareDir(g, now)) == g.bs
    ensures forall i {:trigger Pointer(BareDir(g, now), i)} :: 0 <= i < 15 ==> Pointer(BareDir(g, now), i) == 0
  {
    hide Bit, Put32;
    var z := Zeros(INODE_BYTES);
    var a := Put16(z, OFF_MODE, MODE_DIR);
    var b := Put16(a, OFF_LINKS, 2);
    var c := Put32(b, OFF_SIZE, g.bs);
    var e := Put32(c, OFF_BLOCKS, g.bs / 512);
    var f := Put32(e, OFF_ATIME, now);
    var h := Put32(f, OFF_CTIME, now);
    var n := Put32(h, OFF_MTIME, now);
    GetPut16(z, OFF_MODE, MODE_DIR);
    GetPut16(a, OFF_LINKS, 2);
    GetPut32(b, OFF_SIZE, g.bs);
    GetPut32(c, OFF_BLOCKS, g.bs / 512);
    GetPut32(e, OFF_ATIME, now);
    GetPut32(f, OFF_CTIME, now);
    GetPut32(h, OFF_MTIME, now);
    assert n == BareDir(g, now);
    assert n[0] == a[0] && n[1] == a[1];
    assert n[4] == c[4] && n[5] == c[5] && n[6] == c[6] && n[7] == c[7];
    assert forall q {:trigger n[q]} :: OFF_BLOCK <= q < INODE_BYTES ==> n[q] == 0;
    DirModeBits();
    assert Get16(n, OFF_MODE) == MODE_DIR;
  }

  lemma DirModeBits()
    ensures Bit(MODE_DIR, IFDIR) && !Bit(MODE_DIR, IFREG)
  {
    assert Bit(1, 0) && Bit(2, 1) && Bit(4, 2) && Bit(8, 3) && Bit(16, 4) && Bit(32, 5) && Bit(65, 6) && Bit(131, 7);
    assert Bit(263, 8) && Bit(527, 9) && Bit(1055, 10) && Bit(2111, 11) && Bit(4223, 12) && Bit(8447, 13)
        && Bit(16895, 14);
    assert !Bit(0, 0) && !Bit(1, 1) && !Bit(2, 2) && !Bit(4, 3) && !Bit(8, 4) && !Bit(16, 5) && !Bit(32, 6)
        && !Bit(65, 7);
    assert !Bit(131, 8) && !Bit(263, 9) && !Bit(527, 10) && !Bit(1055, 11) && !Bit(2111, 12) && !Bit(4223, 13)
        && !Bit(8447, 14) && !Bit(16895, 15);
  }

  lemma NewDirFields(g: Geom, now: nat, b: nat)
    requires GeomOk(g) && now < TWO32 && b < TWO32
    ensures var n := NewDir(g, now, b);
            IsDir(n) && !IsRegular(n) && Size(n) == g.bs && DirBlocks(g, n) == 1 && forall i {:trigger Pointer(n, i)} ::
                0 <= i < 15 ==> Pointer(n, i) == if i == 0 then b else 0
  {
    hide Bit, BareDir, Put32;
    var o := BareDir(g, now);
    BareDirFields(g, now);
    GetPut32(o, OFF_BLOCK, b);
    var n := NewDir(g, now, b);
    assert n[0] == o[0] && n[1] == o[1] && n[4] == o[4] && n[5] == o[5] && n[6] == o[6] && n[7] == o[7];
    forall i | 0 <= i < 15 ensures Pointer(n, i) == if i == 0 then b else 0 { PointerAfterSet(o, 0, b, i); }
    QuotientExact(1, g.bs);
  }

  /** A directory of one block that holds "." and "..". */
  lemma NewDirOk(g: Geom, d: Disk, now: nat, b: nat, ino: nat, parent: nat)
    requires DiskOk(g, d) && now < TWO32 && 0 < b < |d| && b < TWO32 && 0 < ino < TWO32 && 0 < parent < TWO32
    requires d[b] == DotBlock(g.bs, ino, parent)
    ensures DirOk(g, d, NewDir(g, now, b))
    ensures Entries(g, d, NewDir(g, now, b)) == [Entry(ino, DOT, FT_DIR), Entry(parent, DOTDOT, FT_DIR)]
  {
    hide Bit, NewDir, DotBlock, Tiled, LiveFrom, Get32;
    var n := NewDir(g, now, b);
    NewDirFields(g, now, b);
    DotBlockLists(g.bs, ino, parent);
    assert DirBlockOk(d, n, 0);
    assert DirPrefix(d, n, 1) && DirPrefix(d, n, 0);
    ListingUnfold(d, n, 1);
    var es := [Entry(ino, DOT, FT_DIR), Entry(parent, DOTDOT, FT_DIR)];
    assert Listing(d, n, 1) == [] + es;
    assert |DOT| != |DOTDOT|;
  }

  // ---- into the file system ------------------------------------------------

  /** The new directory exists, before it has a name: one inode and one block more. */
  ghost predicate UnnamedDir(g: Geom, v0: Vol, v: Vol, nodes: Nodes, ino: nat, parent: nat, now: nat, b: nat) {
    && Rest(g, v0, nodes) && ino !in nodes && InoOk(g, ino) && now < TWO32 && 0 < b < TWO32
    && Rest(g, v, nodes[ino := NewDir(g, now, b)]) && SameFiles(v0.d, v.d, nodes) && BitsPlus(g, v0.d, v.d, b)
    && DirOk(g, v.d, NewDir(g, now, b))
    && Bindings(Entries(g, v.d, NewDir(g, now, b))) == map[DOT := ino, DOTDOT := parent]
  }

  /** An inode without blocks joins the trees. */
  lemma BareTrees(g: Geom, d: Disk, nodes: Nodes, ino: nat, n: Inode)
    requires DiskOk(g, d) && Trees(g, d, nodes) && ino !in nodes && forall i {:trigger Pointer(n, i)} ::
              0 <= i < 15 ==> Pointer(n, i) == 0
    ensures Trees(g, d, nodes[ino := n])
  {
    hide Marked, TableEnd, At, Pointer;
    var m := nodes[ino := n];
    forall i, s | i in m ensures SlotGood(g, d, m[i], s) {
      EmptyNode(d, n, s);
      if i != ino { assert SlotGood(g, d, nodes[i], s); }
    }
    forall i, s, j, t | i in m && j in m ensures Apart(d, i, m[i], s, j, m[j], t) {
      EmptyNode(d, n, s);
      EmptyNode(d, n, t);
      if i != ino && j != ino { assert Apart(d, i, nodes[i], s, j, nodes[j], t); }
    }
  }

  /** The inode with its fresh first block joins the file system. */
  lemma DirJoins(g: Geom, v: Vol, nodes: Nodes, ino: nat, parent: nat, now: nat, b: nat)
    requires Fs(g, v, nodes) && ino !in nodes && now < TWO32 && 0 < ino < TWO32 && 0 < parent < TWO32
    requires Fresh(g, v.d, nodes, b)
    requires v.d[b] == DotBlock(g.bs, ino, parent)
    ensures b < TWO32 && Fs(g, v, nodes[ino := NewDir(g, now, b)]) && DirOk(g, v.d, NewDir(g, now, b))
    ensures Bindings(Entries(g, v.d, NewDir(g, now, b))) == map[DOT := ino, DOTDOT := parent]
  {
    hide Marked, TableEnd, Counted, MetaMarked, At, DotBlock, BareDir, Bit, Trees;
    var o, n := BareDir(g, now), NewDir(g, now, b);
    BareDirFields(g, now);
    BareTrees(g, v.d, nodes, ino, o);
    var m := nodes[ino := o];
    assert Unreached(v.d, m, b) by {
      forall i, s | i in m
        ensures At(v.d, m[i], s) != b
      {
        if i == ino { EmptyNode(v.d, o, s); } else { assert At(v.d, nodes[i], s) != b; }
      }
    }
    HangTop(g, v.d, m, ino, 0, b);
    assert m[ino := n] == nodes[ino := n];
    NewDirFields(g, now, b);
    NewDirOk(g, v.d, now, b, ino, parent);
    TwoBindings(ino, parent);
    var m' := nodes[ino := n];
    forall i | i in m' ensures DirNode(g, v.d, m'[i]) { if i != ino { assert DirNode(g, v.d, nodes[i]); } }
  }

  lemma TwoBindings(ino: nat, parent: nat)
    ensures Bindings([Entry(ino, DOT, FT_DIR), Entry(parent, DOTDOT, FT_DIR)]) == map[DOT := ino, DOTDOT := parent]
  {
    var es := [Entry(ino, DOT, FT_DIR), Entry(parent, DOTDOT, FT_DIR)];
    assert |DOT| != |DOTDOT|;
    assert es[0].name == DOT && es[1].name == DOTDOT && es[1..] == [es[1]];
    assert Find(es, DOT) == ino && Find(es, DOTDOT) == parent;
  }

  /** The volume once the bit is taken, the block filled and the inode written. */
  function DirMade(g: Geom, v: Vol, ino: nat, parent: nat, now: nat, b: nat): (w: Vol)
    requires DiskOk(g, v.d) && |v.sb| == SB_BYTES && InoOk(g, ino) && InRange(g, b) && ino < TWO32 && parent < TWO32
    requires now < TWO32
  {
    TakeShape(g, v, Inodes, ino - 1);
    var t := Take(g, v, Inodes, ino - 1);
    NewBlockShape(g, t, b);
    var w := NewBlock(g, t, b);
    w.(d := WithInode(g, w.d[b := DotBlock(g.bs, ino, parent)], ino, NewDir(g, now, b)))
  }

  lemma DirMadeStep(g: Geom, v: Vol, nodes: Nodes, ino: nat, parent: nat, now: nat, b: nat)
    requires Rest(g, v, nodes) && InoOk(g, ino) && !Live(g, v.d, ino) && now < TWO32 && InRange(g, b)
    requires 0 < parent < TWO32
    requires DiskOk(g, Take(g, v, Inodes, ino - 1).d) && FreeData(g, Take(g, v, Inodes, ino - 1).d, b)
    ensures ino < TWO32 && 0 < b < TWO32
    ensures UnnamedDir(g, v, DirMade(g, v, ino, parent, now, b), nodes, ino, parent, now, b)
  {
    hide Marked, TableEnd, Counted, MetaMarked, Trees, DirsOk, SameFile, InodeAt, Take, WithInode, NewDir, DotBlock,
         NewBlock, Tabled, SameFiles, DirOk, Bindings, BitsPlus, Fresh, Live;
    var t := Take(g, v, Inodes, ino - 1);
    InodeTaken(g, v, nodes, ino);
    NotIn(g, v, nodes, ino);
    NewBlockFs(g, t, nodes, b);
    var v2 := NewBlock(g, t, b);
    FreshNumber(g, t, b);
    FreshWrite(g, v2, nodes, b, DotBlock(g.bs, ino, parent));
    var v3 := v2.(d := v2.d[b := DotBlock(g.bs, ino, parent)]);
    DirJoins(g, v3, nodes, ino, parent, now, b);
    MadeTable(g, t, nodes, b, DotBlock(g.bs, ino, parent));
    var n := NewDir(g, now, b);
    var m := nodes[ino := n];
    InodeStore(g, v3, m, ino, n);
    TabledStore(g, v3, nodes, ino, n);
    var w := v3.(d := WithInode(g, v3.d, ino, n));
    assert w == DirMade(g, v, ino, parent, now, b);
    MadeSame(v.d, t.d, v2.d, v3.d, w.d, nodes, ino, n);
    assert m[ino] == n;
    MadeEntries(g, v3.d, w.d, m, ino);
    MadeLive(g, v, t, w, nodes, ino, n);
    MadeBits(g, v, t, w, b);
  }

  lemma NotIn(g: Geom, v: Vol, nodes: Nodes, ino: nat)
    requires Rest(g, v, nodes) && InoOk(g, ino) && !Live(g, v.d, ino)
    ensures ino !in nodes && 0 < ino < TWO32
  {
    hide Counted, MetaMarked, Trees, DirsOk, Tabled, Marked;
  }

  lemma FreshNumber(g: Geom, v: Vol, b: nat)
    requires VolOk(g, v) && FreeData(g, v.d, b)
    ensures 0 < b < TWO32
  {
    if b == 0 { assert Meta(g, b); }
  }

  lemma MadeTable(g: Geom, t: Vol, nodes: Nodes, b: nat, bytes: Block)
    requires VolOk(g, t) && Tabled(g, t.d, nodes) && FreeData(g, t.d, b) && |bytes| == g.bs
    ensures var d := NewBlock(g, t, b).d[b := bytes];
            DiskOk(g, d) && Tabled(g, d, nodes) && d[g.ibm] == t.d[g.ibm] && d[g.bbm] == NewBlock(g, t, b).d[g.bbm]
  {
    hide Marked, TableEnd, Counted, NewBlock, InodeAt;
    NewBlockVol(g, t, b);
    var u := NewBlock(g, t, b);
    var d := u.d[b := bytes];
    assert d[g.bgdBlock] == u.d[g.bgdBlock];
    forall c | g.itab <= c < TableEnd(g) ensures d[c] == t.d[c] { assert u.d[c] == t.d[c]; }
    TabledKept(g, t.d, d, nodes);
  }

  lemma MadeSame(a: Disk, b: Disk, c: Disk, e: Disk, f: Disk, nodes: Nodes, ino: nat, n: Inode)
    requires SameFiles(a, b, nodes) && SameFiles(b, c, nodes) && SameFiles(c, e, nodes)
    requires SameFiles(e, f, nodes[ino := n]) && ino !in nodes
    ensures SameFiles(a, f, nodes)
  {
    hide SameFile;
    AllSame(a, b, c, nodes);
    AllSame(a, c, e, nodes);
    forall i | i in nodes ensures SameFile(e, f, nodes[i]) { assert nodes[ino := n][i] == nodes[i]; }
    AllSame(a, e, f, nodes);
  }

  lemma MadeEntries(g: Geom, d: Disk, d': Disk, m: Nodes, ino: nat)
    requires g.bs > 0 && ino in m && SameFiles(d, d', m) && DirOk(g, d, m[ino])
    ensures DirOk(g, d', m[ino]) && Entries(g, d', m[ino]) == Entries(g, d, m[ino])
  {
    hide SameFile, DirOk;
    DirSame(g, d, d', m[ino]);
  }

  lemma MadeLive(g: Geom, v: Vol, t: Vol, w: Vol, nodes: Nodes, ino: nat, n: Inode)
    requires DiskOk(g, v.d) && DiskOk(g, t.d) && DiskOk(g, w.d) && LiveSet(g, v.d, nodes) && w.d[g.ibm] == t.d[g.ibm]
    requires forall i: nat {:trigger Live(g, t.d, i)} :: Live(g, t.d, i) <==> i == ino || Live(g, v.d, i)
    ensures LiveSet(g, w.d, nodes[ino := n])
  {
    hide Marked, TableEnd;
    forall i: nat ensures Live(g, w.d, i) <==> i in nodes[ino := n] { assert Live(g, w.d, i) <==> Live(g, t.d, i); }
  }

  lemma MadeBits(g: Geom, v: Vol, t: Vol, w: Vol, b: nat)
    requires VolOk(g, v) && VolOk(g, t) && DiskOk(g, w.d) && FreeData(g, t.d, b) && t.d[g.bbm] == v.d[g.bbm]
    requires w.d[g.bbm] == NewBlock(g, t, b).d[g.bbm]
    ensures BitsPlus(g, v.d, w.d, b)
  {
    hide Marked, TableEnd, NewBlock;
    BitsAfterNew(g, t, b, w.d);
    forall x | InRange(g, x)
      ensures Used(g, w.d, x) <==> Used(g, v.d, x) || (b != 0 && x == b)
    {
      UsedSame(g, v.d, t.d, x); FreshNumber(g, t, b);
    }
    UsedSame(g, v.d, t.d, b);
  }

  // ---- the directory gets its name -----------------------------------------

  /** One more link, as a 16-bit counter. */
  function Linked(n: Inode): (m: Inode) { Put16(n, OFF_LINKS, (Get16(n, OFF_LINKS) + 1) % TWO16) }

  /** A directory is its pointers, its size and its blocks. */
  lemma DirRenamed(g: Geom, d: Disk, n: Inode, m: Inode)
    requires g.bs > 0 && DirOk(g, d, n) && SamePointers(n, m) && Size(m) == Size(n)
    ensures DirOk(g, d, m) && Entries(g, d, m) == Entries(g, d, n)
  {
    hide Unique, Tiled, LiveFrom, Get32, SamePointers, Size;
    forall i: nat | i < 14 ensures Pointer(m, i) == Pointer(n, i) { PointersSame(n, m, i); }
    forall i | 0 <= i < DirBlocks(g, n) ensures BlockSame(d, d, n, m, i) { assert DirBlockOk(d, n, i); }
    ListingSame(d, d, n, m, DirBlocks(g, n));
  }

  lemma PointersSame(n: Inode, m: Inode, i: nat)
    requires SamePointers(n, m) && i < 15
    ensures Pointer(m, i) == Pointer(n, i)
  {
    assert forall q :: 0 <= q < 88 ==> n[OFF_BLOCK..][q] == m[OFF_BLOCK..][q];
    assert forall q :: OFF_BLOCK <= q < 128 ==>
        n[q] == n[OFF_BLOCK..][q - OFF_BLOCK] && m[q] == m[OFF_BLOCK..][q - OFF_BLOCK];
  }

  /** A directory's link count is written back. */
  lemma RelinkStep(g: Geom, v: Vol, nodes: Nodes, p: nat, n: Inode)
    requires Fs(g, v, nodes) && Tabled(g, v.d, nodes) && p in nodes && IsDir(nodes[p]) && Relinked(nodes[p], n)
    ensures InoOk(g, p) && DirOk(g, v.d, nodes[p])
    ensures var w := v.(d := WithInode(g, v.d, p, n));
            && Fs(g, w, nodes[p := n]) && Tabled(g, w.d, nodes[p := n]) && SameFiles(v.d, w.d, nodes) && IsDir(n)
            && w.d[g.bbm] == v.d[g.bbm] && w.d[g.ibm] == v.d[g.ibm] && DirOk(g, w.d, n)
            && Entries(g, w.d, n) == Entries(g, v.d, nodes[p])
  {
    hide Marked, TableEnd, Counted, MetaMarked, Trees, DirsOk, SameFile, InodeAt, WithInode, DirOk, IsDir, IsRegular,
         SamePointers, Tabled, At;
    InTable(g, v.d, nodes, p);
    FsDir(g, v, nodes, p);
    DirRenamed(g, v.d, nodes[p], n);
    RenamedTrees(g, v.d, nodes, p, n);
    var m := nodes[p := n];
    assert DirsOk(g, v.d, m) by { RelinkDirs(g, v.d, nodes, p, n); }
    InodeStore(g, v, m, p, n);
    InodeStore(g, v, nodes, p, n);
    TabledStore(g, v, nodes, p, n);
    var w := v.(d := WithInode(g, v.d, p, n));
    assert m[p] == n && SameFile(v.d, w.d, m[p]);
    DirSame(g, v.d, w.d, n);
  }

  lemma RelinkDirs(g: Geom, d: Disk, nodes: Nodes, p: nat, n: Inode)
    requires g.bs > 0 && DirsOk(g, d, nodes) && DirOk(g, d, n) && !IsRegular(n)
    ensures DirsOk(g, d, nodes[p := n])
  {
    hide DirOk, IsDir, IsRegular;
    var m := nodes[p := n];
    forall i | i in m ensures DirNode(g, d, m[i]) { if i != p { assert DirNode(g, d, nodes[i]); } }
  }

  /** bgd_adjust_dir_count: a 16-bit counter that wraps upward and stops at 0. */
  function Adjusted(c: nat, up: bool): nat { if up then (c + 1) % TWO16 else if c > 0 then c - 1 else 0 }

  function WithDirCount(g: Geom, v: Vol, x: nat): (w: Vol)
    requires DiskOk(g, v.d) && x < TWO16
  {
    v.(d := v.d[g.bgdBlock := Put16(v.d[g.bgdBlock], BGD_DIRS, x)])
  }

  lemma CountShape(g: Geom, v: Vol, x: nat)
    requires DiskOk(g, v.d) && x < TWO16
    ensures DiskOk(g, WithDirCount(g, v, x).d)
  {
    hide TableEnd;
    GetPut16(v.d[g.bgdBlock], BGD_DIRS, x);
    var b, c := v.d[g.bgdBlock], WithDirCount(g, v, x).d[g.bgdBlock];
    assert forall q :: 0 <= q < 16 ==> c[q] == b[q];
  }

  lemma CountFs(g: Geom, v: Vol, nodes: Nodes, x: nat)
    requires Fs(g, v, nodes) && Tabled(g, v.d, nodes) && x < TWO16
    ensures var w := WithDirCount(g, v, x);
            && Fs(g, w, nodes) && SameFiles(v.d, w.d, nodes) && Tabled(g, w.d, nodes) && w.d[g.bbm] == v.d[g.bbm]
            && w.d[g.ibm] == v.d[g.ibm]
            && DirCount(g, w.d) == x
  {
    hide Marked, TableEnd, Clear, Trees, DirsOk, SameFile, InodeAt;
    var w := WithDirCount(g, v, x);
    GetPut16(v.d[g.bgdBlock], BGD_DIRS, x);
    assert w.d[g.bbm] == v.d[g.bbm] && w.d[g.ibm] == v.d[g.ibm];
    CountersKept(g, v, w, x);
    MetaWrite(g, v, w, nodes);
    TabledSame(g, v.d, w.d, nodes);
  }

  lemma CountersKept(g: Geom, v: Vol, w: Vol, x: nat)
    requires VolOk(g, v) && Counted(g, v) && x < TWO16 && w == WithDirCount(g, v, x) && w.d[g.bbm] == v.d[g.bbm]
    requires w.d[g.ibm] == v.d[g.ibm]
    ensures VolOk(g, w) && Counted(g, w)
  {
    hide Marked, TableEnd, Clear;
    GetPut16(v.d[g.bgdBlock], BGD_DIRS, x);
    var b, c := v.d[g.bgdBlock], w.d[g.bgdBlock];
    assert forall q :: 0 <= q < 16 ==> c[q] == b[q];
  }

  /** The end of ext2_mkdir and of ext2_unlink on a directory: the parent's inode, the directory
      count, the superblock. */
  function Completed(g: Geom, v: Vol, p: nat, n: Inode, x: nat): (w: Vol)
    requires DiskOk(g, v.d) && |v.sb| == SB_BYTES && InoOk(g, p) && x < TWO16
  {
    WithShape(g, v.d, p, n);
    var a := v.(d := WithInode(g, v.d, p, n));
    CountShape(g, a, x);
    Synced(g, WithDirCount(g, a, x))
  }

  ghost predicate SameButLinks(g: Geom, v: Vol, w: Vol, nodes: Nodes, p: nat, n: Inode) {
    && Fs(g, w, nodes[p := n]) && Tabled(g, w.d, nodes[p := n]) && SameFiles(v.d, w.d, nodes) && DiskOk(g, v.d)
    && w.d[g.bbm] == v.d[g.bbm] && w.d[g.ibm] == v.d[g.ibm]
  }

  lemma CompletedStep(g: Geom, v: Vol, nodes: Nodes, p: nat, n: Inode, x: nat)
    requires Fs(g, v, nodes) && Tabled(g, v.d, nodes) && p in nodes && IsDir(nodes[p]) && Relinked(nodes[p], n)
    requires x < TWO16
    ensures InoOk(g, p) && DirOk(g, v.d, nodes[p])
    ensures var w := Completed(g, v, p, n, x);
            && SameButLinks(g, v, w, nodes, p, n) && IsDir(n) && DirOk(g, w.d, n)
            && Entries(g, w.d, n) == Entries(g, v.d, nodes[p])
            && DirCount(g, w.d) == x
  {
    hide Marked, TableEnd, Counted, MetaMarked, Trees, DirsOk, SameFile, InodeAt, WithInode, DirOk, IsDir, IsRegular,
         Tabled, At, WithDirCount, Synced, DirCount, SameFiles, SamePointers, Size;
    RelinkStep(g, v, nodes, p, n);
    var m, v1 := nodes[p := n], v.(d := WithInode(g, v.d, p, n));
    CountFs(g, v1, m, x);
    var v2 := WithDirCount(g, v1, x);
    SyncedFs(g, v2, m);
    var w := Synced(g, v2);
    assert w == Completed(g, v, p, n, x);
    SyncCount(g, v2);
    CompletedSame(v.d, v1.d, v2.d, w.d, nodes, p, n);
    AllSame(v1.d, v2.d, w.d, m);
    SameOne(v1.d, w.d, m, p);
    DirSame(g, v1.d, w.d, n);
  }

  lemma SameOne(d: Disk, d': Disk, m: Nodes, p: nat)
    requires SameFiles(d, d', m) && p in m
    ensures SameFile(d, d', m[p])
  {
  }

  lemma StoreCount(g: Geom, d: Disk, p: nat, n: Inode)
    requires DiskOk(g, d) && InoOk(g, p) && DiskOk(g, WithInode(g, d, p, n))
    ensures DirCount(g, WithInode(g, d, p, n)) == DirCount(g, d)
  {
    hide InoOff, TableEnd;
  }

  lemma SyncCount(g: Geom, v: Vol)
    requires DiskOk(g, v.d) && |v.sb| == SB_BYTES && DiskOk(g, Synced(g, v).d)
    ensures DirCount(g, Synced(g, v).d) == DirCount(g, v.d)
  {
    hide Splice, SbAt, TableEnd;
  }

  /** Same blocks under the old inode of `p` too. */
  lemma CompletedSame(a: Disk, b: Disk, c: Disk, e: Disk, nodes: Nodes, p: nat, n: Inode)
    requires SameFiles(a, b, nodes) && SameFiles(b, c, nodes[p := n]) && SameFiles(c, e, nodes[p := n]) && p in nodes
    requires SamePointers(nodes[p], n)
    ensures SameFiles(a, e, nodes)
  {
    hide SameFile, SamePointers, At;
    var m := nodes[p := n];
    AllSame(b, c, e, m);
    forall i | i in nodes ensures SameFile(b, e, nodes[i]) {
      assert SameFile(b, e, m[i]);
      if i == p { SameFileRenamed(b, e, n, nodes[p]); }
    }
    AllSame(a, b, e, nodes);
  }

  /** The block bitmap gained exactly the two blocks; `pb` may be 0 for none. */
  ghost predicate BitsPlusTwo(g: Geom, d0: Disk, d: Disk, b: nat, pb: nat)
    requires DiskOk(g, d0) && DiskOk(g, d)
  {
    && b != 0 && b != pb && InRange(g, b) && !Used(g, d0, b) && (pb != 0 ==> InRange(g, pb) && !Used(g, d0, pb))
    && forall x {:trigger Used(g, d, x)} ::
         InRange(g, x) ==> (Used(g, d, x) <==> Used(g, d0, x) || x == b || (pb != 0 && x == pb))
  }

  /** Directory `p` gained exactly the binding `name -> ino` and one link; `ino` is a new directory
      that binds "." to itself and ".." to `p`; everything else is as it was. */
  ghost predicate MadeDir(g: Geom, v0: Vol, v: Vol, nodes: Nodes, p: nat, p': Inode, name: Name, ino: nat, now: nat,
      b: nat, pb: nat)
  {
    && Rest(g, v0, nodes) && p in nodes && ino !in nodes && InoOk(g, ino) && now < TWO32 && 0 < b < TWO32
    && Rest(g, v, nodes[ino := NewDir(g, now, b)][p := p'])
    && IsDir(nodes[p]) && DirOk(g, v0.d, nodes[p]) && IsDir(p') && DirOk(g, v.d, p')
    && Links(p') == (Links(nodes[p]) + 1) % TWO16
    && name !in Bindings(Entries(g, v0.d, nodes[p]))
    && Bindings(Entries(g, v.d, p')) == Bindings(Entries(g, v0.d, nodes[p]))[name := ino]
    && DirOk(g, v.d, NewDir(g, now, b)) && Bindings(Entries(g, v.d, NewDir(g, now, b))) == map[DOT := ino, DOTDOT := p]
    && Others(v0.d, v.d, nodes, p) && BitsPlusTwo(g, v0.d, v.d, b, pb)
  }

  lemma MadeDirStep(g: Geom, v0: Vol, v1: Vol, v2: Vol, nodes: Nodes, p: nat, p': Inode, name: Name, ino: nat, now: nat,
      b: nat, pb: nat, x: nat)
    requires UnnamedDir(g, v0, v1, nodes, ino, p, now, b) && p in nodes
    requires Added(g, v1, v2, nodes[ino := NewDir(g, now, b)], p, p', name, ino, pb) && x < TWO16
    ensures InoOk(g, p)
    ensures MadeDir(g, v0, Completed(g, v2, p, Linked(p'), x), nodes, p, Linked(p'), name, ino, now, b, pb)
    ensures DirCount(g, Completed(g, v2, p, Linked(p'), x).d) == x
  {
    hide Marked, TableEnd, Counted, MetaMarked, Trees, DirsOk, SameFile, InodeAt, NewDir, IsDir, Tabled, Bindings,
         DirOk, Used, Live, OnlyGrew, Completed, Linked, WithInode, DirCount, BitsPlusTwo, BitsPlus, At, Relinked;
    var m := nodes[ino := NewDir(g, now, b)];
    var m' := m[p := p'];
    assert m[p] == nodes[p];
    var n := Linked(p');
    MadeDirLinks(nodes[p], p');
    CompletedStep(g, v2, m', p, n, x);
    var w := Completed(g, v2, p, n, x);
    assert m'[p := n] == m[p := n];
    MadeDirLive(g, v1, v2, w, m, p, n);
    SameOne(v0.d, v1.d, nodes, p);
    FsDir(g, v0, nodes, p);
    DirSame(g, v0.d, v1.d, nodes[p]);
    MadeDirOthers(v0.d, v1.d, v2.d, w.d, nodes, m, p, p', ino);
    assert m[ino] == NewDir(g, now, b);
    MadeDirChild(g, v1.d, v2.d, w.d, m, p, p', ino);
    MadeDirBits(g, v0.d, v1.d, v2.d, w.d, b, pb);
  }

  lemma MadeDirLive(g: Geom, v1: Vol, v2: Vol, w: Vol, m: Nodes, p: nat, n: Inode)
    requires DiskOk(g, v1.d) && DiskOk(g, v2.d) && DiskOk(g, w.d) && LiveSet(g, v1.d, m) && p in m
    requires v2.d[g.ibm] == v1.d[g.ibm] && w.d[g.ibm] == v2.d[g.ibm]
    ensures LiveSet(g, w.d, m[p := n])
  {
    hide Marked, TableEnd, Live, DiskOk;
    LiveKept(g, v1.d, w.d, m);
    forall i: nat ensures Live(g, w.d, i) <==> i in m[p := n] {}
  }

  lemma MadeDirOthers(a: Disk, b: Disk, c: Disk, e: Disk, nodes: Nodes, m: Nodes, p: nat, p': Inode, ino: nat)
    requires ino !in nodes && ino in m && m == nodes[ino := m[ino]] && SameFiles(a, b, nodes) && Others(b, c, m, p)
    requires SameFiles(c, e, m[p := p'])
    ensures Others(a, e, nodes, p)
  {
    hide SameFile;
    forall j | j in nodes && j != p ensures SameFile(a, e, nodes[j]) {
      assert m[j] == nodes[j] && m[p := p'][j] == nodes[j];
      SameFileTrans(a, b, c, nodes[j]);
      SameFileTrans(a, c, e, nodes[j]);
    }
  }

  lemma MadeDirChild(g: Geom, b: Disk, c: Disk, e: Disk, m: Nodes, p: nat, p': Inode, ino: nat)
    requires g.bs > 0 && ino in m && ino != p && Others(b, c, m, p) && SameFiles(c, e, m[p := p'])
    requires DirOk(g, b, m[ino])
    ensures DirOk(g, e, m[ino]) && Entries(g, e, m[ino]) == Entries(g, b, m[ino])
  {
    hide SameFile, DirOk;
    assert m[p := p'][ino] == m[ino];
    SameFileTrans(b, c, e, m[ino]);
    DirSame(g, b, e, m[ino]);
  }

  lemma MadeDirLinks(n: Inode, p': Inode)
    requires OnlyGrew(n, p')
    ensures Relinked(p', Linked(p')) && Links(Linked(p')) == (Links(n) + 1) % TWO16
  {
    hide Bit, Relinked;
    LinksSet(p', (Links(p') + 1) % TWO16);
    assert p'[26] == n[26] && p'[27] == n[27];
  }

  lemma MadeDirBits(g: Geom, a: Disk, b: Disk, c: Disk, e: Disk, x: nat, pb: nat)
    requires DiskOk(g, a) && DiskOk(g, b) && DiskOk(g, c) && DiskOk(g, e) && x != 0 && BitsPlus(g, a, b, x)
    requires BitsPlus(g, b, c, pb) && e[g.bbm] == c[g.bbm]
    ensures BitsPlusTwo(g, a, e, x, pb)
  {
    hide Marked, DiskOk;
    assert Used(g, b, x);
    if pb != 0 { assert !Used(g, b, pb); }
    forall y | InRange(g, y)
      ensures Used(g, e, y) <==> Used(g, a, y) || y == x || (pb != 0 && y == pb)
    {
      UsedSame(g, c, e, y);
    }
  }

  // ---- undoing -------------------------------------------------------------

  /** No block left: the inode bit is given back. */
  lemma UntakenStep(g: Geom, v: Vol, nodes: Nodes, ino: nat)
    requires Rest(g, v, nodes) && InoOk(g, ino) && !Live(g, v.d, ino)
    ensures DiskOk(g, Take(g, v, Inodes, ino - 1).d)
    ensures Unchanged(g, v, Give(g, Take(g, v, Inodes, ino - 1), Inodes, ino - 1), nodes)
  {
    hide Marked, TableEnd, Counted, MetaMarked, Trees, DirsOk, SameFile, InodeAt, Give, Take;
    var t := Take(g, v, Inodes, ino - 1);
    InodeTaken(g, v, nodes, ino);
    InodeGiven(g, t, nodes, ino);
    var w := Give(g, t, Inodes, ino - 1);
    AllSame(v.d, t.d, w.d, nodes);
    SameBits(g, v.d, w.d);
    forall i: nat ensures Live(g, w.d, i) <==> i in nodes { assert Live(g, t.d, i) <==> i == ino || Live(g, v.d, i); }
  }

  /** No room in the parent: the block and the inode are given back. */
  lemma UnmadeStep(g: Geom, v0: Vol, v1: Vol, v2: Vol, nodes: Nodes, ino: nat, parent: nat, now: nat, b: nat)
    requires UnnamedDir(g, v0, v1, nodes, ino, parent, now, b) && Released(g, v1, v2, NewDir(g, now, b), AllSlots(g))
    ensures Unchanged(g, v0, Give(g, v2, Inodes, ino - 1), nodes)
  {
    hide Marked, TableEnd, Counted, MetaMarked, Trees, DirsOk, SameFile, InodeAt, Give, NewDir, AllSlots, At,
         ReleasedBit, DirOk, Bindings, Live, Reaches;
    var n := NewDir(g, now, b);
    var m, w := nodes[ino := n], Give(g, v2, Inodes, ino - 1);
    assert m[ino] == n && m - {ino} == nodes;
    NodeDrop(g, v1, v2, m, ino);
    FewerTabled(g, v1.d, m, ino);
    TabledSame(g, v1.d, v2.d, nodes);
    InodeGiven(g, v2, nodes, ino);
    AllSame(v0.d, v1.d, v2.d, nodes);
    AllSame(v0.d, v2.d, w.d, nodes);
    UnmadeLive(g, v1.d, v2.d, w.d, nodes, m, ino);
    forall x | InRange(g, x) ensures Used(g, w.d, x) <==> Used(g, v0.d, x) || (0 != 0 && x == 0) {
      UsedSame(g, v2.d, w.d, x);
      if x != 0 { NewDirReaches(g, v1.d, now, b, x); }
    }
  }

  lemma UnmadeLive(g: Geom, a: Disk, b: Disk, c: Disk, nodes: Nodes, m: Nodes, ino: nat)
    requires DiskOk(g, a) && DiskOk(g, b) && DiskOk(g, c) && LiveSet(g, a, m) && b[g.ibm] == a[g.ibm] && ino in m
    requires m - {ino} == nodes
    requires forall i: nat {:trigger Live(g, c, i)} :: Live(g, c, i) <==> i != ino && Live(g, b, i)
    ensures LiveSet(g, c, nodes)
  {
    hide Marked, TableEnd, Live, DiskOk;
    LiveKept(g, a, b, m);
    forall i: nat ensures Live(g, c, i) <==> i in nodes { assert Live(g, b, i) <==> i in m; }
  }

  lemma NewDirReaches(g: Geom, d: Disk, now: nat, b: nat, x: nat)
    requires DiskOk(g, d) && now < TWO32 && 0 < b < TWO32 && x != 0
    ensures Reaches(d, NewDir(g, now, b), x) <==> x == b
  {
    hide NewDir, Bit;
    var n := NewDir(g, now, b);
    NewDirFields(g, now, b);
    assert At(d, n, Direct(0)) == b;
    if Reaches(d, n, x) { var s :| At(d, n, s) == x; }
  }

  // ---- the directory count -------------------------------------------------

  lemma NewBlockCount(g: Geom, v: Vol, b: nat)
    requires VolOk(g, v) && FreeData(g, v.d, b)
    ensures DiskOk(g, NewBlock(g, v, b).d) && DirCount(g, NewBlock(g, v, b).d) == DirCount(g, v.d)
  {
    hide TableEnd, Take, Marked;
    NewBlockVol(g, v, b);
    TakeShape(g, v, Blocks, b - g.first);
    TakeCount(g, v, Blocks, b - g.first);
  }

  /** Neither a data block nor an inode holds the descriptor. */
  lemma DataCount(g: Geom, d: Disk, b: nat, bytes: Block)
    requires DiskOk(g, d) && b < |d| && !Meta(g, b) && DiskOk(g, d[b := bytes])
    ensures DirCount(g, d[b := bytes]) == DirCount(g, d)
  {
  }

  lemma GrowCount(g: Geom, v: Vol, b: nat, bytes: Block, p: nat, n: Inode)
    requires VolOk(g, v) && FreeData(g, v.d, b) && |bytes| == g.bs && InoOk(g, p)
    ensures var d := NewBlock(g, v, b).d[b := bytes];
            DiskOk(g, d) && DiskOk(g, WithInode(g, d, p, n)) && DirCount(g, WithInode(g, d, p, n)) == DirCount(g, v.d)
  {
    hide TableEnd, NewBlock, WithInode, Marked, DirCount;
    NewBlockCount(g, v, b);
    var e := NewBlock(g, v, b).d;
    var d := e[b := bytes];
    assert d[g.bgdBlock] == e[g.bgdBlock];
    DataCount(g, e, b, bytes);
    WithShape(g, d, p, n);
    StoreCount(g, d, p, n);
  }

  lemma MadeCount(g: Geom, v: Vol, ino: nat, parent: nat, now: nat, b: nat)
    requires VolOk(g, v) && InoOk(g, ino) && InRange(g, b) && ino < TWO32 && parent < TWO32 && now < TWO32 && b < TWO32
    requires VolOk(g, Take(g, v, Inodes, ino - 1)) && FreeData(g, Take(g, v, Inodes, ino - 1).d, b)
    ensures DiskOk(g, DirMade(g, v, ino, parent, now, b).d)
    ensures DirCount(g, DirMade(g, v, ino, parent, now, b).d) == DirCount(g, v.d)
  {
    hide TableEnd, NewBlock, WithInode, Marked, DirCount, Take, DotBlock, NewDir;
    var t := Take(g, v, Inodes, ino - 1);
    TakeCount(g, v, Inodes, ino - 1);
    GrowCount(g, t, b, DotBlock(g.bs, ino, parent), ino, NewDir(g, now, b));
  }
}
