/** A fresh volume, byte by byte: ten blocks of 1024 bytes, sixteen inodes, an empty root. */
module Ext2Fresh {
  import opened DiskBytes
  import opened Ext2Layout
  import opened Ext2Trees
  import opened Ext2Alloc
  import opened Ext2Files
  import opened Ext2Volume
  import opened Ext2Dirents
  import opened Ext2Dirs
  import opened Ext2Fs
  import opened Ext2Names
  import opened Ext2Paths
  import opened Ext2Mkdir
  import opened Ext2Rmdir
  import opened Ext2Model
  import opened Ext2Walks
  import opened Ext2Runs
  import opened Ext2Sound
  import opened Ext2Driver
  import opened Ext2Calls

  const ROOT_BLOCK: nat := 7

  /** Superblock, descriptor, two bitmaps and two blocks of inodes, then three blocks of data. */
  function SmallGeom(): Geom { Geom(1024, 16, 8192, 128, 1, 10, 1, 2, 3, 4, 5) }

  lemma SmallGeomOk()
    ensures GeomOk(SmallGeom()) && TableEnd(SmallGeom()) == 7
  {
  }

  /** The descriptor: where the bitmaps and the table are, three blocks and sixteen inodes free. */
  function Descriptor(): (b: Block) {
    Zeros(1024)[0 := 3][4 := 4][8 := 5][BGD_FREE_BLOCKS := 3][BGD_FREE_INODES := 16]
  }

  /** The six blocks of metadata are taken. */
  function BlockBits(): (b: Block)
    ensures |b| == 1024
  {
    Zeros(1024)[0 := 63]
  }

  function BlankDisk(): (d: Disk) {
    [Zeros(1024), Zeros(1024), Descriptor(), BlockBits(), Zeros(1024), Zeros(1024), Zeros(1024), Zeros(1024),
        Zeros(1024), Zeros(1024)]
  }

  function BlankVol(): Vol { Vol(BlankDisk(), Zeros(SB_BYTES)[SB_FREE_BLOCKS := 3][SB_FREE_INODES := 16]) }

  lemma BlankDiskOk()
    ensures DiskOk(SmallGeom(), BlankDisk())
  {
    SmallGeomOk();
    assert forall b :: 0 <= b < 10 ==> |BlankDisk()[b]| == 1024;
  }

  lemma SixBits(k: nat)
    requires k < 9
    ensures Marked(BlockBits(), k) <==> k < 6
  {
    assert Bit(63, 0) && Bit(31, 0) && Bit(15, 0) && Bit(7, 0) && Bit(3, 0) && Bit(1, 0) && !Bit(0, 0);
    assert Bit(63, 1) && Bit(31, 1) && Bit(15, 1) && Bit(7, 1) && Bit(3, 1) && !Bit(1, 1);
    assert Bit(63, 2) && Bit(31, 2) && Bit(15, 2) && Bit(7, 2) && !Bit(3, 2) && !Bit(1, 2);
    assert Bit(63, 3) && Bit(31, 3) && Bit(15, 3) && !Bit(7, 3) && !Bit(3, 3);
    assert Bit(63, 4) && Bit(31, 4) && !Bit(15, 4) && !Bit(7, 4);
    assert Bit(63, 5) && !Bit(31, 5) && !Bit(15, 5);
    assert !Bit(63, 6) && !Bit(31, 6);
    assert !Bit(63, 7);
  }

  lemma {:induction false} NoBits(k: nat)
    ensures !Bit(0, k)
    decreases k
  {
    if k > 0 { NoBits(k - 1); }
  }

  lemma {:induction false} AllClear(bm: Block, n: nat)
    requires n <= |bm| * 8 && forall i :: 0 <= i < |bm| ==> bm[i] == 0
    ensures Clear(bm, n) == n
    decreases n
  {
    if n > 0 {
      AllClear(bm, n - 1);
      NoBits((n - 1) % 8);
    }
  }

  lemma ThreeClear()
    ensures Clear(BlockBits(), 9) == 3
  {
    hide Marked, BlockBits;
    var b := BlockBits();
    forall k: nat | k < 9 ensures Marked(b, k) <==> k < 6 { SixBits(k); }
    assert Clear(b, 0) == 0;
    assert Clear(b, 1) == 0 && Clear(b, 2) == 0;
    assert Clear(b, 3) == 0 && Clear(b, 4) == 0;
    assert Clear(b, 5) == 0 && Clear(b, 6) == 0;
    assert Clear(b, 7) == 1 && Clear(b, 8) == 2;
  }

  /** The blank volume is a file system without inodes. */
  lemma BlankRest()
    ensures Rest(SmallGeom(), BlankVol(), map[])
  {
    hide Marked, Clear;
    var g, v := SmallGeom(), BlankVol();
    SmallGeomOk();
    BlankDiskOk();
    ThreeClear();
    AllClear(Zeros(1024), 16);
    forall b | g.first <= b < g.total && Meta(g, b) ensures Marked(v.d[g.bbm], b - g.first) { SixBits(b - g.first); }
    forall i: nat ensures !Live(g, v.d, i) { if InoOk(g, i) { NoInode(i); } }
  }

  lemma NoInode(i: nat)
    requires 0 < i <= 16
    ensures !Marked(Zeros(1024), i - 1)
  {
    NoBits((i - 1) % 8);
  }

  // ---- inode 1 and the root ------------------------------------------------

  function Made1(): Vol {
    BlankDiskOk();
    var t := Take(SmallGeom(), BlankVol(), Inodes, 0);
    TakenOk();
    t.(d := WithInode(SmallGeom(), t.d, 1, NewFile(0)))
  }

  lemma TakenOk()
    ensures DiskOk(SmallGeom(), BlankVol().d) && DiskOk(SmallGeom(), Take(SmallGeom(), BlankVol(), Inodes, 0).d)
  {
    hide Take;
    BlankDiskOk();
    TakeStep(SmallGeom(), BlankVol(), Inodes, 0);
  }

  lemma Inode1()
    ensures Unnamed(SmallGeom(), BlankVol(), Made1(), map[], 1, 0)
  {
    hide Rest, NewFile, Live;
    BlankRest();
    RestLive(SmallGeom(), BlankVol(), map[], 1);
    UnnamedStep(SmallGeom(), BlankVol(), map[], 1, 0);
  }

  /** Block 7 is still free. */
  lemma RootBlockFree()
    ensures var g, v := SmallGeom(), Made1();
            DiskOk(g, v.d) && DiskOk(g, Take(g, v, Inodes, 1).d) && FreeData(g, Take(g, v, Inodes, 1).d, ROOT_BLOCK)
  {
    hide Rest, NewFile, Take, WithInode, Marked, Made1;
    var g, v := SmallGeom(), Made1();
    Inode1();
    SmallGeomOk();
    SelfShape(g, v, map[1 := NewFile(0)]);
    TakeStep(g, v, Inodes, 1);
    SixBits(6);
  }

  /** The root directory, its own parent, on top of inode 1. */
  function FreshVol(): Vol {
    RootBlockFree();
    DirMade(SmallGeom(), Made1(), ROOT_INO, ROOT_INO, 0, ROOT_BLOCK)
  }

  function FreshNodes(): Nodes {
    SmallGeomOk();
    map[1 := NewFile(0), ROOT_INO := NewDir(SmallGeom(), 0, ROOT_BLOCK)]
  }

  lemma RootMade()
    ensures UnnamedDir(SmallGeom(), Made1(), FreshVol(), map[1 := NewFile(0)], ROOT_INO, ROOT_INO, 0, ROOT_BLOCK)
  {
    hide Rest, NewFile, Live, Take, Made1, DirMade, FreeData, UnnamedDir;
    var g, v := SmallGeom(), Made1();
    Inode1();
    RootBlockFree();
    RestLive(g, v, map[1 := NewFile(0)], ROOT_INO);
    DirMadeStep(g, v, map[1 := NewFile(0)], ROOT_INO, ROOT_INO, 0, ROOT_BLOCK);
  }

  /** The fresh volume is a sound file system: an empty root, and inode 1 without a name. */
  lemma FreshVolume()
    ensures var g, v, nodes := SmallGeom(), FreshVol(), FreshNodes();
            && Rest(g, v, nodes) && DiskOk(g, v.d) && 1 in nodes
            && View(g, v.d, nodes) == EmptyRoot() && Sound(View(g, v.d, nodes))
  {
    hide Rest, NewFile, NewDir, FreshVol, Made1, DirOk, Bindings, BitsPlus, SameFiles, Sound, ObjOf;
    var g, v, nodes := SmallGeom(), FreshVol(), FreshNodes();
    RootMade();
    SelfShape(g, v, nodes);
    NewFileObj(g, v.d, 0);
    NewDirObj(g, v.d, 0, ROOT_BLOCK, ROOT_INO, ROOT_INO);
    var a, b := View(g, v.d, nodes), EmptyRoot();
    assert a.Keys == b.Keys;
    FreshSound();
  }

  /** A driver mounted on it meets the conditions of every call. */
  method Mount() returns (fs: Ext2)
    ensures fresh(fs) && fresh(fs.b0) && fresh(fs.b1) && fresh(fs.b2) && fresh(fs.b3) && fresh(fs.b4)
    ensures fs.Buffers() && fs.g == SmallGeom() && Rest(fs.g, fs.Volume(), FreshNodes()) && 1 in FreshNodes()
    ensures DiskOk(fs.g, fs.disk) && View(fs.g, fs.disk, FreshNodes()) == EmptyRoot()
    ensures Sound(View(fs.g, fs.disk, FreshNodes()))
  {
    hide Rest, FreshVol, View, Sound, NewFile, NewDir;
    FreshVolume();
    fs := new Ext2(SmallGeom(), FreshVol().d, FreshVol().sb);
  }

  // ---- unlink("/.") and unlink("/..") --------------------------------------

  const SLASH_DOT: Path := [SLASH, 46]
  const SLASH_DOTDOT: Path := [SLASH, 46, 46]

  lemma DotPaths()
    ensures Components(SLASH_DOT) == [DOT] && Components(SLASH_DOTDOT) == [DOTDOT]
    ensures !Unsplittable(SLASH_DOT) && !Unsplittable(SLASH_DOTDOT)
  {
    LastComponent(SLASH_DOT, 0);
    LastComponent(SLASH_DOTDOT, 0);
    NoComponents(SLASH_DOT[..0]);
    NoComponents(SLASH_DOTDOT[..0]);
    assert SLASH_DOT[1..] == DOT && SLASH_DOTDOT[1..] == DOTDOT;
    LastSlash(SLASH_DOT, 0);
    LastSlash(SLASH_DOTDOT, 0);
  }

  /** A directory that shows only dots lists only dots. */
  lemma DotsListed(g: Geom, v: Vol, nodes: Nodes, i: nat)
    requires Rest(g, v, nodes) && DiskOk(g, v.d) && i in nodes && i in View(g, v.d, nodes)
    requires View(g, v.d, nodes)[i].DirObj? && View(g, v.d, nodes)[i].names.Keys <= {DOT, DOTDOT}
    ensures !HoldsMore(g, v.d, nodes, i)
  {
    hide Find, Listing, Trees, Counted, DirsOk, Tabled, LiveSet;
    FsDir(g, v, nodes, i);
    DirIs(g, v.d, nodes[i]);
    var es := Entries(g, v.d, nodes[i]);
    forall k | 0 <= k < |es| ensures es[k].name == DOT || es[k].name == DOTDOT { assert es[k].name in Bindings(es); }
  }

  /** One of the two calls: the root shows the dot to be unlinked, and nothing but dots. */
  method UnlinkDot(fs: Ext2, path: Path, ghost c: Name, ghost nodes: Nodes) returns (ok: bool, ghost nodes': Nodes)
    requires fs.Buffers() && DiskOk(fs.g, fs.disk) && Rest(fs.g, fs.Volume(), nodes) && path != [] && path[0] == SLASH
    requires Components(path) == [c] && !Unsplittable(path) && |c| < MAX_FILENAME && forall i ::
              0 <= i < |path| ==> path[i] != 0
    requires var m := View(fs.g, fs.disk, nodes);
             ROOT_INO in m && m[ROOT_INO].DirObj? && c in m[ROOT_INO].names && m[ROOT_INO].names[c] == ROOT_INO
             && m[ROOT_INO].names.Keys <= {DOT, DOTDOT}
    modifies fs`disk, fs`sb, fs.b0, fs.b1, fs.b2, fs.b3, fs.b4
    ensures ok && Rest(fs.g, fs.Volume(), nodes') && DiskOk(fs.g, fs.disk)
    ensures View(fs.g, fs.disk, nodes') == RemoveSelf(View(fs.g, old(fs.disk), nodes), ROOT_INO, c)
  {
    hide Rest, View, Components, Resolved, HoldsMore, Unsplittable, Walkable, TableEnd, FsStep, RemoveSelf;
    ghost var g, v := fs.g, fs.Volume();
    ResolvedIs(g, v, nodes, path);
    DotFound(View(g, v.d, nodes), path, c);
    ViewKeys(g, v.d, nodes, ROOT_INO);
    DotsListed(g, v, nodes, ROOT_INO);
    ghost var op;
    ok, op, nodes' := UnlinkPath(fs, path, 0, nodes);
    StepView(g, v, nodes, op, fs.Volume(), nodes');
    assert Above(path) == [] && op.name == c;
  }

  lemma DotFound(m: Model, path: Path, c: Name)
    requires path != [] && path[0] == SLASH && Components(path) == [c] && |c| < MAX_FILENAME
    requires ROOT_INO in m && m[ROOT_INO].DirObj? && c in m[ROOT_INO].names && m[ROOT_INO].names[c] == ROOT_INO
    ensures Found(m, path) == ROOT_INO && Passable(m, ROOT_INO, Components(path))
  {
    hide Components;
    var cs := [c];
    assert cs[0] == c && cs[1..] == [] && Next(m, ROOT_INO, c) == ROOT_INO;
    assert Look(m, ROOT_INO, cs) == Look(m, ROOT_INO, cs[1..]) && Passable(m, ROOT_INO, cs[1..]);
  }

  /** Both calls succeed on the fresh volume, and its root is free. */
  method UnlinkRoot() returns (fs: Ext2)
    ensures DiskOk(fs.g, fs.disk) && !Live(fs.g, fs.disk, ROOT_INO)
  {
    hide Rest, View, Components, Unsplittable, Live, RemoveSelf, Sound, TableEnd, FreshNodes;
    fs := Mount();
    DotPaths();
    var ok;
    ghost var n1, n2;
    DotsGone();
    ok, n1 := UnlinkDot(fs, SLASH_DOT, DOT, FreshNodes());
    ok, n2 := UnlinkDot(fs, SLASH_DOTDOT, DOTDOT, n1);
    RestLive(fs.g, fs.Volume(), n2, ROOT_INO);
    ViewKeys(fs.g, fs.disk, n2, ROOT_INO);
  }

  lemma DotsGone()
    ensures var m1 := RemoveSelf(EmptyRoot(), ROOT_INO, DOT);
            && ROOT_INO in m1 && m1[ROOT_INO].DirObj? && DOTDOT in m1[ROOT_INO].names
            && m1[ROOT_INO].names[DOTDOT] == ROOT_INO
            && m1[ROOT_INO].names.Keys <= {DOT, DOTDOT} && ROOT_INO !in RemoveSelf(m1, ROOT_INO, DOTDOT)
  {
  }
}
