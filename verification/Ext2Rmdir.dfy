/** Unlinking a directory: when it counts as empty, what unlinking removes, and what it leaves behind. */
module Ext2Rmdir {
  import opened DiskBytes
  import opened Ext2Layout
  import opened Ext2Trees
  import opened Ext2Alloc
  import opened Ext2Files
  import opened Ext2Writing
  import opened Ext2Volume
  import opened Ext2Free
  import opened Ext2Dirents
  import opened Ext2Dirs
  import opened Ext2Fs
  import opened Ext2Names
  import opened Ext2Mkdir

  // ---- emptiness -----------------------------------------------------------

  /** Only "." and ".." are listed. */
  ghost predicate OnlyDots(es: seq<Entry>) {
    forall i {:trigger es[i]} :: 0 <= i < |es| ==> es[i].name == DOT || es[i].name == DOTDOT
  }

  lemma DotsSplit(a: seq<Entry>, b: seq<Entry>)
    ensures OnlyDots(a + b) <==> OnlyDots(a) && OnlyDots(b)
  {
    if OnlyDots(a + b) {
      forall i | 0 <= i < |a| ensures a[i].name == DOT || a[i].name == DOTDOT { assert (a + b)[i] == a[i]; }
      forall i | 0 <= i < |b| ensures b[i].name == DOT || b[i].name == DOTDOT { assert (a + b)[|a| + i] == b[i]; }
    }
  }

  /** The name in the record at `o` is "." or "..", byte by byte. */
  predicate DotRecord(b: Block, o: nat)
    requires o + HDR <= |b| && o + HDR + NameLen(b, o) <= |b|
  {
    || (NameLen(b, o) == 1 && b[o + HDR] == 46)
    || (NameLen(b, o) == 2 && b[o + HDR] == 46 && b[o + HDR + 1] == 46)
  }

  lemma DotsOn(b: Block, o: nat)
    requires Tiled(b, o) && RecOk(b, o)
    ensures o + HDR <= |b| && o + HDR + NameLen(b, o) <= |b| && Tiled(b, o + RecLen(b, o))
    ensures OnlyDots(LiveFrom(b, o)) <==>
              (RecIno(b, o) == 0 || DotRecord(b, o)) && OnlyDots(LiveFrom(b, o + RecLen(b, o)))
  {
    hide LiveFrom, Tiled, NameOk, OnlyDots;
    Unfold(b, o);
    DotsSplit(One(b, o), LiveFrom(b, o + RecLen(b, o)));
    DotsOne(b, o);
  }

  lemma DotsOne(b: Block, o: nat)
    requires RecOk(b, o)
    ensures OnlyDots(One(b, o)) <==> RecIno(b, o) == 0 || DotRecord(b, o)
  {
    hide NameOk;
    var name := b[o + HDR..o + HDR + NameLen(b, o)];
    if RecIno(b, o) != 0 {
      assert EntryAt(b, o).name == name && One(b, o)[0] == EntryAt(b, o);
      assert name == DOT <==> |name| == 1 && name[0] == 46;
      assert name == DOTDOT <==> |name| == 2 && name[0] == 46 && name[1] == 46;
    }
  }

  lemma DotsEnd(b: Block, o: nat)
    requires Tiled(b, o) && o + HDR > |b|
    ensures OnlyDots(LiveFrom(b, o))
  {
  }

  /** One more block of a directory. */
  lemma DotsBlock(d: Disk, n: Inode, k: nat)
    requires DirPrefix(d, n, k + 1)
    ensures DirPrefix(d, n, k) && DirBlockOk(d, n, k)
    ensures OnlyDots(Listing(d, n, k + 1)) <==> OnlyDots(Listing(d, n, k)) && OnlyDots(LiveFrom(d[Pointer(n, k)], 0))
  {
    hide LiveFrom, Tiled, OnlyDots, Pointer, Listing;
    assert DirBlockOk(d, n, k);
    ListingUnfold(d, n, k + 1);
    DotsSplit(Listing(d, n, k), LiveFrom(d[Pointer(n, k)], 0));
  }

  /** A block that lists something else settles it. */
  lemma {:induction false} DotsNever(d: Disk, n: Inode, k: nat, m: nat)
    requires k <= m && DirPrefix(d, n, m)
    ensures DirPrefix(d, n, k) && (!OnlyDots(Listing(d, n, k)) ==> !OnlyDots(Listing(d, n, m)))
    decreases m - k
  {
    hide LiveFrom, Tiled, OnlyDots, Pointer, Listing, DirBlockOk;
    if k < m {
      assert DirPrefix(d, n, k + 1);
      DotsBlock(d, n, k);
      DotsNever(d, n, k + 1, m);
    }
  }

  // ---- the binding goes ----------------------------------------------------

  /** The binding of `name` is gone from directory `p`, which lost one link; `left` are the inodes
      that remain; everything else is as it was. */
  ghost predicate UnlinkedDir(g: Geom, v0: Vol, v: Vol, nodes: Nodes, left: Nodes, p: nat, p': Inode, name: Name,
      ino: nat)
  {
    && Rest(g, v0, nodes) && Rest(g, v, left) && p in nodes && ino in nodes && p != ino && p in left && left[p] == p'
    && IsDir(nodes[p]) && DirOk(g, v0.d, nodes[p]) && IsDir(p') && DirOk(g, v.d, p')
    && Links(p') == (Links(nodes[p]) + TWO16 - 1) % TWO16
    && Bindings(Entries(g, v.d, p')) == Bindings(Entries(g, v0.d, nodes[p])) - {name}
    && (ino in left ==> Relinked(nodes[ino], left[ino]) && SameFile(v0.d, v.d, nodes[ino]))
    && forall j {:trigger nodes[j]} ::
         j in nodes && j != p && j != ino ==> j in left && left[j] == nodes[j] && SameFile(v0.d, v.d, nodes[j])
  }

  /** One link less, as a 16-bit counter. */
  function Unlinked1(n: Inode): (m: Inode) { Put16(n, OFF_LINKS, (Get16(n, OFF_LINKS) + TWO16 - 1) % TWO16) }

  lemma UnlinkedDirStep(g: Geom, v0: Vol, v: Vol, nodes: Nodes, left: Nodes, p: nat, name: Name, ino: nat, x: nat)
    requires Unlinked(g, v0, v, nodes, left, p, name, ino) && x < TWO16
    ensures InoOk(g, p)
    ensures var n := Unlinked1(nodes[p]); var w := Completed(g, v, p, n, x);
            UnlinkedDir(g, v0, w, nodes, left[p := n], p, n, name, ino) && w.d[g.bbm] == v.d[g.bbm]
                && w.d[g.ibm] == v.d[g.ibm] && DirCount(g, w.d) == x
  {
    hide Marked, TableEnd, Counted, MetaMarked, Trees, DirsOk, SameFile, InodeAt, IsDir, Tabled, Bindings, DirOk, Live,
         Completed, DirCount, At, Relinked, Put16, Get16;
    var n := Unlinked1(nodes[p]);
    LinksSet(nodes[p], (Links(nodes[p]) + TWO16 - 1) % TWO16);
    CompletedStep(g, v, left, p, n, x);
    var w := Completed(g, v, p, n, x);
    MadeDirLive(g, v, v, w, left, p, n);
    if ino in left {
      SameOne(v.d, w.d, left, ino);
      RelinkedPointers(nodes[ino], left[ino]);
      SameFileRenamed(v.d, w.d, left[ino], nodes[ino]);
      SameFileTrans(v0.d, v.d, w.d, nodes[ino]);
    }
    forall j | j in nodes && j != p && j != ino
      ensures j in left && left[p := n][j] == nodes[j] && SameFile(v0.d, w.d, nodes[j])
    {
      assert left[j] == nodes[j];
      SameOne(v.d, w.d, left, j);
      SameFileTrans(v0.d, v.d, w.d, nodes[j]);
    }
  }

  lemma RelinkedPointers(n: Inode, m: Inode)
    requires Relinked(n, m)
    ensures SamePointers(n, m)
  {
  }

  /** The directory keeps its inode with one link less. */
  lemma RelinkedStep(g: Geom, v0: Vol, v1: Vol, nodes: Nodes, p: nat, name: Name, ino: nat, n: Inode)
    requires Rest(g, v0, nodes) && Removed(g, v0, v1, nodes, p, name) && ino in nodes && ino != p && IsDir(nodes[ino])
    requires Relinked(nodes[ino], n)
    ensures InoOk(g, ino) && DiskOk(g, WithInode(g, v1.d, ino, n))
    ensures var w := v1.(d := WithInode(g, v1.d, ino, n));
            Unlinked(g, v0, w, nodes, nodes[ino := n], p, name, ino) && w.d[g.bbm] == v0.d[g.bbm]
                && DirCount(g, w.d) == DirCount(g, v0.d)
  {
    hide Marked, TableEnd, Counted, MetaMarked, DirsOk, Trees, SameFile, InodeAt, IsDir, Bindings, DirOk, WithInode,
         Live, At, Relinked, DirNode, Tabled;
    TabledKept(g, v0.d, v1.d, nodes);
    RelinkStep(g, v1, nodes, ino, n);
    StoreCount(g, v1.d, ino, n);
    var m, w := nodes[ino := n], v1.(d := WithInode(g, v1.d, ino, n));
    RelinkedLive(g, v0, v1, w, nodes, ino, n);
    assert m[p] == nodes[p];
    SameOne(v1.d, w.d, nodes, p);
    DirSame(g, v1.d, w.d, nodes[p]);
    SameOne(v1.d, w.d, nodes, ino);
    assert SameFile(v0.d, v1.d, nodes[ino]);
    SameFileTrans(v0.d, v1.d, w.d, nodes[ino]);
    forall j | j in nodes && j != p && j != ino ensures m[j] == nodes[j] && SameFile(v0.d, w.d, nodes[j]) {
      SameOne(v1.d, w.d, nodes, j);
      SameFileTrans(v0.d, v1.d, w.d, nodes[j]);
    }
  }

  lemma RelinkedLive(g: Geom, v0: Vol, v1: Vol, w: Vol, nodes: Nodes, ino: nat, n: Inode)
    requires DiskOk(g, v0.d) && DiskOk(g, v1.d) && DiskOk(g, w.d) && LiveSet(g, v0.d, nodes) && ino in nodes
    requires TableKept(g, v0.d, v1.d) && w.d[g.ibm] == v1.d[g.ibm]
    ensures LiveSet(g, w.d, nodes[ino := n])
  {
    hide TableEnd, Live, DiskOk;
    MadeDirLive(g, v0, v1, w, nodes, ino, n);
  }

  /** Blocks freed, dead inode written, inode bit given back. */
  function Dropped(g: Geom, v: Vol, ino: nat, dead: Inode): (w: Vol)
    requires DiskOk(g, v.d) && |v.sb| == SB_BYTES && InoOk(g, ino)
  {
    WithShape(g, v.d, ino, dead);
    Give(g, v.(d := WithInode(g, v.d, ino, dead)), Inodes, ino - 1)
  }

  /** The last link: the directory's block and its inode are free again. */
  lemma DroppedStep(g: Geom, v0: Vol, v1: Vol, v2: Vol, nodes: Nodes, p: nat, name: Name, ino: nat, dead: Inode)
    requires Rest(g, v0, nodes) && Removed(g, v0, v1, nodes, p, name) && ino in nodes && ino != p
    requires Released(g, v1, v2, nodes[ino], AllSlots(g))
    ensures InoOk(g, ino)
    ensures var w := Dropped(g, v2, ino, dead);
            Unlinked(g, v0, w, nodes, nodes - {ino}, p, name, ino) && BitsMinus(g, v0.d, w.d, nodes[ino])
                && DirCount(g, w.d) == DirCount(g, v0.d)
  {
    hide Marked, TableEnd, Counted, MetaMarked, Trees, DirsOk, SameFile, InodeAt, IsDir, Bindings, DirOk, Used,
         WithInode, Give, AllSlots, Reaches, Live, At, Tabled, ReleasedBit;
    InTable(g, v0.d, nodes, ino);
    var m := nodes - {ino};
    UnlinkedBlocks(g, v0, v1, v2, nodes, p, name, ino);
    var v3 := v2.(d := WithInode(g, v2.d, ino, dead));
    InodeStore(g, v2, m, ino, dead);
    TabledOther(g, v2, m, ino, dead);
    var w := Give(g, v3, Inodes, ino - 1);
    InodeGiven(g, v3, m, ino);
    assert w == Dropped(g, v2, ino, dead);
    StoreCount(g, v2.d, ino, dead);
    GiveCount(g, v3, Inodes, ino - 1);
    AllSame(v2.d, v3.d, w.d, m);
    UnlinkedLive(g, v0, v1, v2, v3, w, w, nodes, ino);
    assert m[p] == nodes[p];
    SameOne(v1.d, v2.d, m, p);
    SameOne(v2.d, w.d, m, p);
    DirSame(g, v1.d, v2.d, nodes[p]);
    DirSame(g, v2.d, w.d, nodes[p]);
    DroppedOthers(v0.d, v1.d, v2.d, w.d, nodes, p, ino);
    forall b | InRange(g, b)
      ensures Used(g, w.d, b) <==> Used(g, v0.d, b) && (b == 0 || !Reaches(v0.d, nodes[ino], b))
    {
      UsedSame(g, v2.d, w.d, b);
    }
  }

  lemma DroppedOthers(a: Disk, b: Disk, c: Disk, e: Disk, nodes: Nodes, p: nat, ino: nat)
    requires Others(a, b, nodes, p) && SameFiles(b, c, nodes - {ino}) && SameFiles(c, e, nodes - {ino})
    ensures forall j {:trigger nodes[j]} :: j in nodes && j != p && j != ino ==> SameFile(a, e, nodes[j])
  {
    hide SameFile;
    var m := nodes - {ino};
    forall j | j in nodes && j != p && j != ino ensures SameFile(a, e, nodes[j]) {
      assert m[j] == nodes[j];
      SameFileTrans(a, b, c, nodes[j]);
      SameFileTrans(a, c, e, nodes[j]);
    }
  }

  // ---- a directory unlinked by one of its own names ------------------------

  /** The name is gone from directory `p`, which lost one link; it keeps its inode. */
  ghost predicate SelfUnlinked(g: Geom, v0: Vol, v: Vol, nodes: Nodes, p: nat, n: Inode, name: Name) {
    && Rest(g, v0, nodes) && p in nodes && Rest(g, v, nodes[p := n]) && IsDir(nodes[p]) && IsDir(n)
    && DirOk(g, v0.d, nodes[p]) && DirOk(g, v.d, n)
    && Links(n) == (Links(nodes[p]) + TWO16 - 1) % TWO16
    && Bindings(Entries(g, v.d, n)) == Bindings(Entries(g, v0.d, nodes[p])) - {name}
    && Others(v0.d, v.d, nodes, p) && v.d[g.bbm] == v0.d[g.bbm]
  }

  /** The inode written once as the unlinked one and once as the parent. */
  lemma SelfStep(g: Geom, v0: Vol, v1: Vol, nodes: Nodes, p: nat, name: Name, n1: Inode, x: nat)
    requires Rest(g, v0, nodes) && Removed(g, v0, v1, nodes, p, name) && (n1 == nodes[p] || n1 == Unlinked1(nodes[p]))
    requires x < TWO16
    ensures InoOk(g, p) && DiskOk(g, WithInode(g, v1.d, p, n1)) && |v1.sb| == SB_BYTES
    ensures var w := Completed(g, v1.(d := WithInode(g, v1.d, p, n1)), p, Unlinked1(nodes[p]), x);
            SelfUnlinked(g, v0, w, nodes, p, Unlinked1(nodes[p]), name) && DirCount(g, w.d) == x
  {
    hide Marked, TableEnd, Counted, MetaMarked, DirsOk, Trees, SameFile, InodeAt, IsDir, Bindings, DirOk, WithInode,
         Live, At, Relinked, DirNode, Tabled, Completed, DirCount, Put16, Get16;
    var n := Unlinked1(nodes[p]);
    LinksSet(nodes[p], (Links(nodes[p]) + TWO16 - 1) % TWO16);
    RelinkedRefl(nodes[p]);
    RelinkedRefl(n);
    TabledKept(g, v0.d, v1.d, nodes);
    RelinkStep(g, v1, nodes, p, n1);
    var m1, v2 := nodes[p := n1], v1.(d := WithInode(g, v1.d, p, n1));
    RelinkedLive(g, v0, v1, v2, nodes, p, n1);
    CompletedStep(g, v2, m1, p, n, x);
    var w := Completed(g, v2, p, n, x);
    MadeDirLive(g, v2, v2, w, m1, p, n);
    assert m1[p := n] == nodes[p := n];
    SelfOthers(v0.d, v1.d, v2.d, w.d, nodes, p, n1);
  }

  lemma SelfOthers(a: Disk, b: Disk, c: Disk, e: Disk, nodes: Nodes, p: nat, n1: Inode)
    requires Others(a, b, nodes, p) && SameFiles(b, c, nodes) && SameFiles(c, e, nodes[p := n1])
    ensures Others(a, e, nodes, p)
  {
    hide SameFile;
    forall j | j in nodes && j != p ensures SameFile(a, e, nodes[j]) {
      assert nodes[p := n1][j] == nodes[j];
      SameFileTrans(a, b, c, nodes[j]);
      SameFileTrans(a, c, e, nodes[j]);
    }
  }

  /** With one link left the directory's blocks and its inode are free, yet its record in the table
      is the old one without links: its pointers name blocks that are free. */
  ghost predicate SelfFreed(g: Geom, v0: Vol, v: Vol, nodes: Nodes, p: nat, n: Inode) {
    && Rest(g, v0, nodes) && p in nodes && Rest(g, v, nodes - {p}) && IsDir(nodes[p]) && DirOk(g, v0.d, nodes[p])
    && Others(v0.d, v.d, nodes, p) && BitsMinus(g, v0.d, v.d, nodes[p])
    && InoOk(g, p) && InodeAt(g, v.d, p) == n && SamePointers(nodes[p], n) && Links(n) == 0 && IsDir(n)
  }

  /** Blocks released, dead inode written, inode bit given back: the others are a file system. */
  lemma SelfDropped(g: Geom, v0: Vol, v1: Vol, v2: Vol, nodes: Nodes, p: nat, name: Name, dead: Inode)
    requires Rest(g, v0, nodes) && Removed(g, v0, v1, nodes, p, name) && Released(g, v1, v2, nodes[p], AllSlots(g))
    ensures InoOk(g, p)
    ensures var w := Dropped(g, v2, p, dead);
            && Rest(g, w, nodes - {p}) && Others(v0.d, w.d, nodes, p) && BitsMinus(g, v0.d, w.d, nodes[p])
            && DirCount(g, w.d) == DirCount(g, v0.d)
  {
    hide Marked, TableEnd, Counted, MetaMarked, Trees, DirsOk, SameFile, InodeAt, IsDir, Bindings, DirOk, Used,
         WithInode, Give, AllSlots, Reaches, Live, At, Tabled, ReleasedBit, SameSlots, SameFiles;
    InTable(g, v0.d, nodes, p);
    var m := nodes - {p};
    SelfBlocks(g, v0, v1, v2, nodes, p, name);
    var v3 := v2.(d := WithInode(g, v2.d, p, dead));
    InodeStore(g, v2, m, p, dead);
    TabledOther(g, v2, m, p, dead);
    var w := Give(g, v3, Inodes, p - 1);
    InodeGiven(g, v3, m, p);
    assert w == Dropped(g, v2, p, dead);
    StoreCount(g, v2.d, p, dead);
    GiveCount(g, v3, Inodes, p - 1);
    AllSame(v2.d, v3.d, w.d, m);
    UnlinkedLive(g, v0, v1, v2, v3, w, w, nodes, p);
    SelfFreedOthers(v0.d, v1.d, v2.d, w.d, nodes, p);
    BitsMinusSame(g, v0.d, v2.d, w.d, nodes[p]);
  }

  lemma SelfBlocks(g: Geom, v0: Vol, v1: Vol, v2: Vol, nodes: Nodes, p: nat, name: Name)
    requires Rest(g, v0, nodes) && Removed(g, v0, v1, nodes, p, name) && Released(g, v1, v2, nodes[p], AllSlots(g))
    ensures Fs(g, v2, nodes - {p}) && Tabled(g, v2.d, nodes - {p}) && SameFiles(v1.d, v2.d, nodes - {p})
    ensures v2.d[g.ibm] == v0.d[g.ibm] && BitsMinus(g, v0.d, v2.d, nodes[p])
  {
    hide Marked, TableEnd, Counted, MetaMarked, Trees, DirsOk, SameFile, InodeAt, IsDir, Bindings, DirOk, AllSlots, At,
         Live, ReleasedBit;
    NodeDrop(g, v1, v2, nodes, p);
    forall b
      ensures Reaches(v1.d, nodes[p], b) <==> Reaches(v0.d, nodes[p], b)
    {
      SlotsReach(v0.d, v1.d, nodes[p], b);
    }
    TabledKept(g, v0.d, v1.d, nodes);
    FewerTabled(g, v1.d, nodes, p);
    TabledSame(g, v1.d, v2.d, nodes - {p});
  }

  lemma SlotsReach(d: Disk, d': Disk, n: Inode, b: nat)
    requires SameSlots(d, d', n)
    ensures Reaches(d', n, b) <==> Reaches(d, n, b)
  {
    hide At;
    if Reaches(d', n, b) { var s :| At(d', n, s) == b; assert At(d, n, s) == b; }
    if Reaches(d, n, b) { var s :| At(d, n, s) == b; assert At(d', n, s) == b; }
  }

  lemma SelfFreedOthers(a: Disk, b: Disk, c: Disk, e: Disk, nodes: Nodes, p: nat)
    requires Others(a, b, nodes, p) && SameFiles(b, c, nodes - {p}) && SameFiles(c, e, nodes - {p})
    ensures Others(a, e, nodes, p)
  {
    hide SameFile;
    var m := nodes - {p};
    forall j | j in nodes && j != p ensures SameFile(a, e, nodes[j]) {
      assert m[j] == nodes[j];
      SameFileTrans(a, b, c, nodes[j]);
      SameFileTrans(a, c, e, nodes[j]);
    }
  }

  /** The write-back of the parent's inode, which is the inode just freed. */
  lemma SelfFreedStep(g: Geom, v0: Vol, v: Vol, nodes: Nodes, p: nat, x: nat)
    requires Rest(g, v0, nodes) && p in nodes && IsDir(nodes[p]) && Links(nodes[p]) == 1 && x < TWO16
    requires Rest(g, v, nodes - {p}) && Others(v0.d, v.d, nodes, p) && BitsMinus(g, v0.d, v.d, nodes[p])
    ensures InoOk(g, p) && DiskOk(g, v.d) && |v.sb| == SB_BYTES
    ensures var w := Completed(g, v, p, Unlinked1(nodes[p]), x);
            SelfFreed(g, v0, w, nodes, p, Unlinked1(nodes[p])) && DirCount(g, w.d) == x
  {
    hide Marked, TableEnd, Counted, MetaMarked, Trees, DirsOk, SameFile, InodeAt, IsDir, IsRegular, Bindings, DirOk,
         Used, WithInode, Live, At, Tabled, SameFiles, Put16, Get16, WithDirCount, Synced, Reaches, DirCount, LiveSet,
         SamePointers;
    InTable(g, v0.d, nodes, p);
    FsDir(g, v0, nodes, p);
    var m, n := nodes - {p}, Unlinked1(nodes[p]);
    LinksSet(nodes[p], (Links(nodes[p]) + TWO16 - 1) % TWO16);
    InodeStore(g, v, m, p, n);
    TabledOther(g, v, m, p, n);
    var v1 := v.(d := WithInode(g, v.d, p, n));
    CountFs(g, v1, m, x);
    var v2 := WithDirCount(g, v1, x);
    SyncedFs(g, v2, m);
    var w := Synced(g, v2);
    assert w == Completed(g, v, p, n, x);
    SyncCount(g, v2);
    AllSame(v.d, v1.d, v2.d, m);
    SelfFreedOthers(v0.d, v.d, v2.d, w.d, nodes, p);
    LiveKept(g, v.d, w.d, m);
    BitsMinusSame(g, v0.d, v.d, w.d, nodes[p]);
    RecordStays(g, v, p, n, x);
  }

  lemma RecordStays(g: Geom, v: Vol, p: nat, n: Inode, x: nat)
    requires DiskOk(g, v.d) && |v.sb| == SB_BYTES && InoOk(g, p) && x < TWO16 && DiskOk(g, Completed(g, v, p, n, x).d)
    ensures InodeAt(g, Completed(g, v, p, n, x).d, p) == n
  {
    hide Splice, InoOff, Put16;
    InodeAfterWrite(g, v.d, p, n, p);
    assert Completed(g, v, p, n, x).d[InoBlock(g, p)] == WithInode(g, v.d, p, n)[InoBlock(g, p)];
  }

  /** A directory unlinked by its own name stays in use if and only if its link count is not one. */
  lemma SelfStaysIff(g: Geom, v0: Vol, v: Vol, nodes: Nodes, p: nat, n: Inode, name: Name)
    requires if p in nodes && Links(nodes[p]) == 1 then SelfFreed(g, v0, v, nodes, p, n)
              else SelfUnlinked(g, v0, v, nodes, p, n, name)
    ensures DiskOk(g, v.d) && p in nodes && (Live(g, v.d, p) <==> Links(nodes[p]) != 1)
  {
    hide Rest, IsDir, Bindings, DirOk, Live, Links, BitsMinus, Others, SamePointers, InodeAt;
    RestLive(g, v, if Links(nodes[p]) == 1 then nodes - {p} else nodes[p := n], p);
  }

  lemma RestLive(g: Geom, v: Vol, nodes: Nodes, i: nat)
    requires Rest(g, v, nodes)
    ensures DiskOk(g, v.d) && (Live(g, v.d, i) <==> i in nodes)
  {
    hide Trees, DirsOk, Counted, MetaMarked, Tabled, Live, TableEnd;
  }

  // ---- mkdir, then unlink --------------------------------------------------

  lemma NewDirLinks(g: Geom, now: nat, b: nat)
    requires GeomOk(g) && now < TWO32 && b < TWO32
    ensures Links(NewDir(g, now, b)) == 2
  {
    hide Bit, Put32;
    var z := Put16(Zeros(INODE_BYTES), OFF_MODE, MODE_DIR);
    GetPut16(z, OFF_LINKS, 2);
    var y := Put16(z, OFF_LINKS, 2);
    var c := Put32(y, OFF_SIZE, g.bs);
    var e := Put32(c, OFF_BLOCKS, g.bs / 512);
    var f := Put32(e, OFF_ATIME, now);
    var h := Put32(f, OFF_CTIME, now);
    var n := Put32(h, OFF_MTIME, now);
    GetPut32(y, OFF_SIZE, g.bs);
    GetPut32(c, OFF_BLOCKS, g.bs / 512);
    GetPut32(e, OFF_ATIME, now);
    GetPut32(f, OFF_CTIME, now);
    GetPut32(h, OFF_MTIME, now);
    GetPut32(n, OFF_BLOCK, b);
    var r := NewDir(g, now, b);
    assert n == BareDir(g, now) && r == Put32(n, OFF_BLOCK, b);
    assert r[26] == y[26] && r[27] == y[27];
  }

  /** What unlinking directory `ino` leaves: freed exactly when it had one link, otherwise kept with
      the link count stepped down. */
  ghost predicate Rmdired(g: Geom, v0: Vol, v: Vol, nodes: Nodes, p: nat, p': Inode, name: Name, ino: nat, n: Inode) {
    && ino in nodes && DiskOk(g, v0.d) && DiskOk(g, v.d)
    && (if Links(nodes[ino]) == 1 then
          UnlinkedDir(g, v0, v, nodes, (nodes - {ino})[p := p'], p, p', name, ino)
              && BitsMinus(g, v0.d, v.d, nodes[ino])
        else
          && UnlinkedDir(g, v0, v, nodes, nodes[ino := n][p := p'], p, p', name, ino) && v.d[g.bbm] == v0.d[g.bbm]
          && Relinked(nodes[ino], n) && Links(n) == (if Links(nodes[ino]) == 0 then 0 else Links(nodes[ino]) - 1))
  }

  /** The same before the parent's inode and the directory count are written. */
  ghost predicate Lost(g: Geom, v0: Vol, v: Vol, nodes: Nodes, left: Nodes, p: nat, name: Name, ino: nat, n: Inode) {
    && Unlinked(g, v0, v, nodes, left, p, name, ino) && DirCount(g, v.d) == DirCount(g, v0.d)
    && (if Links(nodes[ino]) == 1 then left == nodes - {ino} && BitsMinus(g, v0.d, v.d, nodes[ino])
        else
             && left == nodes[ino := n] && v.d[g.bbm] == v0.d[g.bbm] && Relinked(nodes[ino], n)
             && Links(n) == (if Links(nodes[ino]) == 0 then 0 else Links(nodes[ino]) - 1))
  }

  lemma RmdiredStep(g: Geom, v0: Vol, v: Vol, nodes: Nodes, left: Nodes, p: nat, name: Name, ino: nat, n: Inode, x: nat)
    requires Lost(g, v0, v, nodes, left, p, name, ino, n) && x < TWO16
    ensures InoOk(g, p) && DiskOk(g, v.d) && |v.sb| == SB_BYTES
    ensures var w := Completed(g, v, p, Unlinked1(nodes[p]), x);
            DiskOk(g, w.d) && Rmdired(g, v0, w, nodes, p, Unlinked1(nodes[p]), name, ino, n) && DirCount(g, w.d) == x
  {
    hide Marked, TableEnd, Counted, MetaMarked, Trees, DirsOk, SameFile, IsDir, Tabled, Bindings, DirOk, LiveSet,
         Completed, DirCount, Relinked, Unlinked1, UnlinkedDir, BitsMinus;
    UnlinkedDirStep(g, v0, v, nodes, left, p, name, ino, x);
    var w := Completed(g, v, p, Unlinked1(nodes[p]), x);
    UnlinkedDirDisk(g, v0, w, nodes, left[p := Unlinked1(nodes[p])], p, Unlinked1(nodes[p]), name, ino);
    if Links(nodes[ino]) == 1 { BitsMinusSame(g, v0.d, v.d, w.d, nodes[ino]); }
  }

  lemma UnlinkedDirDisk(g: Geom, v0: Vol, v: Vol, nodes: Nodes, left: Nodes, p: nat, p': Inode, name: Name, ino: nat)
    requires UnlinkedDir(g, v0, v, nodes, left, p, p', name, ino)
    ensures DiskOk(g, v0.d) && DiskOk(g, v.d)
  {
  }

  lemma BitsMinusSame(g: Geom, a: Disk, b: Disk, c: Disk, n: Inode)
    requires DiskOk(g, a) && DiskOk(g, b) && DiskOk(g, c) && BitsMinus(g, a, b, n) && c[g.bbm] == b[g.bbm]
    ensures BitsMinus(g, a, c, n)
  {
    hide Used, Reaches, DiskOk;
    forall x | InRange(g, x)
      ensures Used(g, c, x) <==> Used(g, a, x) && (x == 0 || !Reaches(a, n, x))
    {
      UsedSame(g, b, c, x);
    }
  }

  lemma FreedIffOneLink(g: Geom, v0: Vol, v: Vol, nodes: Nodes, p: nat, p': Inode, name: Name, ino: nat, n: Inode)
    requires Rmdired(g, v0, v, nodes, p, p', name, ino, n)
    ensures !Live(g, v.d, ino) <==> Links(nodes[ino]) == 1
  {
    hide Marked, TableEnd, Counted, MetaMarked, Fs, Tabled, SameFile, IsDir, Bindings, DirOk, Live, Relinked, Links,
         BitsMinus;
    assert p != ino;
    if Links(nodes[ino]) == 1 {
      assert Live(g, v.d, ino) <==> ino in (nodes - {ino})[p := p'];
    } else {
      assert Live(g, v.d, ino) <==> ino in nodes[ino := n][p := p'];
    }
  }

  /** A directory made as `name` in `p` and unlinked again. */
  ghost predicate DirStory(g: Geom, v0: Vol, v1: Vol, v2: Vol, nodes: Nodes, p: nat, p1: Inode, p2: Inode, name: Name,
      ino: nat, now: nat, b: nat, pb: nat, n: Inode)
  {
    && GeomOk(g) && now < TWO32 && b < TWO32
    && Rmdired(g, v1, v2, nodes[ino := NewDir(g, now, b)][p := p1], p, p2, name, ino, n)
    && MadeDir(g, v0, v1, nodes, p, p1, name, ino, now, b, pb)
  }

  /** The parent binds what it bound and counts the links it counted, but inode and block are in use. */
  ghost predicate Leaked(g: Geom, v: Vol, w: Vol, n0: Inode, n2: Inode, ino: nat, b: nat) {
    && DiskOk(g, v.d) && DiskOk(g, w.d) && DirOk(g, v.d, n0) && DirOk(g, w.d, n2) && Links(n2) == Links(n0)
    && Bindings(Entries(g, w.d, n2)) == Bindings(Entries(g, v.d, n0))
    && !Live(g, v.d, ino) && Live(g, w.d, ino) && InRange(g, b) && !Used(g, v.d, b) && Used(g, w.d, b)
  }

  /** mkdir followed by unlink of the new directory: the name is gone and the parent has its link
      count back, but the inode and its block stay in use. */
  lemma MkdirUnlinkLeaks(g: Geom, v0: Vol, v1: Vol, v2: Vol, nodes: Nodes, p: nat, p1: Inode, p2: Inode, name: Name,
      ino: nat, now: nat, b: nat, pb: nat, n: Inode)
    requires DirStory(g, v0, v1, v2, nodes, p, p1, p2, name, ino, now, b, pb, n)
    ensures p in nodes && Leaked(g, v0, v2, nodes[p], p2, ino, b) && Links(n) == 1
  {
    hide Marked, TableEnd, Counted, MetaMarked, Trees, DirsOk, Tabled, SameFile, IsDir, Bindings, DirOk, Live, Relinked,
         BitsMinus, NewDir, Used;
    var m := nodes[ino := NewDir(g, now, b)][p := p1];
    assert m[ino] == NewDir(g, now, b) && m[p] == p1;
    NewDirLinks(g, now, b);
    FreedIffOneLink(g, v1, v2, m, p, p2, name, ino, n);
    UsedSame(g, v1.d, v2.d, b);
    assert Live(g, v0.d, ino) <==> ino in nodes;
    LinksBack(Links(nodes[p]), Links(p1), Links(p2));
    assert Bindings(Entries(g, v0.d, nodes[p]))[name := ino] - {name} == Bindings(Entries(g, v0.d, nodes[p]));
  }

  lemma LinksBack(a: nat, b: nat, c: nat)
    requires a < TWO16 && b == (a + 1) % TWO16 && c == (b + TWO16 - 1) % TWO16
    ensures c == a
  {
    if a + 1 < TWO16 { assert b == a + 1; } else { assert b == 0; }
  }
}
