/** The file system as its users see it: a map from inodes to directories and files.  Every
    operation of the driver is one simple step on this map, and so is every run. */
module Ext2Model {
  import opened DiskBytes
  import opened Ext2Layout
  import opened Ext2Trees
  import opened Ext2Alloc
  import opened Ext2Files
  import opened Ext2Writing
  import opened Ext2Volume
  import opened Ext2Dirents
  import opened Ext2Dirs
  import opened Ext2Fs
  import opened Ext2Names
  import opened Ext2Paths
  import opened Ext2Mkdir
  import opened Ext2Rmdir

  // ---- the map -------------------------------------------------------------

  datatype Obj = DirObj(names: map<Name, nat>, links: nat) | FileObj(data: seq<Octet>, links: nat)

  type Model = map<nat, Obj>

  ghost function ObjOf(g: Geom, d: Disk, n: Inode): Obj
    requires DiskOk(g, d)
  {
    if IsDir(n) then DirObj(if DirOk(g, d, n) then Bindings(Entries(g, d, n)) else map[], Links(n))
        else FileObj(Contents(g, d, n), Links(n))
  }

  ghost function View(g: Geom, d: Disk, nodes: Nodes): Model
    requires DiskOk(g, d)
  {
    map i | i in nodes :: ObjOf(g, d, nodes[i])
  }

  /** A file whose blocks are untouched looks the same. */
  lemma ObjSame(g: Geom, d: Disk, d': Disk, n: Inode)
    requires DiskOk(g, d) && DiskOk(g, d') && SameFile(d, d', n) && (IsDir(n) ==> DirOk(g, d, n))
    ensures ObjOf(g, d', n) == ObjOf(g, d, n)
  {
    hide SameFile, DirOk, IsDir, Bindings, ReadFrom, TableEnd;
    if IsDir(n) { DirSame(g, d, d', n); } else { SameRead(g, d, d', n, 0, Size(n)); }
  }

  /** So it does under an inode that differs in its link count only. */
  lemma ObjRelinked(g: Geom, d: Disk, n: Inode, m: Inode)
    requires DiskOk(g, d) && Relinked(n, m) && (IsDir(n) ==> DirOk(g, d, n))
    ensures ObjOf(g, d, m) == ObjOf(g, d, n).(links := Links(m))
  {
    hide DirOk, IsDir, IsRegular, Bindings, ReadFrom, TableEnd, SamePointers, Get16, Get32;
    if IsDir(n) { DirRenamed(g, d, n, m); } else { RenamedRead(g, d, n, m, 0, Size(n)); }
  }

  lemma NodeDir(g: Geom, v: Vol, nodes: Nodes, i: nat)
    requires Fs(g, v, nodes) && i in nodes
    ensures IsDir(nodes[i]) ==> DirOk(g, v.d, nodes[i])
  {
    assert DirNode(g, v.d, nodes[i]);
  }

  /** An inode as it was shows as it did. */
  lemma ViewSame(g: Geom, v: Vol, v': Vol, nodes: Nodes, nodes': Nodes, i: nat)
    requires Fs(g, v, nodes) && DiskOk(g, v'.d) && i in nodes && i in nodes' && nodes'[i] == nodes[i]
    requires SameFile(v.d, v'.d, nodes[i])
    ensures View(g, v'.d, nodes')[i] == View(g, v.d, nodes)[i]
  {
    hide DirOk, IsDir, ObjOf, SameFile, Fs;
    NodeDir(g, v, nodes, i);
    FsDisk(g, v, nodes);
    ObjSame(g, v.d, v'.d, nodes[i]);
  }

  lemma FsDisk(g: Geom, v: Vol, nodes: Nodes)
    requires Fs(g, v, nodes)
    ensures DiskOk(g, v.d) && |v.sb| == SB_BYTES
  {
  }

  // ---- the steps -----------------------------------------------------------

  predicate Holds(m: Model, p: nat, name: Name) { p in m && m[p].DirObj? && name in m[p].names }

  /** `name` in `p` now means `ino`. */
  function Bound(m: Model, p: nat, name: Name, ino: nat): (r: Model) {
    if p in m && m[p].DirObj? then m[p := m[p].(names := m[p].names[name := ino])] else m
  }

  function Unbinding(m: Model, p: nat, name: Name): (r: Model) {
    if p in m && m[p].DirObj? then m[p := m[p].(names := m[p].names - {name})] else m
  }

  function Counting(m: Model, i: nat, k: nat): (r: Model) {
    if i in m then m[i := m[i].(links := k)] else m
  }

  function LinksOf(m: Model, i: nat): nat { if i in m then m[i].links else 0 }

  function AddFile(m: Model, p: nat, name: Name, ino: nat): (r: Model) { Bound(m[ino := FileObj([], 1)], p, name, ino) }

  function AddDir(m: Model, p: nat, name: Name, ino: nat): (r: Model) {
    Bound(Counting(m, p, (LinksOf(m, p) + 1) % TWO16)[ino := DirObj(map[DOT := ino, DOTDOT := p], 2)], p, name, ino)
  }

  function Overwrite(m: Model, ino: nat, data: seq<Octet>): (r: Model) {
    if ino in m && m[ino].FileObj? then m[ino := m[ino].(data := data)] else m
  }

  /** One link less; with the last one the object goes. */
  function Released1(m: Model, ino: nat): (r: Model) {
    if LinksOf(m, ino) == 1 then m - {ino}
        else Counting(m, ino, if LinksOf(m, ino) == 0 then 0 else LinksOf(m, ino) - 1)
  }

  function RemoveFile(m: Model, p: nat, name: Name, ino: nat): (r: Model) { Unbinding(Released1(m, ino), p, name) }

  function RemoveDir(m: Model, p: nat, name: Name, ino: nat): (r: Model) {
    Unbinding(Counting(Released1(m, ino), p, (LinksOf(m, p) + TWO16 - 1) % TWO16), p, name)
  }

  /** A directory unlinked by its own name; with its last link it goes, whatever names it elsewhere. */
  function RemoveSelf(m: Model, p: nat, name: Name): (r: Model) {
    if LinksOf(m, p) == 1 then m - {p}
    else Unbinding(Counting(m, p, (LinksOf(m, p) + TWO16 - 1) % TWO16), p, name)
  }

  // ---- each operation is its step ------------------------------------------

  lemma NewFileObj(g: Geom, d: Disk, now: nat)
    requires DiskOk(g, d) && now < TWO32
    ensures ObjOf(g, d, NewFile(now)) == FileObj([], 1)
  {
    hide NewFile, IsDir, DirOk;
    NewFileFields(now);
    ReadNothing(g, d, NewFile(now), 0);
  }

  lemma GrewObj(g: Geom, d: Disk, d': Disk, n: Inode, n': Inode, name: Name, ino: nat)
    requires DiskOk(g, d) && DiskOk(g, d') && IsDir(n') && DirOk(g, d, n) && DirOk(g, d', n') && OnlyGrew(n, n')
    requires Bindings(Entries(g, d', n')) == Bindings(Entries(g, d, n))[name := ino]
    ensures ObjOf(g, d', n') == DirObj(Bindings(Entries(g, d, n))[name := ino], Links(n))
  {
    hide DirOk, IsDir, Bindings, TableEnd;
    assert n'[26] == n[26] && n'[27] == n[27];
  }

  lemma DirIs(g: Geom, d: Disk, n: Inode)
    requires DiskOk(g, d) && IsDir(n) && DirOk(g, d, n)
    ensures ObjOf(g, d, n) == DirObj(Bindings(Entries(g, d, n)), Links(n))
  {
  }

  lemma CreatedIs(g: Geom, v0: Vol, v: Vol, nodes: Nodes, nodes': Nodes, p: nat, p': Inode, name: Name, ino: nat,
      now: nat, pb: nat)
    requires DiskOk(g, v0.d) && DiskOk(g, v.d) && now < TWO32 && nodes' == nodes[ino := NewFile(now)][p := p']
    requires Created(g, v0, v, nodes, p, p', name, ino, now, pb)
    ensures View(g, v.d, nodes') == AddFile(View(g, v0.d, nodes), p, name, ino)
    ensures p in nodes && ino !in nodes && View(g, v0.d, nodes)[p].DirObj? && !Holds(View(g, v0.d, nodes), p, name)
  {
    hide Marked, TableEnd, Counted, MetaMarked, Trees, DirsOk, SameFile, InodeAt, IsDir, Tabled, Bindings, DirOk, Live,
         OnlyGrew, NewFile, ObjOf, BitsPlus, LiveSet;
    var a, b := View(g, v.d, nodes'), AddFile(View(g, v0.d, nodes), p, name, ino);
    GrewObj(g, v0.d, v.d, nodes[p], p', name, ino);
    DirIs(g, v0.d, nodes[p]);
    NewFileObj(g, v.d, now);
    forall i | i in nodes' ensures a[i] == b[i] {
      if i != p && i != ino { ViewSame(g, v0, v, nodes, nodes', i); }
    }
    assert a.Keys == b.Keys;
  }

  lemma NewDirObj(g: Geom, d: Disk, now: nat, b: nat, ino: nat, p: nat)
    requires DiskOk(g, d) && now < TWO32 && b < TWO32 && DirOk(g, d, NewDir(g, now, b))
    requires Bindings(Entries(g, d, NewDir(g, now, b))) == map[DOT := ino, DOTDOT := p]
    ensures ObjOf(g, d, NewDir(g, now, b)) == DirObj(map[DOT := ino, DOTDOT := p], 2)
  {
    hide NewDir, DirOk, Bindings;
    NewDirFields(g, now, b);
    NewDirLinks(g, now, b);
  }

  lemma MadeDirIs(g: Geom, v0: Vol, v: Vol, nodes: Nodes, nodes': Nodes, p: nat, p': Inode, name: Name, ino: nat,
      now: nat, b: nat, pb: nat)
    requires DiskOk(g, v0.d) && DiskOk(g, v.d) && now < TWO32 && b < TWO32
    requires nodes' == nodes[ino := NewDir(g, now, b)][p := p']
    requires MadeDir(g, v0, v, nodes, p, p', name, ino, now, b, pb)
    ensures View(g, v.d, nodes') == AddDir(View(g, v0.d, nodes), p, name, ino)
    ensures p in nodes && ino !in nodes && View(g, v0.d, nodes)[p].DirObj? && !Holds(View(g, v0.d, nodes), p, name)
  {
    hide Marked, TableEnd, Counted, MetaMarked, Trees, DirsOk, SameFile, InodeAt, IsDir, Tabled, Bindings, DirOk, Live,
         NewDir, ObjOf, BitsPlusTwo, LiveSet, Get16;
    var a, b' := View(g, v.d, nodes'), AddDir(View(g, v0.d, nodes), p, name, ino);
    DirIs(g, v.d, p');
    DirIs(g, v0.d, nodes[p]);
    NewDirObj(g, v.d, now, b, ino, p);
    forall i | i in nodes' ensures a[i] == b'[i] {
      if i != p && i != ino { ViewSame(g, v0, v, nodes, nodes', i); }
    }
    assert a.Keys == b'.Keys;
  }

  /** A write to a regular file. */
  lemma WroteIs(g: Geom, v: Vol, w: Vol, nodes: Nodes, ino: nat, n: Inode, data: seq<Octet>)
    requires DiskOk(g, v.d) && DiskOk(g, w.d) && Rest(g, v, nodes) && WroteFile(g, v, w, ino, n, data) && ino in nodes
    requires IsRegular(nodes[ino])
    ensures View(g, w.d, nodes[ino := n]) == Overwrite(View(g, v.d, nodes), ino, data)
    ensures Rest(g, w, nodes[ino := n]) && View(g, v.d, nodes)[ino].FileObj?
  {
    hide Marked, TableEnd, Counted, MetaMarked, Trees, DirsOk, SameFile, InodeAt, IsDir, IsRegular, Tabled, Bindings,
         DirOk, Live, ObjOf, LiveSet, NodesOf, Contents, InodeKept, Grown;
    RestNodes(g, v, nodes);
    WriteKeepsNames(g, v, w, ino, n, data);
    NodesRest(g, w);
    var nodes' := nodes[ino := n];
    var a, b := View(g, w.d, nodes'), Overwrite(View(g, v.d, nodes), ino, data);
    WroteObj(g, v, w, nodes, ino, n, data);
    forall i | i in nodes' ensures a[i] == b[i] {
      if i != ino { ViewSame(g, v, w, nodes, nodes', i); }
    }
    assert a.Keys == b.Keys;
  }

  lemma WroteObj(g: Geom, v: Vol, w: Vol, nodes: Nodes, ino: nat, n: Inode, data: seq<Octet>)
    requires DiskOk(g, v.d) && DiskOk(g, w.d) && Fs(g, v, nodes) && ino in nodes && IsRegular(nodes[ino])
    requires InodeKept(nodes[ino], n) && Contents(g, w.d, n) == data
    ensures ObjOf(g, v.d, nodes[ino]) == FileObj(Contents(g, v.d, nodes[ino]), Links(n))
    ensures ObjOf(g, w.d, n) == FileObj(data, Links(n))
  {
    hide Marked, TableEnd, Counted, MetaMarked, Trees, IsDir, IsRegular, DirOk, InodeKept, Contents;
    assert DirNode(g, v.d, nodes[ino]);
    ModeKept(nodes[ino], n);
  }

  // ---- removal -------------------------------------------------------------

  lemma UnlinkedIs(g: Geom, v0: Vol, v: Vol, nodes: Nodes, left: Nodes, p: nat, name: Name, ino: nat)
    requires DiskOk(g, v0.d) && DiskOk(g, v.d) && Unlinked(g, v0, v, nodes, left, p, name, ino) && !IsDir(nodes[ino])
    requires FileLeft(nodes, left, ino)
    ensures View(g, v.d, left) == RemoveFile(View(g, v0.d, nodes), p, name, ino)
    ensures View(g, v0.d, nodes)[p].DirObj? && View(g, v0.d, nodes)[ino].FileObj?
  {
    hide Marked, TableEnd, Counted, MetaMarked, Trees, DirsOk, SameFile, InodeAt, IsDir, Tabled, Bindings, DirOk, Live,
         ObjOf, LiveSet, Relinked, Get16;
    var a, b := View(g, v.d, left), RemoveFile(View(g, v0.d, nodes), p, name, ino);
    DirIs(g, v.d, nodes[p]);
    DirIs(g, v0.d, nodes[p]);
    FileIs(g, v0.d, nodes[ino]);
    if ino in left { KeptObj(g, v0, v, nodes, ino, left[ino]); }
    forall i | i in left ensures i in b && a[i] == b[i] {
      if i != p && i != ino { ViewSame(g, v0, v, nodes, left, i); }
    }
    assert a.Keys == b.Keys;
  }

  /** What is left of the inodes after `ino` lost one link. */
  ghost predicate FileLeft(nodes: Nodes, left: Nodes, ino: nat) {
    && ino in nodes && (ino !in left <==> Links(nodes[ino]) == 1) && (forall i :: i in left ==> i in nodes)
    && (ino in left ==> Links(left[ino]) == if Links(nodes[ino]) == 0 then 0 else Links(nodes[ino]) - 1)
  }

  lemma FileIs(g: Geom, d: Disk, n: Inode)
    requires DiskOk(g, d) && !IsDir(n)
    ensures ObjOf(g, d, n) == FileObj(Contents(g, d, n), Links(n))
  {
  }

  /** The object keeps everything but its link count. */
  lemma KeptObj(g: Geom, v0: Vol, v: Vol, nodes: Nodes, ino: nat, n: Inode)
    requires Fs(g, v0, nodes) && DiskOk(g, v.d) && ino in nodes && Relinked(nodes[ino], n)
    requires SameFile(v0.d, v.d, nodes[ino])
    ensures ObjOf(g, v.d, n) == ObjOf(g, v0.d, nodes[ino]).(links := Links(n))
  {
    hide IsDir, DirOk, ObjOf, SameFile, Relinked, Trees, DirsOk, Counted, MetaMarked, Get16;
    NodeDir(g, v0, nodes, ino);
    if IsDir(nodes[ino]) { DirSame(g, v0.d, v.d, nodes[ino]); }
    ObjSame(g, v0.d, v.d, nodes[ino]);
    ObjRelinked(g, v.d, nodes[ino], n);
  }

  lemma RmdiredIs(g: Geom, v0: Vol, v: Vol, nodes: Nodes, p: nat, p': Inode, name: Name, ino: nat, n: Inode)
    requires DiskOk(g, v0.d) && DiskOk(g, v.d) && Rmdired(g, v0, v, nodes, p, p', name, ino, n) && IsDir(nodes[ino])
    ensures View(g, v.d, DirLeft(nodes, p, p', ino, n)) == RemoveDir(View(g, v0.d, nodes), p, name, ino)
    ensures Rest(g, v, DirLeft(nodes, p, p', ino, n)) && p in nodes && View(g, v0.d, nodes)[p].DirObj?
    ensures View(g, v0.d, nodes)[ino].DirObj?
  {
    hide Marked, TableEnd, Counted, MetaMarked, Trees, DirsOk, SameFile, InodeAt, IsDir, Tabled, Bindings, DirOk, Live,
         ObjOf, LiveSet, Relinked, Get16, BitsMinus;
    var left := DirLeft(nodes, p, p', ino, n);
    var a, b := View(g, v.d, left), RemoveDir(View(g, v0.d, nodes), p, name, ino);
    DirIs(g, v.d, p');
    DirIs(g, v0.d, nodes[p]);
    assert ObjOf(g, v0.d, nodes[ino]).DirObj? && ObjOf(g, v0.d, nodes[ino]).links == Links(nodes[ino]) by {
      NodeDir(g, v0, nodes, ino); DirIs(g, v0.d, nodes[ino]);
    }
    if ino in left { KeptObj(g, v0, v, nodes, ino, n); }
    forall i | i in left ensures i in b && a[i] == b[i] {
      if i != p && i != ino { ViewSame(g, v0, v, nodes, left, i); }
    }
    assert a.Keys == b.Keys;
  }

  ghost function DirLeft(nodes: Nodes, p: nat, p': Inode, ino: nat, n: Inode): Nodes {
    if ino in nodes && Links(nodes[ino]) == 1 then (nodes - {ino})[p := p'] else nodes[ino := n][p := p']
  }

  /** What is left of the inodes after directory `p` was unlinked by its own name. */
  ghost function SelfLeft(nodes: Nodes, p: nat, n: Inode): Nodes {
    if p in nodes && Links(nodes[p]) == 1 then nodes - {p} else nodes[p := n]
  }

  ghost predicate SelfStepBy(g: Geom, v0: Vol, nodes: Nodes, p: nat, name: Name, v: Vol, n: Inode) {
    p in nodes && if Links(nodes[p]) == 1 then SelfFreed(g, v0, v, nodes, p, n)
        else SelfUnlinked(g, v0, v, nodes, p, n, name)
  }

  lemma SelfIs(g: Geom, v0: Vol, v: Vol, nodes: Nodes, p: nat, n: Inode, name: Name)
    requires DiskOk(g, v0.d) && DiskOk(g, v.d) && SelfStepBy(g, v0, nodes, p, name, v, n)
    ensures View(g, v.d, SelfLeft(nodes, p, n)) == RemoveSelf(View(g, v0.d, nodes), p, name)
    ensures p in nodes && View(g, v0.d, nodes)[p].DirObj?
  {
    hide Marked, TableEnd, Counted, MetaMarked, Trees, DirsOk, SameFile, InodeAt, IsDir, Tabled, Bindings, DirOk, Live,
         ObjOf, LiveSet, Get16, BitsMinus, SamePointers;
    var left := SelfLeft(nodes, p, n);
    var a, b := View(g, v.d, left), RemoveSelf(View(g, v0.d, nodes), p, name);
    if Links(nodes[p]) != 1 { DirIs(g, v.d, n); }
    DirIs(g, v0.d, nodes[p]);
    forall i | i in left ensures i in b && a[i] == b[i] {
      if i != p { ViewSame(g, v0, v, nodes, left, i); }
    }
    assert a.Keys == b.Keys;
  }
}
