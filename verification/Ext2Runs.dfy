/** Sequences of create, mkdir, write and unlink: the disk follows the map, and no name dangles. */
module Ext2Runs {
  import opened DiskBytes
  import opened Ext2Layout
  import opened Ext2Trees
  import opened Ext2Alloc
  import opened Ext2Files
  import opened Ext2Writing
  import opened Ext2Volume
  import opened Ext2Dirents
  import opened Ext2Dirs
  import opened Ext2Fs
  import opened Ext2Names
  import opened Ext2Paths
  import opened Ext2Mkdir
  import opened Ext2Rmdir
  import opened Ext2Model
  import opened Ext2Walks

  // ---- steps ---------------------------------------------------------------

  /** `name` in the directory `p` that the path `at` leads to; `SelfOp` unlinks that directory by its
      own name.  A write that was given up leaves its
      own file with some contents. */
  datatype FsOp =
    | CreateOp(at: seq<Name>, p: nat, name: Name, ino: nat)
    | MkdirOp(at: seq<Name>, p: nat, name: Name, ino: nat)
    | WriteOp(ino: nat, data: seq<Octet>)
    | GiveUpOp(ino: nat, data: seq<Octet>)
    | UnlinkOp(at: seq<Name>, p: nat, name: Name, ino: nat)
    | SelfOp(at: seq<Name>, p: nat, name: Name)
    | FailOp

  function ModelStep(m: Model, op: FsOp): (r: Model) {
    match op
    case CreateOp(at, p, name, ino) => AddFile(m, p, name, ino)
    case MkdirOp(at, p, name, ino) => AddDir(m, p, name, ino)
    case WriteOp(ino, data) => Overwrite(m, ino, data)
    case GiveUpOp(ino, data) => Overwrite(m, ino, data)
    case UnlinkOp(at, p, name, ino) => Removed1(m, p, name, ino)
    case SelfOp(at, p, name) => RemoveSelf(m, p, name)
    case FailOp => m
  }

  function Removed1(m: Model, p: nat, name: Name, ino: nat): (r: Model) {
    if ino in m && m[ino].DirObj? then RemoveDir(m, p, name, ino) else RemoveFile(m, p, name, ino)
  }

  // From volume `v` with inodes `nodes` to `v'` with `nodes'`: what the driver's calls promise.

  ghost predicate CreateStep(g: Geom, v: Vol, nodes: Nodes, p: nat, name: Name, ino: nat, v': Vol, nodes': Nodes) {
    exists p': Inode, now: nat, pb: nat {:trigger Created(g, v, v', nodes, p, p', name, ino, now, pb)} ::
      now < TWO32 && Created(g, v, v', nodes, p, p', name, ino, now, pb)
          && nodes' == nodes[ino := NewFile(now)][p := p']
  }

  ghost predicate MkdirStep(g: Geom, v: Vol, nodes: Nodes, p: nat, name: Name, ino: nat, v': Vol, nodes': Nodes) {
    GeomOk(g) && exists p': Inode, now: nat, b: nat,
        pb: nat {:trigger MadeDir(g, v, v', nodes, p, p', name, ino, now, b, pb)} ::
      now < TWO32 && b < TWO32 && MadeDir(g, v, v', nodes, p, p', name, ino, now, b, pb)
          && nodes' == nodes[ino := NewDir(g, now, b)][p := p']
  }

  ghost predicate WriteStep(g: Geom, v: Vol, nodes: Nodes, ino: nat, data: seq<Octet>, v': Vol, nodes': Nodes) {
    && ino in nodes && IsRegular(nodes[ino]) && Rest(g, v, nodes)
    && exists n: Inode {:trigger WroteFile(g, v, v', ino, n, data)} ::
         WroteFile(g, v, v', ino, n, data) && nodes' == nodes[ino := n]
  }

  ghost predicate GiveUpStep(g: Geom, v: Vol, nodes: Nodes, ino: nat, data: seq<Octet>, v': Vol, nodes': Nodes) {
    && ino in nodes && IsRegular(nodes[ino]) && DiskOk(g, v'.d) && Others(v.d, v'.d, nodes, ino)
    && nodes' == nodes && Contents(g, v'.d, nodes[ino]) == data
    && Rest(g, v, nodes) && Rest(g, v', nodes)
  }

  ghost predicate UnlinkStep(g: Geom, v: Vol, nodes: Nodes, p: nat, name: Name, ino: nat, v': Vol, nodes': Nodes) {
    && DiskOk(g, v.d) && ino in nodes && ino != 0 && Step(g, v.d, nodes, p, name) == ino && Rest(g, v, nodes)
    && if IsDir(nodes[ino]) then DirOk(g, v.d, nodes[ino]) && OnlyDots(Entries(g, v.d, nodes[ino]))
         && RmdirStep(g, v, nodes, p, name, ino, v', nodes')
       else Unlinked(g, v, v', nodes, nodes', p, name, ino) && FileLeft(nodes, nodes', ino)
  }

  ghost predicate RmdirStep(g: Geom, v: Vol, nodes: Nodes, p: nat, name: Name, ino: nat, v': Vol, nodes': Nodes) {
    ino in nodes && exists p': Inode, n: Inode {:trigger Rmdired(g, v, v', nodes, p, p', name, ino, n)} ::
      Rmdired(g, v, v', nodes, p, p', name, ino, n) && nodes' == DirLeft(nodes, p, p', ino, n)
  }

  ghost predicate SelfUnlinkStep(g: Geom, v: Vol, nodes: Nodes, p: nat, name: Name, v': Vol, nodes': Nodes) {
    && DiskOk(g, v.d) && p in nodes && IsDir(nodes[p]) && Step(g, v.d, nodes, p, name) == p && DirOk(g, v.d, nodes[p])
    && OnlyDots(Entries(g, v.d, nodes[p]))
    && exists n: Inode {:trigger SelfStepBy(g, v, nodes, p, name, v', n)} ::
         SelfStepBy(g, v, nodes, p, name, v', n) && nodes' == SelfLeft(nodes, p, n)
  }

  ghost predicate FsStep(g: Geom, v: Vol, nodes: Nodes, op: FsOp, v': Vol, nodes': Nodes) {
    match op
    case CreateOp(at, p, name, ino) => Placed(g, v, nodes, at, p, name)
        && CreateStep(g, v, nodes, p, name, ino, v', nodes')
    case MkdirOp(at, p, name, ino) => Placed(g, v, nodes, at, p, name)
        && MkdirStep(g, v, nodes, p, name, ino, v', nodes')
    case WriteOp(ino, data) => WriteStep(g, v, nodes, ino, data, v', nodes')
    case GiveUpOp(ino, data) => GiveUpStep(g, v, nodes, ino, data, v', nodes')
    case UnlinkOp(at, p, name, ino) => Placed(g, v, nodes, at, p, name)
        && UnlinkStep(g, v, nodes, p, name, ino, v', nodes')
    case SelfOp(at, p, name) => Placed(g, v, nodes, at, p, name) && SelfUnlinkStep(g, v, nodes, p, name, v', nodes')
    case FailOp => Unchanged(g, v, v', nodes) && nodes' == nodes
  }

  /** The path `at` is walkable and leads to `p`. */
  ghost predicate Placed(g: Geom, v: Vol, nodes: Nodes, at: seq<Name>, p: nat, name: Name) {
    DiskOk(g, v.d) && Walkable(g, v.d, nodes, ROOT_INO, at) && Walk(g, v.d, nodes, ROOT_INO, at) == p && p != 0
        && |name| < MAX_FILENAME
  }

  predicate Site(m: Model, at: seq<Name>, p: nat, name: Name) {
    Passable(m, ROOT_INO, at) && Look(m, ROOT_INO, at) == p && p != 0 && |name| < MAX_FILENAME
  }

  /** The name in `p` means `ino`, and a directory to be removed holds its two dots only. */
  predicate CanRemove(m: Model, p: nat, name: Name, ino: nat) {
    && ino in m && ino != 0 && p != ino && p in m && m[p].DirObj? && Next(m, p, name) == ino
    && (m[ino].DirObj? ==> m[ino].names.Keys <= {DOT, DOTDOT})
  }

  /** What the map guarantees of the step. */
  ghost predicate CanStep(m: Model, op: FsOp) {
    match op
    case CreateOp(at, p, name, ino) => Site(m, at, p, name) && CanAdd(m, p, name, ino)
    case MkdirOp(at, p, name, ino) => Site(m, at, p, name) && CanAdd(m, p, name, ino)
    case WriteOp(ino, _) => ino in m && m[ino].FileObj?
    case GiveUpOp(ino, _) => ino in m && m[ino].FileObj?
    case UnlinkOp(at, p, name, ino) => Site(m, at, p, name) && CanRemove(m, p, name, ino)
    case SelfOp(at, p, name) => Site(m, at, p, name) && p in m && m[p].DirObj? && Next(m, p, name) == p
        && m[p].names.Keys <= {DOT, DOTDOT}
    case FailOp => true
  }

  lemma CreateView(g: Geom, v: Vol, nodes: Nodes, p: nat, name: Name, ino: nat, v': Vol, nodes': Nodes)
    requires CreateStep(g, v, nodes, p, name, ino, v', nodes')
    ensures Rest(g, v, nodes) && Rest(g, v', nodes') && DiskOk(g, v.d) && DiskOk(g, v'.d)
    ensures View(g, v'.d, nodes') == AddFile(View(g, v.d, nodes), p, name, ino)
    ensures CanAdd(View(g, v.d, nodes), p, name, ino)
  {
    hide Created, NewFile, View, AddFile, Rest, DiskOk;
    var p': Inode, now: nat, pb: nat :| now < TWO32 && Created(g, v, v', nodes, p, p', name, ino, now, pb)
        && nodes' == nodes[ino := NewFile(now)][p := p'];
    CreatedIno(g, v, v', nodes, p, p', name, ino, now, pb);
    RestDisk(g, v, nodes);
    RestDisk(g, v', nodes');
    CreatedIs(g, v, v', nodes, nodes', p, p', name, ino, now, pb);
    ViewKeys(g, v.d, nodes, p);
    ViewKeys(g, v.d, nodes, ino);
  }

  lemma CreatedIno(g: Geom, v: Vol, v': Vol, nodes: Nodes, p: nat, p': Inode, name: Name, ino: nat, now: nat, pb: nat)
    requires now < TWO32 && Created(g, v, v', nodes, p, p', name, ino, now, pb)
    ensures ino != 0 && Rest(g, v, nodes) && Rest(g, v', nodes[ino := NewFile(now)][p := p'])
  {
    hide Rest, IsDir, DirOk, Bindings, OnlyGrew, Others, BitsPlus, NewFile, TableEnd;
  }

  lemma MkdirView(g: Geom, v: Vol, nodes: Nodes, p: nat, name: Name, ino: nat, v': Vol, nodes': Nodes)
    requires MkdirStep(g, v, nodes, p, name, ino, v', nodes')
    ensures Rest(g, v, nodes) && Rest(g, v', nodes') && DiskOk(g, v.d) && DiskOk(g, v'.d)
    ensures View(g, v'.d, nodes') == AddDir(View(g, v.d, nodes), p, name, ino)
    ensures CanAdd(View(g, v.d, nodes), p, name, ino)
  {
    hide MadeDir, NewDir, View, AddDir, Rest, DiskOk, GeomOk;
    var p': Inode, now: nat, b: nat, pb: nat :| now < TWO32 && b < TWO32
        && MadeDir(g, v, v', nodes, p, p', name, ino, now, b, pb) && nodes' == nodes[ino := NewDir(g, now, b)][p := p'];
    MadeIno(g, v, v', nodes, p, p', name, ino, now, b, pb);
    RestDisk(g, v, nodes);
    RestDisk(g, v', nodes');
    MadeDirIs(g, v, v', nodes, nodes', p, p', name, ino, now, b, pb);
    ViewKeys(g, v.d, nodes, p);
    ViewKeys(g, v.d, nodes, ino);
  }

  lemma MadeIno(g: Geom, v: Vol, v': Vol, nodes: Nodes, p: nat, p': Inode, name: Name, ino: nat, now: nat, b: nat,
      pb: nat)
    requires GeomOk(g) && now < TWO32 && b < TWO32 && MadeDir(g, v, v', nodes, p, p', name, ino, now, b, pb)
    ensures ino != 0 && Rest(g, v, nodes) && Rest(g, v', nodes[ino := NewDir(g, now, b)][p := p'])
  {
    hide Rest, IsDir, DirOk, Bindings, Others, BitsPlusTwo, NewDir, Links, TableEnd;
  }

  lemma WriteView(g: Geom, v: Vol, nodes: Nodes, ino: nat, data: seq<Octet>, v': Vol, nodes': Nodes)
    requires WriteStep(g, v, nodes, ino, data, v', nodes')
    ensures Rest(g, v, nodes) && Rest(g, v', nodes') && DiskOk(g, v.d) && DiskOk(g, v'.d)
    ensures View(g, v'.d, nodes') == Overwrite(View(g, v.d, nodes), ino, data) && ino in View(g, v.d, nodes)
    ensures View(g, v.d, nodes)[ino].FileObj?
  {
    hide WroteFile, View, IsRegular, Rest, Overwrite, DiskOk;
    var n: Inode :| WroteFile(g, v, v', ino, n, data) && nodes' == nodes[ino := n];
    RestDisk(g, v, nodes);
    WroteDisk(g, v, v', ino, n, data);
    WroteIs(g, v, v', nodes, ino, n, data);
    ViewKeys(g, v.d, nodes, ino);
  }

  lemma WroteDisk(g: Geom, v: Vol, w: Vol, ino: nat, n: Inode, data: seq<Octet>)
    requires WroteFile(g, v, w, ino, n, data)
    ensures DiskOk(g, w.d)
  {
    hide Trees, Counted, MetaMarked, NodesOf, Others;
  }

  lemma GiveUpView(g: Geom, v: Vol, nodes: Nodes, ino: nat, data: seq<Octet>, v': Vol, nodes': Nodes)
    requires GiveUpStep(g, v, nodes, ino, data, v', nodes')
    ensures DiskOk(g, v.d) && DiskOk(g, v'.d) && Rest(g, v, nodes) && Rest(g, v', nodes')
    ensures View(g, v'.d, nodes') == Overwrite(View(g, v.d, nodes), ino, data) && ino in View(g, v.d, nodes)
    ensures View(g, v.d, nodes)[ino].FileObj?
  {
    hide Trees, DirsOk, Counted, MetaMarked, Tabled, LiveSet, IsDir, IsRegular, ObjOf, SameFile, Contents;
    var n := nodes[ino];
    RegularFile(g, v, nodes, ino);
    FileIs(g, v.d, n);
    FileIs(g, v'.d, n);
    var a, b := View(g, v'.d, nodes), Overwrite(View(g, v.d, nodes), ino, data);
    forall i | i in nodes ensures a[i] == b[i] { if i != ino { ViewSame(g, v, v', nodes, nodes, i); } }
    assert a.Keys == b.Keys;
  }

  lemma RegularFile(g: Geom, v: Vol, nodes: Nodes, i: nat)
    requires Fs(g, v, nodes) && i in nodes && IsRegular(nodes[i])
    ensures !IsDir(nodes[i])
  {
    assert DirNode(g, v.d, nodes[i]);
  }

  lemma UnlinkView(g: Geom, v: Vol, nodes: Nodes, p: nat, name: Name, ino: nat, v': Vol, nodes': Nodes)
    requires UnlinkStep(g, v, nodes, p, name, ino, v', nodes')
    ensures Rest(g, v, nodes) && Rest(g, v', nodes') && DiskOk(g, v.d) && DiskOk(g, v'.d)
    ensures CanRemove(View(g, v.d, nodes), p, name, ino)
    ensures View(g, v'.d, nodes') == Removed1(View(g, v.d, nodes), p, name, ino)
  {
    hide Rmdired, Unlinked, View, FileLeft, DirLeft, IsDir, Step, DiskOk, Rest, DirOk, OnlyDots;
    RestFs(g, v, nodes);
    StepIs(g, v, nodes, p, name);
    ViewKeys(g, v.d, nodes, ino);
    ViewKeys(g, v.d, nodes, p);
    if IsDir(nodes[ino]) {
      var p': Inode, n: Inode :| Rmdired(g, v, v', nodes, p, p', name, ino, n)
          && nodes' == DirLeft(nodes, p, p', ino, n);
      RmdiredApart(g, v, v', nodes, p, p', name, ino, n);
      RmdiredIs(g, v, v', nodes, p, p', name, ino, n);
      DotsOnly(g, v, nodes, ino);
    } else {
      UnlinkedApart(g, v, v', nodes, nodes', p, name, ino);
      RestDisk(g, v', nodes');
      UnlinkedIs(g, v, v', nodes, nodes', p, name, ino);
    }
  }

  lemma SelfView(g: Geom, v: Vol, nodes: Nodes, p: nat, name: Name, v': Vol, nodes': Nodes)
    requires SelfUnlinkStep(g, v, nodes, p, name, v', nodes')
    ensures Rest(g, v, nodes) && Rest(g, v', nodes') && DiskOk(g, v.d) && DiskOk(g, v'.d)
    ensures var m := View(g, v.d, nodes);
            && p in m && m[p].DirObj? && Next(m, p, name) == p && m[p].names.Keys <= {DOT, DOTDOT}
    ensures View(g, v'.d, nodes') == RemoveSelf(View(g, v.d, nodes), p, name)
  {
    hide SelfStepBy, SelfLeft, View, IsDir, Step, DiskOk, Rest, DirOk, OnlyDots, RemoveSelf;
    var n: Inode :| SelfStepBy(g, v, nodes, p, name, v', n) && nodes' == SelfLeft(nodes, p, n);
    SelfRest(g, v, v', nodes, p, n, name);
    RestFs(g, v, nodes);
    RestDisk(g, v', nodes');
    StepIs(g, v, nodes, p, name);
    ViewKeys(g, v.d, nodes, p);
    SelfIs(g, v, v', nodes, p, n, name);
    DotsOnly(g, v, nodes, p);
  }

  lemma SelfRest(g: Geom, v: Vol, v': Vol, nodes: Nodes, p: nat, n: Inode, name: Name)
    requires SelfStepBy(g, v, nodes, p, name, v', n)
    ensures Rest(g, v, nodes) && Rest(g, v', SelfLeft(nodes, p, n))
  {
    hide Rest, IsDir, DirOk, Bindings, Others, Links, BitsMinus, InodeAt, SamePointers;
  }

  lemma DotsOnly(g: Geom, v: Vol, nodes: Nodes, i: nat)
    requires DiskOk(g, v.d) && i in nodes && IsDir(nodes[i]) && DirOk(g, v.d, nodes[i])
    requires OnlyDots(Entries(g, v.d, nodes[i]))
    ensures View(g, v.d, nodes)[i].DirObj? && View(g, v.d, nodes)[i].names.Keys <= {DOT, DOTDOT}
  {
    hide IsDir, DirOk, Entries, Find;
    DirIs(g, v.d, nodes[i]);
    var es := Entries(g, v.d, nodes[i]);
    forall c | c in Bindings(es) ensures c == DOT || c == DOTDOT { var k :| 0 <= k < |es| && es[k].name == c; }
  }

  lemma RmdiredApart(g: Geom, v: Vol, v': Vol, nodes: Nodes, p: nat, p': Inode, name: Name, ino: nat, n: Inode)
    requires Rmdired(g, v, v', nodes, p, p', name, ino, n)
    ensures p != ino && p in nodes && DiskOk(g, v'.d)
  {
    hide Rest, IsDir, DirOk, Bindings, BitsMinus, Relinked, SameFile, DiskOk;
  }

  lemma UnlinkedApart(g: Geom, v: Vol, v': Vol, nodes: Nodes, left: Nodes, p: nat, name: Name, ino: nat)
    requires Unlinked(g, v, v', nodes, left, p, name, ino)
    ensures p != ino && p in nodes && Rest(g, v', left)
  {
    hide Rest, IsDir, DirOk, Bindings, Relinked, SameFile;
  }

  lemma RestFs(g: Geom, v: Vol, nodes: Nodes)
    requires Rest(g, v, nodes)
    ensures Fs(g, v, nodes) && DiskOk(g, v.d) && Tabled(g, v.d, nodes)
  {
    hide Trees, DirsOk, Counted, MetaMarked, LiveSet, Tabled;
  }

  /** The sound file system has no inode zero. */
  lemma RestDisk(g: Geom, v: Vol, nodes: Nodes)
    requires Rest(g, v, nodes)
    ensures DiskOk(g, v.d) && 0 !in nodes
  {
    hide Trees, DirsOk, Counted, MetaMarked, LiveSet, InodeAt;
    forall i | i in nodes ensures i != 0 { InTable(g, v.d, nodes, i); }
  }

  lemma FailView(g: Geom, v: Vol, nodes: Nodes, v': Vol)
    requires Unchanged(g, v, v', nodes)
    ensures Rest(g, v, nodes) && Rest(g, v', nodes) && DiskOk(g, v.d) && DiskOk(g, v'.d)
    ensures View(g, v'.d, nodes) == View(g, v.d, nodes)
  {
    hide Trees, DirsOk, Counted, MetaMarked, Tabled, LiveSet, ObjOf, SameFile, BitsPlus;
    var a, b := View(g, v'.d, nodes), View(g, v.d, nodes);
    forall i | i in nodes ensures a[i] == b[i] { ViewSame(g, v, v', nodes, nodes, i); }
    assert a.Keys == b.Keys;
  }

  lemma PlacedSite(g: Geom, v: Vol, nodes: Nodes, at: seq<Name>, p: nat, name: Name)
    requires Rest(g, v, nodes) && Placed(g, v, nodes, at, p, name)
    ensures Site(View(g, v.d, nodes), at, p, name)
  {
    hide Rest, DiskOk, View;
    RestFs(g, v, nodes);
    WalkIs(g, v, nodes, ROOT_INO, at);
  }

  /** Each call of the driver is its step on the map, and the file system stays well formed. */
  lemma StepView(g: Geom, v: Vol, nodes: Nodes, op: FsOp, v': Vol, nodes': Nodes)
    requires FsStep(g, v, nodes, op, v', nodes')
    ensures Rest(g, v, nodes) && Rest(g, v', nodes') && DiskOk(g, v.d) && DiskOk(g, v'.d)
    ensures View(g, v'.d, nodes') == ModelStep(View(g, v.d, nodes), op) && CanStep(View(g, v.d, nodes), op)
  {
    hide CreateStep, MkdirStep, WriteStep, GiveUpStep, UnlinkStep, SelfUnlinkStep, RemoveSelf, Unchanged, Rest, View,
         DiskOk, AddFile, AddDir, RemoveFile, RemoveDir, Overwrite, Placed, Site, CanAdd, CanRemove;
    match op
    case CreateOp(at, p, name, ino) => CreateView(g, v, nodes, p, name, ino, v', nodes'); PlacedSite(g, v, nodes, at, p,
        name);
    case MkdirOp(at, p, name, ino) => MkdirView(g, v, nodes, p, name, ino, v', nodes'); PlacedSite(g, v, nodes, at, p,
        name);
    case WriteOp(ino, data) => WriteView(g, v, nodes, ino, data, v', nodes');
    case GiveUpOp(ino, data) => GiveUpView(g, v, nodes, ino, data, v', nodes');
    case UnlinkOp(at, p, name, ino) => UnlinkView(g, v, nodes, p, name, ino, v', nodes'); PlacedSite(g, v, nodes, at, p,
        name);
    case SelfOp(at, p, name) => SelfView(g, v, nodes, p, name, v', nodes'); PlacedSite(g, v, nodes, at, p, name);
    case FailOp => FailView(g, v, nodes, v');
  }

  // ---- paths ---------------------------------------------------------------

  /** What resolve_path computes, on the map. */
  function Found(m: Model, path: Path): nat {
    if path == [] || path[0] != SLASH then 0 else Look(m, ROOT_INO, Components(path))
  }

  lemma ResolvedIs(g: Geom, v: Vol, nodes: Nodes, path: Path)
    requires Rest(g, v, nodes)
    ensures DiskOk(g, v.d) && Resolved(g, v.d, nodes, path) == Found(View(g, v.d, nodes), path)
    ensures Walkable(g, v.d, nodes, ROOT_INO, Components(path)) <==>
              Passable(View(g, v.d, nodes), ROOT_INO, Components(path))
  {
    hide Rest, DiskOk, View, Components;
    RestFs(g, v, nodes);
    WalkIs(g, v, nodes, ROOT_INO, Components(path));
  }

  /** After create or mkdir the new path leads to the new inode, and every path that led somewhere
      leads there still. */
  lemma NewName(g: Geom, v: Vol, nodes: Nodes, op: FsOp, v': Vol, nodes': Nodes, path: Path)
    requires FsStep(g, v, nodes, op, v', nodes') && (op.CreateOp? || op.MkdirOp?)
    requires path != [] && path[0] == SLASH && Components(path) == op.at + [op.name]
    ensures DiskOk(g, v.d) && DiskOk(g, v'.d)
    ensures Resolved(g, v'.d, nodes', path) == op.ino && Walkable(g, v'.d, nodes', ROOT_INO, Components(path))
    ensures Walk(g, v'.d, nodes', ROOT_INO, op.at) == op.p
    ensures forall x: Path {:trigger Resolved(g, v'.d, nodes', x)} ::
              Resolved(g, v.d, nodes, x) != 0 ==> Resolved(g, v'.d, nodes', x) == Resolved(g, v.d, nodes, x)
  {
    hide FsStep, Rest, TableEnd, View, Components, Resolved, AddFile, AddDir, CanAdd;
    StepView(g, v, nodes, op, v', nodes');
    var m, r := View(g, v.d, nodes), View(g, v'.d, nodes');
    AddPaths(m, r, op.p, op.name, op.ino, op.at);
    ResolvedIs(g, v', nodes', path);
    RestFs(g, v', nodes');
    WalkIs(g, v', nodes', ROOT_INO, op.at);
    forall x: Path | Resolved(g, v.d, nodes, x) != 0
      ensures Resolved(g, v'.d, nodes', x) == Resolved(g, v.d, nodes, x)
    {
      ResolvedIs(g, v, nodes, x);
      ResolvedIs(g, v', nodes', x);
    }
  }

  /** Writing changes no path. */
  lemma SameNames(g: Geom, v: Vol, nodes: Nodes, op: FsOp, v': Vol, nodes': Nodes)
    requires FsStep(g, v, nodes, op, v', nodes') && (op.WriteOp? || op.GiveUpOp? || op.FailOp?)
    ensures DiskOk(g, v.d) && DiskOk(g, v'.d)
    ensures forall x: Path {:trigger Resolved(g, v'.d, nodes', x)} ::
              Resolved(g, v'.d, nodes', x) == Resolved(g, v.d, nodes, x)
    ensures forall xs {:trigger Walk(g, v'.d, nodes', ROOT_INO, xs)} ::
              Walk(g, v'.d, nodes', ROOT_INO, xs) == Walk(g, v.d, nodes, ROOT_INO, xs)
    ensures forall x: Path {:trigger Resolved(g, v'.d, nodes', x)} ::
              Resolved(g, v.d, nodes, x) != 0 && Walkable(g, v.d, nodes, ROOT_INO, Components(x)) ==>
                  Walkable(g, v'.d, nodes', ROOT_INO, Components(x))
  {
    hide FsStep, Rest, TableEnd, View, Components, Resolved, Walk, Walkable, Look, Passable, Next, Keeps, Fs;
    StepView(g, v, nodes, op, v', nodes');
    var m, r := View(g, v.d, nodes), View(g, v'.d, nodes');
    WriteKeeps(m, r, op);
    RestFs(g, v, nodes);
    RestFs(g, v', nodes');
    forall xs ensures Walk(g, v'.d, nodes', ROOT_INO, xs) == Walk(g, v.d, nodes, ROOT_INO, xs) {
      WalkIs(g, v, nodes, ROOT_INO, xs);
      WalkIs(g, v', nodes', ROOT_INO, xs);
      if Look(m, ROOT_INO, xs) != 0 { KeepsPaths(m, r, ROOT_INO, xs); }
      if Look(r, ROOT_INO, xs) != 0 { KeepsPaths(r, m, ROOT_INO, xs); }
    }
    forall x: Path ensures Resolved(g, v'.d, nodes', x) == Resolved(g, v.d, nodes, x)
      ensures Resolved(g, v.d, nodes, x) != 0 && Walkable(g, v.d, nodes, ROOT_INO, Components(x)) ==>
                Walkable(g, v'.d, nodes', ROOT_INO, Components(x))
    {
      ResolvedIs(g, v, nodes, x);
      ResolvedIs(g, v', nodes', x);
      if Look(m, ROOT_INO, Components(x)) != 0 { KeepsPaths(m, r, ROOT_INO, Components(x)); }
      if Look(r, ROOT_INO, Components(x)) != 0 { KeepsPaths(r, m, ROOT_INO, Components(x)); }
    }
  }

  lemma WriteKeeps(m: Model, r: Model, op: FsOp)
    requires (op.WriteOp? || op.GiveUpOp? || op.FailOp?) && r == ModelStep(m, op)
    ensures Keeps(m, r) && Keeps(r, m)
  {
  }

  /** The walk uses neither the name taken away nor a directory freed with it. */
  predicate ClearTo(m: Model, xs: seq<Name>, op: FsOp)
    requires op.UnlinkOp?
  {
    Avoids(m, ROOT_INO, xs, op.p, op.name, GoneDir(m, op.ino))
  }

  predicate PathClear(m: Model, x: Path, op: FsOp)
    requires op.UnlinkOp?
  {
    x == [] || x[0] != SLASH || ClearTo(m, Components(x), op)
  }

  /** After unlink every clear path leads where it led, and a path through the lost name, clear up
      to there, leads nowhere. */
  lemma LostName(g: Geom, v: Vol, nodes: Nodes, op: FsOp, v': Vol, nodes': Nodes)
    requires FsStep(g, v, nodes, op, v', nodes') && op.UnlinkOp?
    ensures DiskOk(g, v.d) && DiskOk(g, v'.d)
    ensures forall x: Path {:trigger Resolved(g, v'.d, nodes', x)} ::
              PathClear(View(g, v.d, nodes), x, op) ==> Resolved(g, v'.d, nodes', x) == Resolved(g, v.d, nodes, x)
    ensures forall x: Path, xs, ys: seq<Name> {:trigger Resolved(g, v'.d, nodes', x), xs + [op.name] + ys} ::
              Components(x) == xs + [op.name] + ys && Walk(g, v.d, nodes, ROOT_INO, xs) == op.p
                  && ClearTo(View(g, v.d, nodes), xs, op)
              ==> Resolved(g, v'.d, nodes', x) == 0
  {
    hide FsStep, Rest, TableEnd, View, Components, Resolved, RemoveFile, RemoveDir, Avoids, GoneDir, Look, Passable, Fs;
    StepView(g, v, nodes, op, v', nodes');
    RestDisk(g, v, nodes);
    RestFs(g, v, nodes);
    ViewKeys(g, v.d, nodes, 0);
    var m, r := View(g, v.d, nodes), View(g, v'.d, nodes');
    RemovePaths(m, r, op.p, op.name, op.ino);
    forall x: Path | PathClear(m, x, op) ensures Resolved(g, v'.d, nodes', x) == Resolved(g, v.d, nodes, x) {
      ResolvedIs(g, v, nodes, x);
      ResolvedIs(g, v', nodes', x);
    }
    forall x: Path, xs, ys: seq<Name> | Components(x) == xs + [op.name] + ys
        && Walk(g, v.d, nodes, ROOT_INO, xs) == op.p && ClearTo(m, xs, op)
      ensures Resolved(g, v'.d, nodes', x) == 0
    {
      WalkIs(g, v, nodes, ROOT_INO, xs);
      ResolvedIs(g, v', nodes', x);
    }
  }

  // ---- runs ----------------------------------------------------------------

  ghost predicate FsRun(g: Geom, vs: seq<Vol>, ns: seq<Nodes>, ops: seq<FsOp>) {
    |vs| == |ns| == |ops| + 1 && forall i {:trigger ops[i]} ::
        0 <= i < |ops| ==> FsStep(g, vs[i], ns[i], ops[i], vs[i + 1], ns[i + 1])
  }

  function ModelRun(m: Model, ops: seq<FsOp>): (r: Model) {
    if ops == [] then m else ModelStep(ModelRun(m, ops[..|ops| - 1]), ops[|ops| - 1])
  }

  /** Every step was possible where it was taken. */
  ghost predicate CanRun(m: Model, ops: seq<FsOp>) {
    ops == [] || (CanRun(m, ops[..|ops| - 1]) && CanStep(ModelRun(m, ops[..|ops| - 1]), ops[|ops| - 1]))
  }

  /** Over every sequence of calls the disk holds exactly the file system of the map. */
  lemma {:induction false} DiskFollowsMap(g: Geom, vs: seq<Vol>, ns: seq<Nodes>, ops: seq<FsOp>)
    requires FsRun(g, vs, ns, ops) && Rest(g, vs[0], ns[0])
    ensures Rest(g, vs[|ops|], ns[|ops|]) && DiskOk(g, vs[0].d) && DiskOk(g, vs[|ops|].d)
    ensures View(g, vs[|ops|].d, ns[|ops|]) == ModelRun(View(g, vs[0].d, ns[0]), ops)
    ensures CanRun(View(g, vs[0].d, ns[0]), ops)
  {
    hide FsStep, Rest, View, ModelStep, CanStep;
    RestDisk(g, vs[0], ns[0]);
    if ops != [] {
      var n := |ops| - 1;
      assert FsStep(g, vs[n], ns[n], ops[n], vs[n + 1], ns[n + 1]);
      ShorterRun(g, vs, ns, ops);
      DiskFollowsMap(g, vs[..n + 1], ns[..n + 1], ops[..n]);
      StepView(g, vs[n], ns[n], ops[n], vs[n + 1], ns[n + 1]);
    }
  }

  lemma ShorterRun(g: Geom, vs: seq<Vol>, ns: seq<Nodes>, ops: seq<FsOp>)
    requires FsRun(g, vs, ns, ops) && ops != []
    ensures FsRun(g, vs[..|ops|], ns[..|ops|], ops[..|ops| - 1])
  {
    hide FsStep;
    var n := |ops| - 1;
    forall i | 0 <= i < n
      ensures FsStep(g, vs[..n + 1][i], ns[..n + 1][i], ops[..n][i], vs[..n + 1][i + 1], ns[..n + 1][i + 1])
    {
      assert FsStep(g, vs[i], ns[i], ops[i], vs[i + 1], ns[i + 1]);
    }
  }
}
