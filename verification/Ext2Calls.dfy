/** The driver's calls by path, as steps of the file system, and what they undo. */
module Ext2Calls {
  import opened DiskBytes
  import opened Ext2Layout
  import opened Ext2Trees
  import opened Ext2Alloc
  import opened Ext2Files
  import opened Ext2Writing
  import opened Ext2Volume
  import opened Ext2Dirents
  import opened Ext2Dirs
  import opened Ext2Fs
  import opened Ext2Names
  import opened Ext2Paths
  import opened Ext2Mkdir
  import opened Ext2Rmdir
  import opened Ext2Model
  import opened Ext2Walks
  import opened Ext2Runs
  import opened Ext2Driver

  // ---- each call is a step -------------------------------------------------

  /** A path of bytes other than zero, through directories, to a live inode if to any. */
  ghost predicate PathOk(g: Geom, d: Disk, nodes: Nodes, path: Path)
    requires DiskOk(g, d)
  {
    && (path != [] && path[0] == SLASH ==> Walkable(g, d, nodes, ROOT_INO, Components(path)))
    && (Resolved(g, d, nodes, path) != 0 ==> Resolved(g, d, nodes, path) in nodes)
    && forall i :: 0 <= i < |path| ==> path[i] != 0
  }

  /** The components before the last. */
  function Above(path: Path): seq<Name> {
    var cs := Components(path);
    if cs == [] then [] else cs[..|cs| - 1]
  }

  /** The parent in which a call by path acts. */
  lemma PathPlaced(g: Geom, v: Vol, nodes: Nodes, path: Path, p: nat, name: Name)
    requires Rest(g, v, nodes) && DiskOk(g, v.d) && Components(path) != []
    requires name == Components(path)[|Components(path)| - 1] && |name| < MAX_FILENAME
    requires Walkable(g, v.d, nodes, ROOT_INO, Components(path)) && p == Walk(g, v.d, nodes, ROOT_INO, Above(path))
    requires p in nodes
    ensures Placed(g, v, nodes, Above(path), p, name) && Components(path) == Above(path) + [name]
  {
    hide Rest, TableEnd, Components, Walk, Walkable;
    assert Components(path) == Above(path) + [name];
    WalkablePrefix(g, v.d, nodes, ROOT_INO, Above(path), name);
    RestDisk(g, v, nodes);
  }

  lemma CreatedParent(g: Geom, v: Vol, v': Vol, nodes: Nodes, p: nat, p': Inode, name: Name, ino: nat, now: nat,
      pb: nat)
    requires now < TWO32 && Created(g, v, v', nodes, p, p', name, ino, now, pb)
    ensures p in nodes && ino !in nodes && p != ino && Rest(g, v, nodes)
  {
    hide Rest, IsDir, DirOk, Bindings, OnlyGrew, Others, BitsPlus, NewFile, TableEnd;
  }

  lemma MadeParent(g: Geom, v: Vol, v': Vol, nodes: Nodes, p: nat, p': Inode, name: Name, ino: nat, now: nat, b: nat,
      pb: nat)
    requires GeomOk(g) && now < TWO32 && b < TWO32 && MadeDir(g, v, v', nodes, p, p', name, ino, now, b, pb)
    ensures p in nodes && ino !in nodes && p != ino && Rest(g, v, nodes)
  {
    hide Rest, IsDir, DirOk, Bindings, Others, BitsPlusTwo, NewDir, Links, TableEnd;
  }

  // ---- writing -------------------------------------------------------------

  lemma WriteIs(g: Geom, v: Vol, v': Vol, nodes: Nodes, ino: nat, n: Inode, data: seq<Octet>)
    requires Rest(g, v, nodes) && ino in nodes && IsRegular(nodes[ino]) && WellFormed(g, v)
    requires WroteAll(g, v, v', ino, n, data)
    ensures FsStep(g, v, nodes, WriteOp(ino, data), v', nodes[ino := n])
  {
    hide Rest, IsRegular, WellFormed, WroteAll;
    assert WroteFile(g, v, v', ino, n, data);
  }

  lemma GiveUpIs(g: Geom, v: Vol, v': Vol, nodes: Nodes, ino: nat)
    requires DiskOk(g, v.d) && DiskOk(g, v'.d) && Rest(g, v, nodes) && FsOk(g, v') && ino in nodes
    requires IsRegular(nodes[ino])
    requires NodesOf(g, v.d) == nodes && NodesOf(g, v'.d) == nodes && Others(v.d, v'.d, nodes, ino)
    ensures FsStep(g, v, nodes, GiveUpOp(ino, Contents(g, v'.d, nodes[ino])), v', nodes)
  {
    hide Rest, IsRegular, FsOk, NodesOf, Others, Contents, TableEnd;
    NodesRest(g, v');
  }

  lemma NodeAt(g: Geom, v: Vol, nodes: Nodes, ino: nat)
    requires Rest(g, v, nodes) && ino in nodes
    ensures DiskOk(g, v.d) && WellFormed(g, v) && FsOk(g, v) && NodesOf(g, v.d) == nodes && Live(g, v.d, ino)
    ensures InodeAt(g, v.d, ino) == nodes[ino] && InoOk(g, ino)
  {
    hide Marked, TableEnd, Counted, InodeAt, Trees, DirsOk, MetaMarked;
    RestNodes(g, v, nodes);
    InTable(g, v.d, nodes, ino);
    assert Live(g, v.d, ino);
  }

  lemma WellDisk(g: Geom, v: Vol)
    requires WellFormed(g, v)
    ensures DiskOk(g, v.d)
  {
    hide Trees, Counted, NodesOf;
  }

  /** ext2_write_file once the inode is known. */
  method WriteNode(fs: Ext2, ino: nat, data: seq<Octet>, now: nat, ghost nodes: Nodes)
      returns (r: int, ghost op: FsOp, ghost nodes': Nodes)
    requires fs.Buffers() && Rest(fs.g, fs.Volume(), nodes) && ino in nodes && |data| < TWO32 && now < TWO32
    modifies fs, fs.b0, fs.b1, fs.b2, fs.b4
    ensures DiskOk(fs.g, fs.disk) && FsStep(fs.g, old(fs.Volume()), nodes, op, fs.Volume(), nodes')
    ensures (r == |data| || r == -1)
    ensures r == |data| ==> op == WriteOp(ino, data) && nodes'.Keys == nodes.Keys
    ensures r == -1 ==> nodes' == nodes && (op.FailOp? || (op.GiveUpOp? && op.ino == ino))
    ensures r == -1 ==> !IsRegular(nodes[ino]) || |data| > MaxLength(fs.g) || fs.Full()
    ensures !IsRegular(nodes[ino]) ==> fs.Volume() == old(fs.Volume()) && r == -1
  {
    hide Rest, WellFormed, FsOk, NodesOf, InodeAt, Live, WroteAll, Others, Contents, IsRegular, TableEnd, FsStep,
         MaxLength;
    ghost var g, v := fs.g, fs.Volume();
    NodeAt(g, v, nodes, ino);
    r := fs.WriteFile(ino, data, now);
    ghost var v' := fs.Volume();
    WellDisk(g, v');
    if r == |data| {
      op, nodes' := WriteOp(ino, data), nodes[ino := InodeAt(g, fs.disk, ino)];
      WriteIs(g, v, v', nodes, ino, InodeAt(g, fs.disk, ino), data);
    } else if IsRegular(nodes[ino]) {
      op, nodes' := GiveUpOp(ino, Contents(g, fs.disk, nodes[ino])), nodes;
      GiveUpIs(g, v, v', nodes, ino);
    } else {
      op, nodes' := FailOp, nodes;
      NothingDone(g, v, nodes);
    }
  }

  lemma NothingDone(g: Geom, v: Vol, nodes: Nodes)
    requires Rest(g, v, nodes)
    ensures FsStep(g, v, nodes, FailOp, v, nodes)
  {
    hide Unchanged, Rest;
    UnchangedRefl(g, v, nodes);
  }

  lemma Run1(g: Geom, v: Vol, nodes: Nodes, op: FsOp, v': Vol, nodes': Nodes)
    requires FsStep(g, v, nodes, op, v', nodes')
    ensures FsRun(g, [v, v'], [nodes, nodes'], [op])
  {
    hide FsStep;
  }

  lemma Run2(g: Geom, v: Vol, nodes: Nodes, op: FsOp, v1: Vol, nodes1: Nodes, op1: FsOp, v': Vol, nodes': Nodes)
    requires FsStep(g, v, nodes, op, v1, nodes1) && FsStep(g, v1, nodes1, op1, v', nodes')
    ensures FsRun(g, [v, v1, v'], [nodes, nodes1, nodes'], [op, op1])
  {
    hide FsStep;
    var vs, ns, ops := [v, v1, v'], [nodes, nodes1, nodes'], [op, op1];
    forall i | 0 <= i < |ops| ensures FsStep(g, vs[i], ns[i], ops[i], vs[i + 1], ns[i + 1]) { if i == 0 {} else {} }
  }

  /** ext2_create_file as a step; if it succeeds the path leads to the new, empty file. */
  method CreatePath(fs: Ext2, path: Path, now: nat, ghost nodes: Nodes)
      returns (ok: bool, ghost op: FsOp, ghost nodes': Nodes, ghost p': Inode, ghost pb: nat)
    requires fs.Buffers() && DiskOk(fs.g, fs.disk) && 1 in nodes && now < TWO32 && PathOk(fs.g, fs.disk, nodes, path)
    requires Rest(fs.g, fs.Volume(), nodes)
    modifies fs`disk, fs`sb, fs.b0, fs.b1, fs.b2, fs.b3, fs.b4
    ensures DiskOk(fs.g, fs.disk) && FsStep(fs.g, old(fs.Volume()), nodes, op, fs.Volume(), nodes')
    ensures Rest(fs.g, fs.Volume(), nodes') && 1 in nodes'
    ensures !ok ==> op.FailOp? && nodes' == nodes
    ensures ok ==> op.CreateOp? && op.at == Above(path) && op.ino !in nodes && ROOT_INO <= op.ino
    ensures ok ==> nodes' == nodes[op.ino := NewFile(now)][op.p := p'] && op.ino != op.p
    ensures ok ==> Created(fs.g, old(fs.Volume()), fs.Volume(), nodes, op.p, p', op.name, op.ino, now, pb)
    ensures ok ==> !Unsplittable(path)
    ensures ok ==> PathOk(fs.g, fs.disk, nodes', path) && Resolved(fs.g, fs.disk, nodes', path) == op.ino
    ensures ok ==> Resolved(fs.g, old(fs.disk), nodes, path) == 0
    ensures ok ==> path != [] && path[0] == SLASH && Components(path) == Above(path) + [op.name]
  {
    hide Rest, Resolved, Walkable, Walk, Components, TableEnd, FsStep, Created, NewFile, Unchanged, InodesGone,
         ParentStuck, Unsplittable, Placed, Fs, Tabled;
    ghost var g, v := fs.g, fs.Volume();
    RestFs(g, v, nodes);
    ghost var p, name, ino;
    ok, p, name, ino, p', pb := fs.CreateFile(path, now, nodes);
    ghost var v' := fs.Volume();
    if !ok {
      op, nodes' := FailOp, nodes;
      FailedCreate(g, v, nodes, v');
    } else {
      op, nodes' := CreateOp(Above(path), p, name, ino), nodes[ino := NewFile(now)][p := p'];
      CreatedParent(g, v, v', nodes, p, p', name, ino, now, pb);
      PathPlaced(g, v, nodes, path, p, name);
      assert CreateStep(g, v, nodes, p, name, ino, v', nodes');
      CreateNamed(g, v, nodes, path, p, name, ino, v', nodes');
      RestDisk(g, v', nodes');
    }
  }

  /** ext2_write_file: a missing file is made first.  What was written is what the path then names. */
  method WritePath(fs: Ext2, path: Path, data: seq<Octet>, now: nat, ghost nodes: Nodes)
    returns (r: int, ghost vs: seq<Vol>, ghost ns: seq<Nodes>, ghost ops: seq<FsOp>)
    requires fs.Buffers() && DiskOk(fs.g, fs.disk) && 1 in nodes && |data| < TWO32 && now < TWO32
    requires PathOk(fs.g, fs.disk, nodes, path) && Rest(fs.g, fs.Volume(), nodes)
    modifies fs, fs.b0, fs.b1, fs.b2, fs.b3, fs.b4
    ensures FsRun(fs.g, vs, ns, ops) && vs[0] == old(fs.Volume()) && ns[0] == nodes && vs[|ops|] == fs.Volume()
    ensures |ops| > 0
    ensures DiskOk(fs.g, fs.disk) && (r == |data| || r == -1)
    ensures r == |data| ==> var ino := Resolved(fs.g, fs.disk, ns[|ops|], path);
            && ino in ns[|ops|] && ops[|ops| - 1] == WriteOp(ino, data)
    ensures r == |data| && Resolved(fs.g, old(fs.disk), nodes, path) != 0 ==> |ops| == 1
    ensures r == |data| && Resolved(fs.g, old(fs.disk), nodes, path) == 0 ==> |ops| == 2 && ops[0].CreateOp?
    ensures r == |data| && Resolved(fs.g, old(fs.disk), nodes, path) == 0 ==> ops[0].ino == ops[1].ino
  {
    hide Rest, Resolved, Walkable, Components, Above, TableEnd, FsStep, Created, NewFile, IsRegular, MaxLength,
         Unsplittable, Fs, Tabled, FsRun;
    ghost var g, v, v1, nodes1, op, nodes' := fs.g, fs.Volume(), fs.Volume(), nodes, FailOp, nodes;
    RestFs(g, v, nodes);
    var ino := fs.Resolve(path, nodes);
    if ino == 0 {
      var ok;
      ghost var p', pb;
      ghost var first;
      ok, first, nodes1, p', pb := CreatePath(fs, path, now, nodes);
      v1 := fs.Volume();
      if !ok {
        Run1(g, v, nodes, first, v1, nodes1);
        return -1, [v, v1], [nodes, nodes1], [first];
      }
      RestFs(g, v1, nodes1);
      ino := fs.Resolve(path, nodes1);
      r, op, nodes' := WriteNode(fs, ino, data, now, nodes1);
      vs, ns, ops := [v, v1, fs.Volume()], [nodes, nodes1, nodes'], [first, op];
      Run2(g, v, nodes, first, v1, nodes1, op, fs.Volume(), nodes');
    } else {
      r, op, nodes' := WriteNode(fs, ino, data, now, nodes);
      vs, ns, ops := [v, fs.Volume()], [nodes, nodes'], [op];
      Run1(g, v, nodes, op, fs.Volume(), nodes');
    }
    if r == |data| {
      SameNames(g, v1, nodes1, op, fs.Volume(), nodes');
      assert Resolved(g, fs.disk, nodes', path) == ino;
    }
  }

  /** The new path leads to the new inode. */
  lemma CreateNamed(g: Geom, v: Vol, nodes: Nodes, path: Path, p: nat, name: Name, ino: nat, v': Vol, nodes': Nodes)
    requires CreateStep(g, v, nodes, p, name, ino, v', nodes') && Placed(g, v, nodes, Above(path), p, name)
    requires path != [] && path[0] == SLASH && Components(path) == Above(path) + [name]
    ensures FsStep(g, v, nodes, CreateOp(Above(path), p, name, ino), v', nodes') && Rest(g, v', nodes')
    ensures DiskOk(g, v'.d) && Fs(g, v', nodes') && Tabled(g, v'.d, nodes')
    ensures Resolved(g, v'.d, nodes', path) == ino && Walkable(g, v'.d, nodes', ROOT_INO, Components(path))
  {
    hide CreateStep, Placed, Rest, Components, Above, View, Fs, Tabled, TableEnd;
    var op := CreateOp(Above(path), p, name, ino);
    assert FsStep(g, v, nodes, op, v', nodes');
    StepView(g, v, nodes, op, v', nodes');
    RestFs(g, v', nodes');
    NewName(g, v, nodes, op, v', nodes', path);
  }

  lemma FailedCreate(g: Geom, v: Vol, nodes: Nodes, v': Vol)
    requires Unchanged(g, v, v', nodes)
    ensures FsStep(g, v, nodes, FailOp, v', nodes) && DiskOk(g, v'.d) && Rest(g, v', nodes)
  {
    hide Unchanged, Rest;
    FailView(g, v, nodes, v');
  }

  // ---- directories ---------------------------------------------------------

  lemma MkdirNamed(g: Geom, v: Vol, nodes: Nodes, path: Path, p: nat, name: Name, ino: nat, v': Vol, nodes': Nodes)
    requires MkdirStep(g, v, nodes, p, name, ino, v', nodes') && Placed(g, v, nodes, Above(path), p, name)
    requires path != [] && path[0] == SLASH && Components(path) == Above(path) + [name]
    ensures FsStep(g, v, nodes, MkdirOp(Above(path), p, name, ino), v', nodes') && Rest(g, v', nodes')
    ensures DiskOk(g, v'.d)
    ensures Resolved(g, v'.d, nodes', path) == ino && Walkable(g, v'.d, nodes', ROOT_INO, Components(path))
    ensures Walk(g, v'.d, nodes', ROOT_INO, Above(path)) == p
  {
    hide MkdirStep, Placed, Rest, Components, Above, View, Fs, Tabled, TableEnd;
    var op := MkdirOp(Above(path), p, name, ino);
    assert FsStep(g, v, nodes, op, v', nodes');
    StepView(g, v, nodes, op, v', nodes');
    NewName(g, v, nodes, op, v', nodes', path);
  }

  /** ext2_mkdir as a step; if it succeeds the path leads to the new directory. */
  method MkdirPath(fs: Ext2, path: Path, now: nat, ghost nodes: Nodes)
    returns (ok: bool, ghost op: FsOp, ghost nodes': Nodes, ghost p': Inode, ghost b: nat, ghost pb: nat)
    requires fs.Buffers() && DiskOk(fs.g, fs.disk) && 1 in nodes && now < TWO32 && PathOk(fs.g, fs.disk, nodes, path)
    requires Rest(fs.g, fs.Volume(), nodes)
    modifies fs`disk, fs`sb, fs.b0, fs.b1, fs.b2, fs.b3, fs.b4
    ensures DiskOk(fs.g, fs.disk) && FsStep(fs.g, old(fs.Volume()), nodes, op, fs.Volume(), nodes')
    ensures Rest(fs.g, fs.Volume(), nodes') && 1 in nodes'
    ensures !ok ==> op.FailOp? && nodes' == nodes
    ensures ok ==> b < TWO32 && op.MkdirOp? && op.at == Above(path) && op.ino !in nodes && ROOT_INO <= op.ino
    ensures ok ==> nodes' == nodes[op.ino := NewDir(fs.g, now, b)][op.p := p'] && op.ino != op.p
    ensures ok ==> MadeDir(fs.g, old(fs.Volume()), fs.Volume(), nodes, op.p, p', op.name, op.ino, now, b, pb)
    ensures ok ==> !Unsplittable(path)
    ensures ok ==> PathOk(fs.g, fs.disk, nodes', path) && Resolved(fs.g, fs.disk, nodes', path) == op.ino
    ensures ok ==> Resolved(fs.g, old(fs.disk), nodes, path) == 0
    ensures ok ==> path != [] && path[0] == SLASH && Components(path) == Above(path) + [op.name]
    ensures ok ==> Walk(fs.g, fs.disk, nodes', ROOT_INO, Above(path)) == op.p
  {
    hide Rest, Resolved, Walkable, Walk, Components, TableEnd, FsStep, MadeDir, NewDir, Unchanged, InodesGone,
         AlmostFull, ParentFull, Unsplittable, Placed, Fs, Tabled, DirCount;
    ghost var g, v := fs.g, fs.Volume();
    RestFs(g, v, nodes);
    ghost var p, name, ino;
    ok, p, name, ino, p', b, pb := fs.Mkdir(path, now, nodes);
    ghost var v' := fs.Volume();
    if !ok {
      op, nodes' := FailOp, nodes;
      FailedCreate(g, v, nodes, v');
    } else {
      MadeBlock(g, v, v', nodes, p, p', name, ino, now, b, pb);
      op, nodes' := MkdirOp(Above(path), p, name, ino), nodes[ino := NewDir(g, now, b)][p := p'];
      MadeParent(g, v, v', nodes, p, p', name, ino, now, b, pb);
      PathPlaced(g, v, nodes, path, p, name);
      assert MkdirStep(g, v, nodes, p, name, ino, v', nodes');
      MkdirNamed(g, v, nodes, path, p, name, ino, v', nodes');
      RestDisk(g, v', nodes');
    }
  }

  lemma MadeBlock(g: Geom, v: Vol, v': Vol, nodes: Nodes, p: nat, p': Inode, name: Name, ino: nat, now: nat, b: nat,
      pb: nat)
    requires MadeDir(g, v, v', nodes, p, p', name, ino, now, b, pb)
    ensures b < TWO32
  {
  }

  // ---- unlinking -----------------------------------------------------------

  lemma FileGone(g: Geom, v: Vol, v': Vol, nodes: Nodes, p: nat, name: Name, ino: nat)
    requires ino in nodes && Links(nodes[ino]) == 1 && UnlinkedFile(g, v, v', nodes, p, name, ino)
    ensures Unlinked(g, v, v', nodes, nodes - {ino}, p, name, ino) && FileLeft(nodes, nodes - {ino}, ino)
  {
    hide Unlinked, Links, BitsMinus;
  }

  lemma FileStays(nodes: Nodes, ino: nat, n: Inode)
    requires ino in nodes && Links(nodes[ino]) != 1 && Links(n) == if Links(nodes[ino]) == 0 then 0
              else Links(nodes[ino]) - 1
    ensures FileLeft(nodes, nodes[ino := n], ino)
  {
    hide Links;
  }

  /** ext2_unlink as a step. */
  method UnlinkPath(fs: Ext2, path: Path, now: nat, ghost nodes: Nodes)
      returns (ok: bool, ghost op: FsOp, ghost nodes': Nodes)
    requires fs.Buffers() && DiskOk(fs.g, fs.disk) && now < TWO32 && PathOk(fs.g, fs.disk, nodes, path)
    requires Rest(fs.g, fs.Volume(), nodes)
    modifies fs`disk, fs`sb, fs.b0, fs.b1, fs.b2, fs.b3, fs.b4
    ensures FsStep(fs.g, old(fs.Volume()), nodes, op, fs.Volume(), nodes')
    ensures !ok ==> op.FailOp? && nodes' == nodes && fs.Volume() == old(fs.Volume())
    ensures !ok ==> Unsplittable(path) || Resolved(fs.g, old(fs.disk), nodes, path) < ROOT_INO
                    || HoldsMore(fs.g, old(fs.disk), nodes, Resolved(fs.g, old(fs.disk), nodes, path))
    ensures ok ==>
              || (op.UnlinkOp? && op.ino == Resolved(fs.g, old(fs.disk), nodes, path))
              || (op.SelfOp? && op.p == Resolved(fs.g, old(fs.disk), nodes, path))
    ensures ok ==> op.at == Above(path) && Components(path) == Above(path) + [op.name]
    ensures ok && op.UnlinkOp? ==> op.p != op.ino
  {
    hide Rest, Resolved, Walkable, Walk, Components, TableEnd, FsStep, Unlinked, UnlinkedFile, Rmdired, SelfUnlinked,
         IsDir, DirOk, OnlyDots, Unsplittable, Placed, FileLeft, DirLeft, Links, Step, DirCount, HoldsMore, SelfFreed,
         SelfLeft;
    ghost var g, v := fs.g, fs.Volume();
    ghost var p, name, ino, p', n;
    ok, p, name, ino, p', n := fs.Unlink(path, now, nodes);
    ghost var v' := fs.Volume();
    if !ok {
      op, nodes' := FailOp, nodes;
      NothingDone(g, v, nodes);
      return;
    }
    if IsDir(nodes[ino]) && p == ino {
      op, nodes' := SelfOp(Above(path), p, name), SelfLeft(nodes, p, n);
      assert SelfStepBy(g, v, nodes, p, name, v', n);
    } else if IsDir(nodes[ino]) {
      op, nodes' := UnlinkOp(Above(path), p, name, ino), DirLeft(nodes, p, p', ino, n);
      RmdiredApart(g, v, v', nodes, p, p', name, ino, n);
      assert RmdirStep(g, v, nodes, p, name, ino, v', nodes');
    } else if Links(nodes[ino]) == 1 {
      op, nodes' := UnlinkOp(Above(path), p, name, ino), nodes - {ino};
      FileGone(g, v, v', nodes, p, name, ino);
      UnlinkedApart(g, v, v', nodes, nodes', p, name, ino);
    } else {
      op, nodes' := UnlinkOp(Above(path), p, name, ino), nodes[ino := n];
      FileStays(nodes, ino, n);
      UnlinkedApart(g, v, v', nodes, nodes', p, name, ino);
    }
    RestDisk(g, v, nodes);
    PathPlaced(g, v, nodes, path, p, name);
    UnlinkIs(g, v, nodes, op, v', nodes');
  }

  lemma UnlinkIs(g: Geom, v: Vol, nodes: Nodes, op: FsOp, v': Vol, nodes': Nodes)
    requires op.UnlinkOp? || op.SelfOp?
    requires DiskOk(g, v.d) && Placed(g, v, nodes, op.at, op.p, op.name)
    requires if op.SelfOp? then SelfUnlinkStep(g, v, nodes, op.p, op.name, v', nodes')
              else UnlinkStep(g, v, nodes, op.p, op.name, op.ino, v', nodes')
    ensures FsStep(g, v, nodes, op, v', nodes')
  {
    hide Placed, SelfUnlinkStep, UnlinkStep;
  }

  // ---- there and back ------------------------------------------------------

  /** After create and write the path leads to a file with one link. */
  lemma OneLink(g: Geom, v0: Vol, v1: Vol, v2: Vol, nodes: Nodes, nodes1: Nodes, nodes2: Nodes, path: Path, op: FsOp,
      data: seq<Octet>)
    requires FsStep(g, v0, nodes, op, v1, nodes1) && op.CreateOp? && op.at == Above(path)
    requires Components(path) == Above(path) + [op.name]
    requires FsStep(g, v1, nodes1, WriteOp(op.ino, data), v2, nodes2) && path != [] && path[0] == SLASH
    ensures DiskOk(g, v2.d) && Rest(g, v2, nodes2) && op.ino in nodes2 && !IsDir(nodes2[op.ino])
    ensures Links(nodes2[op.ino]) == 1
    ensures Resolved(g, v2.d, nodes2, path) == op.ino && Walkable(g, v2.d, nodes2, ROOT_INO, Components(path))
    ensures Walk(g, v2.d, nodes2, ROOT_INO, Above(path)) == op.p
    ensures op.ino != 0
  {
    hide FsStep, Rest, Components, Above, Resolved, Walk, Walkable, TableEnd, View, Look, Passable, IsDir, Links;
    StepView(g, v0, nodes, op, v1, nodes1);
    NewName(g, v0, nodes, op, v1, nodes1, path);
    StepView(g, v1, nodes1, WriteOp(op.ino, data), v2, nodes2);
    SameNames(g, v1, nodes1, WriteOp(op.ino, data), v2, nodes2);
    assert Resolved(g, v2.d, nodes2, path) == op.ino && Walk(g, v2.d, nodes2, ROOT_INO, Above(path)) == op.p;
    assert View(g, v1.d, nodes1)[op.ino] == FileObj([], 1);
    ViewFile(g, v2, nodes2, op.ino, data, 1);
  }

  lemma ViewFile(g: Geom, v: Vol, nodes: Nodes, i: nat, data: seq<Octet>, k: nat)
    requires DiskOk(g, v.d) && i in View(g, v.d, nodes) && View(g, v.d, nodes)[i] == FileObj(data, k)
    ensures i in nodes && !IsDir(nodes[i]) && Links(nodes[i]) == k && Contents(g, v.d, nodes[i]) == data
  {
    hide IsDir, Links, Contents, TableEnd, DirOk, Bindings;
  }

  lemma FirstStep(g: Geom, vs: seq<Vol>, ns: seq<Nodes>, ops: seq<FsOp>)
    requires FsRun(g, vs, ns, ops) && |ops| > 0
    ensures FsStep(g, vs[0], ns[0], ops[0], vs[1], ns[1])
  {
    hide FsStep;
  }

  lemma WroteNode(g: Geom, v: Vol, nodes: Nodes, ino: nat, data: seq<Octet>, v': Vol, nodes': Nodes) returns (n: Inode)
    requires FsStep(g, v, nodes, WriteOp(ino, data), v', nodes')
    ensures WroteFile(g, v, v', ino, n, data) && nodes' == nodes[ino := n]
  {
    hide WroteFile, Rest, IsRegular;
    n :| WroteFile(g, v, v', ino, n, data) && nodes' == nodes[ino := n];
  }

  /** unlink of a file with one link never fails. */
  method UnlinkLast(fs: Ext2, path: Path, now: nat, ghost nodes: Nodes, ghost ino: nat, ghost name: Name)
    requires fs.Buffers() && DiskOk(fs.g, fs.disk) && now < TWO32 && Rest(fs.g, fs.Volume(), nodes) && path != []
    requires path[0] == SLASH && !Unsplittable(path)
    requires ino in nodes && ROOT_INO <= ino && !IsDir(nodes[ino]) && Links(nodes[ino]) == 1
    requires Resolved(fs.g, fs.disk, nodes, path) == ino
    requires Walkable(fs.g, fs.disk, nodes, ROOT_INO, Components(path)) && Components(path) == Above(path) + [name]
    modifies fs`disk, fs`sb, fs.b0, fs.b1, fs.b2, fs.b3, fs.b4
    ensures UnlinkedFile(fs.g, old(fs.Volume()), fs.Volume(), nodes,
              Walk(fs.g, old(fs.disk), nodes, ROOT_INO, Above(path)), name, ino)
  {
    hide Rest, Resolved, Walkable, Walk, Components, TableEnd, Unsplittable, UnlinkedFile, Unlinked, Rmdired,
         SelfUnlinked, IsDir, Links, DirOk, OnlyDots, Step, DirCount;
    var ok;
    ghost var q, c, i, q', m;
    ok, q, c, i, q', m := fs.Unlink(path, now, nodes);
    assert (Above(path) + [name])[|Above(path)|] == name;
  }

  lemma BackAgain(g: Geom, v0: Vol, v1: Vol, v2: Vol, v3: Vol, nodes: Nodes, nodes2: Nodes, p: nat, p': Inode,
      name: Name, ino: nat, now: nat, pb: nat, n: Inode, data: seq<Octet>)
    requires now < TWO32 && p != ino && nodes2 == nodes[ino := NewFile(now)][p := p'][ino := n]
    requires Created(g, v0, v1, nodes, p, p', name, ino, now, pb) && WroteFile(g, v1, v2, ino, n, data)
    requires UnlinkedFile(g, v2, v3, nodes2, p, name, ino)
    ensures p in nodes && Restored(g, v0, v3, nodes[p], p', pb)
  {
    hide Created, WroteFile, UnlinkedFile, NewFile, Restored;
    assert nodes2 == nodes[ino := n][p := p'];
    Ext2Names.CreateWriteUnlink(g, v0, v1, v2, v3, nodes, p, p', name, ino, now, pb, n, data);
  }

  /** Create a file, write it and unlink it: when the first two succeed so does the third, and every
      block, inode, counter and binding is back. */
  method CreateWriteUnlinkPath(fs: Ext2, path: Path, data: seq<Octet>, now: nat, ghost nodes: Nodes)
    returns (made: bool, r: int, ghost p: nat, ghost p': Inode, ghost pb: nat)
    requires fs.Buffers() && DiskOk(fs.g, fs.disk) && 1 in nodes && |data| < TWO32 && now < TWO32
    requires PathOk(fs.g, fs.disk, nodes, path) && Rest(fs.g, fs.Volume(), nodes)
    modifies fs, fs.b0, fs.b1, fs.b2, fs.b3, fs.b4
    ensures made && r == |data| ==> p in nodes && Restored(fs.g, old(fs.Volume()), fs.Volume(), nodes[p], p', pb)
  {
    hide Rest, Resolved, Walkable, Walk, Components, Above, TableEnd, Created, NewFile, Unsplittable, Restored,
         UnlinkedFile, IsDir, Links, FsStep, WroteFile;
    ghost var g, v0 := fs.g, fs.Volume();
    ghost var op, nodes1;
    r, p := -1, 0;
    made, op, nodes1, p', pb := CreatePath(fs, path, now, nodes);
    if !made { return; }
    p := op.p;
    ghost var v1 := fs.Volume();
    ghost var vs, ns, ops;
    r, vs, ns, ops := WritePath(fs, path, data, now, nodes1);
    if r != |data| { return; }
    ghost var v2, nodes2 := fs.Volume(), RunNodes(ns);
    WroteNew(g, v0, v1, v2, nodes, nodes1, nodes2, path, op, data, vs, ns, ops);
    ghost var n := WroteNode(g, v1, nodes1, op.ino, data, v2, nodes2);
    UnlinkLast(fs, path, now, nodes2, op.ino, op.name);
    BackAgain(g, v0, v1, v2, fs.Volume(), nodes, nodes2, op.p, p', op.name, op.ino, now, pb, n, data);
  }

  ghost function RunNodes(ns: seq<Nodes>): Nodes { if ns == [] then map[] else ns[|ns| - 1] }

  lemma WroteNew(g: Geom, v0: Vol, v1: Vol, v2: Vol, nodes: Nodes, nodes1: Nodes, nodes2: Nodes, path: Path, op: FsOp,
      data: seq<Octet>, vs: seq<Vol>, ns: seq<Nodes>, ops: seq<FsOp>)
    requires FsStep(g, v0, nodes, op, v1, nodes1) && op.CreateOp? && op.at == Above(path)
    requires Components(path) == Above(path) + [op.name] && path != [] && path[0] == SLASH
    requires FsRun(g, vs, ns, ops) && |ops| == 1 && vs[0] == v1 && ns[0] == nodes1 && vs[1] == v2
    requires nodes2 == RunNodes(ns)
    requires DiskOk(g, v2.d) && ops[0] == WriteOp(Resolved(g, v2.d, nodes2, path), data)
    ensures FsStep(g, v1, nodes1, WriteOp(op.ino, data), v2, nodes2)
    ensures Rest(g, v2, nodes2) && op.ino in nodes2 && !IsDir(nodes2[op.ino]) && Links(nodes2[op.ino]) == 1
    ensures op.ino != 0
    ensures Resolved(g, v2.d, nodes2, path) == op.ino && Walkable(g, v2.d, nodes2, ROOT_INO, Components(path))
    ensures Walk(g, v2.d, nodes2, ROOT_INO, Above(path)) == op.p
  {
    hide Rest, Resolved, Walkable, Walk, Components, Above, TableEnd, IsDir, Links, FsStep;
    FirstStep(g, vs, ns, ops);
    NewName(g, v0, nodes, op, v1, nodes1, path);
    SameNames(g, v1, nodes1, ops[0], v2, nodes2);
    assert Resolved(g, v2.d, nodes2, path) == Resolved(g, v1.d, nodes1, path);
    OneLink(g, v0, v1, v2, nodes, nodes1, nodes2, path, op, data);
  }

  lemma DotsInside(g: Geom, d: Disk, n: Inode, ino: nat, p: nat)
    requires g.bs > 0 && DirOk(g, d, n) && Bindings(Entries(g, d, n)) == map[DOT := ino, DOTDOT := p]
    ensures OnlyDots(Entries(g, d, n))
  {
    hide DirOk, Find;
    var es := Entries(g, d, n);
    forall i | 0 <= i < |es| ensures es[i].name == DOT || es[i].name == DOTDOT { assert es[i].name in Bindings(es); }
  }

  lemma NewDirInside(g: Geom, v: Vol, v': Vol, nodes: Nodes, p: nat, p': Inode, name: Name, ino: nat, now: nat, b: nat,
      pb: nat)
    requires GeomOk(g) && now < TWO32 && b < TWO32 && MadeDir(g, v, v', nodes, p, p', name, ino, now, b, pb)
    ensures IsDir(NewDir(g, now, b)) && DirOk(g, v'.d, NewDir(g, now, b))
    ensures OnlyDots(Entries(g, v'.d, NewDir(g, now, b)))
  {
    hide Rest, IsDir, DirOk, Bindings, Others, BitsPlusTwo, NewDir, Links, TableEnd, OnlyDots;
    NewDirFields(g, now, b);
    DotsInside(g, v'.d, NewDir(g, now, b), ino, p);
  }

  lemma LeakedAgain(g: Geom, v0: Vol, v1: Vol, v2: Vol, nodes: Nodes, nodes1: Nodes, p: nat, p1: Inode, p2: Inode,
      name: Name, ino: nat, now: nat, b: nat, pb: nat, n: Inode)
    requires GeomOk(g) && now < TWO32 && b < TWO32 && nodes1 == nodes[ino := NewDir(g, now, b)][p := p1]
    requires Rmdired(g, v1, v2, nodes1, p, p2, name, ino, n) && MadeDir(g, v0, v1, nodes, p, p1, name, ino, now, b, pb)
    ensures p in nodes && Leaked(g, v0, v2, nodes[p], p2, ino, b) && Links(n) == 1
  {
    hide MadeDir, Rmdired, NewDir, Leaked, Links;
    MkdirUnlinkLeaks(g, v0, v1, v2, nodes, p, p1, p2, name, ino, now, b, pb, n);
  }

  /** Make a directory and unlink it: when the first succeeds so does the second, the name is gone,
      and the new inode and its block stay in use. */
  method MkdirUnlinkPath(fs: Ext2, path: Path, now: nat, ghost nodes: Nodes)
      returns (made: bool, ghost p: nat, ghost p2: Inode, ghost ino: nat, ghost b: nat)
    requires fs.Buffers() && DiskOk(fs.g, fs.disk) && 1 in nodes && now < TWO32 && PathOk(fs.g, fs.disk, nodes, path)
    requires Rest(fs.g, fs.Volume(), nodes)
    modifies fs`disk, fs`sb, fs.b0, fs.b1, fs.b2, fs.b3, fs.b4
    ensures made ==> p in nodes && Leaked(fs.g, old(fs.Volume()), fs.Volume(), nodes[p], p2, ino, b)
  {
    hide Rest, Resolved, Walkable, Walk, Components, TableEnd, MadeDir, NewDir, Unsplittable, Leaked, UnlinkedFile,
         Unlinked, Rmdired, SelfUnlinked, IsDir, Links, DirOk, OnlyDots, FsStep, Step, DirCount;
    ghost var g, v0 := fs.g, fs.Volume();
    ghost var op, nodes1, p1, pb, c, m;
    p, p2, ino := 0, Zeros(INODE_BYTES), 0;
    made, op, nodes1, p1, b, pb := MkdirPath(fs, path, now, nodes);
    if !made { return; }
    ghost var v1 := fs.Volume();
    assert nodes1[op.ino] == NewDir(g, now, b);
    assert Components(path)[..|Components(path)| - 1] == Above(path)
        && Components(path)[|Components(path)| - 1] == op.name;
    NewDirInside(g, v0, v1, nodes, op.p, p1, op.name, op.ino, now, b, pb);
    var ok;
    ok, p, c, ino, p2, m := fs.Unlink(path, now, nodes1);
    LeakedAgain(g, v0, v1, fs.Volume(), nodes, nodes1, op.p, p1, p2, op.name, op.ino, now, b, pb, m);
  }

  // ---- reading -------------------------------------------------------------

  lemma CapAppend<T>(x: seq<T>, y: seq<T>, a: nat)
    ensures Capped(x + y, a) == if a <= |x| then x[..a] else x + Capped(y, a - |x|)
  {
  }

  lemma ReadOn(g: Geom, d: Disk, n: Inode, k: nat, a: nat)
    requires PtrsPerBlock(g) > 0 && Shape(g, d)
    ensures var x := FileBlock(g, d, n, k);
            if a == 0 || x == 0 || x >= |d| then ReadFrom(g, d, n, k, a) == []
            else
                 && |d[x]| == g.bs
                 && ReadFrom(g, d, n, k, a) == d[x][..Min(a, g.bs)] + ReadFrom(g, d, n, k + 1, a - Min(a, g.bs))
  {
    hide FileBlock;
  }

  /** A shorter read is a prefix of a longer one. */
  lemma {:induction false} ReadPrefix(g: Geom, d: Disk, n: Inode, k: nat, a: nat, b: nat)
    requires PtrsPerBlock(g) > 0 && Shape(g, d) && a <= b
    ensures ReadFrom(g, d, n, k, a) == Capped(ReadFrom(g, d, n, k, b), a)
    decreases a
  {
    hide FileBlock, ReadFrom, Capped, Shape;
    var x := FileBlock(g, d, n, k);
    ReadOn(g, d, n, k, a);
    ReadOn(g, d, n, k, b);
    CappedShort(ReadFrom(g, d, n, k, b), a);
    if a > 0 && 0 < x < |d| {
      CapAppend(d[x][..Min(b, g.bs)], ReadFrom(g, d, n, k + 1, b - Min(b, g.bs)), a);
      if a > g.bs { ReadPrefix(g, d, n, k + 1, a - g.bs, b - g.bs); } else { ReadOn(g, d, n, k + 1, 0); }
    }
  }

  lemma CappedShort<T>(s: seq<T>, a: nat)
    ensures a == 0 || s == [] ==> Capped(s, a) == []
  {
  }

  /** ext2_read_file: the first bytes of the regular file the path leads to. */
  method ReadPath(fs: Ext2, path: Path, maxlen: nat, ghost nodes: Nodes) returns (ok: bool, out: seq<Octet>)
    requires fs.Buffers() && DiskOk(fs.g, fs.disk) && PathOk(fs.g, fs.disk, nodes, path)
    requires Rest(fs.g, fs.Volume(), nodes)
    modifies fs.b0, fs.b2, fs.b3, fs.b4
    ensures ok <==> var ino := Resolved(fs.g, fs.disk, nodes, path); ino != 0 && IsRegular(nodes[ino])
    ensures ok ==> out == Capped(Contents(fs.g, fs.disk, nodes[Resolved(fs.g, fs.disk, nodes, path)]), maxlen)
  {
    hide Rest, Resolved, Walkable, Components, TableEnd, IsRegular, OnDisk, InodeAt, ReadFrom, Tabled, Trees, Counted,
         DirsOk, MetaMarked, Get32;
    ok, out := false, [];
    RestFs(fs.g, fs.Volume(), nodes);
    var ino := fs.Resolve(path, nodes);
    if ino == 0 { return; }
    InTable(fs.g, fs.disk, nodes, ino);
    TreesOnDisk(fs.g, fs.disk, nodes, ino);
    ok, out := fs.ReadFile(ino, maxlen);
    ReadPrefix(fs.g, fs.disk, nodes[ino], 0, Min(Size(nodes[ino]), maxlen), Size(nodes[ino]));
  }

  /** ext2_readdir: the first entries of the directory the path leads to. */
  method ListPath(fs: Ext2, path: Path, max: nat, ghost nodes: Nodes) returns (ok: bool, out: seq<Listed>)
    requires fs.Buffers() && DiskOk(fs.g, fs.disk) && PathOk(fs.g, fs.disk, nodes, path)
    requires Rest(fs.g, fs.Volume(), nodes)
    modifies fs.b0, fs.b2, fs.b3, fs.b4
    ensures ok <==> var ino := Resolved(fs.g, fs.disk, nodes, path); ino != 0 && IsDir(nodes[ino])
    ensures ok ==> var n := nodes[Resolved(fs.g, fs.disk, nodes, path)];
            && DirOk(fs.g, fs.disk, n) && out == Capped(Shown(Entries(fs.g, fs.disk, n)), max)
  {
    hide Rest, Resolved, Walkable, Components, TableEnd, IsDir, DirOk, Shown, Fs, Tabled;
    ok, out := false, [];
    RestFs(fs.g, fs.Volume(), nodes);
    var ino := fs.Resolve(path, nodes);
    if ino == 0 { return; }
    ok, out := fs.ReadDir(ino, max, nodes);
  }
}
