/** Paths and runs over the file system as a map: what every operation does to every path, and what
    every sequence of operations does. */
module Ext2Walks {
  import opened DiskBytes
  import opened Ext2Layout
  import opened Ext2Trees
  import opened Ext2Alloc
  import opened Ext2Files
  import opened Ext2Writing
  import opened Ext2Volume
  import opened Ext2Dirents
  import opened Ext2Dirs
  import opened Ext2Fs
  import opened Ext2Names
  import opened Ext2Paths
  import opened Ext2Mkdir
  import opened Ext2Rmdir
  import opened Ext2Model

  // ---- paths on the map ----------------------------------------------------

  /** The inode called `c` in `cur`, zero if none. */
  function Next(m: Model, cur: nat, c: Name): nat {
    if Holds(m, cur, c) && |c| < MAX_FILENAME then m[cur].names[c] else 0
  }

  function Look(m: Model, cur: nat, cs: seq<Name>): (ino: nat)
    decreases |cs|
  {
    if cs == [] || cur == 0 then cur else Look(m, Next(m, cur, cs[0]), cs[1..])
  }

  /** Every inode the walk searches is a directory. */
  predicate Passable(m: Model, cur: nat, cs: seq<Name>)
    decreases |cs|
  {
    cs == [] || cur == 0 || |cs[0]| >= MAX_FILENAME
        || (cur in m && m[cur].DirObj? && Passable(m, Next(m, cur, cs[0]), cs[1..]))
  }

  lemma StepIs(g: Geom, v: Vol, nodes: Nodes, cur: nat, c: Name)
    requires Fs(g, v, nodes)
    ensures DiskOk(g, v.d) && Step(g, v.d, nodes, cur, c) == Next(View(g, v.d, nodes), cur, c)
    ensures cur in nodes ==> (View(g, v.d, nodes)[cur].DirObj? <==> IsDir(nodes[cur]))
  {
    hide DirOk, IsDir, Trees, DirsOk, Counted, MetaMarked, Bindings, Find, Contents;
    if cur in nodes && IsDir(nodes[cur]) {
      FsDir(g, v, nodes, cur);
      DirUnique(g, v.d, nodes[cur]);
      BindingsFind(Entries(g, v.d, nodes[cur]), c);
    }
  }

  /** resolve_path walks the map. */
  lemma {:induction false} WalkIs(g: Geom, v: Vol, nodes: Nodes, cur: nat, cs: seq<Name>)
    requires Fs(g, v, nodes)
    ensures DiskOk(g, v.d) && Walk(g, v.d, nodes, cur, cs) == Look(View(g, v.d, nodes), cur, cs)
    ensures Walkable(g, v.d, nodes, cur, cs) <==> Passable(View(g, v.d, nodes), cur, cs)
    decreases |cs|
  {
    hide Fs, Step, IsDir, View;
    FsDisk(g, v, nodes);
    if cs != [] && cur != 0 {
      StepIs(g, v, nodes, cur, cs[0]);
      ViewKeys(g, v.d, nodes, cur);
      WalkIs(g, v, nodes, Step(g, v.d, nodes, cur, cs[0]), cs[1..]);
    }
  }

  lemma ViewKeys(g: Geom, d: Disk, nodes: Nodes, i: nat)
    requires DiskOk(g, d)
    ensures i in View(g, d, nodes) <==> i in nodes
  {
  }

  // ---- what a new name does to the paths -----------------------------------

  /** Every step that led somewhere leads there still. */
  ghost predicate Keeps(m: Model, r: Model) {
    && (forall x, c {:trigger Next(r, x, c)} :: Next(m, x, c) != 0 ==> Next(r, x, c) == Next(m, x, c))
    && (forall x {:trigger x in r} :: x in m && m[x].DirObj? ==> x in r && r[x].DirObj?)
  }

  /** So does every path. */
  lemma {:induction false} KeepsPaths(m: Model, r: Model, cur: nat, cs: seq<Name>)
    requires Keeps(m, r) && Look(m, cur, cs) != 0
    ensures Look(r, cur, cs) == Look(m, cur, cs) && (Passable(m, cur, cs) ==> Passable(r, cur, cs))
    decreases |cs|
  {
    hide Next;
    if cs != [] {
      ZeroStays(m, cs[1..]);
      assert Next(r, cur, cs[0]) == Next(m, cur, cs[0]);
      KeepsPaths(m, r, Next(m, cur, cs[0]), cs[1..]);
    }
  }

  lemma ZeroStays(m: Model, cs: seq<Name>)
    ensures Look(m, 0, cs) == 0
  {
  }

  lemma {:induction false} LookAppend(m: Model, cur: nat, cs: seq<Name>, c: Name)
    ensures Look(m, cur, cs + [c]) == var q := Look(m, cur, cs); if q == 0 then 0 else Next(m, q, c)
    decreases |cs|
  {
    hide Next;
    if cs == [] || cur == 0 {
      if cur != 0 { assert (cs + [c])[1..] == []; }
    } else {
      assert (cs + [c])[0] == cs[0] && (cs + [c])[1..] == cs[1..] + [c];
      LookAppend(m, Next(m, cur, cs[0]), cs[1..], c);
    }
  }

  lemma {:induction false} PassAppend(m: Model, cur: nat, cs: seq<Name>, c: Name)
    requires Passable(m, cur, cs) && (Look(m, cur, cs) != 0 ==> Look(m, cur, cs) in m && m[Look(m, cur, cs)].DirObj?)
    ensures Passable(m, cur, cs + [c])
    decreases |cs|
  {
    hide Next;
    if cs == [] || cur == 0 {
      if cur != 0 { assert (cs + [c])[1..] == []; }
    } else {
      assert (cs + [c])[0] == cs[0] && (cs + [c])[1..] == cs[1..] + [c];
      if |cs[0]| < MAX_FILENAME { PassAppend(m, Next(m, cur, cs[0]), cs[1..], c); }
    }
  }

  ghost predicate CanAdd(m: Model, p: nat, name: Name, ino: nat) {
    p in m && m[p].DirObj? && !Holds(m, p, name) && ino !in m && ino != 0
  }

  lemma AddFileKeeps(m: Model, p: nat, name: Name, ino: nat)
    requires CanAdd(m, p, name, ino)
    ensures Keeps(m, AddFile(m, p, name, ino))
  {
  }

  lemma AddDirKeeps(m: Model, p: nat, name: Name, ino: nat)
    requires CanAdd(m, p, name, ino)
    ensures Keeps(m, AddDir(m, p, name, ino))
  {
  }

  /** After create or mkdir of `name` in the directory at `cs`: every path that led somewhere leads
      there still, and the new path leads to the new inode. */
  lemma AddPaths(m: Model, r: Model, p: nat, name: Name, ino: nat, cs: seq<Name>)
    requires CanAdd(m, p, name, ino) && |name| < MAX_FILENAME
    requires (r == AddFile(m, p, name, ino) || r == AddDir(m, p, name, ino))
    requires Look(m, ROOT_INO, cs) == p && p != 0 && Passable(m, ROOT_INO, cs)
    ensures Look(r, ROOT_INO, cs + [name]) == ino && Passable(r, ROOT_INO, cs + [name]) && Look(r, ROOT_INO, cs) == p
    ensures forall xs {:trigger Look(r, ROOT_INO, xs)} ::
              Look(m, ROOT_INO, xs) != 0 ==> Look(r, ROOT_INO, xs) == Look(m, ROOT_INO, xs)
  {
    hide Look, Passable, Keeps;
    AddFileKeeps(m, p, name, ino);
    AddDirKeeps(m, p, name, ino);
    KeepsPaths(m, r, ROOT_INO, cs);
    LookAppend(r, ROOT_INO, cs, name);
    PassAppend(r, ROOT_INO, cs, name);
    forall xs | Look(m, ROOT_INO, xs) != 0
      ensures Look(r, ROOT_INO, xs) == Look(m, ROOT_INO, xs)
    {
      KeepsPaths(m, r, ROOT_INO, xs);
    }
  }

  // ---- what a lost name does to the paths ----------------------------------

  /** The walk neither uses the name `c` of `p` nor searches inode `x`. */
  predicate Avoids(m: Model, cur: nat, cs: seq<Name>, p: nat, c: Name, x: nat)
    decreases |cs|
  {
    cs == [] || cur == 0 || (!(cur == p && cs[0] == c) && cur != x && Avoids(m, Next(m, cur, cs[0]), cs[1..], p, c, x))
  }

  /** Only the name `c` of `p`, and the names in `x`, are gone. */
  ghost predicate Loses(m: Model, r: Model, p: nat, c: Name, x: nat) {
    && Next(r, p, c) == 0
    && (forall y, e {:trigger Next(r, y, e)} :: !(y == p && e == c) && y != x ==> Next(r, y, e) == Next(m, y, e))
    && (forall y {:trigger y in r} :: y in m && m[y].DirObj? && y != x ==> y in r && r[y].DirObj?)
  }

  /** A path that avoids them leads where it led. */
  lemma {:induction false} LosesPaths(m: Model, r: Model, cur: nat, cs: seq<Name>, p: nat, c: Name, x: nat)
    requires Loses(m, r, p, c, x) && Avoids(m, cur, cs, p, c, x)
    ensures Look(r, cur, cs) == Look(m, cur, cs) && (Passable(m, cur, cs) ==> Passable(r, cur, cs))
    decreases |cs|
  {
    hide Next;
    if cs != [] && cur != 0 {
      assert Next(r, cur, cs[0]) == Next(m, cur, cs[0]);
      LosesPaths(m, r, Next(m, cur, cs[0]), cs[1..], p, c, x);
    }
  }

  /** A path that reaches `p` and then uses the name leads nowhere. */
  lemma {:induction false} LostPath(m: Model, r: Model, cur: nat, cs: seq<Name>, rest: seq<Name>, p: nat, c: Name,
      x: nat)
    requires Loses(m, r, p, c, x) && Avoids(m, cur, cs, p, c, x) && Look(m, cur, cs) == p && p != 0
    ensures Look(r, cur, cs + [c] + rest) == 0
    decreases |cs|
  {
    hide Next;
    if cs == [] {
      assert (cs + [c] + rest)[0] == c;
      ZeroStays(r, (cs + [c] + rest)[1..]);
    } else {
      if cur == 0 { ZeroStays(m, cs); }
      assert (cs + [c] + rest)[0] == cs[0] && (cs + [c] + rest)[1..] == cs[1..] + [c] + rest;
      assert Next(r, cur, cs[0]) == Next(m, cur, cs[0]);
      LostPath(m, r, Next(m, cur, cs[0]), cs[1..], rest, p, c, x);
    }
  }

  /** The freed inode if it is a directory that goes with its last link, else nothing. */
  function GoneDir(m: Model, ino: nat): nat { if ino in m && m[ino].DirObj? && m[ino].links == 1 then ino else 0 }

  lemma RemoveFileLoses(m: Model, p: nat, name: Name, ino: nat)
    requires p in m && m[p].DirObj? && ino in m && m[ino].FileObj?
    ensures Loses(m, RemoveFile(m, p, name, ino), p, name, 0)
  {
  }

  lemma RemoveDirLoses(m: Model, p: nat, name: Name, ino: nat)
    requires p in m && m[p].DirObj? && ino in m && m[ino].DirObj? && p != ino && 0 !in m
    ensures Loses(m, RemoveDir(m, p, name, ino), p, name, GoneDir(m, ino))
  {
    var r := RemoveDir(m, p, name, ino);
    forall y, e | !(y == p && e == name) && y != GoneDir(m, ino) ensures Next(r, y, e) == Next(m, y, e) {}
  }

  /** After unlink of `name` in `p`: every path that does not go through that name, nor through a
      directory freed with it, leads where it led, and every path through it leads nowhere. */
  lemma RemovePaths(m: Model, r: Model, p: nat, name: Name, ino: nat)
    requires p in m && m[p].DirObj? && ino in m && p != ino && 0 !in m
    requires r == if m[ino].DirObj? then RemoveDir(m, p, name, ino) else RemoveFile(m, p, name, ino)
    ensures forall xs {:trigger Look(r, ROOT_INO, xs)} ::
              Avoids(m, ROOT_INO, xs, p, name, GoneDir(m, ino)) ==> Look(r, ROOT_INO, xs) == Look(m, ROOT_INO, xs)
    ensures forall xs, ys {:trigger Look(r, ROOT_INO, xs + [name] + ys)} ::
              Avoids(m, ROOT_INO, xs, p, name, GoneDir(m, ino)) && Look(m, ROOT_INO, xs) == p ==>
                  Look(r, ROOT_INO, xs + [name] + ys) == 0
  {
    hide Look, Loses, Avoids, RemoveDir, RemoveFile;
    var x := GoneDir(m, ino);
    if m[ino].DirObj? { RemoveDirLoses(m, p, name, ino); } else { RemoveFileLoses(m, p, name, ino); }
    forall xs | Avoids(m, ROOT_INO, xs, p, name, x)
      ensures Look(r, ROOT_INO, xs) == Look(m, ROOT_INO, xs)
    {
      LosesPaths(m, r, ROOT_INO, xs, p, name, x);
    }
    forall xs, ys | Avoids(m, ROOT_INO, xs, p, name, x) && Look(m, ROOT_INO, xs) == p
      ensures Look(r, ROOT_INO, xs + [name] + ys) == 0
    {
      LostPath(m, r, ROOT_INO, xs, ys, p, name, x);
    }
  }
}
