/** What every sequence of calls keeps: each name leads to a live inode, a file has at least as many
    links as names, and the directories hang together by their dots. */
module Ext2Sound {
  import opened DiskBytes
  import opened Ext2Layout
  import opened Ext2Trees
  import opened Ext2Alloc
  import opened Ext2Files
  import opened Ext2Writing
  import opened Ext2Volume
  import opened Ext2Dirents
  import opened Ext2Dirs
  import opened Ext2Fs
  import opened Ext2Names
  import opened Ext2Paths
  import opened Ext2Mkdir
  import opened Ext2Model
  import opened Ext2Walks
  import opened Ext2Runs

  // ---- the invariant -------------------------------------------------------

  predicate Proper(c: Name) { c != DOT && c != DOTDOT }

  /** All the names of an inode. */
  ghost function Names(m: Model, i: nat): set<(nat, Name)> {
    set d: nat, c: Name | d in m && m[d].DirObj? && c in m[d].names && m[d].names[c] == i :: (d, c)
  }

  /** `c` in `q` is the directory `d`, and not one of the dots. */
  predicate Sub(m: Model, q: nat, c: Name, d: nat) {
    Holds(m, q, c) && Proper(c) && m[q].names[c] == d && d in m && m[d].DirObj?
  }

  ghost function Subs(m: Model, q: nat): set<Name> {
    if q in m && m[q].DirObj? then set c | c in m[q].names && Sub(m, q, c, m[q].names[c]) else {}
  }

  /** The root, or named in some directory. */
  ghost predicate Rooted(m: Model, d: nat) {
    d == ROOT_INO || exists q, c {:trigger Sub(m, q, c, d)} :: Sub(m, q, c, d)
  }

  ghost predicate AllLive(m: Model) {
    0 !in m && forall d, c {:trigger Holds(m, d, c)} :: Holds(m, d, c) ==> m[d].names[c] in m
  }

  ghost predicate Covered(m: Model) {
    forall i {:trigger Names(m, i)} :: i in m && m[i].FileObj? ==> |Names(m, i)| <= m[i].links
  }

  /** Both dots are there, and one of them is the directory itself. */
  ghost predicate Dotted(m: Model) {
    && (forall d {:trigger m[d]} ::
         d in m && m[d].DirObj? ==>
           && DOT in m[d].names && m[d].names[DOT] == d && DOTDOT in m[d].names && m[d].links < TWO16)
    && ROOT_INO in m && m[ROOT_INO].DirObj? && m[ROOT_INO].names[DOTDOT] == ROOT_INO
  }

  /** A named directory has one name, in its parent, and a link for it, for its dot and for the
      directories in it. */
  ghost predicate HungAt(m: Model, q: nat, c: Name, d: nat) {
    && d in m && m[d].DirObj? && d != ROOT_INO && DOTDOT in m[d].names && m[d].names[DOTDOT] == q && Rooted(m, q)
    && m[d].links >= 2 + |Subs(m, d)|
    && forall e {:trigger Sub(m, q, e, d)} :: Sub(m, q, e, d) ==> e == c
  }

  ghost predicate Hung(m: Model) { forall q, c, d {:trigger Sub(m, q, c, d)} :: Sub(m, q, c, d) ==> HungAt(m, q, c, d) }

  ghost predicate Sound(m: Model) { AllLive(m) && Covered(m) && Dotted(m) && Hung(m) }

  /** An empty root, and inode 1, which has no name. */
  function EmptyRoot(): (m: Model) {
    map[1 := FileObj([], 1), ROOT_INO := DirObj(map[DOT := ROOT_INO, DOTDOT := ROOT_INO], 2)]
  }

  /** It is sound. */
  lemma FreshSound()
    ensures Sound(EmptyRoot())
  {
    var m := EmptyRoot();
    forall d, c | Holds(m, d, c) ensures m[d].names[c] in m {}
    forall i | i in m && m[i].FileObj? ensures |Names(m, i)| <= m[i].links { assert Names(m, 1) == {}; }
  }

  /** A sound path leads to a live inode, and a directory it leads to is rooted. */
  lemma {:induction false} LookLive(m: Model, cur: nat, cs: seq<Name>)
    requires Sound(m) && cur in m && (m[cur].DirObj? ==> Rooted(m, cur))
    ensures var i := Look(m, cur, cs); i != 0 ==> i in m && (m[i].DirObj? ==> Rooted(m, i))
    decreases |cs|
  {
    hide Covered;
    if cs != [] && cur != 0 {
      var c := cs[0];
      var t := Next(m, cur, c);
      if t == 0 {
        ZeroStays(m, cs[1..]);
      } else {
        StepRooted(m, cur, c, t);
        LookLive(m, t, cs[1..]);
      }
    }
  }

  lemma StepRooted(m: Model, cur: nat, c: Name, t: nat)
    requires Sound(m) && cur in m && m[cur].DirObj? && Rooted(m, cur) && Holds(m, cur, c) && m[cur].names[c] == t
    ensures t in m && (m[t].DirObj? ==> Rooted(m, t))
  {
    hide Covered;
    assert Holds(m, cur, c);
    if m[t].DirObj? {
      if Proper(c) {
        assert Sub(m, cur, c, t);
      } else if c == DOTDOT && cur != ROOT_INO {
        var q, e :| Sub(m, q, e, cur);
        assert HungAt(m, q, e, cur);
      }
    }
  }

  // ---- a file gained -------------------------------------------------------

  lemma NoNames(m: Model, i: nat)
    requires AllLive(m) && i !in m
    ensures Names(m, i) == {}
  {
    forall x | x in Names(m, i) ensures false { assert Holds(m, x.0, x.1); }
  }

  /** A free name in a directory is not a dot. */
  lemma FreeProper(m: Model, p: nat, name: Name)
    requires Dotted(m) && p in m && m[p].DirObj? && !Holds(m, p, name)
    ensures Proper(name)
  {
    assert m[p].DirObj?;
  }

  lemma AddFileCovered(m: Model, p: nat, name: Name, ino: nat)
    requires AllLive(m) && Covered(m) && CanAdd(m, p, name, ino)
    ensures AllLive(AddFile(m, p, name, ino)) && Covered(AddFile(m, p, name, ino))
  {
    var r := AddFile(m, p, name, ino);
    NoNames(m, ino);
    forall d, c | Holds(r, d, c) ensures r[d].names[c] in r { if !(d == p && c == name) { assert Holds(m, d, c); } }
    forall i | i in r && r[i].FileObj? ensures |Names(r, i)| <= r[i].links {
      if i == ino { assert Names(r, ino) == {(p, name)}; } else { assert Names(r, i) == Names(m, i); }
    }
  }

  /** Nothing about the directories differs. */
  ghost predicate SameTree(m: Model, r: Model) {
    && (forall q, c, d {:trigger Sub(r, q, c, d)} :: Sub(r, q, c, d) <==> Sub(m, q, c, d))
    && (forall d {:trigger m[d]} ::
         d in m && m[d].DirObj? ==>
           && d in r && r[d].DirObj? && r[d].links == m[d].links && DotsAs(m[d].names, r[d].names))
    && (forall d {:trigger r[d]} :: d in r && r[d].DirObj? ==> d in m && m[d].DirObj?)
  }

  predicate DotsAs(a: map<Name, nat>, b: map<Name, nat>) {
    && (DOT in a ==> DOT in b && b[DOT] == a[DOT]) && (DOTDOT in a ==> DOTDOT in b && b[DOTDOT] == a[DOTDOT])
  }

  lemma SameTreeHung(m: Model, r: Model)
    requires Dotted(m) && Hung(m) && SameTree(m, r)
    ensures Dotted(r) && Hung(r)
  {
    hide Sub;
    forall q, c, d | Sub(r, q, c, d) ensures HungAt(r, q, c, d) {
      assert Sub(m, q, c, d) && HungAt(m, q, c, d);
      assert d in m && m[d].DirObj?;
      SameSubs(m, r, d);
      if q != ROOT_INO { var q', c' :| Sub(m, q', c', q); assert Sub(r, q', c', q); }
      forall e | Sub(r, q, e, d) ensures e == c { assert Sub(m, q, e, d); }
    }
    forall d | d in r && r[d].DirObj?
      ensures DOT in r[d].names && r[d].names[DOT] == d && DOTDOT in r[d].names && r[d].links < TWO16
    {
      assert m[d].DirObj?;
    }
  }

  lemma SameSubs(m: Model, r: Model, d: nat)
    requires SameTree(m, r) && d in m && m[d].DirObj?
    ensures Subs(r, d) == Subs(m, d)
  {
    forall c ensures c in Subs(r, d) <==> c in Subs(m, d) {
      if c in Subs(r, d) { assert Sub(r, d, c, r[d].names[c]) && Sub(m, d, c, r[d].names[c]); }
      if c in Subs(m, d) { assert Sub(m, d, c, m[d].names[c]) && Sub(r, d, c, m[d].names[c]); }
    }
  }

  lemma AddFileSound(m: Model, p: nat, name: Name, ino: nat)
    requires Sound(m) && CanAdd(m, p, name, ino)
    ensures Sound(AddFile(m, p, name, ino))
  {
    hide Covered, Hung;
    var r := AddFile(m, p, name, ino);
    FreeProper(m, p, name);
    AddFileCovered(m, p, name, ino);
    forall q, c, d
      ensures Sub(r, q, c, d) <==> Sub(m, q, c, d)
    {
      if Sub(m, q, c, d) || Sub(r, q, c, d) { assert q in m && q != ino; }
    }
    SameTreeHung(m, r);
  }

  // ---- a file written ------------------------------------------------------

  lemma OverwriteSound(m: Model, ino: nat, data: seq<Octet>)
    requires Sound(m)
    ensures Sound(Overwrite(m, ino, data))
  {
    hide Hung;
    var r := Overwrite(m, ino, data);
    forall d, c | Holds(r, d, c) ensures r[d].names[c] in r { assert Holds(m, d, c); }
    forall i | i in r && r[i].FileObj? ensures |Names(r, i)| <= r[i].links { assert Names(r, i) == Names(m, i); }
    forall q, c, d ensures Sub(r, q, c, d) <==> Sub(m, q, c, d) {}
    SameTreeHung(m, r);
  }

  // ---- a file lost ---------------------------------------------------------

  /** What is unlinked is not reached by a dot. */
  lemma UnlinkProper(m: Model, p: nat, name: Name, ino: nat)
    requires Sound(m) && CanRemove(m, p, name, ino) && Rooted(m, p)
    ensures Proper(name)
  {
    hide Covered;
    if p != ROOT_INO {
      var q, c :| Sub(m, q, c, p);
      assert HungAt(m, q, c, p);
      assert Holds(m, q, c) && q in m;
    }
    assert m[p].DirObj?;
  }

  lemma RemoveFileNames(m: Model, p: nat, name: Name, ino: nat, i: nat)
    requires CanRemove(m, p, name, ino) && m[ino].FileObj?
    ensures Names(RemoveFile(m, p, name, ino), i) == Names(m, i) - {(p, name)}
  {
    var r := RemoveFile(m, p, name, ino);
    forall d, c ensures (d, c) in Names(r, i) <==> (d, c) in Names(m, i) && (d, c) != (p, name) {}
  }

  lemma NameHeld(m: Model, p: nat, name: Name, ino: nat)
    requires CanRemove(m, p, name, ino)
    ensures (p, name) in Names(m, ino) && |Names(m, ino) - {(p, name)}| == |Names(m, ino)| - 1
    ensures forall i {:trigger Names(m, i)} :: i != ino ==> (p, name) !in Names(m, i)
  {
    assert (p, name) in Names(m, ino);
  }

  lemma RemoveFileLive(m: Model, p: nat, name: Name, ino: nat)
    requires AllLive(m) && CanRemove(m, p, name, ino) && m[ino].FileObj? && |Names(m, ino)| <= m[ino].links
    ensures AllLive(RemoveFile(m, p, name, ino))
  {
    var r := RemoveFile(m, p, name, ino);
    NameHeld(m, p, name, ino);
    forall d, c | Holds(r, d, c) ensures r[d].names[c] in r {
      assert Holds(m, d, c);
      if m[d].names[c] == ino { assert (d, c) in Names(m, ino) - {(p, name)}; }
    }
  }

  lemma RemoveFileCovered(m: Model, p: nat, name: Name, ino: nat)
    requires Covered(m) && CanRemove(m, p, name, ino) && m[ino].FileObj?
    ensures Covered(RemoveFile(m, p, name, ino))
  {
    hide Names;
    var r := RemoveFile(m, p, name, ino);
    NameHeld(m, p, name, ino);
    forall i | i in r && r[i].FileObj? ensures |Names(r, i)| <= r[i].links {
      RemoveFileNames(m, p, name, ino, i);
      if i != ino { assert Names(m, i) - {(p, name)} == Names(m, i); }
    }
  }

  lemma FileCovered(m: Model, i: nat)
    requires Covered(m) && i in m && m[i].FileObj?
    ensures |Names(m, i)| <= m[i].links
  {
  }

  lemma RemoveFileSound(m: Model, p: nat, name: Name, ino: nat)
    requires Sound(m) && CanRemove(m, p, name, ino) && m[ino].FileObj? && Rooted(m, p)
    ensures Sound(RemoveFile(m, p, name, ino))
  {
    hide Covered, Hung, AllLive, Names;
    var r := RemoveFile(m, p, name, ino);
    FileCovered(m, ino);
    RemoveFileLive(m, p, name, ino);
    RemoveFileCovered(m, p, name, ino);
    UnlinkProper(m, p, name, ino);
    forall q, c, d ensures Sub(r, q, c, d) <==> Sub(m, q, c, d) {}
    SameTreeHung(m, r);
  }

  // ---- a directory gained --------------------------------------------------

  lemma AddDirCovered(m: Model, p: nat, name: Name, ino: nat)
    requires AllLive(m) && Covered(m) && CanAdd(m, p, name, ino)
    ensures AllLive(AddDir(m, p, name, ino)) && Covered(AddDir(m, p, name, ino))
  {
    var r := AddDir(m, p, name, ino);
    NoNames(m, ino);
    forall d, c | Holds(r, d, c)
      ensures r[d].names[c] in r
    {
      if d != ino && !(d == p && c == name) { assert Holds(m, d, c); }
    }
    forall i | i in r && r[i].FileObj? ensures |Names(r, i)| <= r[i].links {
      forall d, c ensures (d, c) in Names(r, i) <==> (d, c) in Names(m, i) {}
      assert Names(r, i) == Names(m, i);
    }
  }

  lemma AddDirSubs(m: Model, p: nat, name: Name, ino: nat)
    requires AllLive(m) && CanAdd(m, p, name, ino) && Proper(name)
    ensures var r := AddDir(m, p, name, ino);
            && (forall q, c, d {:trigger Sub(r, q, c, d)} ::
                  Sub(r, q, c, d) <==> Sub(m, q, c, d) || (q == p && c == name && d == ino))
            && forall d {:trigger Subs(r, d)} :: Subs(r, d) == if d == p then Subs(m, p) + {name} else Subs(m, d)
  {
    var r := AddDir(m, p, name, ino);
    forall q, c, d ensures Sub(r, q, c, d) <==> Sub(m, q, c, d) || (q == p && c == name && d == ino) {
      if Sub(r, q, c, d) && d == ino && q != ino && !(q == p && c == name) { assert Holds(m, q, c); }
    }
    forall d ensures Subs(r, d) == if d == p then Subs(m, p) + {name} else Subs(m, d) {
      forall c ensures c in Subs(r, d) <==> c in (if d == p then Subs(m, p) + {name} else Subs(m, d)) {
        if d in m && m[d].DirObj? && c in m[d].names { assert Holds(m, d, c) && m[d].names[c] in m; }
      }
    }
  }

  lemma AddDirSound(m: Model, p: nat, name: Name, ino: nat)
    requires Sound(m) && CanAdd(m, p, name, ino) && Rooted(m, p) && (m[p].links + 1 < TWO16 || p == ROOT_INO)
    ensures Sound(AddDir(m, p, name, ino))
  {
    hide Covered, Sub, Subs;
    var r := AddDir(m, p, name, ino);
    FreeProper(m, p, name);
    AddDirCovered(m, p, name, ino);
    AddDirSubs(m, p, name, ino);
    assert ino != ROOT_INO;
    forall q, c, d | Sub(r, q, c, d) ensures HungAt(r, q, c, d) {
      if Sub(m, q, c, d) {
        assert HungAt(m, q, c, d);
        RootedStill(m, r, q);
        assert |Subs(m, p) + {name}| <= |Subs(m, p)| + 1;
      } else {
        RootedStill(m, r, p);
        EmptySubs(m, ino);
      }
      forall e | Sub(r, q, e, d) ensures e == c { if Sub(m, q, e, d) { assert HungAt(m, q, e, d); } }
    }
  }

  /** The 65536th link of a named directory leaves it with none. */
  lemma AddDirWraps(m: Model, p: nat, name: Name, ino: nat)
    requires Sound(m) && CanAdd(m, p, name, ino) && Rooted(m, p) && m[p].links + 1 >= TWO16 && p != ROOT_INO
    ensures !Sound(AddDir(m, p, name, ino))
  {
    hide Covered, Subs, AllLive;
    var r := AddDir(m, p, name, ino);
    assert m[p].links < TWO16;
    assert p in r && r[p].DirObj? && r[p].links == 0;
    var q, c :| Sub(m, q, c, p);
    assert Sub(r, q, c, p);
    assert !HungAt(r, q, c, p);
  }

  lemma EmptySubs(m: Model, i: nat)
    requires i !in m || !m[i].DirObj? || m[i].names.Keys <= {DOT, DOTDOT}
    ensures Subs(m, i) == {}
  {
  }

  lemma RootedStill(m: Model, r: Model, q: nat)
    requires Rooted(m, q) && forall a, c, d {:trigger Sub(r, a, c, d)} :: Sub(m, a, c, d) ==> Sub(r, a, c, d)
    ensures Rooted(r, q)
  {
    if q != ROOT_INO { var a, c :| Sub(m, a, c, q); assert Sub(r, a, c, q); }
  }

  // ---- a directory lost ----------------------------------------------------

  /** A directory on the tree has more than one link, so unlink never frees one. */
  lemma RmdirKeeps(m: Model, p: nat, name: Name, ino: nat)
    requires Sound(m) && CanRemove(m, p, name, ino) && m[ino].DirObj? && Rooted(m, p)
    ensures Sub(m, p, name, ino) && m[ino].links >= 2
    ensures ino in RemoveDir(m, p, name, ino) && Names(RemoveDir(m, p, name, ino), ino) <= Names(m, ino) - {(p, name)}
  {
    UnlinkProper(m, p, name, ino);
    assert Sub(m, p, name, ino) && HungAt(m, p, name, ino);
  }

  lemma RemoveDirCovered(m: Model, p: nat, name: Name, ino: nat)
    requires AllLive(m) && Covered(m) && CanRemove(m, p, name, ino) && m[ino].DirObj? && m[ino].links >= 2
    ensures AllLive(RemoveDir(m, p, name, ino)) && Covered(RemoveDir(m, p, name, ino))
  {
    var r := RemoveDir(m, p, name, ino);
    forall d, c | Holds(r, d, c) ensures r[d].names[c] in r { assert Holds(m, d, c); }
    forall i | i in r && r[i].FileObj? ensures |Names(r, i)| <= r[i].links {
      forall d, c ensures (d, c) in Names(r, i) <==> (d, c) in Names(m, i) {}
      assert Names(r, i) == Names(m, i);
    }
  }

  lemma RemoveDirSubs(m: Model, p: nat, name: Name, ino: nat)
    requires Sub(m, p, name, ino) && CanRemove(m, p, name, ino) && m[ino].links >= 2
    ensures var r := RemoveDir(m, p, name, ino);
            && (forall q, c, d {:trigger Sub(r, q, c, d)} ::
                  Sub(r, q, c, d) <==> Sub(m, q, c, d) && !(q == p && c == name))
            && forall d {:trigger Subs(r, d)} :: Subs(r, d) == if d == p then Subs(m, p) - {name} else Subs(m, d)
  {
    var r := RemoveDir(m, p, name, ino);
    forall q, c, d ensures Sub(r, q, c, d) <==> Sub(m, q, c, d) && !(q == p && c == name) {}
    forall d ensures Subs(r, d) == if d == p then Subs(m, p) - {name} else Subs(m, d) {
      forall c ensures c in Subs(r, d) <==> c in (if d == p then Subs(m, p) - {name} else Subs(m, d)) {}
    }
  }

  lemma RemoveDirHung(m: Model, r: Model, p: nat, name: Name, ino: nat, q: nat, c: Name, d: nat)
    requires Sound(m) && CanRemove(m, p, name, ino) && Sub(m, p, name, ino) && m[ino].links >= 2
    requires r == RemoveDir(m, p, name, ino) && Sub(r, q, c, d)
    ensures HungAt(r, q, c, d)
  {
    hide Covered, AllLive, Sub, Subs, Names;
    RemoveDirSubs(m, p, name, ino);
    EmptySubs(m, ino);
    assert Sub(m, q, c, d) && HungAt(m, q, c, d) && HungAt(m, p, name, ino);
    StaysRooted(m, r, p, name, ino, q, c, d);
    if d == p { SubIn(m, p, name, ino); }
    assert d != ino;
    forall e | Sub(r, q, e, d) ensures e == c { assert Sub(m, q, e, d); }
  }

  lemma RemoveDirSound(m: Model, p: nat, name: Name, ino: nat)
    requires Sound(m) && CanRemove(m, p, name, ino) && m[ino].DirObj? && Rooted(m, p)
    ensures Sound(RemoveDir(m, p, name, ino))
  {
    hide Covered, Subs, Names, HungAt;
    var r := RemoveDir(m, p, name, ino);
    UnlinkProper(m, p, name, ino);
    RmdirKeeps(m, p, name, ino);
    RemoveDirCovered(m, p, name, ino);
    forall q, c, d | Sub(r, q, c, d) ensures HungAt(r, q, c, d) { RemoveDirHung(m, r, p, name, ino, q, c, d); }
  }

  lemma SubIn(m: Model, p: nat, name: Name, ino: nat)
    requires Sub(m, p, name, ino)
    ensures name in Subs(m, p) && |Subs(m, p)| >= 1 && |Subs(m, p) - {name}| == |Subs(m, p)| - 1
  {
    assert name in Subs(m, p);
  }

  lemma StaysRooted(m: Model, r: Model, p: nat, name: Name, ino: nat, q: nat, c: Name, d: nat)
    requires Hung(m) && Sub(m, p, name, ino) && Sub(m, q, c, d) && m[ino].names.Keys <= {DOT, DOTDOT}
    requires forall a, e, b {:trigger Sub(r, a, e, b)} :: Sub(r, a, e, b) <==> Sub(m, a, e, b) && !(a == p && e == name)
    ensures Rooted(r, q)
  {
    assert HungAt(m, q, c, d);
    if q != ROOT_INO {
      var a, e :| Sub(m, a, e, q);
      assert Sub(r, a, e, q);
    }
  }

  // ---- steps and runs ------------------------------------------------------

  /** mkdir leaves the parent's sixteen-bit link count room. */
  predicate Roomy(m: Model, op: FsOp) { op.MkdirOp? ==> LinksOf(m, op.p) + 1 < TWO16 }

  /** No directory unlinked by its own name, and room for the link count of every parent but the root. */
  predicate Tame(m: Model, op: FsOp) { !op.SelfOp? && (Roomy(m, op) || op.p == ROOT_INO) }

  lemma SiteRooted(m: Model, at: seq<Name>, p: nat, name: Name)
    requires Sound(m) && Site(m, at, p, name)
    ensures p in m && (m[p].DirObj? ==> Rooted(m, p))
  {
    hide Covered, Hung;
    LookLive(m, ROOT_INO, at);
  }

  /** The steps that keep a sound file system sound are exactly the tame ones. */
  lemma StepSound(m: Model, op: FsOp)
    requires Sound(m) && CanStep(m, op)
    ensures Sound(ModelStep(m, op)) <==> !op.SelfOp? && (Roomy(m, op) || op.p == ROOT_INO)
  {
    hide Sound, CanAdd, Look, Passable, AddFile, AddDir, RemoveFile, RemoveDir, RemoveSelf, Overwrite, Rooted;
    match op
    case CreateOp(at, p, name, ino) => AddFileSound(m, p, name, ino);
    case MkdirOp(at, p, name, ino) =>
      SiteRooted(m, at, p, name);
      SiteDir(m, p, name, ino);
      if Roomy(m, op) || p == ROOT_INO { AddDirSound(m, p, name, ino); } else { AddDirWraps(m, p, name, ino); }
    case WriteOp(ino, data) => OverwriteSound(m, ino, data);
    case GiveUpOp(ino, data) => OverwriteSound(m, ino, data);
    case UnlinkOp(at, p, name, ino) =>
      SiteRooted(m, at, p, name);
      if m[ino].DirObj? { RemoveDirSound(m, p, name, ino); } else { RemoveFileSound(m, p, name, ino); }
    case SelfOp(at, p, name) => SelfUnsound(m, at, p, name);
    case FailOp =>
  }

  /** The root is a directory and no name is dead. */
  ghost predicate Standing(m: Model) { AllLive(m) && ROOT_INO in m && m[ROOT_INO].DirObj? }

  lemma SoundStands(m: Model)
    requires Sound(m)
    ensures Standing(m)
  {
    hide AllLive, Covered, Hung;
  }

  /** A path to `p` from elsewhere ends with a name of `p` in another directory. */
  lemma {:induction false} NamedElsewhere(m: Model, cur: nat, cs: seq<Name>, p: nat) returns (q: nat, c: Name)
    requires Look(m, cur, cs) == p && p != 0 && cur != p
    ensures q != p && Holds(m, q, c) && m[q].names[c] == p
    decreases |cs|
  {
    var t := Next(m, cur, cs[0]);
    ZeroStays(m, cs[1..]);
    if t == p {
      q, c := cur, cs[0];
    } else {
      q, c := NamedElsewhere(m, t, cs[1..], p);
    }
  }

  /** A directory unlinked by its own name leaves the rest standing if and only if its link count is
      not one: with the last link the root itself goes, or a name of the directory is dead. */
  lemma SelfStanding(m: Model, at: seq<Name>, p: nat, name: Name)
    requires Standing(m) && CanStep(m, SelfOp(at, p, name))
    ensures Standing(RemoveSelf(m, p, name)) <==> m[p].links != 1
  {
    hide Look, Passable;
    var r := RemoveSelf(m, p, name);
    if m[p].links == 1 {
      if p != ROOT_INO {
        var q, c := NamedElsewhere(m, ROOT_INO, at, p);
        assert Holds(r, q, c) && r[q].names[c] !in r;
      }
    } else {
      forall d, c | Holds(r, d, c) ensures r[d].names[c] in r { assert Holds(m, d, c); }
    }
  }

  lemma SelfUnsound(m: Model, at: seq<Name>, p: nat, name: Name)
    requires Sound(m) && CanStep(m, SelfOp(at, p, name))
    ensures !Sound(RemoveSelf(m, p, name))
  {
    hide Look, Passable, AllLive, Covered, Hung;
    var r := RemoveSelf(m, p, name);
    SoundStands(m);
    SelfStanding(m, at, p, name);
    if m[p].links == 1 {
      if Sound(r) { SoundStands(r); }
    } else {
      assert name in m[p].names.Keys;
      assert p in r && r[p].DirObj? && name !in r[p].names;
      assert !Dotted(r);
    }
  }

  /** Two calls on a fresh volume, unlink("/.") and unlink("/.."): the root is gone. */
  lemma RootLost()
    ensures var ops := [SelfOp([], ROOT_INO, DOT), SelfOp([], ROOT_INO, DOTDOT)];
            CanRun(EmptyRoot(), ops) && ROOT_INO !in ModelRun(EmptyRoot(), ops)
  {
    var m, a, b := EmptyRoot(), SelfOp([], ROOT_INO, DOT), SelfOp([], ROOT_INO, DOTDOT);
    var m1 := ModelStep(m, a);
    var dots: map<Name, nat> := map[DOT := ROOT_INO, DOTDOT := ROOT_INO];
    assert m[ROOT_INO].names == dots && dots - {DOT} == map[DOTDOT := ROOT_INO];
    assert m1 == m[ROOT_INO := DirObj(dots - {DOT}, 1)];
    assert CanStep(m, a) && CanStep(m1, b);
    assert [a, b][..1] == [a] && [a][..0] == [];
    assert ModelRun(m, [a]) == m1 && CanRun(m, [a]);
  }

  /** After unlink("/d/.") of an empty directory has returned success, every path that does not end
      its walk through that dot leads where it led: "/d" is still there, one link poorer. */
  lemma OwnDot(m: Model, p: nat, name: Name, cs: seq<Name>)
    requires p in m && m[p].DirObj? && m[p].links != 1 && Next(m, p, name) == p && p != 0
    requires Avoids(m, ROOT_INO, cs, p, name, 0)
    ensures var r := RemoveSelf(m, p, name);
            && Look(r, ROOT_INO, cs) == Look(m, ROOT_INO, cs) && p in r
            && r[p].links == (m[p].links + TWO16 - 1) % TWO16 && Next(r, p, name) == 0
  {
    var r := RemoveSelf(m, p, name);
    assert Loses(m, r, p, name, 0) by {
      forall y, e | !(y == p && e == name) ensures Next(r, y, e) == Next(m, y, e) {}
    }
    LosesPaths(m, r, ROOT_INO, cs, p, name, 0);
  }

  lemma SiteDir(m: Model, p: nat, name: Name, ino: nat)
    requires CanAdd(m, p, name, ino)
    ensures p in m && m[p].DirObj? && LinksOf(m, p) == m[p].links
  {
  }

  ghost predicate TameRun(m: Model, ops: seq<FsOp>) {
    ops == [] || (TameRun(m, ops[..|ops| - 1]) && Tame(ModelRun(m, ops[..|ops| - 1]), ops[|ops| - 1]))
  }

  lemma {:induction false} RunSound(m: Model, ops: seq<FsOp>)
    requires Sound(m) && CanRun(m, ops) && TameRun(m, ops)
    ensures Sound(ModelRun(m, ops))
  {
    hide Sound, CanStep, ModelStep, Roomy;
    if ops != [] {
      RunSound(m, ops[..|ops| - 1]);
      StepSound(ModelRun(m, ops[..|ops| - 1]), ops[|ops| - 1]);
    }
  }

  /** Once made, a directory keeps its inode for good: unlink takes its name only. */
  lemma {:induction false} DirectoriesStay(m: Model, ops: seq<FsOp>, d: nat)
    requires Sound(m) && CanRun(m, ops) && TameRun(m, ops) && d in m && m[d].DirObj?
    ensures d in ModelRun(m, ops) && ModelRun(m, ops)[d].DirObj?
  {
    hide Sound, CanStep, ModelStep, Roomy;
    if ops != [] {
      RunSound(m, ops[..|ops| - 1]);
      DirectoriesStay(m, ops[..|ops| - 1], d);
      DirectoryStays(ModelRun(m, ops[..|ops| - 1]), ops[|ops| - 1], d);
    }
  }

  /** Only a directory with one link that is unlinked by its own name loses its inode. */
  lemma DirectoryStays(m: Model, op: FsOp, d: nat)
    requires Sound(m) && CanStep(m, op) && d in m && m[d].DirObj?
    ensures d in ModelStep(m, op) <==> !(op.SelfOp? && op.p == d && m[d].links == 1)
    ensures d in ModelStep(m, op) ==> ModelStep(m, op)[d].DirObj?
  {
    hide Sound, Site, Look, Passable, Names, Rooted;
    if op.UnlinkOp? && m[op.ino].DirObj? {
      SiteRooted(m, op.at, op.p, op.name);
      RmdirKeeps(m, op.p, op.name, op.ino);
    }
  }

  /** From a sound file system, after any sequence of calls, every path leads to a live inode or
      nowhere. */
  lemma NoDanglingNames(g: Geom, vs: seq<Vol>, ns: seq<Nodes>, ops: seq<FsOp>, path: Path)
    requires FsRun(g, vs, ns, ops) && Rest(g, vs[0], ns[0]) && DiskOk(g, vs[0].d)
    requires Sound(View(g, vs[0].d, ns[0])) && TameRun(View(g, vs[0].d, ns[0]), ops)
    ensures Rest(g, vs[|ops|], ns[|ops|]) && DiskOk(g, vs[|ops|].d) && Sound(View(g, vs[|ops|].d, ns[|ops|]))
    ensures Resolved(g, vs[|ops|].d, ns[|ops|], path) != 0 ==> Resolved(g, vs[|ops|].d, ns[|ops|], path) in ns[|ops|]
  {
    hide FsStep, Rest, View, TableEnd, ModelRun, CanRun, TameRun, Components, Resolved, Covered, Hung;
    var v, nodes := vs[|ops|], ns[|ops|];
    DiskFollowsMap(g, vs, ns, ops);
    RunSound(View(g, vs[0].d, ns[0]), ops);
    ResolvedIs(g, v, nodes, path);
    LookLive(View(g, v.d, nodes), ROOT_INO, Components(path));
    ViewKeys(g, v.d, nodes, Resolved(g, v.d, nodes, path));
  }
}
