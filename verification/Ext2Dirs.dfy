/** Directories: the entries of all blocks in order, read as a finite map from names to inodes. */
module Ext2Dirs {
  import opened DiskBytes
  import opened Ext2Layout
  import opened Ext2Trees
  import opened Ext2Alloc
  import opened Ext2Files
  import opened Ext2Dirents

  // ---- entry lists as maps -------------------------------------------------

  /** The inode bound to `name`, zero if none; the first match wins, as in resolve_path. */
  function Find(es: seq<Entry>, name: Name): (ino: nat) {
    if es == [] then 0 else if es[0].name == name then es[0].ino else Find(es[1..], name)
  }

  ghost predicate Absent(es: seq<Entry>, name: Name) { forall i :: 0 <= i < |es| ==> es[i].name != name }

  /** Live entries with pairwise different names. */
  ghost predicate Unique(es: seq<Entry>) {
    && (forall i :: 0 <= i < |es| ==> es[i].ino != 0)
    && (forall i, j :: 0 <= i < j < |es| ==> es[i].name != es[j].name)
  }

  lemma {:induction false} FindAbsent(es: seq<Entry>, name: Name)
    requires forall i :: 0 <= i < |es| ==> es[i].ino != 0
    ensures Find(es, name) == 0 <==> Absent(es, name)
  {
    if es != [] {
      FindAbsent(es[1..], name);
      assert es[0].name != name && Absent(es[1..], name) ==> Absent(es, name) by {
        if es[0].name != name && Absent(es[1..], name) {
          forall i | 0 <= i < |es| ensures es[i].name != name { if i > 0 { assert es[i] == es[1..][i - 1]; } }
        }
      }
      assert Absent(es, name) ==> Absent(es[1..], name);
    }
  }

  lemma {:induction false} FindConcat(a: seq<Entry>, b: seq<Entry>, name: Name)
    requires forall i :: 0 <= i < |a| ==> a[i].ino != 0
    ensures Find(a + b, name) == if Find(a, name) != 0 then Find(a, name) else Find(b, name)
  {
    if a == [] {
      assert a + b == b;
    } else {
      assert (a + b)[1..] == a[1..] + b;
      FindConcat(a[1..], b, name);
    }
  }

  lemma Singleton(e: Entry, name: Name)
    ensures Find([e], name) == if e.name == name then e.ino else 0
  {
  }

  /** One entry inserted anywhere: one new binding, every other name as before. */
  lemma FindInsert(a: seq<Entry>, e: Entry, b: seq<Entry>, x: Name)
    requires Unique(a + b) && e.ino != 0 && Find(a + b, e.name) == 0
    ensures Find(a + ([e] + b), x) == if x == e.name then e.ino else Find(a + b, x)
    ensures Unique(a + ([e] + b))
  {
    InsertUnique(a, e, b);
    SplitUnique(a, b);
    FindConcat(a, b, x);
    FindConcat(a, b, e.name);
    FindConcat(a, [e] + b, x);
    FindConcat([e], b, x);
    Singleton(e, x);
  }

  lemma SplitUnique(a: seq<Entry>, b: seq<Entry>)
    requires Unique(a + b)
    ensures Unique(a) && Unique(b)
  {
    assert forall i :: 0 <= i < |a| ==> a[i] == (a + b)[i];
    assert forall i :: 0 <= i < |b| ==> b[i] == (a + b)[|a| + i];
  }

  /** Positions before and after an insertion. */
  lemma Shifted(a: seq<Entry>, e: Entry, b: seq<Entry>, i: nat)
    requires i <= |a| + |b|
    ensures (a + ([e] + b))[i] == if i < |a| then (a + b)[i] else if i == |a| then e else (a + b)[i - 1]
  {
  }

  lemma InsertUnique(a: seq<Entry>, e: Entry, b: seq<Entry>)
    requires Unique(a + b) && e.ino != 0 && Find(a + b, e.name) == 0
    ensures Unique(a + ([e] + b))
  {
    FindAbsent(a + b, e.name);
    var es, small := a + ([e] + b), a + b;
    forall i | 0 <= i < |es| ensures es[i].ino != 0 { Shifted(a, e, b, i); }
    forall i, j | 0 <= i < j < |es| ensures es[i].name != es[j].name { Shifted(a, e, b, i); Shifted(a, e, b, j); }
  }

  /** One entry removed: its name is unbound, every other name as before. */
  lemma FindRemove(a: seq<Entry>, e: Entry, b: seq<Entry>, x: Name)
    requires Unique(a + ([e] + b))
    ensures Find(a + b, x) == if x == e.name then 0 else Find(a + ([e] + b), x)
    ensures Unique(a + b)
  {
    RemoveUnique(a, e, b);
    SplitUnique(a, [e] + b);
    SplitUnique([e], b);
    FindConcat(a, b, x);
    FindConcat(a, [e] + b, x);
    FindConcat([e], b, x);
    Singleton(e, x);
    if x == e.name { FindAbsent(a + b, x); }
  }

  lemma RemoveUnique(a: seq<Entry>, e: Entry, b: seq<Entry>)
    requires Unique(a + ([e] + b))
    ensures Unique(a + b) && Absent(a + b, e.name)
  {
    var es, small := a + ([e] + b), a + b;
    forall i | 0 <= i < |small| ensures small[i].ino != 0 && small[i].name != e.name {
      Shifted(a, e, b, |a|);
      Shifted(a, e, b, if i < |a| then i else i + 1);
    }
    forall i, j | 0 <= i < j < |small| ensures small[i].name != small[j].name {
      Shifted(a, e, b, if i < |a| then i else i + 1);
      Shifted(a, e, b, if j < |a| then j else j + 1);
    }
  }

  /** The directory as a finite map. */
  function Bindings(es: seq<Entry>): (m: map<Name, nat>) {
    map i | 0 <= i < |es| :: es[i].name := Find(es, es[i].name)
  }

  lemma BindingsFind(es: seq<Entry>, x: Name)
    requires Unique(es)
    ensures x in Bindings(es) <==> Find(es, x) != 0
    ensures x in Bindings(es) ==> Bindings(es)[x] == Find(es, x)
  {
    FindAbsent(es, x);
  }

  lemma BindingsInsert(a: seq<Entry>, e: Entry, b: seq<Entry>)
    requires Unique(a + b) && e.ino != 0 && Find(a + b, e.name) == 0
    ensures Unique(a + ([e] + b)) && Bindings(a + ([e] + b)) == Bindings(a + b)[e.name := e.ino]
  {
    hide Bindings, Find, Unique;
    InsertUnique(a, e, b);
    forall x ensures x in Bindings(a + ([e] + b)) <==> x == e.name || x in Bindings(a + b) {
      FindInsert(a, e, b, x); BindingsFind(a + b, x); BindingsFind(a + ([e] + b), x);
    }
    forall x | x in Bindings(a + ([e] + b)) ensures Bindings(a + ([e] + b))[x] == Bindings(a + b)[e.name := e.ino][x] {
      FindInsert(a, e, b, x); BindingsFind(a + b, x); BindingsFind(a + ([e] + b), x);
    }
  }

  lemma BindingsRemove(a: seq<Entry>, e: Entry, b: seq<Entry>)
    requires Unique(a + ([e] + b))
    ensures Unique(a + b) && Bindings(a + b) == Bindings(a + ([e] + b)) - {e.name}
  {
    hide Bindings, Find, Unique;
    RemoveUnique(a, e, b);
    forall x ensures x in Bindings(a + b) <==> x != e.name && x in Bindings(a + ([e] + b)) {
      FindRemove(a, e, b, x); BindingsFind(a + b, x); BindingsFind(a + ([e] + b), x);
    }
    forall x | x in Bindings(a + b) ensures Bindings(a + b)[x] == Bindings(a + ([e] + b))[x] {
      FindRemove(a, e, b, x); BindingsFind(a + b, x); BindingsFind(a + ([e] + b), x);
    }
  }

  // ---- a directory's blocks ------------------------------------------------

  const IFDIR: nat := 14
  const IFREG: nat := 15

  /** `inode.mode & EXT2_S_IFDIR`. */
  predicate IsDir(n: Inode) { Bit(Get16(n, OFF_MODE), IFDIR) }

  /** `inode.mode & EXT2_S_IFREG`. */
  predicate IsRegular(n: Inode) { Bit(Get16(n, OFF_MODE), IFREG) }

  function DirBlocks(g: Geom, n: Inode): nat
    requires g.bs > 0
  {
    Size(n) / g.bs
  }

  /** Directory block `i` exists and is tiled by records. */
  ghost predicate DirBlockOk(d: Disk, n: Inode, i: nat)
    requires i < DIRECT
  {
    0 < Pointer(n, i) < |d| && Tiled(d[Pointer(n, i)], 0)
  }

  /** The first `k` blocks are sound. */
  ghost predicate DirPrefix(d: Disk, n: Inode, k: nat) {
    k <= DIRECT && forall i {:trigger DirBlockOk(d, n, i)} :: 0 <= i < k ==> DirBlockOk(d, n, i)
  }

  /** The live entries of the first `k` blocks. */
  ghost function Listing(d: Disk, n: Inode, k: nat): (es: seq<Entry>)
    requires DirPrefix(d, n, k)
  {
    if k == 0 then [] else
    assert DirBlockOk(d, n, k - 1);
    Listing(d, n, k - 1) + LiveFrom(d[Pointer(n, k - 1)], 0)
  }

  /** A directory of whole blocks reached through direct pointers, with unique names. */
  ghost predicate DirOk(g: Geom, d: Disk, n: Inode)
    requires g.bs > 0
  {
    && Size(n) == DirBlocks(g, n) * g.bs && DirPrefix(d, n, DirBlocks(g, n))
    && (forall i {:trigger Pointer(n, i)} :: DirBlocks(g, n) <= i < 14 ==> Pointer(n, i) == 0)
    && Unique(Listing(d, n, DirBlocks(g, n)))
  }

  ghost function Entries(g: Geom, d: Disk, n: Inode): (es: seq<Entry>)
    requires g.bs > 0 && DirOk(g, d, n)
  {
    Listing(d, n, DirBlocks(g, n))
  }

  ghost predicate BlockSame(d: Disk, d': Disk, n: Inode, n': Inode, i: nat)
    requires i < DIRECT && |d'| == |d|
  {
    Pointer(n', i) == Pointer(n, i) && (Pointer(n, i) < |d| ==> d'[Pointer(n, i)] == d[Pointer(n, i)])
  }

  /** A directory whose blocks are untouched is unchanged. */
  lemma {:induction false} ListingSame(d: Disk, d': Disk, n: Inode, n': Inode, k: nat)
    requires DirPrefix(d, n, k) && |d'| == |d|
    requires forall i {:trigger BlockSame(d, d', n, n', i)} :: 0 <= i < k ==> BlockSame(d, d', n, n', i)
    ensures DirPrefix(d', n', k) && Listing(d', n', k) == Listing(d, n, k)
  {
    hide LiveFrom, Tiled, Pointer;
    forall i | 0 <= i < k ensures DirBlockOk(d', n', i) { assert DirBlockOk(d, n, i) && BlockSame(d, d', n, n', i); }
    if k > 0 {
      ListingUnfold(d, n, k);
      ListingUnfold(d', n', k);
      assert BlockSame(d, d', n, n', k - 1);
      ListingSame(d, d', n, n', k - 1);
    }
  }

  lemma DirSame(g: Geom, d: Disk, d': Disk, n: Inode)
    requires g.bs > 0 && DirOk(g, d, n) && SameFile(d, d', n)
    ensures DirOk(g, d', n) && Entries(g, d', n) == Entries(g, d, n)
  {
    hide Unique, Tiled, LiveFrom, Get32;
    forall i | 0 <= i < DirBlocks(g, n) ensures BlockSame(d, d', n, n, i) {
      assert DirBlockOk(d, n, i);
      assert At(d, n, Direct(i)) == Pointer(n, i);
    }
    ListingSame(d, d', n, n, DirBlocks(g, n));
  }

  /** Block `i` of a directory now lists `mid'` instead of `mid`, the others are as before. */
  lemma {:induction false} ListingUpdate(d: Disk, d': Disk, n: Inode, k: nat, i: nat)
      returns (a: seq<Entry>, b: seq<Entry>)
    requires DirPrefix(d, n, k) && i < k && |d'| == |d| && DirBlockOk(d', n, i)
    requires forall j {:trigger BlockSame(d, d', n, n, j)} :: 0 <= j < k && j != i ==> BlockSame(d, d', n, n, j)
    ensures DirPrefix(d', n, k) && DirBlockOk(d, n, i)
    ensures Listing(d, n, k) == a + LiveFrom(d[Pointer(n, i)], 0) + b
    ensures Listing(d', n, k) == a + LiveFrom(d'[Pointer(n, i)], 0) + b
  {
    hide LiveFrom, Tiled, Pointer, Listing;
    assert DirBlockOk(d, n, i) && DirBlockOk(d, n, k - 1) && DirPrefix(d, n, k - 1);
    forall j | 0 <= j < k
      ensures DirBlockOk(d', n, j)
    {
      assert DirBlockOk(d, n, j) && (j != i ==> BlockSame(d, d', n, n, j));
    }
    ListingUnfold(d, n, k);
    ListingUnfold(d', n, k);
    if i == k - 1 {
      ListingSame(d, d', n, n, k - 1);
      a, b := Listing(d, n, k - 1), [];
      assert a + LiveFrom(d[Pointer(n, i)], 0) + [] == a + LiveFrom(d[Pointer(n, i)], 0);
      assert a + LiveFrom(d'[Pointer(n, i)], 0) + [] == a + LiveFrom(d'[Pointer(n, i)], 0);
    } else {
      assert BlockSame(d, d', n, n, k - 1);
      var c;
      a, c := ListingUpdate(d, d', n, k - 1, i);
      var last := LiveFrom(d[Pointer(n, k - 1)], 0);
      b := c + last;
      Regroup(a, LiveFrom(d[Pointer(n, i)], 0), c, last);
      Regroup(a, LiveFrom(d'[Pointer(n, i)], 0), c, last);
    }
  }

  lemma Regroup(a: seq<Entry>, x: seq<Entry>, c: seq<Entry>, last: seq<Entry>)
    ensures (a + x + c) + last == a + x + (c + last)
  {
  }

  lemma ListingUnfold(d: Disk, n: Inode, k: nat)
    requires DirPrefix(d, n, k) && k > 0
    ensures DirPrefix(d, n, k - 1) && DirBlockOk(d, n, k - 1)
    ensures Listing(d, n, k) == Listing(d, n, k - 1) + LiveFrom(d[Pointer(n, k - 1)], 0)
  {
    assert DirBlockOk(d, n, k - 1) && DirPrefix(d, n, k - 1);
  }

  // ---- searching -----------------------------------------------------------

  ghost predicate AllLive(es: seq<Entry>) { forall i :: 0 <= i < |es| ==> es[i].ino != 0 }

  lemma {:induction false} LiveFromLive(b: Block, o: nat)
    requires Tiled(b, o)
    ensures AllLive(LiveFrom(b, o))
    decreases |b| - o
  {
    hide NameOk;
    if o != |b| { LiveFromLive(b, o + RecLen(b, o)); }
  }

  lemma {:induction false} ListingLive(d: Disk, n: Inode, k: nat)
    requires DirPrefix(d, n, k)
    ensures AllLive(Listing(d, n, k))
  {
    hide Tiled, LiveFrom;
    if k > 0 {
      assert DirBlockOk(d, n, k - 1);
      ListingLive(d, n, k - 1);
      LiveFromLive(d[Pointer(n, k - 1)], 0);
    }
  }

  /** Searching block after block finds the first match of the whole directory. */
  lemma FindNext(d: Disk, n: Inode, k: nat, name: Name)
    requires DirPrefix(d, n, k + 1)
    ensures DirPrefix(d, n, k) && DirBlockOk(d, n, k)
    ensures Find(Listing(d, n, k + 1), name) == if Find(Listing(d, n, k), name) != 0 then Find(Listing(d, n, k), name)
              else Find(LiveFrom(d[Pointer(n, k)], 0), name)
  {
    hide Tiled, LiveFrom, Find;
    assert DirBlockOk(d, n, k) && DirPrefix(d, n, k);
    ListingLive(d, n, k);
    FindConcat(Listing(d, n, k), LiveFrom(d[Pointer(n, k)], 0), name);
  }

  lemma {:induction false} FindFirst(d: Disk, n: Inode, k: nat, m: nat, name: Name)
    requires k <= m && DirPrefix(d, n, m)
    ensures DirPrefix(d, n, k)
    ensures (Find(Listing(d, n, k), name) != 0 ==> Find(Listing(d, n, m), name) == Find(Listing(d, n, k), name))
    decreases m - k
  {
    hide Find, Listing;
    if k < m {
      FindNext(d, n, m - 1, name);
      FindFirst(d, n, k, m - 1, name);
    }
  }

  /** A C string: the bytes before the first NUL. */
  function CStr(s: seq<Octet>): (t: seq<Octet>)
    ensures NameOk(s) ==> t == s
  {
    if s == [] || s[0] == 0 then [] else
    assert NameOk(s) && |s| > 1 ==> NameOk(s[1..]);
    [s[0]] + CStr(s[1..])
  }
}
