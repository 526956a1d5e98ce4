/** How many page tables a list of pages needs: the radix tree above them (kernel/paging.c), one node
    per table below the root. */
module ElfTables {
  const FANOUT: nat := 512

  /** A table of level 1 to 3 and the part of the page number its walk has used up. */
  datatype Node = Node(lvl: nat, pre: nat)

  function Above(p: nat, lvl: nat): Node {
    Node(lvl, if lvl == 1 then p / FANOUT / FANOUT / FANOUT else if lvl == 2 then p / FANOUT / FANOUT else p / FANOUT)
  }

  /** The tables down to level `l` on the walk to page `p`. */
  function Path(p: nat, l: nat): (c: set<Node>) { if l == 0 then {} else Path(p, l - 1) + {Above(p, l)} }

  /** All three of them. */
  function Chain(p: nat): (c: set<Node>) { Path(p, 3) }

  lemma {:induction false} PathLevels(p: nat, l: nat, n: Node)
    requires n in Path(p, l)
    ensures 1 <= n.lvl <= l && n == Above(p, n.lvl)
    decreases l
  {
    if n != Above(p, l) { PathLevels(p, l - 1, n); }
  }

  /** One more level takes one more table unless it is there. */
  lemma PathMore(p: nat, l: nat, t: set<Node>)
    requires 0 < l
    ensures |Path(p, l) - t| == |Path(p, l - 1) - t| + if Above(p, l) in t then 0 else 1
  {
    if Above(p, l) in Path(p, l - 1) { PathLevels(p, l - 1, Above(p, l)); }
    if Above(p, l) in t {
      assert Path(p, l) - t == Path(p, l - 1) - t;
    } else {
      assert Path(p, l) - t == (Path(p, l - 1) - t) + {Above(p, l)};
    }
  }

  lemma {:induction false} PathSize(p: nat, l: nat, m: nat, t: set<Node>)
    requires l <= m
    ensures Path(p, l) <= Path(p, m) && |Path(p, l) - t| <= |Path(p, m) - t|
    decreases m - l
  {
    hide Above;
    if l < m {
      PathSize(p, l, m - 1, t);
      PathMore(p, m, t);
      PathStep(p, m);
    }
  }

  lemma PathNone(p: nat)
    ensures Path(p, 0) == {}
  {
  }

  /** Pages under the same last table have the same tables. */
  lemma ChainShared(p: nat, q: nat)
    requires p / FANOUT == q / FANOUT
    ensures Chain(p) == Chain(q)
  {
    assert Above(p, 1) == Above(q, 1) && Above(p, 2) == Above(q, 2) && Above(p, 3) == Above(q, 3);
    assert Path(p, 0) == Path(q, 0);
    assert Path(p, 1) == Path(q, 1);
    assert Path(p, 2) == Path(q, 2);
  }

  lemma PathStep(p: nat, l: nat)
    requires 0 < l
    ensures Path(p, l) == Path(p, l - 1) + {Above(p, l)}
  {
  }

  /** A table hung below the one above it keeps the tree. */
  lemma TreeMore(t: set<Node>, p: nat, l: nat)
    requires Tree(t) && 1 <= l <= 3 && (l > 1 ==> Above(p, l - 1) in t)
    ensures Tree(t + {Above(p, l)})
  {
  }

  /** A table hangs off a table. */
  ghost predicate Tree(t: set<Node>) {
    forall n {:trigger n in t} :: n in t ==> 1 <= n.lvl <= 3 && (n.lvl > 1 ==> Node(n.lvl - 1, n.pre / FANOUT) in t)
  }

  /** The tables on the walks to all of `ps`. */
  function Nodes(ps: seq<nat>): (s: set<Node>) {
    if ps == [] then {} else Nodes(ps[..|ps| - 1]) + Chain(ps[|ps| - 1])
  }

  /** Frames it takes to map `ps` one after the other, starting from tables `t`. */
  function Need(t: set<Node>, ps: seq<nat>): (n: nat) { |ps| + |Nodes(ps) - t| }

  /** Frames it takes to get through `ps` when the last page may stay unmapped. */
  function Enough(t: set<Node>, ps: seq<nat>): (n: nat) { if ps == [] then 0 else Need(t, ps[..|ps| - 1]) + 1 }

  /** One more page takes its own frame and one for each table not there yet. */
  lemma NeedMore(t: set<Node>, ps: seq<nat>, p: nat)
    ensures Nodes(ps + [p]) == Nodes(ps) + Chain(p)
    ensures Need(t, ps + [p]) == Need(t, ps) + 1 + |Chain(p) - (t + Nodes(ps))|
    ensures Enough(t, ps + [p]) == Need(t, ps) + 1
  {
    hide Chain;
    assert (ps + [p])[..|ps|] == ps;
    var a, b := Nodes(ps) - t, Chain(p) - (t + Nodes(ps));
    assert Nodes(ps + [p]) - t == a + b && a !! b;
  }

  /** A page whose tables are all there takes one frame; a page that has none takes four. */
  lemma NeedOne(t: set<Node>, ps: seq<nat>, p: nat)
    ensures Chain(p) <= Nodes(ps) ==> Need(t, ps + [p]) == Need(t, ps) + 1 && Nodes(ps + [p]) == Nodes(ps)
    ensures (forall l :: 1 <= l <= 3 ==> Above(p, l) !in t + Nodes(ps)) ==> Need(t, ps + [p]) == Need(t, ps) + 4
  {
    hide Nodes, Above, Need;
    NeedMore(t, ps, p);
    var u := t + Nodes(ps);
    PathMore(p, 1, u);
    PathMore(p, 2, u);
    PathMore(p, 3, u);
    PathNone(p);
    if Chain(p) <= Nodes(ps) { assert Chain(p) - u == {}; }
  }

  /** More pages never need less, and what is enough for all is enough for some. */
  lemma {:induction false} NeedGrows(t: set<Node>, ps: seq<nat>, qs: seq<nat>)
    ensures Need(t, ps) <= Need(t, ps + qs) && Enough(t, ps) <= Need(t, ps)
    ensures Enough(t, ps) <= Enough(t, ps + qs) && (qs != [] ==> Need(t, ps) < Enough(t, ps + qs))
    decreases |qs|
  {
    hide Nodes, Chain;
    EnoughBelow(t, ps);
    if qs == [] {
      assert ps + qs == ps;
    } else {
      var n := |qs| - 1;
      NeedGrows(t, ps, qs[..n]);
      NeedMore(t, ps + qs[..n], qs[n]);
      assert ps + qs == ps + qs[..n] + [qs[n]];
    }
  }

  lemma EnoughBelow(t: set<Node>, ps: seq<nat>)
    ensures Enough(t, ps) <= Need(t, ps)
  {
    if ps != [] {
      assert ps == ps[..|ps| - 1] + [ps[|ps| - 1]];
      NeedMore(t, ps[..|ps| - 1], ps[|ps| - 1]);
    }
  }

  /** Every page listed has its tables among the nodes. */
  lemma {:induction false} ChainInNodes(ps: seq<nat>, k: nat)
    requires k < |ps|
    ensures Chain(ps[k]) <= Nodes(ps)
    decreases |ps|
  {
    hide Chain;
    if k < |ps| - 1 { ChainInNodes(ps[..|ps| - 1], k); }
  }
}
