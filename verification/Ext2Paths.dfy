/** Path names: their components, and walking them through the directories. */
module Ext2Paths {
  import opened DiskBytes
  import opened Ext2Layout
  import opened Ext2Trees
  import opened Ext2Dirents
  import opened Ext2Dirs
  import opened Ext2Fs

  const SLASH: Octet := 47
  const ROOT_INO: nat := 2
  const MAX_PATH: nat := 256

  type Path = seq<Octet>

  /** Length of the component at the front of `p`. */
  function Span(p: Path): (k: nat)
    ensures k <= |p| && (forall i :: 0 <= i < k ==> p[i] != SLASH) && (k < |p| ==> p[k] == SLASH)
  {
    if p == [] || p[0] == SLASH then 0 else Span(p[1..]) + 1
  }

  /** The non-empty stretches between slashes. */
  function Components(p: Path): (cs: seq<Name>)
    decreases |p|
  {
    if p == [] then [] else if p[0] == SLASH then Components(p[1..]) else [p[..Span(p)]] + Components(p[Span(p)..])
  }

  /** A component ends where it is full: nothing, or a slash, follows. */
  lemma {:induction false} SpanOf(c: Name, rest: Path)
    requires (forall i :: 0 <= i < |c| ==> c[i] != SLASH) && (rest == [] || rest[0] == SLASH)
    ensures Span(c + rest) == |c|
  {
    if c == [] {
      assert c + rest == rest;
    } else {
      assert (c + rest)[1..] == c[1..] + rest;
      SpanOf(c[1..], rest);
    }
  }

  lemma OnlyComponent(c: Name)
    requires c != [] && forall i :: 0 <= i < |c| ==> c[i] != SLASH
    ensures Components(c) == [c]
  {
    SpanOf(c, []);
    assert c + [] == c && c[..|c|] == c && c[|c|..] == [];
  }

  /** A first component that is followed by a slash. */
  lemma FirstComponent(c: Name, rest: Path)
    requires c != [] && (forall i :: 0 <= i < |c| ==> c[i] != SLASH) && (rest == [] || rest[0] == SLASH)
    ensures Components(c + rest) == [c] + Components(rest)
  {
    SpanOf(c, rest);
    assert (c + rest)[..|c|] == c && (c + rest)[|c|..] == rest;
  }

  /** The part after the last slash is the last component. */
  lemma {:induction false} LastComponent(p: Path, last: nat)
    requires last < |p| - 1 && p[last] == SLASH && forall i :: last < i < |p| ==> p[i] != SLASH
    ensures Components(p) == Components(p[..last]) + [p[last + 1..]]
    decreases |p|
  {
    hide Span, Components;
    if p[0] == SLASH {
      SlashFirst(p);
      if last == 0 {
        OnlyComponent(p[1..]);
        NoComponents(p[..0]);
      } else {
        LastComponent(p[1..], last - 1);
        SlashFirst(p[..last]);
        assert p[..last][1..] == p[1..][..last - 1] && p[1..][last..] == p[last + 1..];
      }
    } else {
      LastInner(p, last, Span(p));
    }
  }

  lemma SlashFirst(p: Path)
    requires p != [] && p[0] == SLASH
    ensures Components(p) == Components(p[1..])
  {
  }

  lemma NoComponents(p: Path)
    requires p == []
    ensures Components(p) == []
  {
  }

  lemma {:induction false} LastInner(p: Path, last: nat, k: nat)
    requires last < |p| - 1 && p[last] == SLASH && forall i :: last < i < |p| ==> p[i] != SLASH
    requires p[0] != SLASH && k == Span(p)
    ensures Components(p) == Components(p[..last]) + [p[last + 1..]]
    decreases |p|, 0
  {
    hide Components;
    assert 0 < k <= last;
    var c := p[..k];
    FirstComponent(c, p[k..]);
    assert c + p[k..] == p;
    FirstComponent(c, p[k..last]);
    assert c + p[k..last] == p[..last];
    LastComponent(p[k..], last - k);
    assert p[k..][..last - k] == p[k..last] && p[k..][last - k + 1..] == p[last + 1..];
  }

  /** The bytes of components are bytes of the path. */
  lemma {:induction false} ComponentBytes(p: Path, i: nat)
    requires i < |Components(p)| && forall t :: 0 <= t < |p| ==> p[t] != 0
    ensures forall t :: 0 <= t < |Components(p)[i]| ==> Components(p)[i][t] != 0
    decreases |p|
  {
    if p[0] == SLASH {
      ComponentBytes(p[1..], i);
    } else if i > 0 {
      ComponentBytes(p[Span(p)..], i - 1);
    }
  }

  /** Parsing one component of a path, as resolve_path does. */
  lemma NextComponent(p: Path, i: nat, j: nat)
    requires i <= j <= |p| && (forall t :: i <= t < j ==> p[t] != SLASH) && (j < |p| ==> p[j] == SLASH)
    ensures Components(p[i..]) == (if i < j then [p[i..j]] else []) + Components(p[if j < |p| then j + 1 else j..])
  {
    hide Span, Components;
    if j < |p| {
      SlashFirst(p[j..]);
      assert p[j..][1..] == p[j + 1..];
    }
    if i < j {
      FirstComponent(p[i..j], p[j..]);
      assert p[i..j] + p[j..] == p[i..];
    }
  }

  /** A component with more than 127 bytes. */
  lemma LongComponent(p: Path, i: nat, j: nat) returns (c: Name)
    requires i <= j < |p| && forall t :: i <= t <= j ==> p[t] != SLASH
    ensures |c| > j - i && Components(p[i..]) != [] && Components(p[i..])[0] == c
  {
    var q := p[i..];
    c := q[..Span(q)];
    if Span(q) <= j - i { assert q[Span(q)] == p[i + Span(q)]; }
  }

  /** One directory searched: the inode called `c` in `cur`, zero if none. */
  ghost function Step(g: Geom, d: Disk, nodes: Nodes, cur: nat, c: Name): (ino: nat)
    requires g.bs > 0
  {
    if cur in nodes && IsDir(nodes[cur]) && DirOk(g, d, nodes[cur]) && |c| < MAX_FILENAME
        then Find(Entries(g, d, nodes[cur]), c) else 0
  }

  /** Where a path leads from `cur`, zero if it leads nowhere. */
  ghost function Walk(g: Geom, d: Disk, nodes: Nodes, cur: nat, cs: seq<Name>): (ino: nat)
    requires g.bs > 0
    decreases |cs|
  {
    if cs == [] || cur == 0 then cur else Walk(g, d, nodes, Step(g, d, nodes, cur, cs[0]), cs[1..])
  }

  /** Every inode the walk searches is a directory in use. */
  ghost predicate Walkable(g: Geom, d: Disk, nodes: Nodes, cur: nat, cs: seq<Name>)
    requires g.bs > 0
    decreases |cs|
  {
    cs == [] || cur == 0 || |cs[0]| >= MAX_FILENAME
        || (cur in nodes && IsDir(nodes[cur]) && Walkable(g, d, nodes, Step(g, d, nodes, cur, cs[0]), cs[1..]))
  }

  lemma {:induction false} WalkAppend(g: Geom, d: Disk, nodes: Nodes, cur: nat, cs: seq<Name>, c: Name)
    requires g.bs > 0
    ensures Walk(g, d, nodes, cur, cs + [c]) == var q := Walk(g, d, nodes, cur, cs); if q == 0 then 0
              else Step(g, d, nodes, q, c)
    decreases |cs|
  {
    hide Step;
    if cs == [] || cur == 0 {
      if cur != 0 { assert (cs + [c])[1..] == []; }
    } else {
      assert (cs + [c])[0] == cs[0] && (cs + [c])[1..] == cs[1..] + [c];
      WalkAppend(g, d, nodes, Step(g, d, nodes, cur, cs[0]), cs[1..], c);
    }
  }

  lemma {:induction false} WalkablePrefix(g: Geom, d: Disk, nodes: Nodes, cur: nat, cs: seq<Name>, c: Name)
    requires g.bs > 0 && Walkable(g, d, nodes, cur, cs + [c])
    ensures Walkable(g, d, nodes, cur, cs)
    decreases |cs|
  {
    hide Step;
    if cs != [] && cur != 0 && |cs[0]| < MAX_FILENAME {
      assert (cs + [c])[0] == cs[0] && (cs + [c])[1..] == cs[1..] + [c];
      WalkablePrefix(g, d, nodes, Step(g, d, nodes, cur, cs[0]), cs[1..], c);
    }
  }

  /** What resolve_path computes. */
  ghost function Resolved(g: Geom, d: Disk, nodes: Nodes, path: Path): (ino: nat)
    requires g.bs > 0
  {
    if path == [] || path[0] != SLASH then 0 else Walk(g, d, nodes, ROOT_INO, Components(path))
  }

  // ---- listings ------------------------------------------------------------

  /** A listed entry: the name cut to what a listing can hold. */
  datatype Listed = Listed(name: Name, ino: nat, dir: bool)

  const FT_DIR: Octet := 2

  function Show(e: Entry): (l: Listed) {
    Listed(if |e.name| >= MAX_FILENAME then e.name[..MAX_FILENAME - 1] else e.name, e.ino, e.kind == FT_DIR)
  }

  function Shown(es: seq<Entry>): (ls: seq<Listed>)
    ensures |ls| == |es| && forall i :: 0 <= i < |es| ==> ls[i] == Show(es[i])
  {
    seq(|es|, i requires 0 <= i < |es| => Show(es[i]))
  }
}
