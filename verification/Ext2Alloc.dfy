/** The block and inode allocators of kernel/ext2.c on a volume value: one bitmap bit, the
    group descriptor's 16-bit counter and the in-memory superblock's 32-bit counter. */
module Ext2Alloc {
  import opened DiskBytes
  import opened Ext2Layout
  import opened Ext2Trees

  /** The disk and the driver's in-memory superblock. */
  datatype Vol = Vol(d: Disk, sb: seq<Octet>)

  const SB_BYTES: nat := 1024
  const BGD_FREE_BLOCKS: nat := 12
  const BGD_FREE_INODES: nat := 14
  const BGD_DIRS: nat := 16
  const SB_FREE_BLOCKS: nat := 12
  const SB_FREE_INODES: nat := 16

  ghost predicate VolOk(g: Geom, v: Vol) { DiskOk(g, v.d) && |v.sb| == SB_BYTES && MetaMarked(g, v.d) }

  /** No metadata block is free. */
  ghost predicate MetaMarked(g: Geom, d: Disk)
    requires DiskOk(g, d)
  {
    forall b {:trigger Meta(g, b)} :: g.first <= b < g.total && Meta(g, b) ==> Marked(d[g.bbm], b - g.first)
  }

  /** Which of the two bitmaps, and where its counters live. */
  datatype Kind = Blocks | Inodes

  function MapBlock(g: Geom, k: Kind): nat { if k.Blocks? then g.bbm else g.ibm }

  function Limit(g: Geom, k: Kind): nat
    requires g.first <= g.total
  {
    if k.Blocks? then g.total - g.first else g.ipg
  }

  function BgdOff(k: Kind): nat { if k.Blocks? then BGD_FREE_BLOCKS else BGD_FREE_INODES }

  function SbOff(k: Kind): nat { if k.Blocks? then SB_FREE_BLOCKS else SB_FREE_INODES }

  /** `if (count > 0) count--`, 16 and 32 bits. */
  function Less16(s: Block, o: nat): (t: Block)
    requires o + 2 <= |s|
    ensures |t| == |s|
  {
    if Get16(s, o) > 0 then Put16(s, o, Get16(s, o) - 1) else s
  }

  function Less32(s: Block, o: nat): (t: Block)
    requires o + 4 <= |s|
    ensures |t| == |s|
  {
    if Get32(s, o) > 0 then Put32(s, o, Get32(s, o) - 1) else s
  }

  /** `count++`, wrapping. */
  function More16(s: Block, o: nat): (t: Block)
    requires o + 2 <= |s|
    ensures |t| == |s|
  {
    Put16(s, o, (Get16(s, o) + 1) % TWO16)
  }

  function More32(s: Block, o: nat): (t: Block)
    requires o + 4 <= |s|
    ensures |t| == |s|
  {
    Put32(s, o, (Get32(s, o) + 1) % TWO32)
  }

  /** Take bit `i` of a bitmap. */
  function Take(g: Geom, v: Vol, k: Kind, i: nat): (w: Vol)
    requires DiskOk(g, v.d) && |v.sb| == SB_BYTES && i < Limit(g, k)
    ensures |w.d| == |v.d| && |w.sb| == SB_BYTES
  {
    var m := MapBlock(g, k);
    Vol(v.d[m := Mark(v.d[m], i)][g.bgdBlock := Less16(v.d[g.bgdBlock], BgdOff(k))], Less32(v.sb, SbOff(k)))
  }

  /** Give back bit `i`; nothing happens if it is already clear. */
  function Give(g: Geom, v: Vol, k: Kind, i: nat): (w: Vol)
    requires DiskOk(g, v.d) && |v.sb| == SB_BYTES && i < g.bs * 8
    ensures |w.d| == |v.d| && |w.sb| == SB_BYTES
  {
    var m := MapBlock(g, k);
    if !Marked(v.d[m], i) then v else
    Vol(v.d[m := Unmark(v.d[m], i)][g.bgdBlock := More16(v.d[g.bgdBlock], BgdOff(k))], More32(v.sb, SbOff(k)))
  }

  // ---- counters ------------------------------------------------------------

  /** Number of clear bits below `n`. */
  function Clear(bm: Block, n: nat): (c: nat)
    requires n <= |bm| * 8
    ensures c <= n
  {
    if n == 0 then 0 else Clear(bm, n - 1) + if Marked(bm, n - 1) then 0 else 1
  }

  lemma {:induction false} ClearFlip(a: Block, b: Block, i: nat, n: nat)
    requires |a| == |b| && n <= |a| * 8 && i < |a| * 8 && !Marked(a, i) && Marked(b, i)
    requires forall j {:trigger Marked(b, j)} :: 0 <= j < n && j != i ==> (Marked(b, j) <==> Marked(a, j))
    ensures Clear(a, n) == Clear(b, n) + if i < n then 1 else 0
  {
    if n > 0 {
      ClearFlip(a, b, i, n - 1);
      assert n - 1 != i ==> (Marked(b, n - 1) <==> Marked(a, n - 1));
    }
  }

  lemma {:induction false} ClearSame(a: Block, b: Block, n: nat)
    requires |a| == |b| && n <= |a| * 8
    requires forall j {:trigger Marked(b, j)} :: 0 <= j < n ==> (Marked(b, j) <==> Marked(a, j))
    ensures Clear(a, n) == Clear(b, n)
  {
    if n > 0 { ClearSame(a, b, n - 1); assert Marked(b, n - 1) <==> Marked(a, n - 1); }
  }

  /** Both counters of a bitmap equal its number of clear bits. */
  ghost predicate CountedIn(g: Geom, v: Vol, k: Kind)
    requires DiskOk(g, v.d) && |v.sb| == SB_BYTES
  {
    && Get16(v.d[g.bgdBlock], BgdOff(k)) == Clear(v.d[MapBlock(g, k)], Limit(g, k))
    && Get32(v.sb, SbOff(k)) == Clear(v.d[MapBlock(g, k)], Limit(g, k))
  }

  ghost predicate Counted(g: Geom, v: Vol)
    requires DiskOk(g, v.d) && |v.sb| == SB_BYTES
  {
    CountedIn(g, v, Blocks) && CountedIn(g, v, Inodes)
  }

  lemma Less16Fields(s: Block, o: nat, p: nat)
    requires o + 2 <= |s| && 12 <= o && p + 2 <= |s| && (p == o || p + 2 <= o || o + 2 <= p)
    ensures Get16(Less16(s, o), p) == if p == o && Get16(s, o) > 0 then Get16(s, o) - 1 else Get16(s, p)
    ensures forall q {:trigger Less16(s, o)[q]} :: 0 <= q < |s| && (q < o || q >= o + 2) ==> Less16(s, o)[q] == s[q]
  {
    if Get16(s, o) > 0 { GetPut16(s, o, Get16(s, o) - 1); }
  }

  lemma More16Fields(s: Block, o: nat, p: nat)
    requires o + 2 <= |s| && 12 <= o && p + 2 <= |s| && (p == o || p + 2 <= o || o + 2 <= p)
    ensures Get16(More16(s, o), p) == if p == o then (Get16(s, o) + 1) % TWO16 else Get16(s, p)
    ensures forall q {:trigger More16(s, o)[q]} :: 0 <= q < |s| && (q < o || q >= o + 2) ==> More16(s, o)[q] == s[q]
  {
    GetPut16(s, o, (Get16(s, o) + 1) % TWO16);
  }

  lemma Less32Fields(s: Block, o: nat, p: nat)
    requires o + 4 <= |s| && p + 4 <= |s| && (p == o || p + 4 <= o || o + 4 <= p)
    ensures Get32(Less32(s, o), p) == if p == o && Get32(s, o) > 0 then Get32(s, o) - 1 else Get32(s, p)
  {
    if Get32(s, o) > 0 { GetPut32(s, o, Get32(s, o) - 1); }
  }

  lemma More32Fields(s: Block, o: nat, p: nat)
    requires o + 4 <= |s| && p + 4 <= |s| && (p == o || p + 4 <= o || o + 4 <= p)
    ensures Get32(More32(s, o), p) == if p == o then (Get32(s, o) + 1) % TWO32 else Get32(s, p)
  {
    GetPut32(s, o, (Get32(s, o) + 1) % TWO32);
  }

  // ---- taking and giving bits ----------------------------------------------

  lemma TakeShape(g: Geom, v: Vol, k: Kind, i: nat)
    requires DiskOk(g, v.d) && |v.sb| == SB_BYTES && i < Limit(g, k)
    ensures DiskOk(g, Take(g, v, k, i).d)
  {
    hide Mark, Marked, Put16, Put32, Less32, TableEnd;
    Less16Fields(v.d[g.bgdBlock], BgdOff(k), 0);
    var w := Take(g, v, k, i);
    assert forall q :: 0 <= q < 12 ==> w.d[g.bgdBlock][q] == v.d[g.bgdBlock][q];
  }

  lemma GiveShape(g: Geom, v: Vol, k: Kind, i: nat)
    requires DiskOk(g, v.d) && |v.sb| == SB_BYTES && i < g.bs * 8
    ensures DiskOk(g, Give(g, v, k, i).d)
  {
    hide Unmark, Marked, Put16, Put32, More32, TableEnd;
    More16Fields(v.d[g.bgdBlock], BgdOff(k), 0);
    var w := Give(g, v, k, i);
    assert forall q :: 0 <= q < 12 ==> w.d[g.bgdBlock][q] == v.d[g.bgdBlock][q];
  }

  function Other(k: Kind): Kind { if k.Blocks? then Inodes else Blocks }

  /** Directories of the group, as the descriptor counts them. */
  function DirCount(g: Geom, d: Disk): nat
    requires DiskOk(g, d)
  {
    Get16(d[g.bgdBlock], BGD_DIRS)
  }

  /** Bitmap updates leave the directory count alone. */
  lemma TakeCount(g: Geom, v: Vol, k: Kind, i: nat)
    requires DiskOk(g, v.d) && |v.sb| == SB_BYTES && i < Limit(g, k) && DiskOk(g, Take(g, v, k, i).d)
    ensures DirCount(g, Take(g, v, k, i).d) == DirCount(g, v.d)
  {
    hide TableEnd, Mark, Less32;
    Less16Fields(v.d[g.bgdBlock], BgdOff(k), BGD_DIRS);
  }

  lemma GiveCount(g: Geom, v: Vol, k: Kind, i: nat)
    requires DiskOk(g, v.d) && |v.sb| == SB_BYTES && i < g.bs * 8 && DiskOk(g, Give(g, v, k, i).d)
    ensures DirCount(g, Give(g, v, k, i).d) == DirCount(g, v.d)
  {
    hide TableEnd, Unmark, More32, Marked;
    More16Fields(v.d[g.bgdBlock], BgdOff(k), BGD_DIRS);
  }

  /** Taking a clear bit: that bit and no other, and the counters follow. */
  lemma TakeStep(g: Geom, v: Vol, k: Kind, i: nat)
    requires DiskOk(g, v.d) && |v.sb| == SB_BYTES && i < Limit(g, k)
    ensures DiskOk(g, Take(g, v, k, i).d)
    ensures forall b {:trigger Take(g, v, k, i).d[b]} ::
              0 <= b < |v.d| && b != MapBlock(g, k) && b != g.bgdBlock ==> Take(g, v, k, i).d[b] == v.d[b]
    ensures forall j {:trigger Marked(Take(g, v, k, i).d[MapBlock(g, k)], j)} ::
              0 <= j < g.bs * 8
              ==> (Marked(Take(g, v, k, i).d[MapBlock(g, k)], j) <==> j == i || Marked(v.d[MapBlock(g, k)], j))
    ensures !Marked(v.d[MapBlock(g, k)], i) && Counted(g, v) ==> Counted(g, Take(g, v, k, i))
  {
    hide Mark, Marked, Get16, Get32, Less16, Less32, Clear, TableEnd;
    TakeShape(g, v, k, i);
    var w, m := Take(g, v, k, i), MapBlock(g, k);
    forall j | 0 <= j < g.bs * 8
      ensures Marked(w.d[m], j) <==> j == i || Marked(v.d[m], j)
    {
      MarkedAfterMark(v.d[m], i, j);
    }
    if !Marked(v.d[m], i) && Counted(g, v) {
      ClearFlip(v.d[m], w.d[m], i, Limit(g, k));
      Less16Fields(v.d[g.bgdBlock], BgdOff(k), BgdOff(k));
      Less16Fields(v.d[g.bgdBlock], BgdOff(k), BgdOff(Other(k)));
      Less32Fields(v.sb, SbOff(k), SbOff(k));
      Less32Fields(v.sb, SbOff(k), SbOff(Other(k)));
      assert CountedIn(g, w, k) && CountedIn(g, w, Other(k));
    }
  }

  lemma GiveStep(g: Geom, v: Vol, k: Kind, i: nat)
    requires DiskOk(g, v.d) && |v.sb| == SB_BYTES && i < g.bs * 8
    ensures DiskOk(g, Give(g, v, k, i).d)
    ensures forall b {:trigger Give(g, v, k, i).d[b]} ::
              0 <= b < |v.d| && b != MapBlock(g, k) && b != g.bgdBlock ==> Give(g, v, k, i).d[b] == v.d[b]
    ensures forall j {:trigger Marked(Give(g, v, k, i).d[MapBlock(g, k)], j)} ::
              0 <= j < g.bs * 8
              ==> (Marked(Give(g, v, k, i).d[MapBlock(g, k)], j) <==> j != i && Marked(v.d[MapBlock(g, k)], j))
    ensures i < Limit(g, k) && Counted(g, v) ==> Counted(g, Give(g, v, k, i))
  {
    hide Unmark, Marked, Get16, Get32, More16, More32, Clear, TableEnd;
    GiveShape(g, v, k, i);
    var w, m := Give(g, v, k, i), MapBlock(g, k);
    if Marked(v.d[m], i) {
      forall j | 0 <= j < g.bs * 8
        ensures Marked(w.d[m], j) <==> j != i && Marked(v.d[m], j)
      {
        MarkedAfterUnmark(v.d[m], i, j);
      }
      if i < Limit(g, k) && Counted(g, v) {
        ClearFlip(w.d[m], v.d[m], i, Limit(g, k));
        More16Fields(v.d[g.bgdBlock], BgdOff(k), BgdOff(k));
        More16Fields(v.d[g.bgdBlock], BgdOff(k), BgdOff(Other(k)));
        More32Fields(v.sb, SbOff(k), SbOff(k));
        More32Fields(v.sb, SbOff(k), SbOff(Other(k)));
        assert CountedIn(g, w, k) && CountedIn(g, w, Other(k));
      }
    }
  }

  // ---- a new block ---------------------------------------------------------

  /** ext2_alloc_block handing out `b`: its bit is taken and its contents zeroed. */
  function NewBlock(g: Geom, v: Vol, b: nat): (w: Vol)
    requires DiskOk(g, v.d) && |v.sb| == SB_BYTES && g.first <= b < g.total
    ensures |w.d| == |v.d| && |w.sb| == SB_BYTES && w.d[b] == Zeros(g.bs)
  {
    var w := Take(g, v, Blocks, b - g.first);
    w.(d := w.d[b := Zeros(g.bs)])
  }

  ghost predicate FreeData(g: Geom, d: Disk, b: nat)
    requires DiskOk(g, d)
  {
    g.first <= b < g.total && !Marked(d[g.bbm], b - g.first)
  }

  lemma NewBlockVol(g: Geom, v: Vol, b: nat)
    requires VolOk(g, v) && FreeData(g, v.d, b)
    ensures VolOk(g, NewBlock(g, v, b)) && !Meta(g, b)
    ensures forall c {:trigger NewBlock(g, v, b).d[c]} ::
              0 <= c < |v.d| && c != g.bbm && c != g.bgdBlock && c != b ==> NewBlock(g, v, b).d[c] == v.d[c]
    ensures forall j {:trigger Marked(NewBlock(g, v, b).d[g.bbm], j)} ::
              0 <= j < g.bs * 8
              ==> (Marked(NewBlock(g, v, b).d[g.bbm], j) <==> j == b - g.first || Marked(v.d[g.bbm], j))
    ensures Counted(g, v) ==> Counted(g, NewBlock(g, v, b))
  {
    hide Mark, Marked, Get16, Get32, Less16, Less32, Clear, TableEnd;
    TakeStep(g, v, Blocks, b - g.first);
    assert !Meta(g, b);
    var t, w := Take(g, v, Blocks, b - g.first), NewBlock(g, v, b);
    assert w.d[g.bbm] == t.d[g.bbm] && w.d[g.ibm] == t.d[g.ibm] && w.d[g.bgdBlock] == t.d[g.bgdBlock] && w.sb == t.sb;
    forall c | g.first <= c < g.total && Meta(g, c) ensures Marked(w.d[g.bbm], c - g.first) { assert Meta(g, c); }
  }

  /** The new block is fresh, and no file changes. */
  lemma NewBlockTrees(g: Geom, v: Vol, nodes: Nodes, b: nat)
    requires VolOk(g, v) && Trees(g, v.d, nodes) && FreeData(g, v.d, b)
    ensures VolOk(g, NewBlock(g, v, b)) && Trees(g, NewBlock(g, v, b).d, nodes)
    ensures Fresh(g, NewBlock(g, v, b).d, nodes, b)
    ensures forall i {:trigger nodes[i]} :: i in nodes ==> SameFile(v.d, NewBlock(g, v, b).d, nodes[i])
  {
    hide Marked, TableEnd, NewBlock;
    NewBlockVol(g, v, b);
    var d, d' := v.d, NewBlock(g, v, b).d;
    forall i, s | i in nodes && At(d, nodes[i], s) != 0
      ensures At(d, nodes[i], s) < |d| && d'[At(d, nodes[i], s)] == d[At(d, nodes[i], s)] && At(d, nodes[i], s) != b
    {
      assert SlotGood(g, d, nodes[i], s);
    }
    OutsideWrite(g, d, d', nodes);
    forall i, s | i in nodes ensures At(d', nodes[i], s) != b { assert At(d', nodes[i], s) == At(d, nodes[i], s); }
  }
}
