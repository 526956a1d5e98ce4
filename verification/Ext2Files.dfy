/** File contents and the state of an ext2_write_file in progress. */
module Ext2Files {
  import opened DiskBytes
  import opened Ext2Layout
  import opened Ext2Trees
  import opened Ext2Alloc

  // ---- reading -------------------------------------------------------------

  /** Which slot holds file block `k` (ext2_read_inode_block). */
  function FileSlot(g: Geom, k: nat): (s: Slot)
    requires PtrsPerBlock(g) > 0
  {
    var p := PtrsPerBlock(g);
    if k < DIRECT then Direct(k)
    else if k - DIRECT < p then IndEntry(k - DIRECT)
    else DIndLeaf((k - DIRECT - p) / p, (k - DIRECT - p) % p)
  }

  /** The block number of file block `k`; zero where the file has a hole or cannot reach. */
  function FileBlock(g: Geom, d: Disk, n: Inode, k: nat): (b: nat)
    requires PtrsPerBlock(g) > 0
    ensures b < TWO32
  {
    if k < DIRECT + PtrsPerBlock(g) + PtrsPerBlock(g) * PtrsPerBlock(g) then At(d, n, FileSlot(g, k)) else 0
  }

  function Min(a: nat, b: nat): nat { if a < b then a else b }

  /** The bytes a reader gets from file block `k` on, at most `remaining`, stopping at a hole. */
  function ReadFrom(g: Geom, d: Disk, n: Inode, k: nat, remaining: nat): (r: seq<Octet>)
    requires PtrsPerBlock(g) > 0 && Shape(g, d)
    ensures |r| <= remaining
    decreases remaining
  {
    var b := FileBlock(g, d, n, k);
    if remaining == 0 || b == 0 || b >= |d| then [] else
    d[b][..Min(remaining, g.bs)] + ReadFrom(g, d, n, k + 1, remaining - Min(remaining, g.bs))
  }

  /** What ext2_read_file returns for an inode. */
  function Contents(g: Geom, d: Disk, n: Inode): (r: seq<Octet>)
    requires PtrsPerBlock(g) > 0 && Shape(g, d)
  {
    ReadFrom(g, d, n, 0, Size(n))
  }

  /** A file that is the same on both disks reads the same. */
  lemma {:induction false} SameRead(g: Geom, d: Disk, d': Disk, n: Inode, k: nat, remaining: nat)
    requires PtrsPerBlock(g) > 0 && Shape(g, d) && Shape(g, d') && SameFile(d, d', n)
    ensures ReadFrom(g, d', n, k, remaining) == ReadFrom(g, d, n, k, remaining)
    decreases remaining
  {
    var b := FileBlock(g, d, n, k);
    assert FileBlock(g, d', n, k) == b && (0 < b < |d| ==> d'[b] == d[b]);
    if remaining > 0 && 0 < b < |d| { SameRead(g, d, d', n, k + 1, remaining - Min(remaining, g.bs)); }
  }

  // ---- writing -------------------------------------------------------------

  /** Block `k` of `data`, padded with zeros. */
  function Chunk(g: Geom, data: seq<Octet>, k: nat): (c: Block)
    requires k * g.bs <= |data|
    ensures |c| == g.bs
  {
    var part := data[k * g.bs..k * g.bs + Min(|data| - k * g.bs, g.bs)];
    part + Zeros(g.bs - |part|)
  }

  /** File block `j` is allocated and holds block `j` of `data`. */
  ghost predicate HoldsChunk(g: Geom, d: Disk, n: Inode, data: seq<Octet>, j: nat)
    requires PtrsPerBlock(g) > 0
  {
    var b := At(d, n, FileSlot(g, j));
    j * g.bs <= |data| && 0 < b < |d| && d[b] == Chunk(g, data, j)
  }

  ghost predicate Written(g: Geom, d: Disk, n: Inode, data: seq<Octet>, k: nat)
    requires PtrsPerBlock(g) > 0
  {
    forall j {:trigger HoldsChunk(g, d, n, data, j)} :: 0 <= j < k ==> HoldsChunk(g, d, n, data, j)
  }

  /** The part of `data` in block `k`. */
  lemma ChunkPart(g: Geom, data: seq<Octet>, k: nat, left: nat)
    requires k * g.bs <= |data| && left == |data| - k * g.bs
    ensures Chunk(g, data, k)[..Min(left, g.bs)] == data[k * g.bs..k * g.bs + Min(left, g.bs)]
  {
  }

  lemma Sliced(data: seq<Octet>, at: nat, mid: nat)
    requires at <= mid <= |data|
    ensures data[at..mid] + data[mid..] == data[at..]
  {
  }

  lemma ReadStep(g: Geom, d: Disk, n: Inode, k: nat, left: nat)
    requires GeomOk(g) && Shape(g, d) && k < DIRECT + PtrsPerBlock(g) && left > 0 && 0 < At(d, n, FileSlot(g, k)) < |d|
    ensures ReadFrom(g, d, n, k, left) ==
              d[At(d, n, FileSlot(g, k))][..Min(left, g.bs)] + ReadFrom(g, d, n, k + 1, left - Min(left, g.bs))
  {
    hide At, FileSlot;
  }

  /** A fully written file reads back exactly. */
  lemma {:induction false} ReadBack(g: Geom, d: Disk, n: Inode, data: seq<Octet>, k: nat, m: nat)
    requires GeomOk(g) && Shape(g, d) && Written(g, d, n, data, m) && k <= m && m <= DIRECT + PtrsPerBlock(g)
    requires k * g.bs <= |data| <= m * g.bs
    ensures ReadFrom(g, d, n, k, |data| - k * g.bs) == data[k * g.bs..]
    decreases m - k
  {
    hide Chunk, FileSlot, At, ReadFrom;
    var at := k * g.bs;
    var left := |data| - at;
    if left > 0 {
      MulLess(k, m, g.bs);
      assert HoldsChunk(g, d, n, data, k);
      ReadStep(g, d, n, k, left);
      ChunkPart(g, data, k, left);
      Sliced(data, at, at + Min(left, g.bs));
      if left > g.bs {
        assert (k + 1) * g.bs == at + g.bs;
        ReadBack(g, d, n, data, k + 1, m);
      } else {
        ReadNothing(g, d, n, k + 1);
      }
    } else {
      ReadNothing(g, d, n, k);
    }
  }

  lemma ReadNothing(g: Geom, d: Disk, n: Inode, k: nat)
    requires PtrsPerBlock(g) > 0 && Shape(g, d)
    ensures ReadFrom(g, d, n, k, 0) == []
  {
  }

  lemma MulLess(k: nat, m: nat, z: nat)
    requires k <= m && k * z < m * z
    ensures k < m
  {
  }

  /** Where the writer may put a new block: `s` was empty and now holds `b`, all else as before. */
  ghost predicate OneSlot(d: Disk, n: Inode, d': Disk, n': Inode, s: Slot, b: nat) {
    && At(d, n, s) == 0 && At(d', n', s) == b && b != 0 && |d'| == |d|
    && forall t {:trigger At(d', n', t)} {:trigger At(d, n, t)} :: t != s ==> At(d', n', t) == At(d, n, t)
  }

  ghost predicate InRange(g: Geom, b: nat) { g.first <= b < g.total }

  ghost predicate Used(g: Geom, d: Disk, b: nat)
    requires DiskOk(g, d) && InRange(g, b)
  {
    Marked(d[g.bbm], b - g.first)
  }

  ghost predicate Reaches(d: Disk, n: Inode, b: nat) { exists s {:trigger At(d, n, s)} :: At(d, n, s) == b }

  /** A slot of the original tree is kept, or was empty and now holds a block that was free. */
  ghost predicate Extends(g: Geom, d0: Disk, n0: Inode, d: Disk, n: Inode, s: Slot)
    requires DiskOk(g, d0)
  {
    || At(d, n, s) == At(d0, n0, s)
    || (At(d0, n0, s) == 0 && InRange(g, At(d, n, s)) && !Used(g, d0, At(d, n, s)))
  }

  /** The bitmap gained exactly the blocks the file gained. */
  ghost predicate GainedBit(g: Geom, d0: Disk, d: Disk, n: Inode, b: nat)
    requires DiskOk(g, d0) && DiskOk(g, d) && InRange(g, b)
  {
    Used(g, d, b) <==> Used(g, d0, b) || Reaches(d, n, b)
  }

  ghost predicate Grown(g: Geom, d0: Disk, n0: Inode, d: Disk, n: Inode)
    requires DiskOk(g, d0) && DiskOk(g, d)
  {
    && (forall s {:trigger Extends(g, d0, n0, d, n, s)} :: Extends(g, d0, n0, d, n, s))
    && (forall b {:trigger GainedBit(g, d0, d, n, b)} :: InRange(g, b) ==> GainedBit(g, d0, d, n, b))
  }

  lemma GrownStart(g: Geom, d: Disk, nodes: Nodes, ino: nat)
    requires DiskOk(g, d) && Trees(g, d, nodes) && ino in nodes
    requires (forall b {:trigger Meta(g, b)} :: InRange(g, b) && Meta(g, b) ==> Used(g, d, b))
    ensures Grown(g, d, nodes[ino], d, nodes[ino])
  {
    var n := nodes[ino];
    forall b | InRange(g, b) ensures GainedBit(g, d, d, n, b) {
      if Reaches(d, n, b) {
        var s :| At(d, n, s) == b;
        assert SlotGood(g, d, nodes[ino], s);
        if b == 0 { assert Meta(g, b); }
      }
    }
    forall s ensures Extends(g, d, n, d, n, s) {}
  }

  /** One more block. */
  lemma GrownStep(g: Geom, d0: Disk, n0: Inode, d: Disk, n: Inode, d': Disk, n': Inode, s: Slot, b: nat)
    requires DiskOk(g, d0) && DiskOk(g, d) && DiskOk(g, d') && Grown(g, d0, n0, d, n) && OneSlot(d, n, d', n', s, b)
    requires InRange(g, b) && !Used(g, d, b) && (InRange(g, 0) ==> Used(g, d0, 0))
    requires forall c {:trigger Used(g, d', c)} :: InRange(g, c) ==> (Used(g, d', c) <==> c == b || Used(g, d, c))
    ensures Grown(g, d0, n0, d', n')
  {
    hide Used, Ref, At, DiskOk;
    assert GainedBit(g, d0, d, n, b);
    forall t ensures Extends(g, d0, n0, d', n', t) {
      assert Extends(g, d0, n0, d, n, t);
      assert t != s ==> At(d', n', t) == At(d, n, t);
    }
    forall c | InRange(g, c) ensures GainedBit(g, d0, d', n', c) {
      assert GainedBit(g, d0, d, n, c);
      ReachesStep(d, n, d', n', s, b, c);
      assert Used(g, d', c) <==> c == b || Used(g, d, c);
    }
  }

  lemma ReachesStep(d: Disk, n: Inode, d': Disk, n': Inode, s: Slot, b: nat, c: nat)
    requires OneSlot(d, n, d', n', s, b)
    ensures c != 0 ==> (Reaches(d', n', c) <==> c == b || Reaches(d, n, c))
  {
    hide Ref, At;
    if c == b {
      assert At(d', n', s) == c;
    } else if c != 0 {
      if Reaches(d', n', c) {
        var t :| At(d', n', t) == c;
        assert At(d, n, t) == c;
      }
      if Reaches(d, n, c) {
        var t :| At(d, n, t) == c;
        assert At(d', n', t) == c;
      }
    }
  }
}
