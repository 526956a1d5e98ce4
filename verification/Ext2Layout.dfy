/** The on-disk format that kernel/ext2.c reads and writes, as pure functions of the disk:
    geometry, packed inodes, block trees and file contents.  Group 0 only. */
module Ext2Layout {
  import opened DiskBytes

  type Block = seq<Octet>
  type Disk = seq<Block>

  const INODE_BYTES: nat := 128
  const BGD_BYTES: nat := 32
  const DIRECT: nat := 12

  /** What ext2_mount computes from the superblock, with the locations the group descriptor
      holds: `bbm`/`ibm` are the bitmap blocks, `itab` the first inode-table block. */
  datatype Geom = Geom(bs: nat, ipg: nat, bpg: nat, isz: nat, first: nat, total: nat, sbBlock: nat, bgdBlock: nat,
      bbm: nat, ibm: nat, itab: nat)

  function InodesPerBlock(g: Geom): (n: nat)
    requires 0 < g.isz
  {
    g.bs / g.isz
  }

  /** The checks of ext2_mount, one block group, and metadata blocks that do not overlap. */
  ghost predicate GeomOk(g: Geom) {
    && (g.bs == 1024 || g.bs == 2048 || g.bs == 4096)
    && 0 < g.ipg <= g.bs * 8 && 0 < g.bpg <= g.bs * 8
    && INODE_BYTES <= g.isz <= g.bs
    && g.bgdBlock == (if g.bs == 1024 then 2 else 1) && g.sbBlock == (if g.bs == 1024 then 1 else 0)
    && g.first == (if g.bs == 1024 then 1 else 0) && g.first <= g.total <= TWO32 && g.total - g.first <= g.bpg
    && g.bbm < g.itab && g.ibm < g.itab && g.bgdBlock < g.itab && g.bbm != g.ibm
    && g.bbm != g.bgdBlock && g.ibm != g.bgdBlock && g.bbm != g.sbBlock && g.ibm != g.sbBlock
    && g.sbBlock < g.itab && TableEnd(g) <= g.total
  }

  function TableEnd(g: Geom): (e: nat)
    requires 0 < g.isz <= g.bs
    ensures 0 < g.ipg ==> g.itab < e
  {
    InodesPerBlockPositive(g);
    if g.ipg == 0 then g.itab else g.itab + (g.ipg - 1) / InodesPerBlock(g) + 1
  }

  lemma InodesPerBlockPositive(g: Geom)
    requires 0 < g.isz <= g.bs
    ensures InodesPerBlock(g) > 0
  {
  }

  /** Blocks that hold metadata, never file data. */
  predicate Meta(g: Geom, b: nat)
    requires 0 < g.isz <= g.bs
  {
    b == g.sbBlock || b == g.bgdBlock || b == g.bbm || b == g.ibm || g.itab <= b < TableEnd(g)
  }

  ghost predicate Shape(g: Geom, d: Disk) {
    |d| == g.total && forall b :: 0 <= b < |d| ==> |d[b]| == g.bs
  }

  /** The group descriptor names the bitmaps and the inode table. */
  ghost predicate DiskOk(g: Geom, d: Disk) {
    && GeomOk(g) && Shape(g, d)
    && Get32(d[g.bgdBlock], 0) == g.bbm && Get32(d[g.bgdBlock], 4) == g.ibm && Get32(d[g.bgdBlock], 8) == g.itab
  }

  // ---- inodes --------------------------------------------------------------

  /** An inode is its 128 bytes; the fields used are at fixed offsets. */
  type Inode = n: seq<Octet> | |n| == INODE_BYTES witness seq(INODE_BYTES, i => 0)

  const OFF_MODE: nat := 0
  const OFF_SIZE: nat := 4
  const OFF_CTIME: nat := 12
  const OFF_MTIME: nat := 16
  const OFF_DTIME: nat := 20
  const OFF_LINKS: nat := 26
  const OFF_BLOCKS: nat := 28
  const OFF_BLOCK: nat := 40

  function Size(n: Inode): nat { Get32(n, OFF_SIZE) }

  /** `inode.block[i]`. */
  function Pointer(n: Inode, i: nat): (b: nat)
    requires i < 15
    ensures b < TWO32
  {
    Get32(n, OFF_BLOCK + 4 * i)
  }

  function SetPointer(n: Inode, i: nat, b: nat): (m: Inode)
    requires i < 15 && b < TWO32
  {
    Put32(n, OFF_BLOCK + 4 * i, b)
  }

  lemma PointerAfterSet(n: Inode, i: nat, b: nat, j: nat)
    requires i < 15 && b < TWO32 && j < 15
    ensures Pointer(SetPointer(n, i, b), j) == if j == i then b else Pointer(n, j)
  {
    GetPut32(n, OFF_BLOCK + 4 * i, b);
    if j != i { OtherField32(n, OFF_BLOCK + 4 * i, b, OFF_BLOCK + 4 * j); }
  }

  predicate InoOk(g: Geom, ino: nat) { 0 < ino <= g.ipg }

  function InoBlock(g: Geom, ino: nat): (b: nat)
    requires 0 < g.isz <= g.bs && InoOk(g, ino)
    ensures g.itab <= b < TableEnd(g)
  {
    InodesPerBlockPositive(g);
    DivMonotone(ino - 1, g.ipg - 1, InodesPerBlock(g));
    g.itab + (ino - 1) / InodesPerBlock(g)
  }

  lemma {:induction false} MulMonotone(a: nat, b: nat, z: nat)
    requires a <= b
    ensures a * z <= b * z
    decreases b - a
  {
    if a < b {
      MulMonotone(a, b - 1, z);
      assert b * z == (b - 1) * z + z;
    }
  }

  lemma DivMonotone(a: nat, b: nat, d: nat)
    requires a <= b && d > 0
    ensures a / d <= b / d
  {
    var q, r := a / d, b / d;
    assert a == d * q + a % d && b == d * r + b % d;
    if r < q {
      MulMonotone(r + 1, q, d);
    }
  }

  lemma SameQuotient(x: nat, y: nat, p: nat)
    requires p > 0 && x / p == y / p && x != y
    ensures x % p != y % p
  {
    assert x == p * (x / p) + x % p;
    assert y == p * (y / p) + y % p;
  }

  lemma Scaled(a: nat, b: nat, z: nat)
    requires a < b
    ensures a * z + z <= b * z
  {
    MulMonotone(a + 1, b, z);
    assert (a + 1) * z == a * z + z;
  }

  function InoOff(g: Geom, ino: nat): (o: nat)
    requires 0 < g.isz <= g.bs && InoOk(g, ino)
    ensures o + g.isz <= g.bs
  {
    InodesPerBlockPositive(g);
    InoOffBound(g, (ino - 1) % InodesPerBlock(g));
    (ino - 1) % InodesPerBlock(g) * g.isz
  }

  lemma InoOffBound(g: Geom, k: nat)
    requires 0 < g.isz <= g.bs && k < InodesPerBlock(g)
    ensures k * g.isz + g.isz <= g.bs
  {
    Scaled(k, InodesPerBlock(g), g.isz);
  }

  /** The 128 bytes of inode `ino` in the table. */
  function InodeAt(g: Geom, d: Disk, ino: nat): (n: Inode)
    requires 0 < g.isz <= g.bs && INODE_BYTES <= g.isz && InoOk(g, ino) && InoBlock(g, ino) < |d|
    requires |d[InoBlock(g, ino)]| == g.bs
  {
    d[InoBlock(g, ino)][InoOff(g, ino)..InoOff(g, ino) + INODE_BYTES]
  }

  /** ext2_write_inode: read-modify-write of the table block. */
  function WithInode(g: Geom, d: Disk, ino: nat, n: Inode): (d': Disk)
    requires 0 < g.isz <= g.bs && INODE_BYTES <= g.isz && InoOk(g, ino) && InoBlock(g, ino) < |d|
    requires |d[InoBlock(g, ino)]| == g.bs
    ensures |d'| == |d| && |d'[InoBlock(g, ino)]| == g.bs && forall b ::
              0 <= b < |d| && b != InoBlock(g, ino) ==> d'[b] == d[b]
  {
    d[InoBlock(g, ino) := Splice(d[InoBlock(g, ino)], InoOff(g, ino), n)]
  }

  /** Packed inodes do not overlap. */
  lemma InodesApart(g: Geom, i: nat, j: nat)
    requires 0 < g.isz <= g.bs && INODE_BYTES <= g.isz && InoOk(g, i) && InoOk(g, j) && i != j
    requires InoBlock(g, i) == InoBlock(g, j)
    ensures InoOff(g, i) + INODE_BYTES <= InoOff(g, j) || InoOff(g, j) + INODE_BYTES <= InoOff(g, i)
  {
    InodesPerBlockPositive(g);
    var p := InodesPerBlock(g);
    SameQuotient(i - 1, j - 1, p);
    var a, b := (i - 1) % p, (j - 1) % p;
    if a < b { Scaled(a, b, g.isz); } else { Scaled(b, a, g.isz); }
  }

  /** Writing one inode changes that inode and no other. */
  lemma InodeAfterWrite(g: Geom, d: Disk, ino: nat, n: Inode, j: nat)
    requires GeomOk(g) && Shape(g, d) && InoOk(g, ino) && InoOk(g, j)
    ensures InodeAt(g, WithInode(g, d, ino, n), j) == if j == ino then n else InodeAt(g, d, j)
  {
    if j != ino && InoBlock(g, j) == InoBlock(g, ino) { InodesApart(g, ino, j); }
  }
}
