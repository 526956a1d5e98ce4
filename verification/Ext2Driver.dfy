/** The ext2 driver of kernel/ext2.c: a disk of blocks, an in-memory superblock and five staging
    buffers that must not alias. */
module Ext2Driver {
  import opened DiskBytes
  import opened Ext2Layout
  import opened Ext2Trees
  import opened Ext2Alloc
  import opened Ext2Files
  import opened Ext2Writing
  import opened Ext2Volume
  import opened Ext2Free
  import opened Ext2Dirents
  import opened Ext2Dirs
  import opened Ext2Fs
  import opened Ext2Names
  import opened Ext2Paths
  import opened Ext2Mkdir
  import opened Ext2Rmdir

  lemma BgdSplice(block: Block, k: nat)
    requires |block| >= 1024 && 12 <= k <= 30
    ensures Get16(block[..BGD_BYTES], k) == Get16(block, k)
    ensures Splice(block, 0, Less16(block[..BGD_BYTES], k)) == Less16(block, k)
    ensures Splice(block, 0, More16(block[..BGD_BYTES], k)) == More16(block, k)
  {
  }

  /** Every block number in the tree is a block of the disk. */
  ghost predicate OnDisk(d: Disk, n: Inode) { forall s {:trigger At(d, n, s)} :: At(d, n, s) < |d| }

  lemma TreesOnDisk(g: Geom, d: Disk, m: Nodes, i: nat)
    requires DiskOk(g, d) && Trees(g, d, m) && i in m
    ensures OnDisk(d, m[i])
  {
    forall s ensures At(d, m[i], s) < |d| { assert SlotGood(g, d, m[i], s); }
  }

  lemma SmallMod(a: nat, b: nat)
    requires a < b
    ensures a % b == a
  {
  }

  /** Index of an inode in its group, and its place in the table. */
  function IndexOf(g: Geom, ino: nat): nat
    requires 0 < g.ipg && 0 < ino
  {
    (ino - 1) % g.ipg
  }

  function TableBlock(g: Geom, table: nat, index: nat): nat
    requires InodesPerBlock?(g)
  {
    table + index / InodesPerBlock(g)
  }

  function TableOffset(g: Geom, index: nat): nat
    requires InodesPerBlock?(g)
  {
    index % InodesPerBlock(g) * g.isz
  }

  predicate InodesPerBlock?(g: Geom) { 0 < g.isz && InodesPerBlock(g) > 0 }

  /** In group 0 the index in the group is the inode number less one. */
  lemma LocateExact(g: Geom, ino: nat)
    requires 0 < g.isz <= g.bs && InoOk(g, ino)
    ensures InodesPerBlock?(g) && TableBlock(g, g.itab, IndexOf(g, ino)) == InoBlock(g, ino)
              && TableOffset(g, IndexOf(g, ino)) == InoOff(g, ino)
  {
    hide TableEnd;
    InodesPerBlockPositive(g);
    SmallMod(ino - 1, g.ipg);
  }

  class Ext2 {
    const g: Geom
    var disk: Disk
    var sb: seq<Octet>
    /** Staged data, bitmaps, two auxiliary buffers, metadata. */
    const b0: array<Octet>
    const b1: array<Octet>
    const b2: array<Octet>
    const b3: array<Octet>
    const b4: array<Octet>

    ghost predicate Buffers() {
      && b0.Length == g.bs && b1.Length == g.bs && b2.Length == g.bs && b3.Length == g.bs && b4.Length == g.bs
      && b0 != b1 && b0 != b2 && b0 != b3 && b0 != b4 && b1 != b2 && b1 != b3 && b1 != b4 && b2 != b3 && b2 != b4
      && b3 != b4
    }

    /** The buffers of ext2_mount, over a disk and its superblock. */
    constructor (geom: Geom, d: Disk, s: seq<Octet>)
      ensures g == geom && Volume() == Vol(d, s) && Buffers()
      ensures fresh(b0) && fresh(b1) && fresh(b2) && fresh(b3) && fresh(b4)
    {
      g, disk, sb := geom, d, s;
      b0 := new Octet[geom.bs](i => 0);
      b1 := new Octet[geom.bs](i => 0);
      b2 := new Octet[geom.bs](i => 0);
      b3 := new Octet[geom.bs](i => 0);
      b4 := new Octet[geom.bs](i => 0);
    }

    ghost function Volume(): Vol
      reads this
    {
      Vol(disk, sb)
    }

    ghost predicate Valid()
      reads this
    {
      Buffers() && VolOk(g, Volume())
    }

    // ---- blocks ------------------------------------------------------------

    method ReadBlock(b: nat, buf: array<Octet>)
      requires b < |disk| && |disk[b]| == buf.Length
      modifies buf
      ensures buf[..] == disk[b]
    {
      forall i | 0 <= i < buf.Length { buf[i] := disk[b][i]; }
    }

    method WriteBlock(b: nat, buf: array<Octet>)
      requires b < |disk|
      modifies this`disk
      ensures disk == old(disk)[b := buf[..]]
    {
      disk := disk[b := buf[..]];
    }

    method ReadBgd() returns (bgd: seq<Octet>)
      requires Buffers() && DiskOk(g, disk)
      modifies b4
      ensures bgd == disk[g.bgdBlock][..BGD_BYTES]
    {
      ReadBlock(g.bgdBlock, b4);
      bgd := b4[..BGD_BYTES];
    }

    method WriteBgd(bgd: seq<Octet>)
      requires Buffers() && DiskOk(g, disk) && |bgd| == BGD_BYTES
      modifies this`disk, b4
      ensures disk == old(disk)[g.bgdBlock := Splice(old(disk)[g.bgdBlock], 0, bgd)]
    {
      ReadBlock(g.bgdBlock, b4);
      forall i | 0 <= i < BGD_BYTES { b4[i] := bgd[i]; }
      assert b4[..] == Splice(disk[g.bgdBlock], 0, bgd);
      WriteBlock(g.bgdBlock, b4);
    }

    /** find_free_bit: the lowest clear bit, or -1 if all are set. */
    method FindFreeBit(bitmap: array<Octet>, size: nat) returns (r: int)
      requires size <= bitmap.Length * 8
      ensures r == -1 || 0 <= r < size
      ensures r >= 0 ==> !Marked(bitmap[..], r)
      ensures forall j {:trigger Marked(bitmap[..], j)} ::
                0 <= j < (if r < 0 then size else r) ==> Marked(bitmap[..], j)
    {
      var i := 0;
      while i < size
        invariant i <= size
        invariant forall j {:trigger Marked(bitmap[..], j)} :: 0 <= j < i ==> Marked(bitmap[..], j)
      {
        assert bitmap[..][i / 8] == bitmap[i / 8];
        if !Bit(bitmap[i / 8] as int, i % 8) { return i; }
        i := i + 1;
      }
      return -1;
    }

    method ZeroBuf(buf: array<Octet>)
      modifies buf
      ensures buf[..] == Zeros(buf.Length)
    {
      forall i | 0 <= i < buf.Length { buf[i] := 0; }
    }

    // ---- the allocator -----------------------------------------------------

    /** Set bit `i` of the bitmap staged in `buf`. */
    method MarkBuf(buf: array<Octet>, i: nat)
      requires i / 8 < buf.Length
      modifies buf
      ensures buf[..] == Mark(old(buf[..]), i)
    {
      SetBitBound(buf[i / 8] as int, i % 8, 8);
      assert Pow2(8) == 256;
      buf[i / 8] := SetBit(buf[i / 8] as int, i % 8) as Octet;
    }

    method UnmarkBuf(buf: array<Octet>, i: nat)
      requires i / 8 < buf.Length
      modifies buf
      ensures buf[..] == Unmark(old(buf[..]), i)
    {
      buf[i / 8] := ClearBit(buf[i / 8] as int, i % 8) as Octet;
    }

    /** Write back the bitmap staged in `buf` with bit `i` taken, and both counters. */
    method TakeBit(k: Kind, buf: array<Octet>, i: nat, bgd: seq<Octet>)
      requires Buffers() && DiskOk(g, disk) && |sb| == SB_BYTES && i < Limit(g, k)
      requires buf != b4 && buf[..] == disk[MapBlock(g, k)] && bgd == disk[g.bgdBlock][..BGD_BYTES]
      modifies this`disk, this`sb, buf, b4
      ensures Volume() == Take(g, old(Volume()), k, i)
    {
      hide Mark, Less16, Less32, Splice, TableEnd, Marked;
      BgdSplice(disk[g.bgdBlock], BgdOff(k));
      MarkBuf(buf, i);
      WriteBlock(MapBlock(g, k), buf);
      assert Get32(disk[g.bgdBlock], 0) == g.bbm;
      WriteBgd(Less16(bgd, BgdOff(k)));
      sb := Less32(sb, SbOff(k));
    }

    /** ext2_alloc_block: the lowest free block, marked, counted and zeroed; 0 only when every
        block is used. */
    method AllocBlock() returns (b: nat)
      requires Valid()
      modifies this`disk, this`sb, b1, b4
      ensures b == 0 ==> Volume() == old(Volume()) && forall c {:trigger Used(g, disk, c)} ::
                InRange(g, c) ==> Used(g, disk, c)
      ensures b != 0 ==> FreeData(g, old(disk), b) && Volume() == NewBlock(g, old(Volume()), b)
      ensures Valid()
    {
      hide Marked, Mark, Less16, Less32, TableEnd, Take;
      var bgd := ReadBgd();
      assert Get32(bgd, 0) == g.bbm;
      ReadBlock(Get32(bgd, 0), b1);
      var limit := g.bpg;
      if limit > g.bs * 8 { limit := g.bs * 8; }
      var bit := FindFreeBit(b1, limit);
      if bit < 0 {
        forall c: nat | InRange(g, c) ensures Used(g, disk, c) { assert Marked(b1[..], c - g.first); }
        return 0;
      }
      b := g.first + bit;
      if b >= g.total {
        forall c: nat | InRange(g, c) ensures Used(g, disk, c) { assert Marked(b1[..], c - g.first); }
        return 0;
      }
      assert Meta(g, 0) && InRange(g, 0) ==> b != 0;
      ghost var v := Volume();
      TakeBit(Blocks, b1, bit, bgd);
      ZeroBuf(b1);
      WriteBlock(b, b1);
      assert Volume() == NewBlock(g, v, b);
      NewBlockVol(g, v, b);
    }

    // ---- inodes ------------------------------------------------------------

    /** Where inode `ino` lives: its table block and the offset in it. */
    method Locate(ino: nat) returns (block: nat, off: nat)
      requires Buffers() && DiskOk(g, disk) && InoOk(g, ino)
      modifies b4
      ensures block == InoBlock(g, ino) && off == InoOff(g, ino)
    {
      hide TableEnd, IndexOf, TableBlock, TableOffset, InoBlock, InoOff;
      var index := IndexOf(g, ino);
      var bgd := ReadBgd();
      LocateExact(g, ino);
      assert Get32(bgd, 8) == g.itab;
      block, off := TableBlock(g, Get32(bgd, 8), index), TableOffset(g, index);
    }

    method ReadInode(ino: nat) returns (n: Inode)
      requires Buffers() && DiskOk(g, disk) && InoOk(g, ino)
      modifies b4
      ensures n == InodeAt(g, disk, ino)
    {
      hide InoOff, InoBlock, TableEnd;
      var block, off := Locate(ino);
      ReadBlock(block, b4);
      n := b4[off..off + INODE_BYTES];
    }

    /** ext2_write_inode: read-modify-write of the packed table block through buffer 0. */
    method WriteInode(ino: nat, n: Inode)
      requires Buffers() && DiskOk(g, disk) && InoOk(g, ino)
      modifies this`disk, b0, b4
      ensures disk == WithInode(g, old(disk), ino, n)
    {
      hide InoOff, InoBlock, TableEnd;
      var block, off := Locate(ino);
      ReadBlock(block, b0);
      forall i | 0 <= i < INODE_BYTES { b0[off + i] := n[i]; }
      assert b0[..] == Splice(disk[block], off, n);
      WriteBlock(block, b0);
    }

    method SyncSuperblock()
      requires DiskOk(g, disk) && |sb| == SB_BYTES
      modifies this`disk
      ensures disk == old(disk)[g.sbBlock := Splice(old(disk)[g.sbBlock], SbAt(g), sb)]
    {
      disk := disk[g.sbBlock := Splice(disk[g.sbBlock], SbAt(g), sb)];
    }

    // ---- reading -----------------------------------------------------------

    /** ext2_read_inode_block: file block `k` into `buf`, which may be buffer 0. */
    method ReadInodeBlock(n: Inode, k: nat, buf: array<Octet>) returns (ok: bool)
      requires Buffers() && DiskOk(g, disk) && OnDisk(disk, n) && buf.Length == g.bs && buf != b2 && buf != b3
      modifies b2, b3, buf
      ensures ok <==> FileBlock(g, disk, n, k) != 0
      ensures FileBlock(g, disk, n, k) < |disk|
      ensures ok ==> buf[..] == disk[FileBlock(g, disk, n, k)]
    {
      hide Get32, TableEnd, Pointer;
      var p := g.bs / 4;
      assert At(disk, n, FileSlot(g, k)) < |disk|;
      if k < DIRECT {
        if Pointer(n, k) == 0 { return false; }
        ReadBlock(Pointer(n, k), buf);
        return true;
      }
      var i := k - DIRECT;
      if i < p {
        if Pointer(n, 12) == 0 { return false; }
        assert At(disk, n, Ind) < |disk|;
        ReadBlock(Pointer(n, 12), b2);
        if Get32(b2[..], 4 * i) == 0 { return false; }
        ReadBlock(Get32(b2[..], 4 * i), buf);
        return true;
      }
      i := i - p;
      if i < p * p {
        if Pointer(n, 13) == 0 { return false; }
        assert At(disk, n, DInd) < |disk| && At(disk, n, DIndEntry(i / p)) < |disk|;
        QuotientBelow(i, p);
        ReadBlock(Pointer(n, 13), b2);
        var block := Get32(b2[..], 4 * (i / p));
        if block == 0 { return false; }
        ReadBlock(block, b3);
        var target := Get32(b3[..], 4 * (i % p));
        if target == 0 { return false; }
        ReadBlock(target, buf);
        return true;
      }
      return false;
    }

    /** ext2_read_file on a resolved inode. */
    method ReadFile(ino: nat, maxlen: nat) returns (ok: bool, out: seq<Octet>)
      requires Valid() && InoOk(g, ino) && OnDisk(disk, InodeAt(g, disk, ino))
      modifies b0, b2, b3, b4
      ensures ok <==> IsRegular(InodeAt(g, disk, ino))
      ensures ok ==> out == ReadFrom(g, disk, InodeAt(g, disk, ino), 0, Min(Size(InodeAt(g, disk, ino)), maxlen))
    {
      hide Get32, TableEnd, Pointer, At, InodeAt, InoOff, InoBlock, OnDisk, FileBlock;
      out := [];
      var n := ReadInode(ino);
      if !IsRegular(n) { return false, []; }
      var remaining: nat := Size(n);
      if remaining > maxlen { remaining := maxlen; }
      ghost var total := remaining;
      var k: nat := 0;
      while remaining > 0
        invariant out + ReadFrom(g, disk, n, k, remaining) == ReadFrom(g, disk, n, 0, total)
        decreases remaining
      {
        var more := ReadInodeBlock(n, k, b0);
        if !more { break; }
        var chunk := Min(remaining, g.bs);
        assert ReadFrom(g, disk, n, k, remaining) == b0[..][..chunk] + ReadFrom(g, disk, n, k + 1, remaining - chunk);
        assert out + (b0[..][..chunk] + ReadFrom(g, disk, n, k + 1, remaining - chunk)) ==
            (out + b0[..chunk]) + ReadFrom(g, disk, n, k + 1, remaining - chunk);
        out := out + b0[..chunk];
        remaining := remaining - chunk;
        k := k + 1;
      }
      ok := true;
    }

    // ---- writing -----------------------------------------------------------

    /** `indirect[i] = x` in a staged pointer block. */
    method PutWord(buf: array<Octet>, o: nat, x: nat)
      requires o + 4 <= buf.Length && x < TWO32
      modifies buf
      ensures buf[..] == Put32(old(buf[..]), o, x)
    {
      var t := Put32(buf[..], o, x);
      forall i | 0 <= i < buf.Length { buf[i] := t[i]; }
    }

    /** No block of the group is free. */
    ghost predicate Full()
      requires DiskOk(g, disk)
      reads this
    {
      forall c {:trigger Used(g, disk, c)} :: InRange(g, c) ==> Used(g, disk, c)
    }

    /** `inode.block[i]`, allocated if it is zero. */
    method PickTop(n: Inode, i: nat, ghost v0: Vol, ghost nodes: Nodes, ghost ino: nat, ghost data: seq<Octet>,
        ghost k: nat) returns (n': Inode, b: nat)
      requires Buffers() && i <= DIRECT && Writing(g, v0, Volume(), nodes, ino, n) && Written(g, disk, n, data, k)
      modifies this`disk, this`sb, b1, b4
      ensures Writing(g, v0, Volume(), nodes, ino, n') && Written(g, disk, n', data, k)
      ensures b == Pointer(n', i)
      ensures b == 0 ==> Full()
    {
      hide Marked, TableEnd, Trees, Grown, Counted, TableKept, HeadKept, Others, SameFile, Written, Ref, Get32,
           SetPointer, NewBlock, OneSlot;
      n', b := n, Pointer(n, i);
      if b == 0 {
        ghost var v := Volume();
        b := AllocBlock();
        if b != 0 {
          n' := SetPointer(n, i, b);
          PointerAfterSet(n, i, b, i);
          TopStep(g, v0, v, nodes, ino, n, i, b);
          WrittenTop(g, v, n, Volume(), n', data, k, TopSlot(i), b);
        }
      }
    }

    /** The block that will hold file block `k`, allocating it, and the indirect block, on demand. */
    method PickBlock(n: Inode, k: nat, ghost v0: Vol, ghost nodes: Nodes, ghost ino: nat, ghost data: seq<Octet>)
        returns (n': Inode, b: nat)
      requires Buffers() && Writing(g, v0, Volume(), nodes, ino, n) && Written(g, disk, n, data, k)
      modifies this`disk, this`sb, b1, b2, b4
      ensures Writing(g, v0, Volume(), nodes, ino, n') && Written(g, disk, n', data, k)
      ensures b == 0 ==> k >= DIRECT + PtrsPerBlock(g) || Full()
      ensures b != 0 ==> k < DIRECT + PtrsPerBlock(g) && b == At(disk, n', FileSlot(g, k))
    {
      hide Marked, TableEnd, Trees, Grown, Counted, TableKept, HeadKept, Others, SameFile, Written, Get32, Put32,
           SetPointer, NewBlock, OneSlot;
      if k < DIRECT {
        n', b := PickTop(n, k, v0, nodes, ino, data, k);
      } else if k - DIRECT < g.bs / 4 {
        var p;
        n', p := PickTop(n, 12, v0, nodes, ino, data, k);
        if p == 0 { return n', 0; }
        b := PickEntry(n', k - DIRECT, v0, nodes, ino, data, k);
      } else {
        return n, 0;
      }
    }

    /** Entry `i` of the indirect block, allocated if it is zero. */
    method PickEntry(n: Inode, i: nat, ghost v0: Vol, ghost nodes: Nodes, ghost ino: nat, ghost data: seq<Octet>,
        ghost k: nat) returns (b: nat)
      requires Buffers() && Writing(g, v0, Volume(), nodes, ino, n) && Written(g, disk, n, data, k)
      requires i < PtrsPerBlock(g) && Pointer(n, 12) != 0
      modifies this`disk, this`sb, b1, b2, b4
      ensures Writing(g, v0, Volume(), nodes, ino, n) && Written(g, disk, n, data, k)
      ensures b == At(disk, n, IndEntry(i))
      ensures b == 0 ==> Full()
    {
      hide Marked, TableEnd, Trees, Grown, Counted, TableKept, HeadKept, Others, SameFile, Written, Get32, Put32,
           SetPointer, NewBlock, OneSlot;
      ghost var m := nodes[ino := n];
      assert m[ino] == n;
      TreesSlot(g, disk, m, ino, Ind);
      var p := Pointer(n, 12);
      ReadBlock(p, b2);
      b := Get32(b2[..], 4 * i);
      if b == 0 {
        ghost var v := Volume();
        b := AllocBlock();
        if b != 0 {
          EntryStep(g, v0, v, nodes, ino, n, i, b);
          PutWord(b2, 4 * i, b);
          NewBlockVol(g, v, b);
          WriteBlock(p, b2);
          assert Volume() == NewEntry(g, v, p, i, b);
          WrittenEntry(g, v, m, ino, Volume(), data, k, i, b);
          OneSlotAt(v.d, n, disk, n, IndEntry(i), b);
        }
      }
    }

    /** The loop of ext2_write_file: every block of `data` in place, or given up. */
    method WriteBlocks(n0: Inode, data: seq<Octet>, ghost v0: Vol, ghost nodes: Nodes, ghost ino: nat)
        returns (ok: bool, n: Inode, ghost k: nat)
      requires Buffers() && Writing(g, v0, Volume(), nodes, ino, n0)
      modifies this`disk, this`sb, b0, b1, b2, b4
      ensures Writing(g, v0, Volume(), nodes, ino, n)
      ensures ok ==> Written(g, disk, n, data, k) && |data| <= k * g.bs && k <= DIRECT + PtrsPerBlock(g)
      ensures ok ==> |data| <= MaxLength(g)
      ensures !ok ==> |data| > MaxLength(g) || Full()
    {
      hide Marked, TableEnd, Trees, Grown, Counted, MetaMarked, TableKept, HeadKept, Others, Written, At, Chunk,
           FileSlot, MaxLength, Full;
      var remaining, i: nat := |data|, 0;
      n := n0;
      WrittenNone(g, disk, n, data);
      while remaining > 0
        invariant Writing(g, v0, Volume(), nodes, ino, n) && Written(g, disk, n, data, i)
        invariant i <= DIRECT + PtrsPerBlock(g)
        invariant 0 <= remaining <= |data| && (remaining > 0 ==> remaining == |data| - i * g.bs)
                  && (remaining == 0 ==> |data| <= i * g.bs)
        decreases remaining
      {
        var chunk := Min(remaining, g.bs);
        StageChunk(data, i, remaining);
        var b;
        n, b := PickBlock(n, i, v0, nodes, ino, data);
        if b == 0 {
          TooLong(g, i, remaining, |data|);
          return false, n, i;
        }
        WriteChunk(b, n, i, v0, nodes, ino, data);
        remaining := remaining - chunk;
        assert (i + 1) * g.bs == i * g.bs + g.bs;
        i := i + 1;
      }
      LengthBound(g, i, |data|);
      ok, k := true, i;
    }

    /** ext2_write_file on a resolved inode. */
    method WriteFile(ino: nat, data: seq<Octet>, now: nat) returns (r: int)
      requires Buffers() && WellFormed(g, Volume()) && Live(g, disk, ino) && |data| < TWO32 && now < TWO32
      modifies this, b0, b1, b2, b4
      ensures Buffers() && WellFormed(g, Volume())
      ensures r == |data| || r == -1
      ensures r == |data| ==> Live(g, disk, ino)
      ensures r == |data| ==> WroteAll(g, old(Volume()), Volume(), ino, InodeAt(g, disk, ino), data)
      ensures r == -1 ==> NodesOf(g, disk) == NodesOf(g, old(disk)) && Others(old(disk), disk, NodesOf(g, disk), ino)
      ensures r == -1 ==> !IsRegular(InodeAt(g, old(disk), ino)) || |data| > MaxLength(g) || Full()
      ensures !IsRegular(InodeAt(g, old(disk), ino)) || |data| > MaxLength(g) ==> r == -1
      ensures !IsRegular(InodeAt(g, old(disk), ino)) ==> Volume() == old(Volume())
      ensures old(FsOk(g, Volume())) ==> FsOk(g, Volume())
    {
      hide Marked, TableEnd, Trees, Grown, CountedIn, MetaMarked, TableKept, HeadKept, Others, Written, Get32, Put32,
           NodesOf, InodeAt, At, Stored, WithInode, Finished, WroteAll, MaxLength, Bit, FsOk;
      ghost var v0, nodes := Volume(), NodesOf(g, disk);
      LiveNode(g, disk, ino);
      WritingStart(g, v0, nodes, ino);
      var n := ReadInode(ino);
      if !IsRegular(n) {
        AbandonStep(g, v0, Volume(), ino, n);
        return -1;
      }
      var ok;
      ghost var k;
      ok, n, k := WriteBlocks(n, data, v0, nodes, ino);
      if !ok {
        AbandonStep(g, v0, Volume(), ino, n);
        if FsOk(g, v0) { AbandonKeepsNames(g, v0, Volume(), ino); }
        return -1;
      }
      FinishStep(g, v0, Volume(), ino, n, data, k, now);
      FinishedFields(g, n, |data|, now);
      var n' := Finished(g, n, |data|, now);
      StoreInode(ino, n');
      WroteWell(g, v0, Volume(), ino, n', data);
      if FsOk(g, v0) { WriteKeepsNames(g, v0, Volume(), ino, n', data); }
      r := |data|;
    }

    /** ext2_write_inode, then ext2_sync_superblock. */
    method StoreInode(ino: nat, n: Inode)
      requires Valid() && InoOk(g, ino)
      modifies this`disk, b0, b4
      ensures Volume() == Stored(g, old(Volume()), ino, n)
    {
      hide TableEnd, InoOff, InoBlock;
      WriteInode(ino, n);
      StoredShape(g, old(Volume()), ino, n);
      assert DiskOk(g, disk) by { hide WithInode; WithInodeShape(g, old(disk), ino, n); }
      SyncSuperblock();
    }

    /** Buffer 0 receives block `k` of the data, zero-padded. */
    method StageChunk(data: seq<Octet>, k: nat, remaining: nat)
      requires Buffers() && k * g.bs <= |data| && remaining == |data| - k * g.bs
      modifies b0
      ensures b0[..] == Chunk(g, data, k)
    {
      hide Chunk, Splice;
      var at := k * g.bs;
      ZeroBuf(b0);
      ChunkIs(g, data, k, at, remaining);
      CopyInto(0, data[at..at + Min(remaining, g.bs)]);
    }

    /** The staged block goes to disk. */
    method WriteChunk(b: nat, n: Inode, k: nat, ghost v0: Vol, ghost nodes: Nodes, ghost ino: nat,
        ghost data: seq<Octet>)
      requires Buffers() && Writing(g, v0, Volume(), nodes, ino, n) && Written(g, disk, n, data, k)
      requires k < DIRECT + PtrsPerBlock(g) && k * g.bs <= |data| && b != 0 && b == At(disk, n, FileSlot(g, k))
      requires b0[..] == Chunk(g, data, k)
      modifies this`disk
      ensures Writing(g, v0, Volume(), nodes, ino, n) && Written(g, disk, n, data, k + 1)
    {
      hide Marked, TableEnd, Trees, Grown, Counted, TableKept, HeadKept, Others, SameFile, Written, At, Chunk;
      ghost var v, m := Volume(), nodes[ino := n];
      assert m[ino] == n;
      DataStep(g, v0, v, nodes, ino, n, FileSlot(g, k), b0[..]);
      WrittenData(g, v, m, ino, data, k);
      WriteBlock(b, b0);
    }

    // ---- freeing -----------------------------------------------------------

    /** Write back the bitmap staged in `buf` with bit `i` cleared, and both counters. */
    method GiveBit(k: Kind, buf: array<Octet>, i: nat, bgd: seq<Octet>)
      requires Buffers() && DiskOk(g, disk) && |sb| == SB_BYTES && i < g.bs * 8 && Marked(disk[MapBlock(g, k)], i)
      requires buf != b4 && buf[..] == disk[MapBlock(g, k)] && bgd == disk[g.bgdBlock][..BGD_BYTES]
      modifies this`disk, this`sb, buf, b4
      ensures Volume() == Give(g, old(Volume()), k, i)
    {
      hide Unmark, More16, More32, Splice, TableEnd, Marked;
      BgdSplice(disk[g.bgdBlock], BgdOff(k));
      UnmarkBuf(buf, i);
      WriteBlock(MapBlock(g, k), buf);
      assert Get32(disk[g.bgdBlock], 0) == g.bbm;
      WriteBgd(More16(bgd, BgdOff(k)));
      sb := More32(sb, SbOff(k));
    }

    /** ext2_free_block. */
    method FreeBlock(b: nat)
      requires Buffers() && DiskOk(g, disk) && |sb| == SB_BYTES
      modifies this`disk, this`sb, b1, b4
      ensures Volume() == FreedBlock(g, old(Volume()), b)
    {
      hide Bit, Unmark, More16, More32, TableEnd;
      if b < g.first { return; }
      var bit := b - g.first;
      if bit >= g.bs * 8 { return; }
      var bgd := ReadBgd();
      assert Get32(bgd, 0) == g.bbm;
      ReadBlock(Get32(bgd, 0), b1);
      if Marked(b1[..], bit) { GiveBit(Blocks, b1, bit, bgd); }
    }

    /** One entry of a staged pointer block. */
    method FreeSlot(x: nat, ghost s: Slot, ghost v0: Vol, ghost n: Inode, ghost seen: iset<Slot>)
      requires Buffers() && Released(g, v0, Volume(), n, seen) && TreeOk(g, v0.d, n) && x == At(v0.d, n, s)
      modifies this`disk, this`sb, b1, b4
      ensures Released(g, v0, Volume(), n, seen + iset{s})
    {
      hide Counted, ReleasedBit, Marked, At, TableEnd, FreedBlock;
      assert At(v0.d, n, s) != 0 ==> InRange(g, At(v0.d, n, s));
      ReleaseSlot(g, v0, Volume(), n, seen, s);
      if x != 0 { FreeBlock(x); }
    }

    method FreeDirect(n: Inode, ghost v0: Vol) returns (n': Inode)
      requires Buffers() && Released(g, v0, Volume(), n, iset{}) && TreeOk(g, v0.d, n)
      modifies this`disk, this`sb, b1, b4
      ensures Released(g, v0, Volume(), n, DirectTo(DIRECT)) && n' == Zeroed(n, DIRECT)
    {
      hide Released, TreeOk, At, Get32, SetPointer;
      n' := n;
      assert DirectTo(0) == iset{};
      var i := 0;
      while i < DIRECT
        invariant 0 <= i <= DIRECT && Released(g, v0, Volume(), n, DirectTo(i)) && n' == Zeroed(n, i)
      {
        ZeroedPointer(n, i, i);
        SlotAt(v0.d, n, i);
        FreeSlot(Pointer(n', i), Direct(i), v0, n, DirectTo(i));
        assert DirectTo(i) + iset{Direct(i)} == DirectTo(i + 1);
        if Pointer(n', i) != 0 { n' := SetPointer(n', i, 0); } else { ZeroedSkip(n, i); }
        i := i + 1;
      }
    }

    method FreeSingles(n: Inode, ghost v0: Vol)
      requires Buffers() && Released(g, v0, Volume(), n, DirectTo(DIRECT)) && TreeOk(g, v0.d, n)
      modifies this`disk, this`sb, b0, b1, b4
      ensures Released(g, v0, Volume(), n, SinglesDone(g))
    {
      hide Counted, ReleasedBit, Marked, TableEnd, Get32;
      var p := Pointer(n, 12);
      assert p == At(v0.d, n, Ind);
      assert IndTo(0) == DirectTo(DIRECT);
      if p != 0 {
        PointerBlockKept(g, v0, Volume(), n, DirectTo(DIRECT), Ind);
        ReadBlock(p, b0);
        var i: nat := 0;
        while i < g.bs / 4
          invariant i <= g.bs / 4 && Released(g, v0, Volume(), n, IndTo(i)) && b0[..] == v0.d[p]
        {
          FreeSlot(Get32(b0[..], 4 * i), IndEntry(i), v0, n, IndTo(i));
          assert IndTo(i) + iset{IndEntry(i)} == IndTo(i + 1);
          i := i + 1;
        }
        FreeSlot(p, Ind, v0, n, IndTo(i));
      } else {
        EmptySlots(g, v0, Volume(), n, DirectTo(DIRECT), SinglesDone(g));
      }
    }

    method FreeLeafBlock(x: nat, n: Inode, j: nat, ghost v0: Vol)
      requires Buffers() && Released(g, v0, Volume(), n, DoublesTo(g, j)) && TreeOk(g, v0.d, n)
      requires x != 0 && x == At(v0.d, n, DIndEntry(j))
      modifies this`disk, this`sb, b1, b2, b4
      ensures Released(g, v0, Volume(), n, DoublesTo(g, j + 1))
    {
      hide Counted, ReleasedBit, Marked, TableEnd, Get32, SinglesDone;
      assert LeavesTo(g, j, 0) == DoublesTo(g, j);
      PointerBlockKept(g, v0, Volume(), n, DoublesTo(g, j), DIndEntry(j));
      ReadBlock(x, b2);
      var i: nat := 0;
      while i < g.bs / 4
        invariant i <= g.bs / 4 && Released(g, v0, Volume(), n, LeavesTo(g, j, i)) && b2[..] == v0.d[x]
      {
        FreeSlot(Get32(b2[..], 4 * i), DIndLeaf(j, i), v0, n, LeavesTo(g, j, i));
        assert LeavesTo(g, j, i) + iset{DIndLeaf(j, i)} == LeavesTo(g, j, i + 1);
        i := i + 1;
      }
      FreeSlot(x, DIndEntry(j), v0, n, LeavesTo(g, j, i));
      assert LeavesTo(g, j, i) + iset{DIndEntry(j)} == DoublesTo(g, j + 1);
    }

    method FreeDoubles(n: Inode, ghost v0: Vol)
      requires Buffers() && Released(g, v0, Volume(), n, SinglesDone(g)) && TreeOk(g, v0.d, n)
      modifies this`disk, this`sb, b0, b1, b2, b4
      ensures Released(g, v0, Volume(), n, AllSlots(g))
    {
      hide Counted, ReleasedBit, Marked, TableEnd, Get32, SinglesDone;
      var p := Pointer(n, 13);
      assert p == At(v0.d, n, DInd);
      assert DoublesTo(g, 0) == SinglesDone(g);
      if p != 0 {
        PointerBlockKept(g, v0, Volume(), n, SinglesDone(g), DInd);
        ReadBlock(p, b0);
        var j: nat := 0;
        while j < g.bs / 4
          invariant j <= g.bs / 4 && Released(g, v0, Volume(), n, DoublesTo(g, j)) && b0[..] == v0.d[p]
        {
          var x := Get32(b0[..], 4 * j);
          assert x == At(v0.d, n, DIndEntry(j));
          if x != 0 {
            FreeLeafBlock(x, n, j, v0);
          } else {
            EmptyDouble(g, v0, Volume(), n, j);
          }
          j := j + 1;
        }
        FreeSlot(p, DInd, v0, n, DoublesTo(g, j));
      } else {
        EmptySlots(g, v0, Volume(), n, SinglesDone(g), AllSlots(g));
      }
    }

    /** free_inode_blocks: every block of the tree, pointer blocks included, and no other. */
    method FreeInodeBlocks(n: Inode) returns (n': Inode)
      requires Valid() && TreeOk(g, disk, n)
      modifies this`disk, this`sb, b0, b1, b2, b4
      ensures Released(g, old(Volume()), Volume(), n, AllSlots(g))
      ensures n' == Zeroed(n, 14)
    {
      hide Released, TreeOk, At, Get32, SetPointer;
      ghost var v0 := Volume();
      ReleasedStart(g, v0, n);
      n' := FreeDirect(n, v0);
      FreeSingles(n, v0);
      ZeroedPointer(n, DIRECT, 12);
      ZeroedPointer(n, DIRECT, 13);
      if Pointer(n', 12) != 0 { n' := SetPointer(n', 12, 0); } else { ZeroedSkip(n, 12); }
      FreeDoubles(n, v0);
      ZeroedPointer(n, 13, 13);
      if Pointer(n', 13) != 0 { n' := SetPointer(n', 13, 0); } else { ZeroedSkip(n, 13); }
    }

    // ---- directories -------------------------------------------------------

    /** Search the directory block staged in buffer 0.  On any bytes the walk stays inside the
        block; on a tiled block it finds the first live entry called `name`. */
    method FindInBlock(name: Name) returns (ino: nat, off: nat)
      requires Buffers() && g.bs >= HDR && 0 < |name| < MAX_FILENAME
      ensures ino != 0 ==> off + HDR <= g.bs && RecIno(b0[..], off) == ino
      ensures Tiled(b0[..], 0) ==> ino == Find(LiveFrom(b0[..], 0), name)
      ensures Tiled(b0[..], 0) && ino != 0 ==> Boundary(b0[..], 0, off) && RecOk(b0[..], off)
      ensures Tiled(b0[..], 0) && ino != 0 ==> EntryAt(b0[..], off).name == name
    {
      hide RecOk, Get16, Get32, CStr, NameOk, Boundary, Tiled, LiveFrom, Find;
      ino, off := 0, 0;
      WalkStart(b0[..]);
      ghost var b, tiled := b0[..], Tiled(b0[..], 0);
      while off + HDR <= g.bs
        invariant ino == 0 && b0[..] == b && off <= g.bs
        invariant tiled ==>
                  && Boundary(b, 0, off) && Tiled(b, off) && Find(LiveFrom(b, 0), name) == Find(LiveFrom(b, off), name)
        decreases g.bs - off
      {
        if tiled { WalkOn(b, off, name); }
        var len, nlen := RecLen(b0[..], off), NameLen(b0[..], off);
        if len < HDR { break; }
        if off + len > g.bs { break; }
        if RecIno(b0[..], off) == 0 { off := off + len; continue; }
        if off + HDR + nlen > g.bs { break; }
        if nlen >= MAX_FILENAME { off := off + len; continue; }
        if CStr(b0[off + HDR..off + HDR + nlen]) == name {
          assert b0[off + HDR..off + HDR + nlen] == b[off + HDR..off + HDR + nlen];
          return RecIno(b0[..], off), off;
        }
        assert b0[off + HDR..off + HDR + nlen] == b[off + HDR..off + HDR + nlen];
        off := off + len;
      }
      if tiled && off + HDR > g.bs { WalkEnd(b, off, name); }
    }

    /** The inner loop of resolve_path: `name` in one directory. */
    method Lookup(n: Inode, name: Name) returns (ino: nat)
      requires Buffers() && DiskOk(g, disk) && OnDisk(disk, n) && DirOk(g, disk, n) && 0 < |name| < MAX_FILENAME
      modifies b0, b2, b3
      ensures ino == Find(Entries(g, disk, n), name)
    {
      hide Get32, TableEnd, Tiled, LiveFrom, Find, Pointer, Listing, OnDisk, Unique, At, Size;
      ino := 0;
      var left, k: nat := Size(n), 0;
      ghost var blocks := DirBlocks(g, n);
      ListingNone(disk, n, name);
      while left > 0 && ino == 0
        invariant k <= blocks && left == (blocks - k) * g.bs
        invariant DirPrefix(disk, n, k) && ino == Find(Listing(disk, n, k), name)
        decreases left
      {
        MulPositive(blocks - k, g.bs);
        assert DirPrefix(disk, n, k + 1);
        FindNext(disk, n, k, name);
        DirSlot(g, disk, n, k);
        var more := ReadInodeBlock(n, k, b0);
        if !more { break; }
        var off;
        ino, off := FindInBlock(name);
        assert (blocks - k - 1) * g.bs == (blocks - k) * g.bs - g.bs;
        left := left - g.bs;
        k := k + 1;
      }
      if ino != 0 { FindFirst(disk, n, k, blocks, name); } else { MulZero(blocks - k, g.bs); }
    }

    /** The record search of add_dirent_to_parent in the block staged in buffer 0. */
    method SpaceInBlock(name: Name) returns (found: bool, off: nat)
      requires Buffers() && g.bs >= HDR
      ensures found ==> RecOkAt(b0[..], off)
      ensures Tiled(b0[..], 0) && found ==> Boundary(b0[..], 0, off) && RecOk(b0[..], off) && Fits(b0[..], off, name)
      ensures Tiled(b0[..], 0) && !found ==> NoRoom(b0[..], g.bs, name)
    {
      hide RecOk, Get16, Get32, NameOk, Boundary, Tiled, LiveFrom, Find;
      found, off := false, 0;
      ghost var b, tiled := b0[..], Tiled(b0[..], 0);
      WalkStart(b);
      while off + HDR <= g.bs
        invariant !found && off <= g.bs
        invariant tiled ==> Boundary(b, 0, off) && Tiled(b, off) && NoRoom(b, off, name)
        decreases g.bs - off
      {
        if tiled { WalkOn(b, off, name); }
        var len, nlen := RecLen(b0[..], off), NameLen(b0[..], off);
        if len < HDR { break; }
        if off + len > g.bs { break; }
        if RecIno(b0[..], off) == 0 {
          if len >= Need(name) { return true, off; }
        } else {
          if len >= Round4(HDR + nlen) + Need(name) { return true, off; }
        }
        if tiled { NoRoomStep(b, off, name); }
        off := off + len;
      }
      if tiled && off + HDR > g.bs { TiledEnd(b, off); }
    }

    /** The block search of add_dirent_to_parent. */
    method FindSpace(n: Inode, name: Name) returns (found: bool, i: nat, off: nat)
      requires Buffers() && DiskOk(g, disk) && DirOk(g, disk, n)
      modifies b0
      ensures i <= DirBlocks(g, n) <= DIRECT
      ensures found ==> i < DirBlocks(g, n) && DirBlockOk(disk, n, i) && b0[..] == disk[Pointer(n, i)]
      ensures found ==> Boundary(b0[..], 0, off) && RecOk(b0[..], off) && Fits(b0[..], off, name)
      ensures !found ==> i == DirBlocks(g, n) && NoRoomIn(disk, n, i, name)
    {
      hide Get32, TableEnd, Tiled, LiveFrom, Pointer, Listing, Unique, Size, Boundary, RecOk, Fits, NoRoom;
      found, i, off := false, 0, 0;
      ghost var blocks := DirBlocks(g, n);
      while i < DIRECT && i * g.bs < Size(n)
        invariant !found && i <= blocks && NoRoomIn(disk, n, i, name)
      {
        MulLess(i, blocks, g.bs);
        assert DirBlockOk(disk, n, i);
        if Pointer(n, i) == 0 { break; }
        ReadBlock(Pointer(n, i), b0);
        found, off := SpaceInBlock(name);
        if found { return; }
        i := i + 1;
      }
      if i < blocks { MulStrict(i, blocks, g.bs); }
    }

    /** Stage the record of a new entry into buffer 0 and write the block back. */
    method InsertAt(x: nat, off: nat, ino: nat, name: Name, kind: Octet)
      requires Buffers() && DiskOk(g, disk) && x < |disk| && b0[..] == disk[x] && RecOk(b0[..], off) && |name| < 256
      requires Fits(b0[..], off, name) && ino < TWO32
      modifies this`disk, b0
      ensures disk == old(disk)[x := Inserted(old(disk)[x], off, ino, name, kind)]
    {
      hide Get16, Get32, NameOk, TableEnd, Record, InsertDead, InsertSplit, Round4;
      if RecIno(b0[..], off) == 0 {
        ReviveAt(off, ino, name, kind);
      } else {
        SplitAndInsert(off, ino, name, kind);
      }
      WriteBlock(x, b0);
    }

    method ReviveAt(off: nat, ino: nat, name: Name, kind: Octet)
      requires Buffers() && RecOk(b0[..], off) && |name| < 256 && FitsDead(b0[..], off, name) && ino < TWO32
      modifies b0
      ensures b0[..] == InsertDead(old(b0[..]), off, ino, name, kind)
    {
      hide Get16, Get32, NameOk, Record, Round4, Splice;
      CopyInto(off, Record(ino, RecLen(b0[..], off), name, kind));
    }

    method SplitAndInsert(off: nat, ino: nat, name: Name, kind: Octet)
      requires Buffers() && RecOk(b0[..], off) && |name| < 256 && FitsSplit(b0[..], off, name) && ino < TWO32
      modifies b0
      ensures b0[..] == InsertSplit(old(b0[..]), off, ino, name, kind)
    {
      hide Get16, Get32, NameOk, Record, Round4, Splice, Put16;
      var min, len := Round4(HDR + NameLen(b0[..], off)), RecLen(b0[..], off);
      PutHalf(b0, off + 4, min);
      CopyInto(off + min, Record(ino, len - min, name, kind));
    }

    /** A 16-bit field of a staged block. */
    method PutHalf(buf: array<Octet>, o: nat, x: nat)
      requires o + 2 <= buf.Length && x < TWO16
      modifies buf
      ensures buf[..] == Put16(old(buf[..]), o, x)
    {
      buf[o] := (x % 256) as Octet;
      buf[o + 1] := (x / 256) as Octet;
    }

    /** memcpy into buffer 0. */
    method CopyInto(off: nat, bytes: seq<Octet>)
      requires off + |bytes| <= b0.Length
      modifies b0
      ensures b0[..] == Splice(old(b0[..]), off, bytes)
    {
      forall i | 0 <= i < |bytes| { b0[off + i] := bytes[i]; }
      assert b0[..] == Splice(old(b0[..]), off, bytes);
    }

    /** add_dirent_to_parent. */
    method AddDirent(parent: nat, name: Name, ino: nat, kind: Octet, ghost nodes: Nodes)
        returns (ok: bool, ghost n': Inode, ghost pb: nat)
      requires Buffers() && Fs(g, Volume(), nodes) && Tabled(g, disk, nodes) && parent in nodes && 0 < ino < TWO32
      requires (name != [] ==> NameOk(name))
      requires (IsDir(nodes[parent]) && DirOk(g, disk, nodes[parent])
                ==> Find(Entries(g, disk, nodes[parent]), name) == 0)
      modifies this`disk, this`sb, b0, b1, b4
      ensures ok ==> Added(g, old(Volume()), Volume(), nodes, parent, n', name, ino, pb)
      ensures ok ==> DirCount(g, disk) == DirCount(g, old(disk))
      ensures !ok ==> Volume() == old(Volume())
      ensures !ok ==> name == [] || |name| >= MAX_FILENAME || Stuck(g, disk, nodes[parent], name)
    {
      hide Marked, TableEnd, Counted, MetaMarked, Tiled, LiveFrom, Boundary, NameOk, Trees, DirsOk, Unique, Find,
           Bindings, Listing, IsDir, Get32, Record, NewBlock, WithInode, Grew, InodeAt, Added, DirOk, NoRoomIn,
           Inserted, Tabled, RecOk, Fits, Pointer, DirCount;
      ok, n', pb := false, nodes[parent], 0;
      ghost var v0 := Volume();
      InTable(g, disk, nodes, parent);
      var n := ReadInode(parent);
      if !IsDir(n) { return; }
      if name == [] || |name| >= MAX_FILENAME { return; }
      FsDir(g, Volume(), nodes, parent);
      var found, i, off := FindSpace(n, name);
      if found {
        AddInBlock(g, v0, nodes, parent, i, off, ino, name, kind);
        InsertCount(g, v0, nodes, parent, i, Inserted(disk[Pointer(n, i)], off, ino, name, kind));
        InsertAt(Pointer(n, i), off, ino, name, kind);
        AddedTable(g, v0, Volume(), nodes, parent, n, name, ino, 0);
        StoreSame(g, disk, parent);
        WriteInode(parent, n);
        ok := true;
      } else {
        if i >= DIRECT { return; }
        var b := AllocBlock();
        if b == 0 { return; }
        AddGrow(g, v0, nodes, parent, b, ino, name, kind);
        NewBlockShape(g, v0, b);
        ZeroBuf(b0);
        CopyInto(0, Record(ino, g.bs, name, kind));
        assert b0[..] == Record(ino, g.bs, name, kind);
        WriteBlock(b, b0);
        BlockDisk(g, v0, b, b0[..]);
        var m := Grew(g, n, i, b);
        GrowCount(g, v0, b, b0[..], parent, m);
        WriteInode(parent, m);
        ok, n', pb := true, m, b;
      }
    }

    // ---- paths -------------------------------------------------------------

    /** resolve_path. */
    method Resolve(path: Path, ghost nodes: Nodes) returns (cur: nat)
      requires Buffers() && Fs(g, Volume(), nodes) && Tabled(g, disk, nodes)
      requires path != [] && path[0] == SLASH ==> Walkable(g, disk, nodes, ROOT_INO, Components(path))
      modifies b0, b2, b3, b4
      ensures cur == Resolved(g, disk, nodes, path)
    {
      hide Marked, TableEnd, Counted, MetaMarked, Trees, DirsOk, Find, IsDir, InodeAt, DirOk, Tabled, Step, Components,
           OnDisk;
      if path == [] || path[0] != SLASH { return 0; }
      SlashFirst(path);
      if |path| == 1 { NoComponents(path[1..]); return ROOT_INO; }
      cur := ROOT_INO;
      var i: nat := 1;
      while i < |path|
        invariant 1 <= i <= |path| && cur != 0
        invariant Walk(g, disk, nodes, cur, Components(path[i..])) == Resolved(g, disk, nodes, path)
        invariant Walkable(g, disk, nodes, cur, Components(path[i..]))
        decreases |path| - i
      {
        var j: nat := i;
        while j < |path| && path[j] != SLASH
          invariant i <= j <= |path| && j - i < MAX_FILENAME && forall t :: i <= t < j ==> path[t] != SLASH
        {
          if j - i >= MAX_FILENAME - 1 {
            ghost var c := LongComponent(path, i, j);
            LongStep(g, disk, nodes, cur, c, Components(path[i..]));
            return 0;
          }
          j := j + 1;
        }
        NextComponent(path, i, j);
        var next: nat := if j < |path| then j + 1 else j;
        if j > i {
          var c := path[i..j];
          WalkStep(g, disk, nodes, cur, c, Components(path[next..]));
          cur := LookupIn(cur, c, nodes);
          if cur == 0 { return; }
        } else {
          assert [] + Components(path[next..]) == Components(path[next..]);
        }
        i := next;
      }
      NoComponents(path[i..]);
    }

    method LookupIn(dir: nat, name: Name, ghost nodes: Nodes) returns (ino: nat)
      requires Buffers() && Fs(g, Volume(), nodes) && Tabled(g, disk, nodes) && dir in nodes && IsDir(nodes[dir])
      requires 0 < |name| < MAX_FILENAME
      modifies b0, b2, b3, b4
      ensures ino == Step(g, disk, nodes, dir, name)
    {
      hide Marked, TableEnd, Counted, MetaMarked, Trees, DirsOk, Find, IsDir, InodeAt, DirOk, Tabled, OnDisk;
      InTable(g, disk, nodes, dir);
      FsDir(g, Volume(), nodes, dir);
      TreesOnDisk(g, disk, nodes, dir);
      var n := ReadInode(dir);
      ino := Lookup(n, name);
    }

    /** split_parent_child: everything before the last slash, and the rest. */
    method SplitPath(path: Path) returns (ok: bool, parent: Path, child: Name)
      ensures ok <==> !Unsplittable(path)
      ensures ok ==> child != [] && |child| < MAX_FILENAME && (forall i :: 0 <= i < |child| ==> child[i] != SLASH)
      ensures ok ==> parent != [] && parent[0] == SLASH && path != [] && path[0] == SLASH
      ensures ok ==> Components(path) == Components(parent) + [child]
    {
      ok, parent, child := false, [], [];
      if path == [] || path[0] != SLASH { return; }
      var last, len: nat := 0, 0;
      while len < |path|
        invariant len <= |path| && (len > 0 ==> last < len && path[last] == SLASH && forall i ::
                  last < i < len ==> path[i] != SLASH)
      {
        if path[len] == SLASH { last := len; }
        len := len + 1;
      }
      var clen := len - last - 1;
      if clen == 0 || clen >= MAX_FILENAME { return; }
      child := path[last + 1..];
      LastComponent(path, last);
      LastSlash(path, last);
      if last == 0 {
        assert path[..0] == [] && [SLASH][1..] == [];
        SlashFirst([SLASH]);
        return true, [SLASH], child;
      }
      if last >= MAX_PATH { return; }
      return true, path[..last], child;
    }

    // ---- creating ----------------------------------------------------------

    /** ext2_alloc_inode: the lowest free inode, or 0 when all are in use. */
    method AllocInode() returns (ino: nat)
      requires Valid()
      modifies this`disk, this`sb, b0, b4
      ensures ino == 0 ==> Volume() == old(Volume()) && forall i: nat {:trigger Live(g, disk, i)} ::
                InoOk(g, i) ==> Live(g, disk, i)
      ensures ino != 0 ==> InoOk(g, ino) && !Live(g, old(disk), ino)
      ensures ino != 0 ==> Volume() == Take(g, old(Volume()), Inodes, ino - 1)
    {
      hide Bit, TableEnd, Take;
      var bgd := ReadBgd();
      assert Get32(bgd, 4) == g.ibm;
      ReadBlock(Get32(bgd, 4), b0);
      var limit := g.ipg;
      if limit > g.bs * 8 { limit := g.bs * 8; }
      var bit := FindFreeBit(b0, limit);
      if bit < 0 {
        forall i: nat | InoOk(g, i) ensures Live(g, disk, i) { assert Marked(b0[..], i - 1); }
        return 0;
      }
      ino := bit + 1;
      TakeBit(Inodes, b0, bit, bgd);
    }

    /** ext2_free_inode. */
    method FreeInode(ino: nat)
      requires Buffers() && DiskOk(g, disk) && |sb| == SB_BYTES && InoOk(g, ino)
      modifies this`disk, this`sb, b0, b4
      ensures Volume() == if ino < ROOT_INO then old(Volume()) else Give(g, old(Volume()), Inodes, ino - 1)
    {
      hide Bit, TableEnd;
      if ino < ROOT_INO { return; }
      SmallMod(ino - 1, g.ipg);
      var index := (ino - 1) % g.ipg;
      var bgd := ReadBgd();
      assert Get32(bgd, 4) == g.ibm;
      ReadBlock(Get32(bgd, 4), b0);
      if Marked(b0[..], index) { GiveBit(Inodes, b0, index, bgd); }
    }

    /** A new inode, its bit taken and its table entry written. */
    method NewInode(now: nat, ghost nodes: Nodes) returns (ino: nat)
      requires Buffers() && Rest(g, Volume(), nodes) && now < TWO32 && 1 in nodes
      modifies this`disk, this`sb, b0, b4
      ensures ino == 0 ==> Volume() == old(Volume()) && InodesGone(g, disk)
      ensures ino != 0 ==> ROOT_INO <= ino && InoOk(g, ino) && Unnamed(g, old(Volume()), Volume(), nodes, ino, now)
    {
      hide Marked, TableEnd, Counted, MetaMarked, Fs, InodeAt, Take, WithInode, NewFile, Tabled, Unnamed, LiveSet, Live;
      ghost var v0 := Volume();
      RestVol(g, v0, nodes);
      ino := AllocInode();
      if ino != 0 {
        OneIsRoot(g, v0, nodes, ino);
        UnnamedStep(g, v0, nodes, ino, now);
        WriteInode(ino, NewFile(now));
      }
    }

    method Sync()
      requires Buffers() && DiskOk(g, disk) && |sb| == SB_BYTES
      modifies this`disk
      ensures Volume() == Synced(g, old(Volume()))
    {
      SyncSuperblock();
    }

    /** ext2_create_file once the parent is known. */
    method CreateIn(parent: nat, name: Name, now: nat, ghost nodes: Nodes)
        returns (ok: bool, ino: nat, ghost p': Inode, ghost pb: nat)
      requires Buffers() && Rest(g, Volume(), nodes) && parent in nodes && now < TWO32 && NameOk(name)
      requires 0 < |name| < MAX_FILENAME
      requires 1 in nodes
      requires (IsDir(nodes[parent]) && DirOk(g, disk, nodes[parent])
                ==> Find(Entries(g, disk, nodes[parent]), name) == 0)
      modifies this`disk, this`sb, b0, b1, b4
      ensures ok ==> Created(g, old(Volume()), Volume(), nodes, parent, p', name, ino, now, pb)
      ensures !ok ==> Unchanged(g, old(Volume()), Volume(), nodes)
      ensures !ok ==> (InodesGone(g, old(disk)) || Stuck(g, old(disk), nodes[parent], name))
    {
      hide TableEnd, Counted, MetaMarked, Trees, DirsOk, Give, NewFile, IsDir, Tabled, Created, Added, Unchanged,
           Unnamed, Find, DirOk, NoRoomIn, Synced, NameOk, LiveSet, Full, Stuck, InodesGone;
      ok, ino, p', pb := false, 0, nodes[parent], 0;
      ghost var v0 := Volume();
      ino := NewInode(now, nodes);
      if ino == 0 { UnchangedRefl(g, v0, nodes); return; }
      ghost var v2, m := Volume(), nodes[ino := NewFile(now)];
      UnnamedRest(g, v0, v2, nodes, ino, now, parent);
      ok, p', pb := AddDirent(parent, name, ino, 1, m);
      if ok {
        CreatedStep(g, v0, v2, Volume(), nodes, parent, p', name, ino, now, pb);
        AddedVol(g, v2, Volume(), m, parent, p', name, ino, pb);
        Sync();
      } else {
        UndoneStep(g, v0, v2, nodes, ino, now);
        UnnamedStuck(g, v0, v2, nodes, ino, now, parent, name);
        FreeInode(ino);
      }
    }

    /** ext2_create_file. */
    method CreateFile(path: Path, now: nat, ghost nodes: Nodes)
        returns (ok: bool, ghost p: nat, ghost name: Name, ghost ino: nat, ghost p': Inode, ghost pb: nat)
      requires Buffers() && Rest(g, Volume(), nodes) && 1 in nodes && now < TWO32
      requires (forall i :: 0 <= i < |path| ==> path[i] != 0)
      requires path != [] && path[0] == SLASH ==> Walkable(g, disk, nodes, ROOT_INO, Components(path))
      modifies this`disk, this`sb, b0, b1, b2, b3, b4
      ensures ok ==> path != [] && path[0] == SLASH && Components(path) != []
      ensures ok ==> name == Components(path)[|Components(path)| - 1] && |name| < MAX_FILENAME && !Unsplittable(path)
      ensures ok ==> p == Walk(g, old(disk), nodes, ROOT_INO, Components(path)[..|Components(path)| - 1])
      ensures ok ==> Resolved(g, old(disk), nodes, path) == 0
      ensures ok ==> Created(g, old(Volume()), Volume(), nodes, p, p', name, ino, now, pb)
      ensures !ok ==> Unchanged(g, old(Volume()), Volume(), nodes)
      ensures !ok ==>
                || Unsplittable(path) || Resolved(g, old(disk), nodes, path) != 0 || InodesGone(g, old(disk))
                || ParentStuck(g, old(disk), nodes, path)
    {
      hide TableEnd, Counted, MetaMarked, Trees, DirsOk, IsDir, Tabled, Created, Unchanged, Find, DirOk, LiveSet,
           Components, Walk, Walkable, Step, NameOk, Stuck, InodesGone, Unsplittable, ParentStuck;
      ok, p, name, ino, p', pb := false, 0, [], 0, Zeros(INODE_BYTES), 0;
      ghost var v0 := Volume();
      if path == [] || path[0] != SLASH { UnchangedRefl(g, v0, nodes); NotAbsolute(path); return; }
      var there := Resolve(path, nodes);
      if there != 0 { UnchangedRefl(g, v0, nodes); return; }
      var split, parent, child := SplitPath(path);
      if !split { UnchangedRefl(g, v0, nodes); return; }
      WalkablePrefix(g, disk, nodes, ROOT_INO, Components(parent), child);
      WalkAppend(g, disk, nodes, ROOT_INO, Components(parent), child);
      var q := Resolve(parent, nodes);
      if q == 0 { UnchangedRefl(g, v0, nodes); NoParent(g, v0, nodes, path, Components(parent), child); return; }
      LastWalked(g, disk, nodes, ROOT_INO, Components(parent), child);
      ChildOk(path, Components(parent), child);
      AbsentStep(g, v0, nodes, q, child);
      var made;
      ok, made, p', pb := CreateIn(q, child, now, nodes);
      if !ok && Stuck(g, v0.d, nodes[q], child) { StuckParent(g, v0, nodes, path, Components(parent), child); }
      p, name, ino := q, child, made;
    }

    // ---- making a directory ------------------------------------------------

    /** The new directory before it has a name: inode, first block, both records. */
    method NewDirectory(parent: nat, now: nat, ghost nodes: Nodes) returns (ino: nat, b: nat)
      requires Buffers() && Rest(g, Volume(), nodes) && parent in nodes && now < TWO32 && 1 in nodes
      modifies this`disk, this`sb, b0, b1, b4
      ensures ino == 0 ==> Unchanged(g, old(Volume()), Volume(), nodes)
      ensures ino == 0 ==> (InodesGone(g, old(disk)) || AlmostFull(g, old(disk)))
      ensures ino != 0 ==> ROOT_INO <= ino && InoOk(g, ino) && 0 < b < TWO32
      ensures ino != 0 ==> UnnamedDir(g, old(Volume()), Volume(), nodes, ino, parent, now, b)
      ensures ino != 0 ==> DirCount(g, disk) == DirCount(g, old(disk))
    {
      hide Marked, TableEnd, Counted, MetaMarked, Fs, InodeAt, Take, Give, WithInode, NewDir, Tabled, UnnamedDir,
           LiveSet, Live, Unchanged, NewBlock, DotBlock, Record, DirMade, DirCount;
      b := 0;
      ghost var v0 := Volume();
      RestVol(g, v0, nodes);
      NodeNumber(g, v0, nodes, parent);
      ino := AllocInode();
      if ino == 0 { UnchangedRefl(g, v0, nodes); return; }
      OneIsRoot(g, v0, nodes, ino);
      TakenVol(g, v0, nodes, ino);
      ghost var t := Volume();
      b := AllocBlock();
      if b == 0 {
        UntakenStep(g, v0, nodes, ino);
        TakenFull(g, v0, nodes, ino);
        FreeInode(ino);
        ino := 0;
        return;
      }
      DirMadeStep(g, v0, nodes, ino, parent, now, b);
      MadeCount(g, v0, ino, parent, now, b);
      ZeroBuf(b0);
      CopyInto(0, Record(ino, DOT_LEN, DOT, FT_DIR));
      CopyInto(DOT_LEN, Record(parent, g.bs - DOT_LEN, DOTDOT, FT_DIR));
      DotsStaged(g.bs, ino, parent);
      WriteBlock(b, b0);
      BlockDisk(g, t, b, b0[..]);
      WriteInode(ino, NewDir(g, now, b));
      DirMadeIs(g, v0, ino, parent, now, b);
    }

    /** ext2_mkdir once the parent is known. */
    method MkdirIn(parent: nat, name: Name, now: nat, ghost nodes: Nodes)
        returns (ok: bool, ino: nat, b: nat, ghost p': Inode, ghost pb: nat)
      requires Buffers() && Rest(g, Volume(), nodes) && parent in nodes && now < TWO32 && NameOk(name)
      requires 0 < |name| < MAX_FILENAME
      requires 1 in nodes
      requires (IsDir(nodes[parent]) && DirOk(g, disk, nodes[parent])
                ==> Find(Entries(g, disk, nodes[parent]), name) == 0)
      modifies this`disk, this`sb, b0, b1, b2, b4
      ensures ok ==> MadeDir(g, old(Volume()), Volume(), nodes, parent, p', name, ino, now, b, pb)
      ensures ok ==> DirCount(g, disk) == (DirCount(g, old(disk)) + 1) % TWO16
      ensures !ok ==> Unchanged(g, old(Volume()), Volume(), nodes)
      ensures !ok ==>
                || InodesGone(g, old(disk)) || AlmostFull(g, old(disk)) || !IsDir(nodes[parent])
                || DirBlocks(g, nodes[parent]) == DIRECT
    {
      hide TableEnd, Counted, MetaMarked, Trees, DirsOk, Give, NewDir, IsDir, Tabled, MadeDir, Added, Unchanged,
           UnnamedDir, Find, DirOk, NoRoomIn, Synced, NameOk, LiveSet, Full, Stuck, InodesGone, AlmostFull, DirCount,
           DirBlocks, Released, AllSlots, TreeOk, Completed, Linked, WithInode;
      ok, p', pb := false, nodes[parent], 0;
      ghost var v0 := Volume();
      ino, b := NewDirectory(parent, now, nodes);
      if ino == 0 { return; }
      ghost var v1, m := Volume(), nodes[ino := NewDir(g, now, b)];
      UnnamedDirRest(g, v0, v1, nodes, ino, parent, now, b);
      ok, p', pb := AddDirent(parent, name, ino, FT_DIR, m);
      if ok {
        ghost var v2 := Volume();
        MadeDirStep(g, v0, v1, v2, nodes, parent, p', name, ino, now, b, pb, Adjusted(DirCount(g, v0.d), true));
        AddedTable(g, v1, v2, m, parent, p', name, ino, pb);
        AddedVol(g, v1, v2, m, parent, p', name, ino, pb);
        var pn := ReadInode(parent);
        pn := Linked(pn);
        FinishDir(parent, pn, true);
        p' := pn;
      } else {
        UnnamedFull(g, v0, v1, nodes, ino, parent, now, b, name);
        var dead := FreeInodeBlocks(NewDir(g, now, b));
        UnmadeStep(g, v0, v1, Volume(), nodes, ino, parent, now, b);
        ReleasedDisk(g, v1, Volume(), NewDir(g, now, b));
        FreeInode(ino);
      }
    }

    /** The parent's inode, the directory count and the superblock. */
    method FinishDir(parent: nat, n: Inode, up: bool)
      requires Buffers() && DiskOk(g, disk) && |sb| == SB_BYTES && InoOk(g, parent)
      modifies this`disk, b0, b4
      ensures Volume() == Completed(g, old(Volume()), parent, n, Adjusted(DirCount(g, old(disk)), up))
    {
      hide TableEnd, InodeAt, WithInode, Synced, WithDirCount, DirCount, Adjusted, Completed, InoOk, DiskOk;
      ghost var v, x := Volume(), Adjusted(DirCount(g, disk), up);
      AdjustedBelow(g, disk, up);
      WriteInode(parent, n);
      CompletedIs(g, v, parent, n, x);
      AdjustDirCount(up);
      Sync();
    }

    /** bgd_adjust_dir_count. */
    method AdjustDirCount(up: bool)
      requires Buffers() && DiskOk(g, disk)
      modifies this`disk, b4
      ensures Volume() == WithDirCount(g, old(Volume()), Adjusted(DirCount(g, old(disk)), up))
    {
      hide TableEnd, Put16, Get16, Splice;
      var bgd := ReadBgd();
      ghost var x := Adjusted(DirCount(g, disk), up);
      CountInDescriptor(disk[g.bgdBlock], x);
      if up {
        bgd := Put16(bgd, BGD_DIRS, (Get16(bgd, BGD_DIRS) + 1) % TWO16);
      } else if Get16(bgd, BGD_DIRS) > 0 {
        bgd := Put16(bgd, BGD_DIRS, Get16(bgd, BGD_DIRS) - 1);
      }
      WriteBgd(bgd);
    }

    /** ext2_mkdir. */
    method Mkdir(path: Path, now: nat, ghost nodes: Nodes)
        returns (ok: bool, ghost p: nat, ghost name: Name, ghost ino: nat, ghost p': Inode, ghost b: nat, ghost pb: nat)
      requires Buffers() && Rest(g, Volume(), nodes) && 1 in nodes && now < TWO32
      requires (forall i :: 0 <= i < |path| ==> path[i] != 0)
      requires path != [] && path[0] == SLASH ==> Walkable(g, disk, nodes, ROOT_INO, Components(path))
      modifies this`disk, this`sb, b0, b1, b2, b3, b4
      ensures ok ==> path != [] && path[0] == SLASH && Components(path) != []
      ensures ok ==> name == Components(path)[|Components(path)| - 1] && |name| < MAX_FILENAME && !Unsplittable(path)
      ensures ok ==> p == Walk(g, old(disk), nodes, ROOT_INO, Components(path)[..|Components(path)| - 1])
      ensures ok ==> Resolved(g, old(disk), nodes, path) == 0
      ensures ok ==> MadeDir(g, old(Volume()), Volume(), nodes, p, p', name, ino, now, b, pb)
      ensures ok ==> DirCount(g, disk) == (DirCount(g, old(disk)) + 1) % TWO16
      ensures !ok ==> Unchanged(g, old(Volume()), Volume(), nodes)
      ensures !ok ==>
                || Unsplittable(path) || Resolved(g, old(disk), nodes, path) != 0 || InodesGone(g, old(disk))
                || AlmostFull(g, old(disk)) || ParentFull(g, old(disk), nodes, path)
    {
      hide TableEnd, Counted, MetaMarked, Trees, DirsOk, IsDir, Tabled, MadeDir, Unchanged, Find, DirOk, LiveSet,
           Components, Walk, Walkable, Step, NameOk, DirCount, InodesGone, AlmostFull, Unsplittable, ParentFull,
           DirBlocks;
      ok, p, name, ino, p', b, pb := false, 0, [], 0, Zeros(INODE_BYTES), 0, 0;
      ghost var v0 := Volume();
      if path == [] || path[0] != SLASH { UnchangedRefl(g, v0, nodes); NotAbsolute(path); return; }
      var there := Resolve(path, nodes);
      if there != 0 { UnchangedRefl(g, v0, nodes); return; }
      var split, parent, child := SplitPath(path);
      if !split { UnchangedRefl(g, v0, nodes); return; }
      WalkablePrefix(g, disk, nodes, ROOT_INO, Components(parent), child);
      WalkAppend(g, disk, nodes, ROOT_INO, Components(parent), child);
      var q := Resolve(parent, nodes);
      if q == 0 { UnchangedRefl(g, v0, nodes); NoParent(g, v0, nodes, path, Components(parent), child); return; }
      LastWalked(g, disk, nodes, ROOT_INO, Components(parent), child);
      ChildOk(path, Components(parent), child);
      AbsentStep(g, v0, nodes, q, child);
      var made, first;
      ok, made, first, p', pb := MkdirIn(q, child, now, nodes);
      if !ok && DirBlocks(g, nodes[q]) == DIRECT { FullParent(g, v0, nodes, path, Components(parent), child); }
      p, name, ino, b := q, child, made, first;
    }

    // ---- unlinking ---------------------------------------------------------

    /** The search-and-kill loop of ext2_unlink. */
    method RemoveDirent(parent: nat, name: Name, ghost nodes: Nodes) returns (removed: bool)
      requires Buffers() && Fs(g, Volume(), nodes) && Tabled(g, disk, nodes) && parent in nodes && IsDir(nodes[parent])
      requires 0 < |name| < MAX_FILENAME
      modifies this`disk, b0, b2, b3, b4
      ensures removed <==> Step(g, old(disk), nodes, parent, name) != 0
      ensures removed ==> Removed(g, old(Volume()), Volume(), nodes, parent, name)
      ensures !removed ==> Volume() == old(Volume())
    {
      hide Marked, TableEnd, Counted, MetaMarked, Trees, DirsOk, Find, IsDir, InodeAt, Tabled, OnDisk, Tiled, LiveFrom,
           Boundary, RecOk, Removed, Unique, Listing, Pointer, Size, Get32, At, Kill, NameOk;
      InTable(g, disk, nodes, parent);
      FsDir(g, Volume(), nodes, parent);
      TreesOnDisk(g, disk, nodes, parent);
      var n := ReadInode(parent);
      removed := false;
      ghost var v, blocks := Volume(), DirBlocks(g, n);
      var left, k: nat := Size(n), 0;
      ListingNone(disk, n, name);
      while left > 0 && !removed && k < DIRECT
        invariant k <= blocks && left == (blocks - k) * g.bs
        invariant !removed ==> Volume() == v && DirPrefix(v.d, n, k) && Find(Listing(v.d, n, k), name) == 0
        invariant removed ==> Removed(g, v, Volume(), nodes, parent, name) && Find(Entries(g, v.d, n), name) != 0
        decreases left
      {
        MulPositive(blocks - k, g.bs);
        assert DirPrefix(v.d, n, k + 1);
        FindNext(v.d, n, k, name);
        DirSlot(g, v.d, n, k);
        if Pointer(n, k) == 0 { break; }
        var more := ReadInodeBlock(n, k, b0);
        if !more { break; }
        var ino, off := FindInBlock(name);
        if ino != 0 {
          RemoveInBlock(g, v, nodes, parent, k, off, name);
          FindFirst(v.d, n, k + 1, blocks, name);
          PutWord(b0, off, 0);
          assert b0[..] == Kill(v.d[Pointer(n, k)], off) by { KillIs(v.d[Pointer(n, k)], off); }
          WriteBlock(Pointer(n, k), b0);
          removed := true;
        }
        assert (blocks - k - 1) * g.bs == (blocks - k) * g.bs - g.bs;
        left := left - g.bs;
        k := k + 1;
      }
      if !removed { MulZero(blocks - k, g.bs); }
    }

    /** Free the blocks and the inode of a file that lost its last link. */
    method Reap(ino: nat, n: Inode, parent: nat, pn: Inode, now: nat, ghost v0: Vol, ghost nodes: Nodes,
        ghost name: Name)
      requires Buffers() && Rest(g, v0, nodes) && Removed(g, v0, Volume(), nodes, parent, name) && ino in nodes
      requires ROOT_INO <= ino && ino != parent
      requires SamePointers(nodes[ino], n) && pn == nodes[parent] && now < TWO32
      modifies this`disk, this`sb, b0, b1, b2, b4
      ensures UnlinkedFile(g, v0, Volume(), nodes, parent, name, ino)
    {
      hide Marked, TableEnd, Counted, MetaMarked, Trees, DirsOk, IsDir, InodeAt, Tabled, Bindings, DirOk, SamePointers,
           AllSlots, Released, Reaped, UnlinkedFile, Others, TableKept, WithInode, Give, Synced, Put32, SetPointer,
           LiveSet, TreeOk;
      ghost var v1 := Volume();
      RemovedTree(g, v0, v1, nodes, parent, name, ino, n);
      var dead := FreeInodeBlocks(n);
      ghost var v2 := Volume();
      ReleasedRenamed(g, v1, v2, nodes[ino], n);
      dead := Put32(Put32(dead, OFF_DTIME, now), OFF_SIZE, 0);
      UnlinkedLast(g, v0, v1, v2, nodes, parent, name, ino, dead);
      ReleasedDisk(g, v1, v2, nodes[ino]);
      WriteInode(ino, dead);
      WithShape(g, v2.d, ino, dead);
      FreeInode(ino);
      GiveShape(g, v2.(d := WithInode(g, v2.d, ino, dead)), Inodes, ino - 1);
      ParentKept(g, v0, v1, v2, nodes, parent, name, ino, dead);
      WriteInode(parent, pn);
      Sync();
      ReapedIs(g, v2, ino, dead);
    }

    /** ext2_unlink of a file (not a directory) once its parent is known. */
    method UnlinkIn(parent: nat, name: Name, ino: nat, now: nat, ghost nodes: Nodes) returns (ok: bool, ghost m: Inode)
      requires Buffers() && Rest(g, Volume(), nodes) && now < TWO32 && 0 < |name| < MAX_FILENAME
      requires parent in nodes && IsDir(nodes[parent]) && ino in nodes && ROOT_INO <= ino && !IsDir(nodes[ino])
      modifies this`disk, this`sb, b0, b1, b2, b3, b4
      ensures ok <==> Step(g, old(disk), nodes, parent, name) != 0
      ensures ok && Links(nodes[ino]) == 1 ==> UnlinkedFile(g, old(Volume()), Volume(), nodes, parent, name, ino)
      ensures ok && Links(nodes[ino]) != 1 ==> Links(m) == (if Links(nodes[ino]) == 0 then 0 else Links(nodes[ino]) - 1)
      ensures ok && Links(nodes[ino]) != 1 ==>
                Unlinked(g, old(Volume()), Volume(), nodes, nodes[ino := m], parent, name, ino)
      ensures ok && Links(nodes[ino]) != 1 ==> disk[g.bbm] == old(disk)[g.bbm]
      ensures !ok ==> Volume() == old(Volume())
    {
      hide Marked, TableEnd, Counted, MetaMarked, Trees, DirsOk, IsDir, InodeAt, Tabled, Bindings, DirOk, SamePointers,
           UnlinkedFile, Unlinked, Others, TableKept, WithInode, Synced, Put16, LiveSet, Step;
      ghost var v0 := Volume();
      InTable(g, disk, nodes, ino);
      InTable(g, disk, nodes, parent);
      var n := ReadInode(ino);
      var pn := ReadInode(parent);
      m := n;
      ok := RemoveDirent(parent, name, nodes);
      if !ok { return; }
      ghost var v1 := Volume();
      if Get16(n, OFF_LINKS) > 0 {
        var n1 := Put16(n, OFF_LINKS, Get16(n, OFF_LINKS) - 1);
        FewerLinks(n);
        m := n1;
        if Get16(n1, OFF_LINKS) == 0 {
          Reap(ino, n1, parent, pn, now, v0, nodes, name);
          return;
        }
        UnlinkedMore(g, v0, v1, nodes, parent, name, ino, n1);
        WriteInode(ino, n1);
        ParentStays(g, v0, v1, nodes, parent, name, ino, n1);
        WriteInode(parent, pn);
        Sync();
      } else {
        RelinkedRefl(n);
        UnlinkedMore(g, v0, v1, nodes, parent, name, ino, n);
        SameNode(g, v0, v1, nodes, parent, name, ino);
        WriteInode(parent, pn);
        Sync();
      }
    }

    /** Scan the block staged in buffer 0 for an entry that is neither "." nor "..". */
    method BlockOnlyDots(left: nat) returns (only: bool)
      requires Buffers() && HDR <= g.bs <= left
      ensures Tiled(b0[..], 0) ==> (only <==> OnlyDots(LiveFrom(b0[..], 0)))
    {
      hide RecOk, Get16, Get32, NameOk, Boundary, Tiled, LiveFrom, OnlyDots;
      only := true;
      var off: nat := 0;
      ghost var b, tiled := b0[..], Tiled(b0[..], 0);
      WalkStart(b);
      while off + HDR <= g.bs && off < left
        invariant only && off <= g.bs
        invariant tiled ==>
                  && Boundary(b, 0, off) && Tiled(b, off) && (OnlyDots(LiveFrom(b, 0)) <==> OnlyDots(LiveFrom(b, off)))
        decreases g.bs - off
      {
        if tiled { WalkOn(b, off, [1]); DotsOn(b, off); }
        var len, nlen := RecLen(b0[..], off), NameLen(b0[..], off);
        if len < HDR { break; }
        if off + len > g.bs { break; }
        if off + HDR + nlen > g.bs { break; }
        if RecIno(b0[..], off) != 0 && !DotRecord(b0[..], off) { return false; }
        off := off + len;
      }
      if tiled { DotsEnd(b, off); }
    }

    /** The emptiness test of ext2_unlink. */
    method DirEmpty(n: Inode) returns (empty: bool)
      requires Buffers() && DiskOk(g, disk) && OnDisk(disk, n) && DirOk(g, disk, n)
      modifies b0, b2, b3
      ensures empty <==> OnlyDots(Entries(g, disk, n))
    {
      hide Get32, TableEnd, Tiled, LiveFrom, Pointer, Listing, OnDisk, Unique, At, Size, OnlyDots;
      empty := true;
      var left, k: nat := Size(n), 0;
      ghost var blocks := DirBlocks(g, n);
      NothingYet(disk, n);
      while left > 0 && empty
        invariant k <= blocks && left == (blocks - k) * g.bs
        invariant DirPrefix(disk, n, k) && (empty <==> OnlyDots(Listing(disk, n, k)))
        decreases left
      {
        MulPositive(blocks - k, g.bs);
        assert DirPrefix(disk, n, k + 1);
        DotsBlock(disk, n, k);
        DirSlot(g, disk, n, k);
        var more := ReadInodeBlock(n, k, b0);
        if !more { break; }
        empty := BlockOnlyDots(left);
        assert (blocks - k - 1) * g.bs == (blocks - k) * g.bs - g.bs;
        left := left - g.bs;
        k := k + 1;
      }
      if left == 0 { MulZero(blocks - k, g.bs); } else { DotsNever(disk, n, k, blocks); }
    }

    /** Free the block and the inode of a directory that lost its last link. */
    method DropDir(ino: nat, n: Inode, now: nat, ghost v0: Vol, ghost nodes: Nodes, ghost parent: nat, ghost name: Name)
      requires Buffers() && Rest(g, v0, nodes) && Removed(g, v0, Volume(), nodes, parent, name) && ino in nodes
      requires ROOT_INO <= ino && ino != parent
      requires SamePointers(nodes[ino], n) && now < TWO32
      modifies this`disk, this`sb, b0, b1, b2, b4
      ensures Unlinked(g, v0, Volume(), nodes, nodes - {ino}, parent, name, ino) && BitsMinus(g, v0.d, disk, nodes[ino])
      ensures DirCount(g, disk) == DirCount(g, v0.d)
    {
      hide Marked, TableEnd, Counted, MetaMarked, Trees, DirsOk, IsDir, InodeAt, Tabled, Bindings, DirOk, SamePointers,
           AllSlots, Released, Dropped, Unlinked, BitsMinus, Others, TableKept, WithInode, Give, Put32, SetPointer,
           LiveSet, TreeOk, DirCount;
      ghost var v1 := Volume();
      RemovedTree(g, v0, v1, nodes, parent, name, ino, n);
      var dead := FreeInodeBlocks(n);
      ghost var v2 := Volume();
      ReleasedRenamed(g, v1, v2, nodes[ino], n);
      dead := Put32(Put32(dead, OFF_DTIME, now), OFF_SIZE, 0);
      DroppedStep(g, v0, v1, v2, nodes, parent, name, ino, dead);
      ReleasedDisk(g, v1, v2, nodes[ino]);
      WriteInode(ino, dead);
      WithShape(g, v2.d, ino, dead);
      DroppedIs(g, v2, ino, dead);
      FreeInode(ino);
    }

    /** The directory loses a link, and with its last one its block and inode. */
    method LoseLink(ino: nat, n0: Inode, now: nat, ghost v0: Vol, ghost nodes: Nodes, ghost parent: nat,
        ghost name: Name) returns (ghost left: Nodes, ghost n: Inode)
      requires Buffers() && Rest(g, v0, nodes) && Removed(g, v0, Volume(), nodes, parent, name) && ino in nodes
      requires ROOT_INO <= ino && ino != parent
      requires n0 == nodes[ino] && IsDir(n0) && now < TWO32
      modifies this`disk, this`sb, b0, b1, b2, b4
      ensures Lost(g, v0, Volume(), nodes, left, parent, name, ino, n)
    {
      hide Marked, TableEnd, Counted, MetaMarked, Trees, DirsOk, IsDir, InodeAt, Tabled, Bindings, DirOk, Relinked,
           Unlinked, BitsMinus, Others, TableKept, WithInode, Put16, LiveSet, DirCount, SameFile;
      ghost var v1 := Volume();
      n := n0;
      if Get16(n0, OFF_LINKS) > 0 {
        var n1 := Put16(n0, OFF_LINKS, Get16(n0, OFF_LINKS) - 1);
        LinksSet(n0, Get16(n0, OFF_LINKS) - 1);
        n := n1;
        if Get16(n1, OFF_LINKS) == 0 {
          RelinkedPointers(n0, n1);
          DropDir(ino, n1, now, v0, nodes, parent, name);
          left := nodes - {ino};
        } else {
          RelinkedStep(g, v0, v1, nodes, parent, name, ino, n1);
          WriteInode(ino, n1);
          left := nodes[ino := n1];
        }
      } else {
        RelinkedRefl(n0);
        RelinkedStep(g, v0, v1, nodes, parent, name, ino, n0);
        SameNode(g, v0, v1, nodes, parent, name, ino);
        left := nodes[ino := n0];
      }
    }

    /** ext2_unlink of an empty directory once its parent is known. */
    method UnlinkDirIn(parent: nat, name: Name, ino: nat, now: nat, ghost nodes: Nodes)
        returns (ok: bool, ghost p': Inode, ghost n: Inode)
      requires Buffers() && Rest(g, Volume(), nodes) && now < TWO32 && 0 < |name| < MAX_FILENAME
      requires parent in nodes && IsDir(nodes[parent]) && ino in nodes && ROOT_INO <= ino && IsDir(nodes[ino])
      requires ino != parent
      modifies this`disk, this`sb, b0, b1, b2, b3, b4
      ensures ok <==> Step(g, old(disk), nodes, parent, name) != 0
      ensures ok ==> Rmdired(g, old(Volume()), Volume(), nodes, parent, p', name, ino, n)
      ensures ok ==> DirCount(g, disk) == Adjusted(DirCount(g, old(disk)), false)
      ensures !ok ==> Volume() == old(Volume())
    {
      hide Marked, TableEnd, Counted, MetaMarked, Trees, DirsOk, IsDir, InodeAt, Tabled, Bindings, DirOk, Removed,
           Rmdired, Lost, Put16, Unlinked1, LiveSet, Step, DirCount, Adjusted, Completed;
      ghost var v0, left := Volume(), nodes;
      InTable(g, disk, nodes, ino);
      InTable(g, disk, nodes, parent);
      var n0 := ReadInode(ino);
      var pn := ReadInode(parent);
      p', n := pn, n0;
      ok := RemoveDirent(parent, name, nodes);
      if !ok { return; }
      pn := Unlinked1(pn);
      p' := pn;
      left, n := LoseLink(ino, n0, now, v0, nodes, parent, name);
      AdjustedBelow(g, v0.d, false);
      RmdiredStep(g, v0, Volume(), nodes, left, parent, name, ino, n, Adjusted(DirCount(g, v0.d), false));
      LostCount(g, v0, Volume(), nodes, left, parent, name, ino, n);
      FinishDir(parent, pn, false);
    }

    /** The directory loses a link as the unlinked one; with its last link its blocks and inode go. */
    method LoseOwnLink(dir: nat, n0: Inode, now: nat, ghost v0: Vol, ghost nodes: Nodes, ghost name: Name)
      requires Buffers() && Rest(g, v0, nodes) && Removed(g, v0, Volume(), nodes, dir, name) && n0 == nodes[dir]
      requires ROOT_INO <= dir && now < TWO32
      modifies this`disk, this`sb, b0, b1, b2, b4
      ensures InoOk(g, dir) && DiskOk(g, disk) && |sb| == SB_BYTES && DirCount(g, disk) == DirCount(g, v0.d)
      ensures Links(n0) == 1 ==> Rest(g, Volume(), nodes - {dir}) && Others(v0.d, disk, nodes, dir)
      ensures Links(n0) == 1 ==> BitsMinus(g, v0.d, disk, nodes[dir])
      ensures Links(n0) == 0 ==> Volume() == old(Volume())
      ensures Links(n0) > 1 ==> Volume() == old(Volume()).(d := WithInode(g, old(disk), dir, Unlinked1(n0)))
    {
      hide Marked, TableEnd, Counted, MetaMarked, Trees, DirsOk, IsDir, InodeAt, Tabled, Bindings, DirOk, SamePointers,
           AllSlots, Released, Dropped, BitsMinus, Others, TableKept, WithInode, Give, Put16, Put32, SetPointer,
           LiveSet, TreeOk, DirCount, Unlinked1;
      ghost var v1 := Volume();
      SelfKept(g, v0, v1, nodes, dir, name, n0);
      if Get16(n0, OFF_LINKS) > 0 {
        FewerIs(n0);
        var n1 := Put16(n0, OFF_LINKS, Get16(n0, OFF_LINKS) - 1);
        LinksSet(n0, Get16(n0, OFF_LINKS) - 1);
        if Get16(n1, OFF_LINKS) == 0 {
          RelinkedPointers(n0, n1);
          RemovedTree(g, v0, v1, nodes, dir, name, dir, n1);
          var dead := FreeInodeBlocks(n1);
          ghost var v2 := Volume();
          ReleasedRenamed(g, v1, v2, nodes[dir], n1);
          dead := Put32(Put32(dead, OFF_DTIME, now), OFF_SIZE, 0);
          SelfDropped(g, v0, v1, v2, nodes, dir, name, dead);
          ReleasedDisk(g, v1, v2, nodes[dir]);
          WriteInode(dir, dead);
          WithShape(g, v2.d, dir, dead);
          DroppedIs(g, v2, dir, dead);
          FreeInode(dir);
          SelfShape(g, Volume(), nodes - {dir});
        } else {
          WriteInode(dir, n1);
        }
      }
    }

    /** ext2_unlink of an empty directory by one of its own names: it is its own parent, and its
        inode is written once as the unlinked one and then once more as the parent. */
    method UnlinkSelf(dir: nat, name: Name, now: nat, ghost nodes: Nodes) returns (ok: bool, ghost n: Inode)
      requires Buffers() && Rest(g, Volume(), nodes) && 0 < |name| < MAX_FILENAME && dir in nodes && IsDir(nodes[dir])
      requires ROOT_INO <= dir && now < TWO32
      modifies this`disk, this`sb, b0, b1, b2, b3, b4
      ensures ok <==> Step(g, old(disk), nodes, dir, name) != 0
      ensures ok && Links(nodes[dir]) != 1 ==> SelfUnlinked(g, old(Volume()), Volume(), nodes, dir, n, name)
      ensures ok && Links(nodes[dir]) == 1 ==> SelfFreed(g, old(Volume()), Volume(), nodes, dir, n)
      ensures ok ==> DirCount(g, disk) == Adjusted(DirCount(g, old(disk)), false)
      ensures !ok ==> Volume() == old(Volume())
    {
      hide Marked, TableEnd, Counted, MetaMarked, Trees, DirsOk, IsDir, InodeAt, Tabled, Bindings, DirOk, Put16,
           LiveSet, Step, DirCount, Adjusted, Completed, SelfUnlinked, SelfFreed, Others, TableKept, WithInode,
           BitsMinus, Unlinked1;
      ghost var v0 := Volume();
      InTable(g, disk, nodes, dir);
      var n0 := ReadInode(dir);
      n := n0;
      ok := RemoveDirent(dir, name, nodes);
      if !ok { return; }
      ghost var v1 := Volume();
      AdjustedBelow(g, v0.d, false);
      SelfCount(g, v0, v1, nodes, dir, name, n0, Adjusted(DirCount(g, v0.d), false));
      n := Unlinked1(n0);
      LoseOwnLink(dir, n0, now, v0, nodes, name);
      if Links(n0) == 1 { SelfFreedStep(g, v0, Volume(), nodes, dir, Adjusted(DirCount(g, v0.d), false)); }
      FinishDir(dir, Unlinked1(n0), false);
    }

    /** ext2_unlink.  A directory must be empty. */
    method Unlink(path: Path, now: nat, ghost nodes: Nodes)
        returns (ok: bool, ghost p: nat, ghost name: Name, ghost ino: nat, ghost p': Inode, ghost n: Inode)
      requires Buffers() && Rest(g, Volume(), nodes) && now < TWO32
      requires path != [] && path[0] == SLASH ==> Walkable(g, disk, nodes, ROOT_INO, Components(path))
      requires Resolved(g, disk, nodes, path) != 0 ==> Resolved(g, disk, nodes, path) in nodes
      modifies this`disk, this`sb, b0, b1, b2, b3, b4
      ensures ok ==> path != [] && path[0] == SLASH && Components(path) != []
      ensures ok ==> name == Components(path)[|Components(path)| - 1] && |name| < MAX_FILENAME && !Unsplittable(path)
      ensures ok ==> ino == Resolved(g, old(disk), nodes, path) && ino in nodes
      ensures ok ==> ino == Step(g, old(disk), nodes, p, name)
      ensures ok ==> p == Walk(g, old(disk), nodes, ROOT_INO, Components(path)[..|Components(path)| - 1])
      ensures ok && !IsDir(nodes[ino]) && Links(nodes[ino]) == 1 ==>
                UnlinkedFile(g, old(Volume()), Volume(), nodes, p, name, ino)
      ensures ok && !IsDir(nodes[ino]) && Links(nodes[ino]) != 1 ==>
                Links(n) == (if Links(nodes[ino]) == 0 then 0 else Links(nodes[ino]) - 1)
      ensures ok && !IsDir(nodes[ino]) && Links(nodes[ino]) != 1 ==>
                Unlinked(g, old(Volume()), Volume(), nodes, nodes[ino := n], p, name, ino)
      ensures ok && !IsDir(nodes[ino]) && Links(nodes[ino]) != 1 ==> disk[g.bbm] == old(disk)[g.bbm]
      ensures ok && IsDir(nodes[ino]) ==> DirOk(g, old(disk), nodes[ino]) && OnlyDots(Entries(g, old(disk), nodes[ino]))
      ensures ok && IsDir(nodes[ino]) && p != ino ==> Rmdired(g, old(Volume()), Volume(), nodes, p, p', name, ino, n)
      ensures ok && IsDir(nodes[ino]) && p == ino && Links(nodes[ino]) != 1 ==>
                SelfUnlinked(g, old(Volume()), Volume(), nodes, ino, n, name)
      ensures ok && IsDir(nodes[ino]) && p == ino && Links(nodes[ino]) == 1 ==>
                SelfFreed(g, old(Volume()), Volume(), nodes, ino, n)
      ensures ok && IsDir(nodes[ino]) ==> DirCount(g, disk) == Adjusted(DirCount(g, old(disk)), false)
      ensures !ok ==> Volume() == old(Volume())
      ensures !ok ==>
                || Unsplittable(path) || Resolved(g, old(disk), nodes, path) < ROOT_INO
                || HoldsMore(g, old(disk), nodes, Resolved(g, old(disk), nodes, path))
    {
      hide TableEnd, Counted, MetaMarked, Trees, DirsOk, IsDir, Tabled, Unlinked, UnlinkedFile, DirOk, LiveSet,
           Components, Walk, Walkable, Step, Get16, Rmdired, OnlyDots, DirCount, Adjusted, InodeAt, OnDisk,
           Unsplittable, SelfUnlinked, SelfFreed, Links;
      ok, p, name, ino, p', n := false, 0, [], 0, Zeros(INODE_BYTES), Zeros(INODE_BYTES);
      if path == [] || path[0] != SLASH { return; }
      var target := Resolve(path, nodes);
      if target == 0 || target < ROOT_INO { return; }
      InTable(g, disk, nodes, target);
      var node := ReadInode(target);
      if IsDir(node) {
        FsDir(g, Volume(), nodes, target);
        TreesOnDisk(g, disk, nodes, target);
        var empty := DirEmpty(node);
        if !empty { return; }
      }
      var split, parent, child := SplitPath(path);
      if !split { return; }
      WalkablePrefix(g, disk, nodes, ROOT_INO, Components(parent), child);
      WalkAppend(g, disk, nodes, ROOT_INO, Components(parent), child);
      var q := Resolve(parent, nodes);
      if q == 0 { return; }
      LastWalked(g, disk, nodes, ROOT_INO, Components(parent), child);
      assert Components(path)[..|Components(path)| - 1] == Components(parent);
      if IsDir(node) && q == target {
        ok, n := UnlinkSelf(target, child, now, nodes);
      } else if IsDir(node) {
        ok, p', n := UnlinkDirIn(q, child, target, now, nodes);
      } else {
        ok, n := UnlinkIn(q, child, target, now, nodes);
      }
      p, name, ino := q, child, target;
    }

    // ---- listing -----------------------------------------------------------

    /** The entries of the directory block staged in buffer 0, appended to a listing of at most `max`. */
    method ListBlock(out: seq<Listed>, max: nat) returns (out': seq<Listed>)
      requires Buffers() && g.bs >= HDR && |out| <= max
      ensures |out'| <= max
      ensures Tiled(b0[..], 0) ==> out' == Capped(out + Shown(LiveFrom(b0[..], 0)), max)
    {
      hide RecOk, Get16, Get32, NameOk, Boundary, Tiled, LiveFrom, One, Capped, Shown, Show, EntryAt;
      out' := out;
      var off: nat := 0;
      ghost var b, tiled := b0[..], Tiled(b0[..], 0);
      WalkStart(b);
      while off + HDR <= g.bs && |out'| < max
        invariant |out'| <= max && off <= g.bs
        invariant tiled ==> Boundary(b, 0, off) && Tiled(b, off)
        invariant tiled ==> Capped(out' + Shown(LiveFrom(b, off)), max) == Capped(out + Shown(LiveFrom(b, 0)), max)
        decreases g.bs - off
      {
        if tiled { WalkOn(b, off, [1]); ListOn(b, off, out', max); }
        var len, nlen := RecLen(b0[..], off), NameLen(b0[..], off);
        if len < HDR { break; }
        if off + len > g.bs { break; }
        if RecIno(b0[..], off) == 0 { off := off + len; continue; }
        if nlen >= MAX_FILENAME { nlen := MAX_FILENAME - 1; }
        if off + HDR + nlen > g.bs { break; }
        if nlen > 0 {
          out' := out' + [Listed(b0[off + HDR..off + HDR + nlen], RecIno(b0[..], off), b0[off + 7] == FT_DIR)];
        }
        off := off + len;
      }
      if tiled { ListEnd(b, off, out', max); }
    }

    /** ext2_readdir: the live entries in order, at most `max` of them. */
    method ReadDir(ino: nat, max: nat, ghost nodes: Nodes) returns (ok: bool, out: seq<Listed>)
      requires Buffers() && Fs(g, Volume(), nodes) && Tabled(g, disk, nodes) && ino in nodes
      modifies b0, b2, b3, b4
      ensures ok <==> IsDir(nodes[ino])
      ensures ok ==> DirOk(g, disk, nodes[ino]) && out == Capped(Shown(Entries(g, disk, nodes[ino])), max)
    {
      hide Marked, TableEnd, Counted, MetaMarked, Trees, DirsOk, IsDir, InodeAt, Tabled, OnDisk, Tiled, LiveFrom,
           Unique, Listing, Pointer, Size, Get32, At, Capped, Shown;
      ok, out := false, [];
      InTable(g, disk, nodes, ino);
      TreesOnDisk(g, disk, nodes, ino);
      var n := ReadInode(ino);
      if !IsDir(n) { return; }
      FsDir(g, Volume(), nodes, ino);
      ok := true;
      ghost var blocks := DirBlocks(g, n);
      var left, k: nat := Size(n), 0;
      NothingListed(disk, n, max);
      while left > 0 && |out| < max
        invariant k <= blocks && left == (blocks - k) * g.bs && |out| <= max
        invariant DirPrefix(disk, n, k) && out == Capped(Shown(Listing(disk, n, k)), max)
        decreases left
      {
        MulPositive(blocks - k, g.bs);
        assert DirPrefix(disk, n, k + 1);
        DirSlot(g, disk, n, k) by { assert DirBlockOk(disk, n, k); }
        var more := ReadInodeBlock(n, k, b0);
        if !more { break; }
        out := ListBlock(out, max);
        ListedBlock(disk, n, k, max);
        assert (blocks - k - 1) * g.bs == (blocks - k) * g.bs - g.bs;
        left := left - g.bs;
        k := k + 1;
      }
      if left == 0 { MulZero(blocks - k, g.bs); } else { ListedFull(disk, n, k, blocks, max); }
    }
  }

  lemma ListOn(b: Block, o: nat, out: seq<Listed>, max: nat)
    requires Tiled(b, o) && RecOk(b, o) && |out| < max
    ensures Tiled(b, o + RecLen(b, o))
    ensures Capped(out + Shown(LiveFrom(b, o)), max) ==
            if RecIno(b, o) == 0 then Capped(out + Shown(LiveFrom(b, o + RecLen(b, o))), max)
            else Capped((out + [Show(EntryAt(b, o))]) + Shown(LiveFrom(b, o + RecLen(b, o))), max)
    ensures RecIno(b, o) != 0 ==> NameLen(b, o) > 0
    ensures RecIno(b, o) != 0 ==> var k := if NameLen(b, o) >= MAX_FILENAME then MAX_FILENAME - 1 else NameLen(b, o);
                                 Show(EntryAt(b, o)) == Listed(b[o + HDR..o + HDR + k], RecIno(b, o),
                                     b[o + 7] == FT_DIR)
  {
    hide LiveFrom, Tiled, Capped;
    Unfold(b, o);
    var rest := LiveFrom(b, o + RecLen(b, o));
    if RecIno(b, o) == 0 {
      assert [] + rest == rest;
    } else {
      assert out + Shown([EntryAt(b, o)] + rest) == (out + [Show(EntryAt(b, o))]) + Shown(rest);
    }
  }

  lemma ListEnd(b: Block, o: nat, out: seq<Listed>, max: nat)
    requires Tiled(b, o) && |out| <= max && (o + HDR > |b| || |out| == max)
    ensures Capped(out + Shown(LiveFrom(b, o)), max) == out
  {
    if |out| != max { assert out + Shown([]) == out; }
  }

  lemma NothingListed(d: Disk, n: Inode, max: nat)
    ensures DirPrefix(d, n, 0) && Capped(Shown(Listing(d, n, 0)), max) == []
  {
  }

  lemma ListedBlock(d: Disk, n: Inode, k: nat, max: nat)
    requires DirPrefix(d, n, k + 1)
    ensures DirPrefix(d, n, k) && DirBlockOk(d, n, k)
    ensures |Capped(Shown(Listing(d, n, k)), max)| < max ==>
            Capped(Capped(Shown(Listing(d, n, k)), max) + Shown(LiveFrom(d[Pointer(n, k)], 0)), max) ==
                Capped(Shown(Listing(d, n, k + 1)), max)
  {
    hide Tiled, LiveFrom;
    assert DirBlockOk(d, n, k) && DirPrefix(d, n, k);
    var a, b := Listing(d, n, k), LiveFrom(d[Pointer(n, k)], 0);
    assert Shown(a + b) == Shown(a) + Shown(b);
  }

  lemma {:induction false} ListedFull(d: Disk, n: Inode, k: nat, m: nat, max: nat)
    requires k <= m && DirPrefix(d, n, m)
    ensures DirPrefix(d, n, k)
    ensures |Capped(Shown(Listing(d, n, k)), max)| == max ==>
              Capped(Shown(Listing(d, n, m)), max) == Capped(Shown(Listing(d, n, k)), max)
    decreases m - k
  {
    hide Tiled, LiveFrom, Capped, Shown;
    if k < m {
      assert DirBlockOk(d, n, m - 1) && DirPrefix(d, n, m - 1);
      ListedFull(d, n, k, m - 1, max);
      ShownFull(Listing(d, n, m - 1), LiveFrom(d[Pointer(n, m - 1)], 0), max);
    }
  }

  lemma ShownFull(a: seq<Entry>, b: seq<Entry>, max: nat)
    ensures |Capped(Shown(a), max)| == max ==> Capped(Shown(a + b), max) == Capped(Shown(a), max)
  {
    assert Shown(a + b) == Shown(a) + Shown(b);
  }

  /** The first `max` elements. */
  function Capped<T>(s: seq<T>, max: nat): (t: seq<T>) { if |s| <= max then s else s[..max] }

  /** A directory's block is not the descriptor's. */
  lemma InsertCount(g: Geom, v: Vol, nodes: Nodes, p: nat, i: nat, bytes: Block)
    requires Fs(g, v, nodes) && p in nodes && i < DirBlocks(g, nodes[p]) && DirOk(g, v.d, nodes[p]) && i < DIRECT
    requires Pointer(nodes[p], i) < |v.d|
    ensures DiskOk(g, v.d[Pointer(nodes[p], i) := bytes]) ==>
              DirCount(g, v.d[Pointer(nodes[p], i) := bytes]) == DirCount(g, v.d)
  {
    hide Marked, TableEnd, Counted, MetaMarked, Trees, DirsOk, DirOk, Get32, DirCount;
    var x := Pointer(nodes[p], i);
    DirBlockPlain(g, v, nodes, p, i);
    if DiskOk(g, v.d[x := bytes]) { DataCount(g, v.d, x, bytes); }
  }

  lemma NodeNumber(g: Geom, v: Vol, nodes: Nodes, p: nat)
    requires Rest(g, v, nodes) && p in nodes
    ensures 0 < p < TWO32
  {
    hide Counted, MetaMarked, Trees, DirsOk, Marked, InodeAt, LiveSet;
    InTable(g, v.d, nodes, p);
  }

  lemma TakenVol(g: Geom, v: Vol, nodes: Nodes, ino: nat)
    requires Rest(g, v, nodes) && InoOk(g, ino) && !Live(g, v.d, ino)
    ensures VolOk(g, Take(g, v, Inodes, ino - 1)) && 0 < ino < TWO32
  {
    hide Counted, MetaMarked, Trees, DirsOk, Marked, InodeAt, LiveSet, Take, Tabled;
    InodeTaken(g, v, nodes, ino);
    NotIn(g, v, nodes, ino);
  }

  lemma DotsStaged(bs: nat, ino: nat, parent: nat)
    requires 1024 <= bs < TWO16 && ino < TWO32 && parent < TWO32
    ensures Splice(Splice(Zeros(bs), 0, Record(ino, DOT_LEN, DOT, FT_DIR)), DOT_LEN,
              Record(parent, bs - DOT_LEN, DOTDOT, FT_DIR)) == DotBlock(bs, ino, parent)
  {
    hide Record;
  }

  lemma DirMadeIs(g: Geom, v: Vol, ino: nat, parent: nat, now: nat, b: nat)
    requires VolOk(g, v) && InoOk(g, ino) && InRange(g, b) && ino < TWO32 && parent < TWO32 && now < TWO32 && b < TWO32
    requires DiskOk(g, Take(g, v, Inodes, ino - 1).d)
    requires DiskOk(g, NewBlock(g, Take(g, v, Inodes, ino - 1), b).d[b := DotBlock(g.bs, ino, parent)])
    ensures var w := NewBlock(g, Take(g, v, Inodes, ino - 1), b);
            DirMade(g, v, ino, parent, now, b) ==
                w.(d := WithInode(g, w.d[b := DotBlock(g.bs, ino, parent)], ino, NewDir(g, now, b)))
  {
    hide Take, NewBlock, WithInode, DotBlock, NewDir;
  }

  lemma UnnamedDirRest(g: Geom, v0: Vol, v: Vol, nodes: Nodes, ino: nat, p: nat, now: nat, b: nat)
    requires UnnamedDir(g, v0, v, nodes, ino, p, now, b) && p in nodes
    ensures var m := nodes[ino := NewDir(g, now, b)];
            && VolOk(g, v) && Fs(g, v, m) && Tabled(g, v.d, m) && p in m && m[p] == nodes[p]
            && TreeOk(g, v.d, NewDir(g, now, b)) && 0 < ino < TWO32
            && (IsDir(nodes[p]) ==>
                   && DirOk(g, v0.d, nodes[p]) && DirOk(g, v.d, nodes[p])
                   && Entries(g, v.d, nodes[p]) == Entries(g, v0.d, nodes[p]))
  {
    hide Marked, TableEnd, Counted, MetaMarked, DirsOk, InodeAt, NewDir, IsDir, Live, SameFile, DirOk, At, Bindings,
         Trees;
    var n := NewDir(g, now, b);
    var m := nodes[ino := n];
    NodeNumber(g, v, m, ino);
    assert m[ino] == n;
    NodeTree(g, v.d, m, ino);
    if IsDir(nodes[p]) {
      FsDir(g, v0, nodes, p);
      assert SameFile(v0.d, v.d, nodes[p]);
      DirSame(g, v0.d, v.d, nodes[p]);
    }
  }

  lemma NodeTree(g: Geom, d: Disk, m: Nodes, i: nat)
    requires DiskOk(g, d) && Trees(g, d, m) && i in m
    ensures TreeOk(g, d, m[i])
  {
    hide Marked, TableEnd, At;
    forall s ensures At(d, m[i], s) != 0 ==> DataBlock(g, d, At(d, m[i], s)) { assert SlotGood(g, d, m[i], s); }
  }

  lemma AdjustedBelow(g: Geom, d: Disk, up: bool)
    requires DiskOk(g, d)
    ensures Adjusted(DirCount(g, d), up) < TWO16
  {
    hide TableEnd;
  }

  lemma CompletedIs(g: Geom, v: Vol, p: nat, n: Inode, x: nat)
    requires DiskOk(g, v.d) && |v.sb| == SB_BYTES && InoOk(g, p) && x < TWO16
    ensures var a := v.(d := WithInode(g, v.d, p, n));
            && DiskOk(g, a.d) && DirCount(g, a.d) == DirCount(g, v.d) && DiskOk(g, WithDirCount(g, a, x).d)
            && WithDirCount(g, a, x).sb == v.sb
            && Completed(g, v, p, n, x) == Synced(g, WithDirCount(g, a, x))
  {
    hide TableEnd, WithInode, Synced, DirCount, InoOk;
    WithShape(g, v.d, p, n);
    StoreCount(g, v.d, p, n);
    CountShape(g, v.(d := WithInode(g, v.d, p, n)), x);
  }

  /** Changing the count in the 32-byte descriptor changes it in its block. */
  lemma CountInDescriptor(block: Block, x: nat)
    requires |block| >= BGD_BYTES && x < TWO16
    ensures Get16(block[..BGD_BYTES], BGD_DIRS) == Get16(block, BGD_DIRS)
    ensures Splice(block, 0, Put16(block[..BGD_BYTES], BGD_DIRS, x)) == Put16(block, BGD_DIRS, x)
    ensures Get16(block, BGD_DIRS) == x ==> Splice(block, 0, block[..BGD_BYTES]) == Put16(block, BGD_DIRS, x)
  {
    if Get16(block, BGD_DIRS) == x {
      assert Put16(block, BGD_DIRS, x) == block == Splice(block, 0, block[..BGD_BYTES]);
    }
  }

  /** Not an absolute path with a last component that fits the driver's name and path buffers. */
  ghost predicate Unsplittable(path: Path) {
    || path == [] || path[0] != SLASH
    || exists l {:trigger path[l]} ::
         0 <= l < |path| && path[l] == SLASH && (forall i :: l < i < |path| ==> path[i] != SLASH)
             && (l == |path| - 1 || |path| - l - 1 >= MAX_FILENAME || l >= MAX_PATH)
  }

  lemma LastSlash(path: Path, last: nat)
    requires last < |path| && path[0] == SLASH && path[last] == SLASH && forall i ::
              last < i < |path| ==> path[i] != SLASH
    ensures Unsplittable(path) <==> last == |path| - 1 || |path| - last - 1 >= MAX_FILENAME || last >= MAX_PATH
  {
    if Unsplittable(path) {
      var l :| 0 <= l < |path| && path[l] == SLASH && (forall i :: l < i < |path| ==> path[i] != SLASH)
          && (l == |path| - 1 || |path| - l - 1 >= MAX_FILENAME || l >= MAX_PATH);
      assert l == last;
    }
  }

  lemma NotAbsolute(path: Path)
    requires path == [] || path[0] != SLASH
    ensures Unsplittable(path)
  {
  }

  /** No inode is free. */
  ghost predicate InodesGone(g: Geom, d: Disk)
    requires DiskOk(g, d)
  {
    forall i: nat {:trigger Live(g, d, i)} :: InoOk(g, i) ==> Live(g, d, i)
  }

  /** At most one block is free. */
  ghost predicate AlmostFull(g: Geom, d: Disk)
    requires DiskOk(g, d)
  {
    exists b: nat {:trigger Spare(g, d, b)} :: Spare(g, d, b)
  }

  ghost predicate Spare(g: Geom, d: Disk, b: nat)
    requires DiskOk(g, d)
  {
    forall c {:trigger Used(g, d, c)} :: InRange(g, c) && c != b ==> Used(g, d, c)
  }

  /** No entry called `name` can be added: not a directory, or no record has room and the
      directory cannot grow. */
  ghost predicate Stuck(g: Geom, d: Disk, n: Inode, name: Name)
    requires DiskOk(g, d)
  {
    !IsDir(n) || (NoRoomIn(d, n, DirBlocks(g, n), name)
        && (DirBlocks(g, n) == DIRECT || forall c {:trigger Used(g, d, c)} :: InRange(g, c) ==> Used(g, d, c)))
  }

  ghost predicate ParentStuck(g: Geom, d: Disk, nodes: Nodes, path: Path)
    requires DiskOk(g, d)
  {
    var cs := Components(path);
    cs == [] || var q := Walk(g, d, nodes, ROOT_INO, cs[..|cs| - 1]); q !in nodes || Stuck(g, d, nodes[q], cs[|cs| - 1])
  }

  ghost predicate ParentFull(g: Geom, d: Disk, nodes: Nodes, path: Path)
    requires DiskOk(g, d)
  {
    var cs := Components(path);
    cs == [] ||
    var q := Walk(g, d, nodes, ROOT_INO, cs[..|cs| - 1]);
    q !in nodes || !IsDir(nodes[q]) || DirBlocks(g, nodes[q]) == DIRECT
  }

  /** A directory that lists more than "." and "..". */
  ghost predicate HoldsMore(g: Geom, d: Disk, nodes: Nodes, ino: nat)
    requires g.bs > 0
  {
    ino in nodes && IsDir(nodes[ino]) && (DirOk(g, d, nodes[ino]) ==> !OnlyDots(Entries(g, d, nodes[ino])))
  }

  lemma NoParent(g: Geom, v: Vol, nodes: Nodes, path: Path, cs: seq<Name>, c: Name)
    requires Rest(g, v, nodes) && Components(path) == cs + [c] && Walk(g, v.d, nodes, ROOT_INO, cs) == 0
    ensures ParentStuck(g, v.d, nodes, path) && ParentFull(g, v.d, nodes, path)
  {
    hide Counted, MetaMarked, Trees, DirsOk, Components, Walk, Stuck, LiveSet, Tabled, IsDir, DirBlocks;
    assert (cs + [c])[..|cs|] == cs;
    if 0 in nodes { NodeNumber(g, v, nodes, 0); }
  }

  lemma StuckParent(g: Geom, v: Vol, nodes: Nodes, path: Path, cs: seq<Name>, c: Name)
    requires DiskOk(g, v.d) && Components(path) == cs + [c]
    requires var q := Walk(g, v.d, nodes, ROOT_INO, cs); q in nodes && Stuck(g, v.d, nodes[q], c)
    ensures ParentStuck(g, v.d, nodes, path)
  {
    hide Components, Walk, Stuck;
    assert (cs + [c])[..|cs|] == cs;
  }

  lemma FullParent(g: Geom, v: Vol, nodes: Nodes, path: Path, cs: seq<Name>, c: Name)
    requires DiskOk(g, v.d) && Components(path) == cs + [c]
    requires var q := Walk(g, v.d, nodes, ROOT_INO, cs); q in nodes && DirBlocks(g, nodes[q]) == DIRECT
    ensures ParentFull(g, v.d, nodes, path)
  {
    hide Components, Walk, DirBlocks, IsDir;
    assert (cs + [c])[..|cs|] == cs;
  }

  /** Taking an inode changes neither the directory nor the block bitmap. */
  lemma UnnamedStuck(g: Geom, v0: Vol, v: Vol, nodes: Nodes, ino: nat, now: nat, p: nat, name: Name)
    requires Unnamed(g, v0, v, nodes, ino, now) && p in nodes && Stuck(g, v.d, nodes[p], name)
    ensures Stuck(g, v0.d, nodes[p], name)
  {
    hide Marked, TableEnd, Counted, MetaMarked, Trees, DirsOk, InodeAt, NewFile, IsDir, Live, NoRoom, Tabled, Tiled,
         LiveFrom, Unique, Listing, Pointer;
    var n := nodes[p];
    if IsDir(n) {
      FsDir(g, v0, nodes, p);
      RoomSame(g, v0.d, v.d, n, DirBlocks(g, n), name);
      if DirBlocks(g, n) != DIRECT {
        forall c: nat | InRange(g, c) ensures Used(g, v0.d, c) { UsedSame(g, v0.d, v.d, c); }
      }
    }
  }

  lemma RoomSame(g: Geom, d: Disk, d': Disk, n: Inode, k: nat, name: Name)
    requires g.bs > 0 && SameFile(d, d', n) && DirOk(g, d, n) && k <= DirBlocks(g, n) && NoRoomIn(d', n, k, name)
    ensures NoRoomIn(d, n, k, name)
  {
    hide NoRoom, Tiled, LiveFrom, Unique, Listing, Get32;
    forall i | 0 <= i < k ensures d'[Pointer(n, i)] == d[Pointer(n, i)] && Pointer(n, i) < |d| {
      assert DirBlockOk(d, n, i);
      assert At(d, n, Direct(i)) == Pointer(n, i);
    }
  }

  lemma TakenFull(g: Geom, v: Vol, nodes: Nodes, ino: nat)
    requires Rest(g, v, nodes) && InoOk(g, ino) && !Live(g, v.d, ino) && DiskOk(g, Take(g, v, Inodes, ino - 1).d)
    requires forall c {:trigger Used(g, Take(g, v, Inodes, ino - 1).d, c)} ::
              InRange(g, c) ==> Used(g, Take(g, v, Inodes, ino - 1).d, c)
    ensures AlmostFull(g, v.d)
  {
    hide Counted, MetaMarked, Trees, DirsOk, Marked, InodeAt, LiveSet, Take, Tabled, Live;
    InodeTaken(g, v, nodes, ino);
    var t := Take(g, v, Inodes, ino - 1);
    forall c: nat | InRange(g, c) ensures Used(g, v.d, c) { UsedSame(g, v.d, t.d, c); }
    assert Spare(g, v.d, 0);
  }

  lemma UnnamedFull(g: Geom, v0: Vol, v: Vol, nodes: Nodes, ino: nat, p: nat, now: nat, b: nat, name: Name)
    requires UnnamedDir(g, v0, v, nodes, ino, p, now, b) && p in nodes && Stuck(g, v.d, nodes[p], name)
    ensures !IsDir(nodes[p]) || DirBlocks(g, nodes[p]) == DIRECT || AlmostFull(g, v0.d)
  {
    hide Marked, TableEnd, Counted, MetaMarked, Trees, DirsOk, InodeAt, NewDir, IsDir, Live, NoRoomIn, Tabled, DirOk,
         Bindings, SameFiles, DirBlocks;
    if IsDir(nodes[p]) && DirBlocks(g, nodes[p]) != DIRECT {
      forall c: nat | InRange(g, c) && c != b ensures Used(g, v0.d, c) { assert Used(g, v.d, c); }
      assert Spare(g, v0.d, b);
    }
  }


  lemma NothingYet(d: Disk, n: Inode)
    ensures DirPrefix(d, n, 0) && OnlyDots(Listing(d, n, 0))
  {
  }

  lemma DroppedIs(g: Geom, v: Vol, ino: nat, dead: Inode)
    requires DiskOk(g, v.d) && |v.sb| == SB_BYTES && InoOk(g, ino) && DiskOk(g, WithInode(g, v.d, ino, dead))
    ensures Dropped(g, v, ino, dead) == Give(g, v.(d := WithInode(g, v.d, ino, dead)), Inodes, ino - 1)
  {
  }

  lemma SelfCount(g: Geom, v0: Vol, v1: Vol, nodes: Nodes, p: nat, name: Name, n0: Inode, x: nat)
    requires Rest(g, v0, nodes) && Removed(g, v0, v1, nodes, p, name) && n0 == nodes[p] && x < TWO16
    ensures InoOk(g, p) && DiskOk(g, v1.d) && |v1.sb| == SB_BYTES && DirCount(g, v1.d) == DirCount(g, v0.d)
    ensures DiskOk(g, WithInode(g, v1.d, p, Unlinked1(n0)))
    ensures DirCount(g, WithInode(g, v1.d, p, Unlinked1(n0))) == DirCount(g, v1.d)
    ensures SelfUnlinked(g, v0, Completed(g, v1, p, Unlinked1(n0), x), nodes, p, Unlinked1(n0), name)
    ensures DirCount(g, Completed(g, v1, p, Unlinked1(n0), x).d) == x
    ensures var w := Completed(g, v1.(d := WithInode(g, v1.d, p, Unlinked1(n0))), p, Unlinked1(n0), x);
            SelfUnlinked(g, v0, w, nodes, p, Unlinked1(n0), name) && DirCount(g, w.d) == x
  {
    hide Marked, TableEnd, Counted, MetaMarked, Trees, DirsOk, IsDir, InodeAt, Bindings, DirOk, WithInode, Tabled,
         LiveSet, Completed, SelfUnlinked, Unlinked1, Others;
    SelfStep(g, v0, v1, nodes, p, name, n0, x);
    SelfStep(g, v0, v1, nodes, p, name, Unlinked1(n0), x);
    SameNode(g, v0, v1, nodes, p, name, p);
    StoreCount(g, v1.d, p, Unlinked1(n0));
  }

  lemma SelfKept(g: Geom, v0: Vol, v1: Vol, nodes: Nodes, p: nat, name: Name, n0: Inode)
    requires Rest(g, v0, nodes) && Removed(g, v0, v1, nodes, p, name) && n0 == nodes[p]
    ensures InoOk(g, p) && DiskOk(g, v1.d) && |v1.sb| == SB_BYTES && DirCount(g, v1.d) == DirCount(g, v0.d)
    ensures DiskOk(g, WithInode(g, v1.d, p, Unlinked1(n0)))
    ensures DirCount(g, WithInode(g, v1.d, p, Unlinked1(n0))) == DirCount(g, v1.d)
  {
    hide Completed, SelfUnlinked;
    SelfCount(g, v0, v1, nodes, p, name, n0, 0);
  }

  lemma SelfShape(g: Geom, v: Vol, nodes: Nodes)
    requires Rest(g, v, nodes)
    ensures DiskOk(g, v.d) && |v.sb| == SB_BYTES
  {
    hide Trees, DirsOk, Counted, MetaMarked, Tabled, LiveSet, TableEnd;
  }

  lemma FewerIs(n: Inode)
    requires Get16(n, OFF_LINKS) > 0
    ensures Put16(n, OFF_LINKS, Get16(n, OFF_LINKS) - 1) == Unlinked1(n)
  {
    assert (Get16(n, OFF_LINKS) + TWO16 - 1) % TWO16 == Get16(n, OFF_LINKS) - 1;
  }

  lemma LostCount(g: Geom, v0: Vol, v: Vol, nodes: Nodes, left: Nodes, p: nat, name: Name, ino: nat, n: Inode)
    requires Lost(g, v0, v, nodes, left, p, name, ino, n)
    ensures DiskOk(g, v0.d) && DiskOk(g, v.d) && DirCount(g, v.d) == DirCount(g, v0.d)
  {
  }

  lemma ChunkIs(g: Geom, data: seq<Octet>, k: nat, at: nat, remaining: nat)
    requires at == k * g.bs <= |data| && remaining == |data| - at
    ensures Splice(Zeros(g.bs), 0, data[at..at + Min(remaining, g.bs)]) == Chunk(g, data, k)
  {
  }

  lemma FewerLinks(n: Inode)
    requires Get16(n, OFF_LINKS) > 0
    ensures var m := Put16(n, OFF_LINKS, Get16(n, OFF_LINKS) - 1);
            Relinked(n, m) && SamePointers(n, m) && IsDir(m) == IsDir(n) && Links(m) == Links(n) - 1
  {
    hide Bit;
    LinksSet(n, Get16(n, OFF_LINKS) - 1);
  }

  /** The file to unlink is still a sound tree after its name is gone. */
  lemma RemovedTree(g: Geom, v0: Vol, v1: Vol, nodes: Nodes, p: nat, name: Name, ino: nat, n: Inode)
    requires Removed(g, v0, v1, nodes, p, name) && ino in nodes && SamePointers(nodes[ino], n)
    ensures VolOk(g, v1) && TreeOk(g, v1.d, n)
  {
    hide Marked, TableEnd, Counted, MetaMarked, DirsOk, IsDir, Bindings, DirOk, SamePointers, At, Others, TableKept;
    forall s ensures At(v1.d, n, s) != 0 ==> DataBlock(g, v1.d, At(v1.d, n, s)) {
      SamePointersAt(v1.d, nodes[ino], n, s);
      assert SlotGood(g, v1.d, nodes[ino], s);
    }
  }

  lemma ReleasedDisk(g: Geom, v0: Vol, v: Vol, n: Inode)
    requires Released(g, v0, v, n, AllSlots(g))
    ensures DiskOk(g, v.d) && |v.sb| == SB_BYTES
  {
  }

  lemma ReapedIs(g: Geom, v: Vol, ino: nat, dead: Inode)
    requires DiskOk(g, v.d) && |v.sb| == SB_BYTES && InoOk(g, ino) && DiskOk(g, WithInode(g, v.d, ino, dead))
    requires DiskOk(g, Give(g, v.(d := WithInode(g, v.d, ino, dead)), Inodes, ino - 1).d)
    ensures Reaped(g, v, ino, dead) == Synced(g, Give(g, v.(d := WithInode(g, v.d, ino, dead)), Inodes, ino - 1))
  {
  }

  /** The parent's inode is untouched while the child is reaped. */
  lemma ParentKept(g: Geom, v0: Vol, v1: Vol, v2: Vol, nodes: Nodes, p: nat, name: Name, ino: nat, dead: Inode)
    requires Rest(g, v0, nodes) && Removed(g, v0, v1, nodes, p, name) && ino in nodes && ino != p
    requires Released(g, v1, v2, nodes[ino], AllSlots(g)) && InoOk(g, ino)
    requires DiskOk(g, WithInode(g, v2.d, ino, dead))
    ensures var v4 := Give(g, v2.(d := WithInode(g, v2.d, ino, dead)), Inodes, ino - 1);
            DiskOk(g, v4.d) && |v4.sb| == SB_BYTES && InoOk(g, p) && WithInode(g, v4.d, p, nodes[p]) == v4.d
  {
    hide Marked, TableEnd, Counted, MetaMarked, Trees, DirsOk, IsDir, InodeAt, Bindings, DirOk, AllSlots, Others,
         TableKept, WithInode, Give, SameFiles, Tabled, LiveSet;
    var m := nodes - {ino};
    UnlinkedBlocks(g, v0, v1, v2, nodes, p, name, ino);
    var v3 := v2.(d := WithInode(g, v2.d, ino, dead));
    InodeStore(g, v2, m, ino, dead);
    TabledOther(g, v2, m, ino, dead);
    InodeGiven(g, v3, m, ino);
    var v4 := Give(g, v3, Inodes, ino - 1);
    InTable(g, v4.d, m, p);
    StoreSame(g, v4.d, p);
  }

  lemma ParentStays(g: Geom, v0: Vol, v1: Vol, nodes: Nodes, p: nat, name: Name, ino: nat, n: Inode)
    requires Rest(g, v0, nodes) && Removed(g, v0, v1, nodes, p, name) && ino in nodes && ino != p && InoOk(g, ino)
    ensures var d := WithInode(g, v1.d, ino, n); DiskOk(g, d) && InoOk(g, p) && WithInode(g, d, p, nodes[p]) == d
  {
    hide Marked, TableEnd, Counted, MetaMarked, Trees, DirsOk, IsDir, InodeAt, Bindings, DirOk, Others, WithInode,
         Tabled, LiveSet;
    TabledKept(g, v0.d, v1.d, nodes);
    TabledStore(g, v1, nodes, ino, n);
    var d := WithInode(g, v1.d, ino, n);
    InTable(g, d, nodes[ino := n], p);
    StoreSame(g, d, p);
  }

  lemma SameNode(g: Geom, v0: Vol, v1: Vol, nodes: Nodes, p: nat, name: Name, ino: nat)
    requires Rest(g, v0, nodes) && Removed(g, v0, v1, nodes, p, name) && ino in nodes
    ensures InoOk(g, ino) && InoOk(g, p) && DiskOk(g, v1.d) && |v1.sb| == SB_BYTES
    ensures WithInode(g, v1.d, ino, nodes[ino]) == v1.d && WithInode(g, v1.d, p, nodes[p]) == v1.d
  {
    hide Marked, TableEnd, Counted, MetaMarked, Trees, DirsOk, IsDir, InodeAt, Bindings, DirOk, Others, WithInode,
         Tabled, LiveSet;
    TabledKept(g, v0.d, v1.d, nodes);
    InTable(g, v1.d, nodes, ino);
    InTable(g, v1.d, nodes, p);
    StoreSame(g, v1.d, ino);
    StoreSame(g, v1.d, p);
  }

  lemma KillIs(b: Block, o: nat)
    requires RecOk(b, o)
    ensures Kill(b, o) == Put32(b, o, 0)
  {
  }

  /** The directory reached by all but the last component is a directory in use. */
  lemma {:induction false} LastWalked(g: Geom, d: Disk, nodes: Nodes, cur: nat, cs: seq<Name>, c: Name)
    requires g.bs > 0 && |c| < MAX_FILENAME && Walkable(g, d, nodes, cur, cs + [c]) && Walk(g, d, nodes, cur, cs) != 0
    ensures Walk(g, d, nodes, cur, cs) in nodes && IsDir(nodes[Walk(g, d, nodes, cur, cs)])
    decreases |cs|
  {
    if cs == [] {
      assert (cs + [c])[0] == c;
    } else {
      assert (cs + [c])[0] == cs[0] && (cs + [c])[1..] == cs[1..] + [c];
      WalkZero(g, d, nodes, cs[1..]);
      LastWalked(g, d, nodes, Step(g, d, nodes, cur, cs[0]), cs[1..], c);
    }
  }

  lemma WalkZero(g: Geom, d: Disk, nodes: Nodes, cs: seq<Name>)
    requires g.bs > 0
    ensures Walk(g, d, nodes, 0, cs) == 0
  {
  }

  lemma ChildOk(path: Path, cs: seq<Name>, child: Name)
    requires (forall i :: 0 <= i < |path| ==> path[i] != 0) && Components(path) == cs + [child] && child != []
    ensures NameOk(child) && Components(path)[..|Components(path)| - 1] == cs
    ensures Components(path)[|Components(path)| - 1] == child
  {
    ComponentBytes(path, |cs|);
    assert Components(path)[|cs|] == child;
  }

  lemma AbsentStep(g: Geom, v: Vol, nodes: Nodes, p: nat, name: Name)
    requires Fs(g, v, nodes) && p in nodes && IsDir(nodes[p]) && |name| < MAX_FILENAME
    requires Step(g, v.d, nodes, p, name) == 0
    ensures DirOk(g, v.d, nodes[p]) && Find(Entries(g, v.d, nodes[p]), name) == 0
  {
    FsDir(g, v, nodes, p);
  }

  lemma RestVol(g: Geom, v: Vol, nodes: Nodes)
    requires Rest(g, v, nodes)
    ensures VolOk(g, v)
  {
  }

  lemma AddedVol(g: Geom, v0: Vol, v: Vol, nodes: Nodes, p: nat, n': Inode, name: Name, ino: nat, pb: nat)
    requires Added(g, v0, v, nodes, p, n', name, ino, pb)
    ensures VolOk(g, v)
  {
  }

  lemma UnchangedRefl(g: Geom, v: Vol, nodes: Nodes)
    requires Rest(g, v, nodes)
    ensures Unchanged(g, v, v, nodes)
  {
    hide Marked, TableEnd, Counted, MetaMarked, Trees, DirsOk;
    forall i | i in nodes ensures SameFile(v.d, v.d, nodes[i]) {}
    SameBits(g, v.d, v.d);
  }

  /** Inode 1 is always in use, so a new inode is never below the root. */
  lemma OneIsRoot(g: Geom, v: Vol, nodes: Nodes, ino: nat)
    requires Rest(g, v, nodes) && 1 in nodes && InoOk(g, ino) && !Live(g, v.d, ino)
    ensures ino >= ROOT_INO && ino !in nodes
  {
  }

  lemma UnnamedRest(g: Geom, v0: Vol, v: Vol, nodes: Nodes, ino: nat, now: nat, p: nat)
    requires Unnamed(g, v0, v, nodes, ino, now) && p in nodes
    ensures var m := nodes[ino := NewFile(now)];
            && Fs(g, v, m) && Tabled(g, v.d, m) && p in m && m[p] == nodes[p]
            && (IsDir(nodes[p]) ==>
                   && DirOk(g, v0.d, nodes[p]) && DirOk(g, v.d, nodes[p])
                   && Entries(g, v.d, nodes[p]) == Entries(g, v0.d, nodes[p]))
  {
    hide Marked, TableEnd, Counted, MetaMarked, Trees, DirsOk, InodeAt, NewFile, IsDir, Live, SameFile, DirOk;
    if IsDir(nodes[p]) {
      FsDir(g, v0, nodes, p);
      assert SameFile(v0.d, v.d, nodes[p]);
      DirSame(g, v0.d, v.d, nodes[p]);
    }
  }

  lemma LongStep(g: Geom, d: Disk, nodes: Nodes, cur: nat, c: Name, cs: seq<Name>)
    requires g.bs > 0 && cur != 0 && cs != [] && cs[0] == c && |c| >= MAX_FILENAME
    ensures Walk(g, d, nodes, cur, cs) == 0
  {
  }

  lemma WalkStep(g: Geom, d: Disk, nodes: Nodes, cur: nat, c: Name, cs: seq<Name>)
    requires g.bs > 0 && cur != 0 && |c| < MAX_FILENAME && Walkable(g, d, nodes, cur, [c] + cs)
    ensures cur in nodes && IsDir(nodes[cur]) && Walkable(g, d, nodes, Step(g, d, nodes, cur, c), cs)
    ensures Walk(g, d, nodes, cur, [c] + cs) == Walk(g, d, nodes, Step(g, d, nodes, cur, c), cs)
  {
    hide Step;
    assert ([c] + cs)[0] == c && ([c] + cs)[1..] == cs;
  }

  lemma BlockDisk(g: Geom, v: Vol, b: nat, bytes: Block)
    requires VolOk(g, v) && FreeData(g, v.d, b) && |bytes| == g.bs
    ensures DiskOk(g, NewBlock(g, v, b).d[b := bytes])
  {
    hide Marked, TableEnd, NewBlock;
    NewBlockVol(g, v, b);
    assert NewBlock(g, v, b).d[b := bytes][g.bgdBlock] == NewBlock(g, v, b).d[g.bgdBlock];
  }

  lemma AddedTable(g: Geom, v0: Vol, v: Vol, nodes: Nodes, p: nat, n': Inode, name: Name, ino: nat, pb: nat)
    requires Added(g, v0, v, nodes, p, n', name, ino, pb)
    ensures DiskOk(g, v.d) && InoOk(g, p) && InodeAt(g, v.d, p) == n'
  {
    InTable(g, v.d, nodes[p := n'], p);
  }

  ghost predicate RecOkAt(b: Block, o: nat) { o + HDR <= |b| && HDR <= RecLen(b, o) && o + RecLen(b, o) <= |b| }

  /** None of the first `k` blocks has room. */
  ghost predicate NoRoomIn(d: Disk, n: Inode, k: nat, name: Name) {
    k <= DIRECT && forall j {:trigger Pointer(n, j)} ::
        0 <= j < k ==> Pointer(n, j) < |d| && NoRoom(d[Pointer(n, j)], |d[Pointer(n, j)]|, name)
  }

  lemma MulStrict(i: nat, k: nat, z: nat)
    requires i < k && z > 0
    ensures i * z < k * z
  {
    MulMonotone(i + 1, k, z);
    assert (i + 1) * z == i * z + z;
  }

  lemma MulPositive(k: nat, z: nat)
    requires k * z > 0
    ensures k > 0 && z > 0 && k * z >= z
  {
    MulMonotone(1, k, z);
  }

  lemma MulZero(k: nat, z: nat)
    requires z > 0 && k * z == 0
    ensures k == 0
  {
  }

  lemma TiledEnd(b: Block, o: nat)
    requires Tiled(b, o) && o + HDR > |b|
    ensures o == |b|
  {
  }

  lemma ListingNone(d: Disk, n: Inode, name: Name)
    ensures DirPrefix(d, n, 0) && Find(Listing(d, n, 0), name) == 0
  {
  }

  /** Block `k` of a directory is its direct block `k`. */
  lemma DirSlot(g: Geom, d: Disk, n: Inode, k: nat)
    requires GeomOk(g) && k < DIRECT && DirBlockOk(d, n, k)
    ensures FileBlock(g, d, n, k) == Pointer(n, k) != 0
  {
  }

  /** One step of the search along a tiled block. */
  lemma WalkOn(b: Block, o: nat, name: Name)
    requires Boundary(b, 0, o) && Tiled(b, o) && o + HDR <= |b|
    ensures RecOk(b, o) && HDR <= RecLen(b, o) && o + RecLen(b, o) <= |b| && HDR + NameLen(b, o) <= RecLen(b, o)
    ensures Boundary(b, 0, o + RecLen(b, o)) && Tiled(b, o + RecLen(b, o))
    ensures RecIno(b, o) != 0 ==> CStr(b[o + HDR..o + HDR + NameLen(b, o)]) == b[o + HDR..o + HDR + NameLen(b, o)]
    ensures Find(LiveFrom(b, o), name) == if RecIno(b, o) != 0 && b[o + HDR..o + HDR + NameLen(b, o)] == name
              then RecIno(b, o) else Find(LiveFrom(b, o + RecLen(b, o)), name)
  {
    hide Boundary, Between, LiveFrom, Find, NameOk, CStr;
    Extend(b, 0, o);
    Unfold(b, o);
    FindHead(b, o, LiveFrom(b, o + RecLen(b, o)), name);
  }

  lemma FindHead(b: Block, o: nat, rest: seq<Entry>, name: Name)
    requires RecOk(b, o)
    ensures Find(One(b, o) + rest, name) == if RecIno(b, o) != 0 && b[o + HDR..o + HDR + NameLen(b, o)] == name
              then RecIno(b, o) else Find(rest, name)
  {
    hide NameOk;
    if RecIno(b, o) != 0 { assert (One(b, o) + rest)[1..] == rest; } else { assert One(b, o) + rest == rest; }
  }

  lemma WalkStart(b: Block)
    ensures Boundary(b, 0, 0)
  {
  }

  lemma WalkEnd(b: Block, o: nat, name: Name)
    requires Tiled(b, o) && o + HDR > |b|
    ensures Find(LiveFrom(b, o), name) == 0
  {
  }

  lemma SlotAt(d: Disk, n: Inode, i: nat)
    requires i < DIRECT
    ensures At(d, n, Direct(i)) == Pointer(n, i)
  {
  }

  /** Slots that hold nothing may be counted as released. */
  lemma EmptySlots(g: Geom, v0: Vol, v: Vol, n: Inode, a: iset<Slot>, b: iset<Slot>)
    requires Released(g, v0, v, n, a) && a <= b && forall s {:trigger At(v0.d, n, s)} ::
              s in b && s !in a ==> At(v0.d, n, s) == 0
    ensures Released(g, v0, v, n, b)
  {
    hide Counted, Marked, TableEnd, At;
    forall c | InRange(g, c) ensures ReleasedBit(g, v0.d, v.d, n, b, c) {
      assert ReleasedBit(g, v0.d, v.d, n, a, c);
      assert Hit(v0.d, n, a, c) <==> Hit(v0.d, n, b, c);
    }
  }

  lemma EmptyDouble(g: Geom, v0: Vol, v: Vol, n: Inode, j: nat)
    requires Released(g, v0, v, n, DoublesTo(g, j)) && At(v0.d, n, DIndEntry(j)) == 0
    ensures Released(g, v0, v, n, DoublesTo(g, j + 1))
  {
    hide Released, SinglesDone;
    forall s | s in DoublesTo(g, j + 1) && s !in DoublesTo(g, j) ensures At(v0.d, n, s) == 0 {}
    EmptySlots(g, v0, v, n, DoublesTo(g, j), DoublesTo(g, j + 1));
  }

  /** The longest file the writer supports: direct blocks and one indirect block. */
  function MaxLength(g: Geom): nat { (DIRECT + PtrsPerBlock(g)) * g.bs }

  lemma WithInodeShape(g: Geom, d: Disk, ino: nat, n: Inode)
    requires DiskOk(g, d) && InoOk(g, ino)
    ensures DiskOk(g, WithInode(g, d, ino, n))
  {
    hide InoOff, TableEnd;
    assert WithInode(g, d, ino, n)[g.bgdBlock] == d[g.bgdBlock];
  }

  lemma WroteWell(g: Geom, v0: Vol, w: Vol, ino: nat, n': Inode, data: seq<Octet>)
    requires WellFormed(g, v0) && WroteAll(g, v0, w, ino, n', data)
    ensures WellFormed(g, w) && Live(g, w.d, ino) && n' == InodeAt(g, w.d, ino)
  {
    InNodes(g, w.d, ino);
  }

  lemma OneSlotAt(d: Disk, n: Inode, d': Disk, n': Inode, s: Slot, b: nat)
    requires OneSlot(d, n, d', n', s, b)
    ensures At(d', n', s) == b
  {
  }

  lemma LiveNode(g: Geom, d: Disk, i: nat)
    requires DiskOk(g, d) && Live(g, d, i)
    ensures i in NodesOf(g, d) && NodesOf(g, d)[i] == InodeAt(g, d, i)
  {
  }

  lemma WrittenNone(g: Geom, d: Disk, n: Inode, data: seq<Octet>)
    requires PtrsPerBlock(g) > 0
    ensures Written(g, d, n, data, 0)
  {
  }

  lemma TooLong(g: Geom, k: nat, remaining: nat, len: nat)
    requires remaining > 0 && remaining == len - k * g.bs
    ensures k >= DIRECT + PtrsPerBlock(g) ==> len > MaxLength(g)
  {
    if k >= DIRECT + PtrsPerBlock(g) { MulMonotone(DIRECT + PtrsPerBlock(g), k, g.bs); }
  }

  lemma LengthBound(g: Geom, k: nat, len: nat)
    requires len <= k * g.bs && k <= DIRECT + PtrsPerBlock(g)
    ensures len <= MaxLength(g)
  {
    MulMonotone(k, DIRECT + PtrsPerBlock(g), g.bs);
  }

  lemma QuotientBelow(i: nat, p: nat)
    requires p > 0 && i < p * p
    ensures i / p < p && 0 <= i % p < p
  {
    assert i == p * (i / p) + i % p;
    if i / p >= p { MulMonotone(p, i / p, p); }
  }
}
