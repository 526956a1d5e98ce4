/** The kernel heap (kernel/heap.c): first-fit with splitting and forward coalescing over a linked
    list of headers kept inside the heap itself. */
module KernelHeap {
  const HDR: nat := 24
  const SLACK: nat := 16
  const HEAP_SIZE: nat := 16 * 1024 * 1024

  /** A block: its header address, payload size, and, while it is in use, the size asked for. */
  datatype Block = Block(addr: nat, size: nat, used: bool, want: nat)

  function Payload(b: Block): nat { b.addr + HDR }

  function End(b: Block): nat { b.addr + HDR + b.size }

  /** Blocks cover `from..to` exactly, in address order, and live ones are big enough. */
  ghost predicate Tiled(bs: seq<Block>, from: nat, to: nat)
    decreases |bs|
  {
    if bs == [] then from == to
        else bs[0].addr == from && (bs[0].used ==> bs[0].want <= bs[0].size) && Tiled(bs[1..], End(bs[0]), to)
  }

  lemma {:induction false} TiledSplit(a: seq<Block>, b: seq<Block>, from: nat, to: nat)
    requires Tiled(a + b, from, to)
    ensures exists m {:trigger Tiled(b, m, to)} :: Tiled(a, from, m) && Tiled(b, m, to)
    decreases |a|
  {
    if a == [] {
      assert a + b == b;
      assert Tiled(a, from, from) && Tiled(b, from, to);
    } else {
      assert (a + b)[1..] == a[1..] + b;
      TiledSplit(a[1..], b, End(a[0]), to);
    }
  }

  lemma {:induction false} TiledJoin(a: seq<Block>, b: seq<Block>, from: nat, m: nat, to: nat)
    requires Tiled(a, from, m) && Tiled(b, m, to)
    ensures Tiled(a + b, from, to)
    decreases |a|
  {
    if a == [] {
      assert a + b == b;
    } else {
      assert (a + b)[1..] == a[1..] + b;
      TiledJoin(a[1..], b, End(a[0]), m, to);
    }
  }

  lemma {:induction false} TiledWithin(bs: seq<Block>, from: nat, to: nat, i: nat)
    requires Tiled(bs, from, to) && i < |bs|
    ensures from <= bs[i].addr && End(bs[i]) <= to
    decreases |bs|
  {
    TiledOrder(bs[1..], End(bs[0]), to);
    if i > 0 { TiledWithin(bs[1..], End(bs[0]), to, i - 1); }
  }

  lemma {:induction false} TiledOrder(bs: seq<Block>, from: nat, to: nat)
    requires Tiled(bs, from, to)
    ensures from <= to
    decreases |bs|
  {
    if bs != [] { TiledOrder(bs[1..], End(bs[0]), to); }
  }

  /** Headers and payloads of different blocks never overlap. */
  lemma {:induction false} TiledDisjoint(bs: seq<Block>, from: nat, to: nat, i: nat, j: nat)
    requires Tiled(bs, from, to) && i < j < |bs|
    ensures End(bs[i]) <= bs[j].addr
    decreases |bs|
  {
    if i == 0 {
      TiledWithin(bs[1..], End(bs[0]), to, j - 1);
    } else {
      TiledDisjoint(bs[1..], End(bs[0]), to, i - 1, j - 1);
    }
  }

  // ---- allocation and release on the block list ----------------------------

  predicate Fits(b: Block, size: nat) { !b.used && b.size >= size }

  /** The first free block that is large enough, or the number of blocks. */
  function FirstFit(bs: seq<Block>, size: nat): (i: nat)
    ensures i <= |bs| && (i < |bs| ==> Fits(bs[i], size)) && forall j :: 0 <= j < i ==> !Fits(bs[j], size)
  {
    if bs == [] then 0 else if Fits(bs[0], size) then 0 else FirstFit(bs[1..], size) + 1
  }

  /** The pieces a free block becomes when `size` bytes are taken from it. */
  function Carved(b: Block, size: nat): (r: seq<Block>)
    requires Fits(b, size)
  {
    if b.size > size + HDR + SLACK
    then [Block(b.addr, size, true, size), Block(b.addr + HDR + size, b.size - size - HDR, false, 0)]
    else [b.(used := true, want := size)]
  }

  function Allocated(bs: seq<Block>, i: nat, size: nat): (r: seq<Block>)
    requires i < |bs| && Fits(bs[i], size)
  {
    bs[..i] + Carved(bs[i], size) + bs[i + 1..]
  }

  /** Release of block `i`, merged with the next block if that is free. */
  function Released(bs: seq<Block>, i: nat): (r: seq<Block>)
    requires i < |bs|
  {
    if i + 1 < |bs| && !bs[i + 1].used
    then bs[..i] + [bs[i].(used := false, size := bs[i].size + HDR + bs[i + 1].size)] + bs[i + 2..]
    else bs[i := bs[i].(used := false)]
  }

  lemma AllocatedTiled(bs: seq<Block>, from: nat, to: nat, i: nat, size: nat)
    requires Tiled(bs, from, to) && i < |bs| && Fits(bs[i], size)
    ensures Tiled(Allocated(bs, i, size), from, to)
  {
    assert bs == bs[..i] + bs[i..];
    TiledSplit(bs[..i], bs[i..], from, to);
    var m :| Tiled(bs[..i], from, m) && Tiled(bs[i..], m, to);
    var c := Carved(bs[i], size);
    CarvedTiled(bs[i], size);
    assert bs[i..][1..] == bs[i + 1..];
    TiledJoin(bs[..i], c, from, m, End(bs[i]));
    TiledJoin(bs[..i] + c, bs[i + 1..], from, End(bs[i]), to);
  }

  lemma CarvedTiled(b: Block, size: nat)
    requires Fits(b, size)
    ensures Tiled(Carved(b, size), b.addr, End(b))
  {
    var c := Carved(b, size);
    if |c| == 2 {
      assert c[1..] == [c[1]] && c[1..][1..] == [];
      assert Tiled([], End(b), End(b)) && Tiled(c[1..], c[1].addr, End(b));
    } else {
      assert c[1..] == [] && Tiled([], End(b), End(b));
    }
  }

  lemma ReleasedTiled(bs: seq<Block>, from: nat, to: nat, i: nat)
    requires Tiled(bs, from, to) && i < |bs|
    ensures Tiled(Released(bs, i), from, to)
  {
    assert bs == bs[..i] + bs[i..];
    TiledSplit(bs[..i], bs[i..], from, to);
    var m :| Tiled(bs[..i], from, m) && Tiled(bs[i..], m, to);
    assert bs[i..][1..] == bs[i + 1..];
    if i + 1 < |bs| && !bs[i + 1].used {
      var b := bs[i].(used := false, size := bs[i].size + HDR + bs[i + 1].size);
      assert bs[i + 1..][1..] == bs[i + 2..];
      assert ([b] + bs[i + 2..])[1..] == bs[i + 2..];
      TiledJoin(bs[..i], [b] + bs[i + 2..], from, m, to);
      assert bs[..i] + ([b] + bs[i + 2..]) == Released(bs, i);
    } else {
      var b := bs[i].(used := false);
      assert ([b] + bs[i + 1..])[1..] == bs[i + 1..];
      TiledJoin(bs[..i], [b] + bs[i + 1..], from, m, to);
      assert bs[..i] + ([b] + bs[i + 1..]) == Released(bs, i);
    }
  }

  // ---- whole runs ----------------------------------------------------------

  /** A live pointer: the payload of a used block. */
  ghost predicate LivePtr(bs: seq<Block>, p: nat) {
    exists i {:trigger bs[i]} :: 0 <= i < |bs| && bs[i].used && Payload(bs[i]) == p
  }

  datatype Op = Alloc(size: nat) | Free(ptr: nat)

  function IndexOf(bs: seq<Block>, p: nat): (i: nat)
    ensures i <= |bs| && (i < |bs| ==> bs[i].used && Payload(bs[i]) == p) && forall j ::
              0 <= j < i ==> !(bs[j].used && Payload(bs[j]) == p)
  {
    if bs == [] then 0 else if bs[0].used && Payload(bs[0]) == p then 0 else IndexOf(bs[1..], p) + 1
  }

  function Next(bs: seq<Block>, op: Op): (r: seq<Block>) {
    match op
    case Alloc(size) => var i := FirstFit(bs, size); if i < |bs| then Allocated(bs, i, size) else bs
    case Free(p) => var i := IndexOf(bs, p); if i < |bs| then Released(bs, i) else bs
  }

  /** Only live pointers are freed. */
  ghost predicate Runs(bs: seq<Block>, ops: seq<Op>)
    decreases |ops|
  {
    ops == [] || ((ops[0].Free? ==> LivePtr(bs, ops[0].ptr)) && Runs(Next(bs, ops[0]), ops[1..]))
  }

  function After(bs: seq<Block>, ops: seq<Op>): (r: seq<Block>)
    decreases |ops|
  {
    if ops == [] then bs else After(Next(bs, ops[0]), ops[1..])
  }

  /** After any run the list still covers the heap exactly, live blocks are big enough and nothing
      overlaps anything. */
  lemma {:induction false} RunTiled(bs: seq<Block>, ops: seq<Op>, from: nat, to: nat)
    requires Tiled(bs, from, to) && Runs(bs, ops)
    ensures Tiled(After(bs, ops), from, to)
    decreases |ops|
  {
    if ops != [] {
      match ops[0] {
        case Alloc(size) => var i := FirstFit(bs, size); if i < |bs| { AllocatedTiled(bs, from, to, i, size); }
        case Free(p) => var i := IndexOf(bs, p); if i < |bs| { ReleasedTiled(bs, from, to, i); }
      }
      RunTiled(Next(bs, ops[0]), ops[1..], from, to);
    }
  }

  lemma AllocKeeps(bs: seq<Block>, size: nat, k: nat)
    requires k < |bs| && bs[k].used
    ensures bs[k] in Next(bs, Alloc(size))
  {
    hide Carved;
    var i := FirstFit(bs, size);
    if i < |bs| { Kept(bs, i, i + 1, Carved(bs[i], size), k); }
  }

  lemma FreeKeeps(bs: seq<Block>, p: nat, k: nat)
    requires k < |bs| && bs[k].used && p != Payload(bs[k])
    ensures bs[k] in Next(bs, Free(p))
  {
    var i := IndexOf(bs, p);
    if i < |bs| {
      if i + 1 < |bs| && !bs[i + 1].used {
        Kept(bs, i, i + 2, [bs[i].(used := false, size := bs[i].size + HDR + bs[i + 1].size)], k);
      } else {
        assert Released(bs, i)[k] == bs[k];
      }
    }
  }

  /** A block that stays in use keeps its place and size whatever else is allocated or freed. */
  lemma NextKeeps(bs: seq<Block>, op: Op, b: Block)
    requires b in bs && b.used && (op.Free? ==> op.ptr != Payload(b))
    ensures b in Next(bs, op)
  {
    hide Next;
    var k :| 0 <= k < |bs| && bs[k] == b;
    match op
    case Alloc(size) => AllocKeeps(bs, size, k);
    case Free(p) => FreeKeeps(bs, p, k);
  }

  /** So a live payload survives any run that does not free it. */
  lemma {:induction false} RunKeeps(bs: seq<Block>, ops: seq<Op>, b: Block)
    requires b in bs && b.used && forall i {:trigger ops[i]} ::
              0 <= i < |ops| && ops[i].Free? ==> ops[i].ptr != Payload(b)
    ensures b in After(bs, ops)
    decreases |ops|
  {
    hide Next;
    if ops != [] {
      NextKeeps(bs, ops[0], b);
      RunKeeps(Next(bs, ops[0]), ops[1..], b);
    }
  }

  lemma Kept(bs: seq<Block>, i: nat, j: nat, mid: seq<Block>, k: nat)
    requires i <= j <= |bs| && k < |bs| && (k < i || k >= j)
    ensures bs[k] in bs[..i] + mid + bs[j..]
  {
    var r := bs[..i] + mid + bs[j..];
    if k < i { assert r[k] == bs[k]; } else { assert r[i + |mid| + k - j] == bs[k]; }
  }

  // ---- the linked list -----------------------------------------------------

  datatype Ptr = Null | To(addr: nat)

  /** A header in memory. */
  datatype Header = Header(size: nat, used: bool, next: Ptr)

  /** Following `next` from `p` visits exactly `bs`. */
  ghost predicate Linked(mem: map<nat, Header>, p: Ptr, bs: seq<Block>)
    decreases |bs|
  {
    if bs == [] then p == Null else
    p == To(bs[0].addr) && bs[0].addr in mem && mem[bs[0].addr].size == bs[0].size
        && mem[bs[0].addr].used == bs[0].used &&
    Linked(mem, mem[bs[0].addr].next, bs[1..])
  }

  /** The list depends only on the headers it visits. */
  lemma {:induction false} LinkedFrame(mem: map<nat, Header>, mem': map<nat, Header>, p: Ptr, bs: seq<Block>)
    requires Linked(mem, p, bs) && forall i {:trigger bs[i]} ::
              0 <= i < |bs| ==> bs[i].addr in mem && bs[i].addr in mem' && mem'[bs[i].addr] == mem[bs[i].addr]
    ensures Linked(mem', p, bs)
    decreases |bs|
  {
    if bs != [] {
      assert bs[0].addr in mem;
      forall i | 0 <= i < |bs[1..]|
        ensures bs[1..][i].addr in mem && bs[1..][i].addr in mem' && mem'[bs[1..][i].addr] == mem[bs[1..][i].addr]
      {
        assert bs[1..][i] == bs[i + 1];
      }
      LinkedFrame(mem, mem', mem[bs[0].addr].next, bs[1..]);
    }
  }

  lemma {:induction false} LinkedIn(mem: map<nat, Header>, p: Ptr, bs: seq<Block>, i: nat)
    requires Linked(mem, p, bs) && i < |bs|
    ensures bs[i].addr in mem && mem[bs[i].addr].size == bs[i].size && mem[bs[i].addr].used == bs[i].used
    ensures Linked(mem, mem[bs[i].addr].next, bs[i + 1..])
    decreases |bs|
  {
    if i > 0 {
      LinkedIn(mem, mem[bs[0].addr].next, bs[1..], i - 1);
      assert bs[1..][i..] == bs[i + 1..];
    }
  }

  /** Replacing the blocks from `i` on, when the new part is linked and the old headers before it
      are untouched. */
  lemma {:induction false} LinkedReplace(mem: map<nat, Header>, mem': map<nat, Header>, p: Ptr, bs: seq<Block>, i: nat,
      rest: seq<Block>)
    requires Linked(mem, p, bs) && i < |bs| && rest != [] && rest[0].addr == bs[i].addr
    requires Linked(mem', To(bs[i].addr), rest)
    requires forall j {:trigger bs[j]} ::
              0 <= j < i ==> bs[j].addr in mem && bs[j].addr in mem' && mem'[bs[j].addr] == mem[bs[j].addr]
    ensures Linked(mem', p, bs[..i] + rest)
    decreases |bs|
  {
    var r := bs[..i] + rest;
    if i == 0 {
      assert r == rest;
    } else {
      assert bs[0].addr in mem;
      forall j | 0 <= j < i - 1
        ensures bs[1..][j].addr in mem && bs[1..][j].addr in mem' && mem'[bs[1..][j].addr] == mem[bs[1..][j].addr]
      {
        assert bs[1..][j] == bs[j + 1];
      }
      LinkedReplace(mem, mem', mem[bs[0].addr].next, bs[1..], i - 1, rest);
      assert r[0] == bs[0] && r[1..] == bs[1..][..i - 1] + rest;
    }
  }

  class Heap {
    var mem: map<nat, Header>
    ghost var blocks: seq<Block>

    ghost predicate Valid()
      reads this
    {
      Tiled(blocks, 0, HEAP_SIZE) && Linked(mem, To(0), blocks) && blocks != []
    }

    /** init_heap: one free block. */
    constructor ()
      ensures Valid() && blocks == [Block(0, HEAP_SIZE - HDR, false, 0)]
    {
      mem := map[0 := Header(HEAP_SIZE - HDR, false, Null)];
      blocks := [Block(0, HEAP_SIZE - HDR, false, 0)];
      new;
      assert blocks[1..] == [];
      assert Tiled(blocks[1..], HEAP_SIZE, HEAP_SIZE) && Linked(mem, Null, blocks[1..]);
    }

    /** heap_alloc. */
    method Allocate(size: nat) returns (p: Ptr)
      requires Valid()
      modifies this
      ensures Valid() && blocks == Next(old(blocks), Alloc(size))
      ensures p == Null <==> forall i :: 0 <= i < |old(blocks)| ==> !Fits(old(blocks)[i], size)
      ensures p != Null ==> exists b {:trigger Payload(b)} ::
                b in blocks && b.used && b.want == size <= b.size && Payload(b) == p.addr
    {
      hide Carved;
      var curr := To(0);
      ghost var k := 0;
      assert blocks[0..] == blocks;
      while curr != Null
        invariant 0 <= k <= |blocks| && Linked(mem, curr, blocks[k..]) && blocks == old(blocks) && mem == old(mem)
        invariant forall j :: 0 <= j < k ==> !Fits(blocks[j], size)
        decreases |blocks| - k
      {
        assert blocks[k..] != [] && blocks[k..][0] == blocks[k];
        var a := curr.addr;
        if !mem[a].used && mem[a].size >= size {
          FitExact(blocks, k, size);
          TakeBlock(a, size, k);
          return To(a + HDR);
        }
        assert blocks[k..][1..] == blocks[k + 1..];
        curr := mem[a].next;
        k := k + 1;
      }
      NoFit(blocks, size);
      return Null;
    }

    /** The body of heap_alloc for the block that fits. */
    method TakeBlock(a: nat, size: nat, ghost k: nat)
      requires Valid() && k < |blocks| && blocks[k].addr == a && Fits(blocks[k], size) && a in mem
      modifies this
      ensures Valid() && blocks == Allocated(old(blocks), k, size)
      ensures exists b {:trigger Payload(b)} ::
                b in blocks && b.used && b.want == size <= b.size && Payload(b) == a + HDR
    {
      ghost var bs, m0 := blocks, mem;
      LinkedIn(mem, To(0), bs, k);
      if mem[a].size > size + HDR + SLACK {
        var above := a + HDR + size;
        mem := mem[above := Header(mem[a].size - size - HDR, false, mem[a].next)];
        mem := mem[a := Header(size, mem[a].used, To(above))];
      }
      mem := mem[a := mem[a].(used := true)];
      blocks := Allocated(bs, k, size);
      AllocatedTiled(bs, 0, HEAP_SIZE, k, size);
      CarvedLinked(m0, mem, bs, k, size);
      assert blocks[k].used && blocks[k].want == size <= blocks[k].size && blocks[k].addr == a by {
        CarvedFirst(bs, k, size);
      }
      assert blocks[k] in blocks && Payload(blocks[k]) == a + HDR;
    }

    /** heap_free of a live pointer, or of NULL. */
    method Release(p: Ptr)
      requires Valid() && (p != Null ==> LivePtr(blocks, p.addr))
      modifies this
      ensures Valid() && blocks == if p == Null then old(blocks) else Next(old(blocks), Free(p.addr))
    {
      if p == Null { return; }
      ghost var bs, m0 := blocks, mem;
      ghost var k := IndexOf(bs, p.addr);
      LiveIndex(bs, p.addr);
      LinkedIn(mem, To(0), bs, k);
      var a := p.addr - HDR;
      mem := mem[a := mem[a].(used := false)];
      NextHeader(m0, mem, bs, k);
      if mem[a].next != Null && !mem[mem[a].next.addr].used {
        var n := mem[a].next.addr;
        mem := mem[a := Header(mem[a].size + HDR + mem[n].size, false, mem[n].next)];
      }
      blocks := Released(bs, k);
      ReleasedTiled(bs, 0, HEAP_SIZE, k);
      ReleasedLinked(m0, mem, bs, k);
    }
  }

  lemma LiveIndex(bs: seq<Block>, p: nat)
    requires LivePtr(bs, p)
    ensures IndexOf(bs, p) < |bs| && Payload(bs[IndexOf(bs, p)]) == p && bs[IndexOf(bs, p)].used
  {
  }

  lemma FitExact(bs: seq<Block>, k: nat, size: nat)
    requires k < |bs| && Fits(bs[k], size) && forall j :: 0 <= j < k ==> !Fits(bs[j], size)
    ensures FirstFit(bs, size) == k
  {
  }

  lemma NoFit(bs: seq<Block>, size: nat)
    requires forall j :: 0 <= j < |bs| ==> !Fits(bs[j], size)
    ensures FirstFit(bs, size) == |bs|
  {
  }

  lemma CarvedFirst(bs: seq<Block>, k: nat, size: nat)
    requires k < |bs| && Fits(bs[k], size)
    ensures var r := Allocated(bs, k, size);
            && k < |r| && r[k] == Carved(bs[k], size)[0] && r[k].used && r[k].want == size <= r[k].size
            && r[k].addr == bs[k].addr
  {
  }

  /** Addresses of other blocks are not the one at hand, nor inside it. */
  lemma OtherAddr(bs: seq<Block>, k: nat, j: nat)
    requires Tiled(bs, 0, HEAP_SIZE) && k < |bs| && j < |bs| && j != k
    ensures bs[j].addr < bs[k].addr || End(bs[k]) <= bs[j].addr
  {
    if j < k { TiledDisjoint(bs, 0, HEAP_SIZE, j, k); } else { TiledDisjoint(bs, 0, HEAP_SIZE, k, j); }
  }

  lemma CarvedLinked(m0: map<nat, Header>, m: map<nat, Header>, bs: seq<Block>, k: nat, size: nat)
    requires Tiled(bs, 0, HEAP_SIZE) && Linked(m0, To(0), bs) && k < |bs| && Fits(bs[k], size) && bs[k].addr in m0
    requires var a := bs[k].addr;
             if bs[k].size > size + HDR + SLACK
             then m == m0[a + HDR + size := Header(bs[k].size - size - HDR, false, m0[a].next)][a := Header(size, true,
                 To(a + HDR + size))]
             else m == m0[a := m0[a].(used := true)]
    ensures Linked(m, To(0), Allocated(bs, k, size))
  {
    var a, c, rest := bs[k].addr, Carved(bs[k], size), bs[k + 1..];
    LinkedIn(m0, To(0), bs, k);
    forall j | 0 <= j < |bs| && j != k ensures bs[j].addr in m0 && bs[j].addr in m && m[bs[j].addr] == m0[bs[j].addr] {
      OtherAddr(bs, k, j);
      LinkedIn(m0, To(0), bs, j);
    }
    forall j | 0 <= j < |rest|
      ensures rest[j].addr in m0 && rest[j].addr in m && m[rest[j].addr] == m0[rest[j].addr]
    {
      assert rest[j] == bs[k + 1 + j];
    }
    LinkedFrame(m0, m, m0[a].next, rest);
    var tail := c + rest;
    if |c| == 2 {
      assert tail[1..] == [c[1]] + rest && ([c[1]] + rest)[1..] == rest;
      assert Linked(m, To(c[1].addr), [c[1]] + rest);
    } else {
      assert tail[1..] == rest;
    }
    LinkedReplace(m0, m, To(0), bs, k, tail);
    assert bs[..k] + tail == Allocated(bs, k, size);
  }

  /** The header after block `k` is that of block `k + 1`, whatever happens to block `k`. */
  lemma NextHeader(m0: map<nat, Header>, m: map<nat, Header>, bs: seq<Block>, k: nat)
    requires Tiled(bs, 0, HEAP_SIZE) && Linked(m0, To(0), bs) && k < |bs| && bs[k].addr in m0
    requires m == m0[bs[k].addr := m0[bs[k].addr].(used := false)]
    ensures m[bs[k].addr].next == (if k + 1 < |bs| then To(bs[k + 1].addr) else Null)
    ensures k + 1 < |bs| ==> bs[k + 1].addr in m && m[bs[k + 1].addr] == m0[bs[k + 1].addr]
    ensures k + 1 < |bs| ==> m0[bs[k + 1].addr].used == bs[k + 1].used && m0[bs[k + 1].addr].size == bs[k + 1].size
  {
    LinkedIn(m0, To(0), bs, k);
    if k + 1 < |bs| {
      LinkedIn(m0, To(0), bs, k + 1);
      OtherAddr(bs, k, k + 1);
      assert bs[k + 1..][0] == bs[k + 1];
    }
  }

  /** Blocks `k..at` give way to one block whose header replaces that of block `k`. */
  lemma OneHeader(m0: map<nat, Header>, bs: seq<Block>, k: nat, at: nat, h: Header, b: Block)
    requires Tiled(bs, 0, HEAP_SIZE) && Linked(m0, To(0), bs) && k < at <= |bs| && b.addr == bs[k].addr
    requires h.size == b.size && h.used == b.used
    requires Linked(m0, h.next, bs[at..])
    ensures Linked(m0[b.addr := h], To(0), bs[..k] + ([b] + bs[at..]))
  {
    hide Tiled;
    var m, rest := m0[b.addr := h], bs[at..];
    forall j | 0 <= j < |bs| && j != k ensures bs[j].addr in m0 && bs[j].addr in m && m[bs[j].addr] == m0[bs[j].addr] {
      OtherAddr(bs, k, j);
      LinkedIn(m0, To(0), bs, j);
    }
    forall j | 0 <= j < |rest|
      ensures rest[j].addr in m0 && rest[j].addr in m && m[rest[j].addr] == m0[rest[j].addr]
    {
      assert rest[j] == bs[at + j];
    }
    LinkedFrame(m0, m, h.next, rest);
    var tail := [b] + rest;
    assert tail[1..] == rest;
    LinkedReplace(m0, m, To(0), bs, k, tail);
  }

  lemma ReleasedLinked(m0: map<nat, Header>, m: map<nat, Header>, bs: seq<Block>, k: nat)
    requires Tiled(bs, 0, HEAP_SIZE) && Linked(m0, To(0), bs) && k < |bs| && bs[k].addr in m0
    requires k + 1 < |bs| ==> bs[k + 1].addr in m0
    requires var a := bs[k].addr;
             if k + 1 < |bs| && !bs[k + 1].used
             then m == m0[a := Header(bs[k].size + HDR + bs[k + 1].size, false, m0[bs[k + 1].addr].next)]
             else m == m0[a := Header(bs[k].size, false, m0[a].next)]
    ensures Linked(m, To(0), Released(bs, k))
  {
    hide Tiled, Linked;
    var a := bs[k].addr;
    LinkedIn(m0, To(0), bs, k);
    if k + 1 < |bs| && !bs[k + 1].used {
      LinkedIn(m0, To(0), bs, k + 1);
      var b := bs[k].(used := false, size := bs[k].size + HDR + bs[k + 1].size);
      OneHeader(m0, bs, k, k + 2, Header(b.size, false, m0[bs[k + 1].addr].next), b);
      assert bs[..k] + ([b] + bs[k + 2..]) == Released(bs, k);
    } else {
      var b := bs[k].(used := false);
      OneHeader(m0, bs, k, k + 1, Header(b.size, false, m0[a].next), b);
      assert bs[..k] + ([b] + bs[k + 1..]) == Released(bs, k);
    }
  }
}
