/** Anonymous pipes (kernel/pipe.c): a ring buffer with two reference counts and readers that park
    while the pipe is empty and a writer remains.  Each syscall is one step. */
module Pipes {
  newtype Byte = b: int | 0 <= b < 256

  const PIPE_BUF_SIZE: nat := 4096

  /** The pipe as a byte queue with its history: `waiter` is reader_waiter, zero if NULL, and `parked`
      are the processes blocked inside pipe_read. */
  datatype Pipe = Pipe(used: bool, buffer: seq<Byte>, readRefs: nat, writeRefs: nat, waiter: nat, parked: set<nat>,
                       accepted: seq<Byte>, delivered: seq<Byte>)

  /** Nothing is lost, reordered or invented. */
  ghost predicate Stream(p: Pipe) { p.delivered + p.buffer == p.accepted && |p.buffer| <= PIPE_BUF_SIZE }

  /** A parked reader has nothing to read, a writer to wait for, and is the one that will be woken. */
  ghost predicate Attended(p: Pipe) {
    p.parked <= {p.waiter} && 0 !in p.parked && (p.parked != {} ==> p.used && p.buffer == [] && p.writeRefs > 0)
  }

  ghost predicate Safe(p: Pipe) { Stream(p) && Attended(p) }

  /** `Wake` is a signal, or the end of the process: it leaves the read, and the pipe is not told. */
  datatype Op = New | Incref(write: bool) | Close(write: bool) | Write(src: seq<Byte>) | Read(who: nat,
      n: nat) | Wake(who: nat)

  /** pipe_wake_reader. */
  function Woken(p: Pipe): Pipe { if p.waiter == 0 then p else p.(waiter := 0, parked := p.parked - {p.waiter}) }

  function Min(a: nat, b: nat): nat { if a < b then a else b }

  /** Bytes of `src` that fit. */
  function Room(p: Pipe, src: seq<Byte>): (k: nat)
    ensures k <= |src|
  {
    if |p.buffer| >= PIPE_BUF_SIZE then 0 else Min(|src|, PIPE_BUF_SIZE - |p.buffer|)
  }

  function AfterWrite(p: Pipe, src: seq<Byte>): (r: Pipe) {
    if !p.used || p.readRefs == 0 then p else
    var k := Room(p, src);
    var q := p.(buffer := p.buffer + src[..k], accepted := p.accepted + src[..k]);
    if k > 0 then Woken(q) else q
  }

  function AfterClose(p: Pipe, write: bool): (r: Pipe) {
    if !p.used then p else
    var q := if write then
               var c := p.(writeRefs := if p.writeRefs > 0 then p.writeRefs - 1 else 0);
               if c.writeRefs == 0 then Woken(c) else c
             else p.(readRefs := if p.readRefs > 0 then p.readRefs - 1 else 0);
    if q.readRefs == 0 && q.writeRefs == 0 then q.(used := false) else q
  }

  /** One masked pass of pipe_read by process `who`, zero if there is none: that one does not park. */
  function AfterRead(p: Pipe, who: nat, n: nat): (r: Pipe) {
    if !p.used || n == 0 then p
    else if p.buffer != [] then
      var k := Min(n, |p.buffer|);
      p.(buffer := p.buffer[k..], delivered := p.delivered + p.buffer[..k])
    else if p.writeRefs == 0 || who == 0 then p
    else p.(parked := p.parked + {who}, waiter := who)
  }

  /** A parked reader makes no call, and a new pipe takes an unused slot. */
  predicate Enabled(p: Pipe, op: Op) {
    match op
    case New => !p.used
    case Read(who, _) => who !in p.parked
    case _ => true
  }

  function Next(p: Pipe, op: Op): (r: Pipe) {
    match op
    case New => Pipe(true, [], 1, 1, 0, p.parked, [], [])
    case Incref(w) => if !p.used then p else if w then p.(writeRefs := p.writeRefs + 1)
        else p.(readRefs := p.readRefs + 1)
    case Close(w) => AfterClose(p, w)
    case Write(src) => AfterWrite(p, src)
    case Read(who, n) => AfterRead(p, who, n)
    case Wake(who) => p.(parked := p.parked - {who})
  }

  lemma WriteStream(p: Pipe, src: seq<Byte>)
    requires Stream(p)
    ensures Stream(AfterWrite(p, src))
  {
    var t := src[..Room(p, src)];
    assert p.delivered + (p.buffer + t) == (p.delivered + p.buffer) + t;
  }

  lemma ReadStream(p: Pipe, who: nat, n: nat)
    requires Stream(p)
    ensures Stream(AfterRead(p, who, n))
  {
    var k := Min(n, |p.buffer|);
    var a, b := p.buffer[..k], p.buffer[k..];
    assert p.buffer == a + b;
    assert (p.delivered + a) + b == p.delivered + (a + b);
  }

  /** The bytes are right whoever reads and whoever is parked. */
  lemma NextStream(p: Pipe, op: Op)
    requires Stream(p)
    ensures Stream(Next(p, op))
  {
    hide AfterWrite, AfterRead;
    match op
    case Write(src) => WriteStream(p, src);
    case Read(who, n) => ReadStream(p, who, n);
    case _ =>
  }

  /** A second reader of the end on which one is parked. */
  predicate Overtakes(p: Pipe, op: Op) { op.Read? && op.who != 0 && op.n > 0 && p.parked != {} }

  /** Every parked reader is still the one to be woken if and only if no reader parks behind another. */
  lemma NextSafe(p: Pipe, op: Op)
    requires Safe(p) && Enabled(p, op)
    ensures Safe(Next(p, op)) <==> !Overtakes(p, op)
  {
    NextStream(p, op);
    if Overtakes(p, op) {
      var r :| r in p.parked;
      assert r in Next(p, op).parked && r != op.who;
    }
  }

  ghost predicate Runs(p: Pipe, ops: seq<Op>)
    decreases |ops|
  {
    ops == [] || (Enabled(p, ops[0]) && Runs(Next(p, ops[0]), ops[1..]))
  }

  function After(p: Pipe, ops: seq<Op>): (r: Pipe)
    decreases |ops|
  {
    if ops == [] then p else After(Next(p, ops[0]), ops[1..])
  }

  /** No reader parks behind another. */
  ghost predicate OneByOne(p: Pipe, ops: seq<Op>)
    decreases |ops|
  {
    ops == [] || (!Overtakes(p, ops[0]) && OneByOne(Next(p, ops[0]), ops[1..]))
  }

  /** Over every interleaving of reads, writes, closes, forks and spurious wakeups by any number of
      readers the bytes come out as they went in. */
  lemma {:induction false} RunStream(p: Pipe, ops: seq<Op>)
    requires Stream(p)
    ensures Stream(After(p, ops))
    decreases |ops|
  {
    if ops != [] {
      NextStream(p, ops[0]);
      RunStream(Next(p, ops[0]), ops[1..]);
    }
  }

  /** And over those in which no reader parks behind another, no reader is forgotten. */
  lemma {:induction false} RunSafe(p: Pipe, ops: seq<Op>)
    requires Safe(p) && Runs(p, ops) && OneByOne(p, ops)
    ensures Safe(After(p, ops))
    decreases |ops|
  {
    if ops != [] {
      NextSafe(p, ops[0]);
      RunSafe(Next(p, ops[0]), ops[1..]);
    }
  }

  /** A parked reader is woken by the very step that gives it something to see: bytes, or the last
      writer's close. */
  lemma WokenInTime(p: Pipe, op: Op, r: nat)
    requires Safe(p) && Enabled(p, op) && r in p.parked && !op.Wake?
    ensures r in Next(p, op).parked <==> Next(p, op).buffer == [] && Next(p, op).writeRefs > 0
  {
  }

  // ---- two readers ---------------------------------------------------------

  /** A parked reader the pipe does not know of. */
  predicate Stranded(p: Pipe, r: nat) { r in p.parked && r != p.waiter && r != 0 }

  /** Nothing but a signal gets it out, whatever is written and whoever closes. */
  lemma {:induction false} StrandedStays(p: Pipe, ops: seq<Op>, r: nat)
    requires Stranded(p, r) && Runs(p, ops) && Wake(r) !in ops
    ensures Stranded(After(p, ops), r)
    decreases |ops|
  {
    if ops != [] {
      assert ops[0] != Wake(r);
      StrandedStays(Next(p, ops[0]), ops[1..], r);
    }
  }

  /** A pipe whose read end was inherited by fork: both processes read, then one byte is written.
      The first reader stays parked with the byte before it. */
  lemma TwoReaders(p: Pipe, x: Byte)
    requires !p.used && p.parked == {}
    ensures var ops := [New, Incref(false), Read(1, 1), Read(2, 1), Write([x])];
            var r := After(p, ops);
            Runs(p, ops) && Stranded(r, 1) && r.buffer == [x] && r.waiter == 0 && 2 !in r.parked
  {
    var a, b, c, d, e := New, Incref(false), Read(1, 1), Read(2, 1), Write([x]);
    var p1 := Next(p, a);
    var p2 := Next(p1, b);
    var p3 := Next(p2, c);
    var p4 := Next(p3, d);
    var p5 := Next(p4, e);
    assert p4.parked == {1, 2} && p4.waiter == 2;
    assert [x][..1] == [x];
    assert p5.buffer == [x] && p5.parked == {1};
    assert [a, b, c, d, e][1..] == [b, c, d, e] && [b, c, d, e][1..] == [c, d, e];
    assert [c, d, e][1..] == [d, e] && [d, e][1..] == [e] && [e][1..] == [];
    assert Runs(p5, []) && Runs(p4, [e]) && Runs(p3, [d, e]) && Runs(p2, [c, d, e]) && Runs(p1, [b, c, d, e]);
    assert After(p4, [e]) == p5 && After(p3, [d, e]) == p5 && After(p2, [c, d, e]) == p5
        && After(p1, [b, c, d, e]) == p5;
  }

  /** The process a step makes runnable, zero if none. */
  function Poked(p: Pipe, op: Op): nat {
    if !p.used then 0 else
    match op
    case Write(src) => if p.readRefs > 0 && Room(p, src) > 0 then p.waiter else 0
    case Close(write) => if write && p.writeRefs <= 1 then p.waiter else 0
    case _ => 0
  }

  /** It is a reader parked here if and only if the waiter has not left the read otherwise; one that
      was destroyed there is made runnable all the same. */
  lemma PokesStale(p: Pipe, op: Op)
    requires Safe(p) && Poked(p, op) != 0
    ensures Poked(p, op) in p.parked <==> p.parked != {}
    ensures Poked(Next(p, Wake(p.waiter)), op) == p.waiter && p.waiter !in Next(p, Wake(p.waiter)).parked
  {
  }

  // ---- the ring buffer -----------------------------------------------------

  datatype ReadResult = Bytes(data: seq<Byte>) | EndOfFile | Parked | Failed | NoProcess

  /** The `i`-th place of the ring after `head`. */
  function Place(head: nat, i: nat): (k: nat)
    ensures k < PIPE_BUF_SIZE
  {
    (head + i) % PIPE_BUF_SIZE
  }

  /** `count` bytes of the ring starting at `head`. */
  function Ring(buf: seq<Byte>, head: nat, count: nat): (s: seq<Byte>)
    requires |buf| == PIPE_BUF_SIZE
    ensures |s| == count && forall i {:trigger Place(head, i)} :: 0 <= i < count ==> s[i] == buf[Place(head, i)]
  {
    seq(count, i requires 0 <= i < count => buf[Place(head, i)])
  }

  class PipeSlot {
    var used: bool
    const buf: array<Byte>
    var head: nat
    var count: nat
    var readRefs: nat
    var writeRefs: nat
    var waiter: nat
    /** The processes whose state is PROC_BLOCKED inside pipe_read on this pipe. */
    var parked: set<nat>
    ghost var accepted: seq<Byte>
    ghost var delivered: seq<Byte>

    ghost predicate Valid()
      reads this
    {
      buf.Length == PIPE_BUF_SIZE && head < PIPE_BUF_SIZE && count <= PIPE_BUF_SIZE
    }

    ghost function View(): Pipe
      requires Valid()
      reads this, buf
    {
      Pipe(used, Ring(buf[..], head, count), readRefs, writeRefs, waiter, parked, accepted, delivered)
    }

    /** A slot of the zeroed pipe table. */
    constructor ()
      ensures Valid() && fresh(buf) && !used && View() == Pipe(false, Ring(buf[..], 0, 0), 0, 0, 0, {}, [], [])
    {
      buf := new Byte[PIPE_BUF_SIZE](i => 0);
      used, head, count, readRefs, writeRefs, waiter, parked, accepted, delivered := false, 0, 0, 0, 0, 0, {}, [], [];
    }

    /** pipe_wake_reader. */
    method WakeReader()
      requires Valid()
      modifies this`waiter, this`parked
      ensures View() == Woken(old(View()))
    {
      if waiter != 0 { parked := parked - {waiter}; waiter := 0; }
    }

    /** pipe_new on an unused slot. */
    method Open()
      requires Valid()
      modifies this
      ensures Valid() && View() == Next(old(View()), New)
    {
      used, head, count, readRefs, writeRefs, waiter := true, 0, 0, 1, 1, 0;
      accepted, delivered := [], [];
    }

    /** pipe_incref. */
    method AddRef(write: bool)
      requires Valid()
      modifies this`readRefs, this`writeRefs
      ensures Valid() && View() == Next(old(View()), Incref(write))
    {
      if !used { return; }
      if write { writeRefs := writeRefs + 1; } else { readRefs := readRefs + 1; }
    }

    /** pipe_close_end. */
    method CloseEnd(write: bool)
      requires Valid()
      modifies this
      ensures Valid() && View() == Next(old(View()), Close(write))
    {
      if !used { return; }
      if write {
        if writeRefs > 0 { writeRefs := writeRefs - 1; }
        if writeRefs == 0 { WakeReader(); }
      } else {
        if readRefs > 0 { readRefs := readRefs - 1; }
      }
      if readRefs == 0 && writeRefs == 0 { used := false; }
    }

    /** pipe_write: as much of `src` as fits, in order. */
    method Put(src: seq<Byte>) returns (written: int)
      requires Valid()
      modifies this, buf
      ensures Valid() && View() == Next(old(View()), Write(src))
      ensures written == if !old(used) || old(readRefs) == 0 then -1 else Room(old(View()), src)
    {
      if !used || readRefs == 0 { return -1; }
      hide Ring;
      ghost var p := View();
      written := 0;
      while written < |src| && count < PIPE_BUF_SIZE
        invariant Valid() && 0 <= written <= |src| && count == |p.buffer| + written
        invariant View() == p.(buffer := p.buffer + src[..written], accepted := p.accepted + src[..written])
      {
        PushByte(src[written]);
        TakeOne(src, written);
        assert p.buffer + src[..written] + [src[written]] == p.buffer + src[..written + 1];
        assert p.accepted + src[..written] + [src[written]] == p.accepted + src[..written + 1];
        written := written + 1;
      }
      if written > 0 { WakeReader(); }
    }

    /** One byte at the tail. */
    method PushByte(x: Byte)
      requires Valid() && count < PIPE_BUF_SIZE
      modifies this`count, this`accepted, buf
      ensures Valid() && count == old(count) + 1
      ensures View() == old(View()).(buffer := old(View()).buffer + [x], accepted := old(View()).accepted + [x])
    {
      hide Ring;
      var tail := Place(head, count);
      RingPush(buf[..], head, count, x);
      buf[tail] := x;
      assert buf[..] == old(buf[..])[tail := x];
      accepted := accepted + [x];
      count := count + 1;
    }

    /** One byte from the head. */
    method PopByte() returns (x: Byte)
      requires Valid() && count > 0
      modifies this`head, this`count, this`delivered
      ensures Valid() && count == old(count) - 1 && old(View()).buffer == [x] + View().buffer
      ensures View() == old(View()).(buffer := View().buffer, delivered := old(View()).delivered + [x])
    {
      hide Ring;
      RingPop(buf[..], head, count);
      x := buf[head];
      delivered := delivered + [x];
      head := Place(head, 1);
      count := count - 1;
    }

    /** pipe_readable. */
    method Readable() returns (r: bool)
      requires Valid()
      ensures r <==> !used || View().buffer != [] || writeRefs == 0
    {
      r := !used || count > 0 || writeRefs == 0;
    }

    /** One masked pass of pipe_read. */
    method Get(who: nat, n: nat) returns (r: ReadResult)
      requires Valid()
      modifies this
      ensures Valid() && View() == Next(old(View()), Read(who, n))
      ensures r.EndOfFile? <==> old(used) && n > 0 && old(View()).buffer == [] && old(writeRefs) == 0
      ensures r.Bytes? ==> old(delivered) + r.data == delivered && r.data != []
      ensures r.Parked? <==> old(used) && n > 0 && old(View()).buffer == [] && old(writeRefs) > 0 && who != 0
      ensures r.Parked? ==> who in parked && waiter == who
    {
      hide Ring;
      if !used || n == 0 { return Failed; }
      if count > 0 {
        ghost var p := View();
        var got := [];
        while |got| < n && count > 0
          invariant Valid() && |got| <= n && got + View().buffer == p.buffer && (count < |p.buffer| ==> got != [])
          invariant View() == p.(buffer := View().buffer, delivered := p.delivered + got)
          decreases count
        {
          ghost var rest := View().buffer;
          var x := PopByte();
          assert got + rest == (got + [x]) + View().buffer;
          assert p.delivered + got + [x] == p.delivered + (got + [x]);
          got := got + [x];
        }
        Drained(p.buffer, got, View().buffer, n);
        return Bytes(got);
      }
      if writeRefs == 0 { return EndOfFile; }
      if who == 0 { return NoProcess; }
      parked, waiter := parked + {who}, who;
      return Parked;
    }
  }

  lemma TakeOne(s: seq<Byte>, k: nat)
    requires k < |s|
    ensures s[..k] + [s[k]] == s[..k + 1]
  {
  }

  lemma Drained(buffer: seq<Byte>, got: seq<Byte>, rest: seq<Byte>, n: nat)
    requires got + rest == buffer && |got| <= n && (|got| == n || rest == [])
    ensures got == buffer[..Min(n, |buffer|)] && rest == buffer[Min(n, |buffer|)..]
  {
  }

  lemma RingPush(buf: seq<Byte>, head: nat, count: nat, x: Byte)
    requires |buf| == PIPE_BUF_SIZE && head < PIPE_BUF_SIZE && count < PIPE_BUF_SIZE
    ensures Ring(buf[Place(head, count) := x], head, count + 1) == Ring(buf, head, count) + [x]
  {
    hide Ring;
    var b := buf[Place(head, count) := x];
    var r, t := Ring(b, head, count + 1), Ring(buf, head, count) + [x];
    forall i | 0 <= i < count + 1 ensures r[i] == t[i] { PlaceDistinct(head, i, count); }
  }

  lemma PlaceDistinct(head: nat, i: nat, j: nat)
    requires head < PIPE_BUF_SIZE && i <= j < PIPE_BUF_SIZE
    ensures Place(head, i) == Place(head, j) <==> i == j
  {
  }

  lemma RingPop(buf: seq<Byte>, head: nat, count: nat)
    requires |buf| == PIPE_BUF_SIZE && head < PIPE_BUF_SIZE && 0 < count <= PIPE_BUF_SIZE
    ensures Ring(buf, head, count) == [buf[head]] + Ring(buf, Place(head, 1), count - 1)
  {
    hide Ring;
    var r, t := Ring(buf, head, count), [buf[head]] + Ring(buf, Place(head, 1), count - 1);
    forall i | 0 <= i < count ensures r[i] == t[i] {
      assert r[i] == buf[Place(head, i)];
      if i > 0 { assert Place(Place(head, 1), i - 1) == Place(head, i); } else { assert Place(head, 0) == head; }
    }
  }
}
