/** File snapshots across processes and threads (kernel/process.c, kernel/mmap.c): fork copies
    them, clone shares the leader's, and a dying leader hands them over. */
module VmaGroups {
  import opened Vmas

  /** A task; `tgid` is the pid of its thread-group leader, zero for a leader. */
  datatype Task = Task(pid: nat, tgid: nat, table: Table)

  /** All tasks, the snapshots allocated on the kernel heap, the next snapshot and the next pid. */
  datatype Vm = Vm(tasks: seq<Task>, live: set<nat>, nextBuf: nat, nextPid: nat)

  predicate Leads(t: Task) { t.tgid == 0 || t.tgid == t.pid }

  /** find_process. */
  function IndexOf(tasks: seq<Task>, pid: nat): (i: nat)
    ensures i <= |tasks| && (i < |tasks| ==> tasks[i].pid == pid) && forall j :: 0 <= j < i ==> tasks[j].pid != pid
  {
    if tasks == [] then 0 else if tasks[0].pid == pid then 0 else IndexOf(tasks[1..], pid) + 1
  }

  /** tg_leader: the index of the process whose table is used. */
  function Leader(tasks: seq<Task>, i: nat): (l: nat)
    requires i < |tasks|
    ensures l < |tasks|
  {
    if Leads(tasks[i]) then i else
    var l := IndexOf(tasks, tasks[i].tgid);
    if l < |tasks| then l else i
  }

  /** The snapshot in slot `k` of task `i`, zero if none. */
  function Buf(tasks: seq<Task>, i: nat, k: nat): nat
    requires i < |tasks|
  {
    if k < |tasks[i].table.vmas| then tasks[i].table.vmas[k].buf else 0
  }

  // ---- the invariant -------------------------------------------------------

  ghost predicate TaskOk(v: Vm, i: nat)
    requires i < |v.tasks|
  {
    TableOk(v.tasks[i].table) && 0 < v.tasks[i].pid < v.nextPid && (!Leads(v.tasks[i]) ==> Orphanless(v.tasks, i))
  }

  /** A thread's leader is in the table and leads. */
  ghost predicate Orphanless(tasks: seq<Task>, i: nat)
    requires i < |tasks|
  {
    exists l {:trigger tasks[l]} :: 0 <= l < |tasks| && tasks[l].pid == tasks[i].tgid && Leads(tasks[l])
  }

  ghost predicate SlotOk(v: Vm, i: nat, k: nat)
    requires i < |v.tasks|
  {
    Buf(v.tasks, i, k) != 0 ==> Buf(v.tasks, i, k) in v.live && Leads(v.tasks[i])
  }

  ghost predicate Alone(tasks: seq<Task>, i: nat, k: nat, j: nat, l: nat)
    requires i < |tasks| && j < |tasks|
  {
    Buf(tasks, i, k) != 0 && Buf(tasks, i, k) == Buf(tasks, j, l) ==> i == j && k == l
  }

  ghost predicate HasOwner(v: Vm, b: nat) {
    exists i, k {:trigger Buf(v.tasks, i, k)} :: 0 <= i < |v.tasks| && Buf(v.tasks, i, k) == b
  }

  /** Every group's table is sound, and every snapshot has exactly one owning slot, in a leader. */
  ghost predicate Inv(v: Vm) {
    && (forall i {:trigger TaskOk(v, i)} :: 0 <= i < |v.tasks| ==> TaskOk(v, i))
    && (forall i, j {:trigger v.tasks[i], v.tasks[j]} :: 0 <= i < j < |v.tasks| ==> v.tasks[i].pid != v.tasks[j].pid)
    && (forall i, k {:trigger SlotOk(v, i, k)} :: 0 <= i < |v.tasks| ==> SlotOk(v, i, k))
    && (forall i, k, j, l {:trigger Alone(v.tasks, i, k, j, l)} ::
          0 <= i < |v.tasks| && 0 <= j < |v.tasks| ==> Alone(v.tasks, i, k, j, l))
    && (forall b {:trigger HasOwner(v, b)} :: b in v.live ==> 0 < b < v.nextBuf && HasOwner(v, b))
  }

  // ---- the operations ------------------------------------------------------

  /** do_mmap by task `i`; with `file`, a fresh snapshot is made for the region, and
      without it there is no region. */
  function MmapNext(v: Vm, i: nat, length: nat, prot: nat, file: bool, size: nat, snapped: bool): (r: Vm)
    requires i < |v.tasks|
  {
    var l := Leader(v.tasks, i);
    var t := v.tasks[l].table;
    if length == 0 then v
    else if !CanMap(t, length) || (file && !snapped) then v.(tasks := v.tasks[l := v.tasks[l].(table := Touched(t))])
    else if file then Vm(v.tasks[l := v.tasks[l].(table := Mapped(t, length, prot, v.nextBuf, size))],
        v.live + {v.nextBuf}, v.nextBuf + 1, v.nextPid)
    else v.(tasks := v.tasks[l := v.tasks[l].(table := Mapped(t, length, prot, 0, 0))])
  }

  /** do_munmap by task `i`: the snapshots of covered regions are freed, each once. */
  function MunmapNext(v: Vm, i: nat, addr: nat, end: nat): (r: Vm)
    requires i < |v.tasks|
  {
    var l := Leader(v.tasks, i);
    var t := v.tasks[l].table;
    v.(tasks := v.tasks[l := v.tasks[l].(table := Unmapped(t, addr, end))],
        live := v.live - Snapshots(t.vmas, addr, end, |t.vmas|))
  }

  /** The table a forked child gets: snapshot `k` is copied as `first + k` if the copy succeeded. */
  function Copied(t: Table, first: nat, got: seq<bool>): (r: Table)
    ensures |r.vmas| == |t.vmas|
  {
    t.(vmas := seq(|t.vmas|, k requires 0 <= k < |t.vmas| =>
      if t.vmas[k].used && t.vmas[k].buf != 0
          then (if k < |got| && got[k] then t.vmas[k].(buf := first + k) else t.vmas[k].(buf := 0, size := 0))
              else t.vmas[k]))
  }

  /** The snapshots made for the child. */
  function Copies(t: Table, first: nat, got: seq<bool>): (s: set<nat>) {
    set k | 0 <= k < |t.vmas| && k < |got| && t.vmas[k].used && t.vmas[k].buf != 0 && got[k] :: first + k
  }

  /** do_fork by task `i`: the child owns copies, or maps zeros where a copy failed.  The regions and
      the bump pointer are the forker's own, the address space with everything ever handed out in
      it is the group's. */
  function ForkNext(v: Vm, i: nat, got: seq<bool>): (r: Vm)
    requires i < |v.tasks|
  {
    var t, l := v.tasks[i].table, v.tasks[Leader(v.tasks, i)].table;
    Vm(v.tasks + [Task(v.nextPid, 0, Copied(t, v.nextBuf, got).(issued := l.issued))],
        v.live + Copies(t, v.nextBuf, got), v.nextBuf + |t.vmas|, v.nextPid + 1)
  }

  /** do_fork when the child's kernel stack cannot be set up: the copies made are not freed. */
  function ForkFailNext(v: Vm, i: nat, got: seq<bool>): (r: Vm)
    requires i < |v.tasks|
  {
    var t := v.tasks[i].table;
    v.(live := v.live + Copies(t, v.nextBuf, got), nextBuf := v.nextBuf + |t.vmas|, nextPid := v.nextPid + 1)
  }

  /** do_clone by task `i`: a thread of the same group, owning nothing. */
  function CloneNext(v: Vm, i: nat): (r: Vm)
    requires i < |v.tasks|
  {
    v.(tasks := v.tasks + [Task(v.nextPid, v.tasks[Leader(v.tasks, i)].pid, Disowned(v.tasks[i].table))],
        nextPid := v.nextPid + 1)
  }

  /** do_execve by a leader: an empty table, its snapshots freed. */
  function ExecNext(v: Vm, i: nat): (r: Vm)
    requires i < |v.tasks|
  {
    var t := v.tasks[i].table;
    v.(tasks := v.tasks[i := v.tasks[i].(table := Table(seq(|t.vmas|, k => EMPTY), 0, []))], live := v.live - Owned(t))
  }

  /** The snapshots in a table. */
  function Owned(t: Table): (s: set<nat>) { set k | 0 <= k < |t.vmas| && t.vmas[k].buf != 0 :: t.vmas[k].buf }

  // ---- one task's table changes --------------------------------------------

  /** Table `t` replaces `o`: snapshots `gone` leave it, snapshots `more` enter it, the rest stay. */
  ghost predicate Swap(o: Table, t: Table, gone: set<nat>, more: set<nat>) {
    && |o.vmas| == SLOTS && |t.vmas| == SLOTS
    && (forall k {:trigger t.vmas[k]} ::
          0 <= k < SLOTS ==> t.vmas[k].buf == o.vmas[k].buf || t.vmas[k].buf == 0 || t.vmas[k].buf in more)
    && (forall k {:trigger o.vmas[k]} ::
          0 <= k < SLOTS && o.vmas[k].buf != 0 ==> (o.vmas[k].buf in gone <==> t.vmas[k].buf != o.vmas[k].buf))
    && (forall b {:trigger b in gone} :: b in gone ==> exists k {:trigger o.vmas[k]} ::
          0 <= k < SLOTS && o.vmas[k].buf == b)
    && (forall b {:trigger b in more} :: b in more ==> exists k {:trigger t.vmas[k]} ::
          0 <= k < SLOTS && t.vmas[k].buf == b)
    && (forall k, m {:trigger t.vmas[k], t.vmas[m]} ::
          0 <= k < m < SLOTS && t.vmas[k].buf in more ==> t.vmas[k].buf != t.vmas[m].buf)
  }

  /** Snapshot names not used before. */
  ghost predicate Fresh(v: Vm, r: Vm, more: set<nat>) {
    r.nextBuf >= v.nextBuf && forall b {:trigger b in more} :: b in more ==> 0 < b && v.nextBuf <= b < r.nextBuf
  }

  /** Task `l` gets table `t`. */
  lemma TableStep(v: Vm, r: Vm, l: nat, t: Table, gone: set<nat>, more: set<nat>)
    requires Inv(v) && l < |v.tasks| && TableOk(t) && r.tasks == v.tasks[l := v.tasks[l].(table := t)]
    requires r.nextPid == v.nextPid && Fresh(v, r, more)
    requires r.live == (v.live - gone) + more && (more != {} ==> Leads(v.tasks[l]))
    requires Swap(v.tasks[l].table, t, gone, more)
    ensures Inv(r)
  {
    hide TableOk;
    forall i | 0 <= i < |r.tasks| ensures TaskOk(r, i) {
      assert TaskOk(v, i);
      if !Leads(r.tasks[i]) {
        var m :| 0 <= m < |v.tasks| && v.tasks[m].pid == v.tasks[i].tgid && Leads(v.tasks[m]);
        assert r.tasks[m].pid == r.tasks[i].tgid && Leads(r.tasks[m]);
      }
    }
    forall i, k | 0 <= i < |r.tasks| ensures SlotOk(r, i, k) { SlotStep(v, r, l, t, gone, more, i, k); }
    forall i, k, j, m | 0 <= i < |r.tasks| && 0 <= j < |r.tasks|
      ensures Alone(r.tasks, i, k, j, m)
    {
      AloneStep(v, r, l, t, gone, more, i, k, j, m);
    }
    forall b | b in r.live ensures 0 < b < r.nextBuf && HasOwner(r, b) { OwnerStep(v, r, l, t, gone, more, b); }
  }

  lemma IsAlone(v: Vm, i: nat, k: nat, j: nat, m: nat)
    requires Inv(v) && i < |v.tasks| && j < |v.tasks|
    ensures Alone(v.tasks, i, k, j, m) && SlotOk(v, i, k) && SlotOk(v, j, m)
  {
  }

  lemma SlotStep(v: Vm, r: Vm, l: nat, t: Table, gone: set<nat>, more: set<nat>, i: nat, k: nat)
    requires Inv(v) && l < |v.tasks| && r.tasks == v.tasks[l := v.tasks[l].(table := t)]
    requires r.live == (v.live - gone) + more && i < |v.tasks| && (more != {} ==> Leads(v.tasks[l]))
    requires Swap(v.tasks[l].table, t, gone, more)
    ensures SlotOk(r, i, k)
  {
    assert SlotOk(v, i, k);
    if i != l && Buf(v.tasks, i, k) != 0 && Buf(v.tasks, i, k) in gone {
      var m :| 0 <= m < SLOTS && v.tasks[l].table.vmas[m].buf == Buf(v.tasks, i, k);
      IsAlone(v, i, k, l, m);
    }
  }

  lemma AloneStep(v: Vm, r: Vm, l: nat, t: Table, gone: set<nat>, more: set<nat>, i: nat, k: nat, j: nat, m: nat)
    requires Inv(v) && l < |v.tasks| && r.tasks == v.tasks[l := v.tasks[l].(table := t)] && i < |v.tasks|
    requires j < |v.tasks| && Swap(v.tasks[l].table, t, gone, more) && Fresh(v, r, more)
    ensures Alone(r.tasks, i, k, j, m)
  {
    IsAlone(v, i, k, j, m);
    OldBuf(v, i, k);
    OldBuf(v, j, m);
  }

  lemma OldBuf(v: Vm, i: nat, k: nat)
    requires Inv(v) && i < |v.tasks|
    ensures Buf(v.tasks, i, k) == 0 || Buf(v.tasks, i, k) < v.nextBuf
  {
    assert SlotOk(v, i, k);
    var b := Buf(v.tasks, i, k);
    if b != 0 { assert HasOwner(v, b); }
  }

  lemma OwnerStep(v: Vm, r: Vm, l: nat, t: Table, gone: set<nat>, more: set<nat>, b: nat)
    requires Inv(v) && l < |v.tasks| && r.tasks == v.tasks[l := v.tasks[l].(table := t)]
    requires r.live == (v.live - gone) + more && b in r.live
    requires Swap(v.tasks[l].table, t, gone, more) && Fresh(v, r, more)
    ensures 0 < b < r.nextBuf && HasOwner(r, b)
  {
    if b in more {
      var k :| 0 <= k < SLOTS && t.vmas[k].buf == b;
      assert Buf(r.tasks, l, k) == b;
    } else {
      assert HasOwner(v, b);
      var i, k :| 0 <= i < |v.tasks| && Buf(v.tasks, i, k) == b;
      assert Buf(r.tasks, i, k) == b;
    }
  }

  // ---- the operations keep the invariant -----------------------------------

  lemma LeaderLeads(v: Vm, i: nat)
    requires Inv(v) && i < |v.tasks|
    ensures Leads(v.tasks[Leader(v.tasks, i)]) && TaskOk(v, Leader(v.tasks, i))
    ensures |v.tasks[Leader(v.tasks, i)].table.vmas| == SLOTS
  {
    assert TaskOk(v, i);
    if !Leads(v.tasks[i]) {
      var m :| 0 <= m < |v.tasks| && v.tasks[m].pid == v.tasks[i].tgid && Leads(v.tasks[m]);
      var l := IndexOf(v.tasks, v.tasks[i].tgid);
      assert l <= m;
      SameTask(v, l, m);
    }
    assert TaskOk(v, Leader(v.tasks, i));
  }

  lemma SameTask(v: Vm, i: nat, j: nat)
    requires Inv(v) && i < |v.tasks| && j < |v.tasks| && v.tasks[i].pid == v.tasks[j].pid
    ensures i == j
  {
  }

  /** mmap keeps the invariant for every length whose rounding does not wrap. */
  lemma MmapInv(v: Vm, i: nat, length: nat, prot: nat, file: bool, size: nat, snapped: bool)
    requires Inv(v) && i < |v.tasks| && length <= TWO64 - PAGE && 0 < v.nextBuf
    ensures Inv(MmapNext(v, i, length, prot, file, size, snapped))
  {
    var l, r := Leader(v.tasks, i), MmapNext(v, i, length, prot, file, size, snapped);
    LeaderLeads(v, i);
    var o := v.tasks[l].table;
    if length > 0 {
      if !CanMap(o, length) || (file && !snapped) {
        TouchedOk(o);
        TableStep(v, r, l, Touched(o), {}, {});
      } else {
        var b := if file then v.nextBuf else 0;
        var t := Mapped(o, length, prot, b, if file then size else 0);
        MappedOk(o, length, prot, b, if file then size else 0);
        forall k | 0 <= k < SLOTS
          ensures o.vmas[k].buf == 0 || o.vmas[k].buf < v.nextBuf
        {
          OldBuf(v, l, k); assert Buf(v.tasks, l, k) == o.vmas[k].buf;
        }
        MappedSwap(v, o, length, prot, b, if file then size else 0);
        if file { TableStep(v, r, l, t, {}, {b}); } else { TableStep(v, r, l, t, {}, {}); }
      }
    }
  }

  lemma MappedSwap(v: Vm, o: Table, length: nat, prot: nat, b: nat, size: nat)
    requires TableOk(o) && CanMap(o, length)
    requires (forall k {:trigger o.vmas[k]} :: 0 <= k < SLOTS ==> o.vmas[k].buf == 0 || o.vmas[k].buf < v.nextBuf)
    requires (b == 0 || b == v.nextBuf)
    ensures Swap(o, Mapped(o, length, prot, b, size), {}, if b == 0 then {} else {b})
  {
    var t, s := Mapped(o, length, prot, b, size), FreeSlot(o.vmas);
    assert t.vmas[s].buf == b && o.vmas[s].buf == 0;
  }

  /** What munmap frees is what the covered slots held. */
  lemma {:induction false} SnapshotsAre(vs: seq<Vma>, addr: nat, end: nat, n: nat, b: nat)
    requires n <= |vs|
    ensures b in Snapshots(vs, addr, end, n) <==> b != 0 && exists k {:trigger vs[k]} ::
              0 <= k < n && Covered(vs[k], addr, end) && vs[k].buf == b
    decreases n
  {
    if n > 0 { SnapshotsAre(vs, addr, end, n - 1, b); }
  }

  lemma MunmapInv(v: Vm, i: nat, addr: nat, end: nat)
    requires Inv(v) && i < |v.tasks|
    ensures Inv(MunmapNext(v, i, addr, end))
  {
    var l, r := Leader(v.tasks, i), MunmapNext(v, i, addr, end);
    LeaderLeads(v, i);
    var o := v.tasks[l].table;
    UnmappedOk(o, addr, end);
    var t, gone := Unmapped(o, addr, end), Snapshots(o.vmas, addr, end, SLOTS);
    forall b
      ensures b in gone <==> b != 0 && exists k {:trigger o.vmas[k]} ::
                0 <= k < SLOTS && Covered(o.vmas[k], addr, end) && o.vmas[k].buf == b
    {
      SnapshotsAre(o.vmas, addr, end, SLOTS, b);
    }
    forall k, m | 0 <= k < SLOTS && 0 <= m < SLOTS && o.vmas[k].buf != 0 && o.vmas[k].buf == o.vmas[m].buf
      ensures k == m
    {
      SameSlot(v, l, k, m);
    }
    UnmappedSwap(o, addr, end, gone);
    TableStep(v, r, l, t, gone, {});
  }

  lemma SameSlot(v: Vm, l: nat, k: nat, m: nat)
    requires Inv(v) && l < |v.tasks| && k < |v.tasks[l].table.vmas| && m < |v.tasks[l].table.vmas|
    requires v.tasks[l].table.vmas[k].buf != 0 && v.tasks[l].table.vmas[k].buf == v.tasks[l].table.vmas[m].buf
    ensures k == m
  {
    IsAlone(v, l, k, l, m);
  }

  lemma UnmappedSwap(o: Table, addr: nat, end: nat, gone: set<nat>)
    requires TableOk(o) && forall b {:trigger b in gone} :: b in gone <==> b != 0 && exists k {:trigger o.vmas[k]} ::
              0 <= k < SLOTS && Covered(o.vmas[k], addr, end) && o.vmas[k].buf == b
    requires forall k, m {:trigger o.vmas[k], o.vmas[m]} ::
              0 <= k < SLOTS && 0 <= m < SLOTS && o.vmas[k].buf != 0 && o.vmas[k].buf == o.vmas[m].buf ==> k == m
    ensures Swap(o, Unmapped(o, addr, end), gone, {})
  {
    hide TableOk;
    assert |o.vmas| == SLOTS by { TableSlots(o); }
    var t := Unmapped(o, addr, end);
    forall k | 0 <= k < SLOTS && o.vmas[k].buf != 0 ensures o.vmas[k].buf in gone <==> t.vmas[k].buf != o.vmas[k].buf {
      assert t.vmas[k] == Dropped(o.vmas[k], addr, end);
      if o.vmas[k].buf in gone {
        var m :| 0 <= m < SLOTS && Covered(o.vmas[m], addr, end) && o.vmas[m].buf == o.vmas[k].buf;
        assert m == k;
      }
    }
  }

  lemma TableSlots(t: Table)
    requires TableOk(t)
    ensures |t.vmas| == SLOTS
  {
  }

  /** exec frees what the caller's table holds, and nothing else. */
  lemma ExecInv(v: Vm, i: nat)
    requires Inv(v) && i < |v.tasks|
    ensures Inv(ExecNext(v, i))
  {
    assert TaskOk(v, i);
    var o, r := v.tasks[i].table, ExecNext(v, i);
    var t := r.tasks[i].table;
    assert TableOk(t);
    forall k, m | 0 <= k < SLOTS && 0 <= m < SLOTS && o.vmas[k].buf != 0 && o.vmas[k].buf == o.vmas[m].buf
      ensures k == m
    {
      SameSlot(v, i, k, m);
    }
    assert Swap(o, t, Owned(o), {});
    TableStep(v, r, i, t, Owned(o), {});
  }

  /** Another thread of the group led by `i`; it keeps the address space when the leader execs. */
  predicate Sibling(tasks: seq<Task>, i: nat, j: nat) { i < |tasks| && j < |tasks| && j != i && Leader(tasks, j) == i }

  /** From state `r` on, no thread of the group that `i` led in `v` is given an address that was
      handed out in the space it lives in. */
  ghost predicate Unrepeated(v: Vm, r: Vm, i: nat)
    requires i < |v.tasks|
  {
    forall j: nat, k: nat {:trigger r.tasks[j], v.tasks[i].table.issued[k]} ::
      Sibling(v.tasks, i, j) && j < |r.tasks| && k < |v.tasks[i].table.issued|
      ==> v.tasks[i].table.issued[k].1 <= Base(r.tasks[Leader(r.tasks, j)].table)
  }

  /** After a leader's exec that holds if and only if it has no other thread or nothing was mapped. */
  lemma ExecUnrepeated(v: Vm, i: nat)
    requires Inv(v) && i < |v.tasks| && Leads(v.tasks[i])
    ensures Unrepeated(v, ExecNext(v, i), i) <==> v.tasks[i].table.issued == [] || forall j: nat ::
              !Sibling(v.tasks, i, j)
  {
    var r := ExecNext(v, i);
    var old_ := v.tasks[i].table.issued;
    assert TaskOk(v, i);
    forall j: nat | Sibling(v.tasks, i, j) ensures j < |r.tasks| && Leader(r.tasks, j) == i { SameLeader(v, r, i, j); }
    if old_ != [] && exists j: nat :: Sibling(v.tasks, i, j) {
      var j: nat :| Sibling(v.tasks, i, j);
      assert Leader(r.tasks, j) == i && Base(r.tasks[i].table) == MMAP_BASE;
      assert old_[0].1 > MMAP_BASE && r.tasks[j] == v.tasks[j];
    }
  }

  lemma SameLeader(v: Vm, r: Vm, i: nat, j: nat)
    requires Sibling(v.tasks, i, j) && i < |r.tasks| && r.tasks == v.tasks[i := v.tasks[i].(table := r.tasks[i].table)]
    ensures Leader(r.tasks, j) == Leader(v.tasks, j)
  {
    SameIndex(v.tasks, r.tasks, v.tasks[j].tgid);
  }

  lemma SameIndex(a: seq<Task>, b: seq<Task>, pid: nat)
    requires |a| == |b| && forall k :: 0 <= k < |a| ==> a[k].pid == b[k].pid
    ensures IndexOf(a, pid) == IndexOf(b, pid)
  {
    var x, y := IndexOf(a, pid), IndexOf(b, pid);
    assert x < |a| ==> a[x].pid == b[x].pid;
    assert y < |b| ==> a[y].pid == b[y].pid;
  }

  // ---- a new task ----------------------------------------------------------

  /** A task with a new pid joins; its snapshots are fresh, and it owns any only as a leader. */
  lemma JoinInv(v: Vm, r: Vm, n: Task, more: set<nat>)
    requires Inv(v) && r.tasks == v.tasks + [n] && r.live == v.live + more && r.nextPid == v.nextPid + 1
    requires Fresh(v, r, more)
    requires n.pid == v.nextPid && 0 < v.nextPid && TableOk(n.table) && (!Leads(n) ==> Orphanless(r.tasks, |v.tasks|))
    requires forall k {:trigger n.table.vmas[k]} ::
              0 <= k < SLOTS && n.table.vmas[k].buf != 0 ==> n.table.vmas[k].buf in more && Leads(n)
    requires forall b {:trigger b in more} :: b in more ==> exists k {:trigger n.table.vmas[k]} ::
              0 <= k < SLOTS && n.table.vmas[k].buf == b
    requires forall k, m {:trigger n.table.vmas[k], n.table.vmas[m]} ::
              0 <= k < m < SLOTS && n.table.vmas[k].buf != 0 ==> n.table.vmas[k].buf != n.table.vmas[m].buf
    ensures Inv(r)
  {
    assert |n.table.vmas| == SLOTS by { TableSlots(n.table); }
    hide TableOk;
    var last := |v.tasks|;
    forall i | 0 <= i < |r.tasks| ensures TaskOk(r, i) {
      if i < last {
        assert TaskOk(v, i) && r.tasks[i] == v.tasks[i];
        if !Leads(v.tasks[i]) {
          var m :| 0 <= m < |v.tasks| && v.tasks[m].pid == v.tasks[i].tgid && Leads(v.tasks[m]);
          assert r.tasks[m] == v.tasks[m];
        }
      }
    }
    forall i, j | 0 <= i < j < |r.tasks| ensures r.tasks[i].pid != r.tasks[j].pid { assert TaskOk(v, i); }
    forall i, k | 0 <= i < |r.tasks|
      ensures SlotOk(r, i, k)
    {
      if i < last { assert SlotOk(v, i, k) && Buf(r.tasks, i, k) == Buf(v.tasks, i, k); }
    }
    forall i, k, j, l | 0 <= i < |r.tasks| && 0 <= j < |r.tasks| ensures Alone(r.tasks, i, k, j, l) {
      if i < last { OldBuf(v, i, k); assert Buf(r.tasks, i, k) == Buf(v.tasks, i, k); }
      if j < last { OldBuf(v, j, l); assert Buf(r.tasks, j, l) == Buf(v.tasks, j, l); }
      if i < last && j < last { IsAlone(v, i, k, j, l); }
    }
    forall b | b in r.live ensures 0 < b < r.nextBuf && HasOwner(r, b) {
      if b in more {
        var k :| 0 <= k < SLOTS && n.table.vmas[k].buf == b;
        assert Buf(r.tasks, last, k) == b;
      } else {
        assert HasOwner(v, b);
        var i, k :| 0 <= i < |v.tasks| && Buf(v.tasks, i, k) == b;
        assert Buf(r.tasks, i, k) == b;
      }
    }
  }

  /** Nothing handed out in the group lies beyond the forker's own bump pointer. */
  ghost predicate CaughtUp(v: Vm, i: nat)
    requires i < |v.tasks|
  {
    var t, l := v.tasks[i].table, v.tasks[Leader(v.tasks, i)].table;
    (t.next < MMAP_BASE ==> l.issued == []) && forall k {:trigger l.issued[k]} ::
        0 <= k < |l.issued| ==> l.issued[k].1 <= t.next
  }

  /** A leader is, and so is a thread whose bump pointer is not behind the leader's. */
  lemma LeaderCaughtUp(v: Vm, i: nat)
    requires Inv(v) && i < |v.tasks|
    ensures Leads(v.tasks[i]) || v.tasks[Leader(v.tasks, i)].table.next <= v.tasks[i].table.next ==> CaughtUp(v, i)
  {
    LeaderLeads(v, i);
    assert TaskOk(v, i);
  }

  /** fork: the child owns its own copies, and no address of its space will be handed out again, if
      and only if the forker had caught up with its group. */
  lemma ForkInv(v: Vm, i: nat, got: seq<bool>)
    requires Inv(v) && i < |v.tasks| && 0 < v.nextPid && 0 < v.nextBuf
    ensures Inv(ForkNext(v, i, got)) <==> CaughtUp(v, i)
  {
    assert TaskOk(v, i);
    LeaderLeads(v, i);
    var o, l, r := v.tasks[i].table, v.tasks[Leader(v.tasks, i)].table, ForkNext(v, i, got);
    var n := r.tasks[|v.tasks|];
    CopiedOk(o, v.nextBuf, got);
    Reissued(Copied(o, v.nextBuf, got), l);
    hide TableOk, Copied;
    if CaughtUp(v, i) {
      JoinInv(v, r, n, Copies(o, v.nextBuf, got));
    } else {
      assert !TaskOk(r, |v.tasks|);
    }
  }

  lemma Reissued(t: Table, l: Table)
    requires TableOk(t) && TableOk(l)
    ensures TableOk(t.(issued := l.issued)) <==>
              (t.next < MMAP_BASE ==> l.issued == []) && forall k {:trigger l.issued[k]} ::
                  0 <= k < |l.issued| ==> l.issued[k].1 <= t.next
  {
    var r := t.(issued := l.issued);
    forall k | 0 <= k < SLOTS ensures RegionOk(r, r.vmas[k]) { assert RegionOk(t, t.vmas[k]); }
  }

  /** A fork that fails that late leaks exactly the snapshots it had copied. */
  lemma ForkFailInv(v: Vm, i: nat, got: seq<bool>)
    requires Inv(v) && i < |v.tasks| && 0 < v.nextPid && 0 < v.nextBuf
    ensures Inv(ForkFailNext(v, i, got)) <==> Copies(v.tasks[i].table, v.nextBuf, got) == {}
  {
    hide TableOk;
    var r, more := ForkFailNext(v, i, got), Copies(v.tasks[i].table, v.nextBuf, got);
    if more == {} {
      forall j | 0 <= j < |r.tasks| ensures TaskOk(r, j) { assert TaskOk(v, j); }
      forall j, k | 0 <= j < |r.tasks| ensures SlotOk(r, j, k) { assert SlotOk(v, j, k); }
      forall b | b in r.live ensures 0 < b < r.nextBuf && HasOwner(r, b) { assert HasOwner(v, b); }
    } else if Inv(r) {
      var b :| b in more;
      assert HasOwner(r, b);
      var j, k :| 0 <= j < |r.tasks| && Buf(r.tasks, j, k) == b;
      OldBuf(v, j, k);
    }
  }

  lemma CopiedOk(o: Table, first: nat, got: seq<bool>)
    requires TableOk(o) && 0 < first
    ensures var t, more := Copied(o, first, got), Copies(o, first, got);
            && TableOk(t)
            && (forall k {:trigger t.vmas[k]} :: 0 <= k < SLOTS && t.vmas[k].buf != 0 ==> t.vmas[k].buf in more)
            && (forall b {:trigger b in more} ::
                  b in more ==> first <= b < first + SLOTS && exists k {:trigger t.vmas[k]} ::
                      0 <= k < SLOTS && t.vmas[k].buf == b)
            && (forall k, m {:trigger t.vmas[k], t.vmas[m]} ::
                  0 <= k < m < SLOTS && t.vmas[k].buf != 0 ==> t.vmas[k].buf != t.vmas[m].buf)
  {
    var t := Copied(o, first, got);
    forall k | 0 <= k < SLOTS
      ensures RegionOk(t, t.vmas[k]) && (!t.vmas[k].used ==> t.vmas[k].buf == 0)
      ensures (t.vmas[k].buf == 0 || t.vmas[k].buf == first + k)
    {
      assert RegionOk(o, o.vmas[k]);
    }
    forall k, m | 0 <= k < m < SLOTS && t.vmas[k].used && t.vmas[m].used
      ensures !Overlap(t.vmas[k].start, t.vmas[k].end, t.vmas[m].start, t.vmas[m].end)
    {
      assert o.vmas[k].used && o.vmas[m].used;
    }
    forall b | b in Copies(o, first, got)
      ensures first <= b < first + SLOTS && exists k {:trigger t.vmas[k]} :: 0 <= k < SLOTS && t.vmas[k].buf == b
    {
      var k :| 0 <= k < |o.vmas| && k < |got| && o.vmas[k].used && o.vmas[k].buf != 0 && got[k] && b == first + k;
      assert t.vmas[k].buf == b;
    }
  }

  /** clone: the thread owns nothing. */
  lemma CloneInv(v: Vm, i: nat)
    requires Inv(v) && i < |v.tasks| && 0 < v.nextPid
    ensures Inv(CloneNext(v, i))
  {
    assert TaskOk(v, i);
    LeaderLeads(v, i);
    var r, l := CloneNext(v, i), Leader(v.tasks, i);
    DisownedOk(v.tasks[i].table);
    assert r.tasks[l] == v.tasks[l];
    JoinInv(v, r, r.tasks[|v.tasks|], {});
  }

  // ---- a task is freed -----------------------------------------------------

  /** The first other task in the group led by task `j`, or the number of tasks. */
  function Heir(tasks: seq<Task>, j: nat, from: nat): (h: nat)
    requires j < |tasks| && from <= |tasks|
    ensures from <= h <= |tasks| && (h < |tasks| ==> h != j && tasks[h].tgid == tasks[j].pid)
    ensures forall i {:trigger tasks[i]} :: from <= i < h && i != j ==> tasks[i].tgid != tasks[j].pid
    decreases |tasks| - from
  {
    if from == |tasks| then from else if from != j && tasks[from].tgid == tasks[j].pid then from
        else Heir(tasks, j, from + 1)
  }

  /** One entry of the table after the hand-over from `j` to `h`. */
  function Handed(tasks: seq<Task>, j: nat, h: nat, i: nat): (t: Task)
    requires j < |tasks| && h < |tasks| && i < |tasks|
  {
    if i == h then Task(tasks[i].pid, 0, tasks[j].table)
    else if i == j then tasks[j].(table := Disowned(tasks[j].table))
    else if tasks[i].tgid == tasks[j].pid then tasks[i].(tgid := tasks[h].pid)
    else tasks[i]
  }

  /** tg_reassign_leader with heir `h`. */
  function HandOver(v: Vm, j: nat, h: nat): (r: Vm)
    requires j < |v.tasks| && h < |v.tasks|
    ensures |r.tasks| == |v.tasks|
  {
    v.(tasks := seq(|v.tasks|, i requires 0 <= i < |v.tasks| => Handed(v.tasks, j, h, i)))
  }

  /** `h` is a surviving thread of the group led by `j`. */
  predicate InGroup(tasks: seq<Task>, j: nat, h: nat) {
    j < |tasks| && h < |tasks| && h != j && tasks[h].tgid == tasks[j].pid
  }

  /** A freed task leaves the table by swap-removal, after mmap_free_bufs. */
  function Freed(v: Vm, j: nat): (r: Vm)
    requires j < |v.tasks|
  {
    var n := |v.tasks| - 1;
    v.(tasks := v.tasks[j := v.tasks[n]][..n], live := v.live - Owned(v.tasks[j].table))
  }

  /** The heir when the entry is removed before the search, as reap_user_process does. */
  function LateHeir(tasks: seq<Task>, j: nat): (h: nat)
    requires j < |tasks|
    ensures h == |tasks| || InGroup(tasks, j, h)
    ensures h == |tasks| <==> Heir(tasks, j, 0) == |tasks|
  {
    var n, first := |tasks| - 1, Heir(tasks, j, 0);
    if j < n && j < first && tasks[n].tgid == tasks[j].pid then n else first
  }

  /** Reaping: hand over, free the snapshots left, drop the entry. */
  function ReapNext(v: Vm, j: nat, late: bool): (r: Vm)
    requires j < |v.tasks|
  {
    var h := if late then LateHeir(v.tasks, j) else Heir(v.tasks, j, 0);
    Freed(if h == |v.tasks| then v else HandOver(v, j, h), j)
  }

  /** Where the snapshots of entry `i` came from. */
  function Source(j: nat, h: nat, i: nat): nat { if i == h then j else if i == j then h else i }

  /** The heir is a thread, so it owned nothing; afterwards it owns what the leader owned. */
  lemma HandedBuf(v: Vm, j: nat, h: nat, i: nat, k: nat)
    requires Inv(v) && j < |v.tasks| && h < |v.tasks| && h != j && v.tasks[h].tgid == v.tasks[j].pid && i < |v.tasks|
    ensures Buf(v.tasks, h, k) == 0 && v.tasks[j].pid != 0 && !Leads(v.tasks[h])
    ensures var t := Handed(v.tasks, j, h, i);
            (if k < |t.table.vmas| then t.table.vmas[k].buf else 0) == Buf(v.tasks, Source(j, h, i), k)
  {
    assert TaskOk(v, h) && TaskOk(v, j);
    assert v.tasks[h].pid != v.tasks[j].pid;
    assert SlotOk(v, h, k);
  }

  lemma HandOverInv(v: Vm, j: nat, h: nat)
    requires Inv(v) && InGroup(v.tasks, j, h)
    ensures var r := HandOver(v, j, h);
            Inv(r) && forall i {:trigger r.tasks[i]} ::
                0 <= i < |v.tasks| && i != j ==> r.tasks[i].tgid != r.tasks[j].pid
  {
    hide TableOk, Disowned, Handed;
    var r := HandOver(v, j, h);
    forall i | 0 <= i < |v.tasks|
      ensures r.tasks[i] == Handed(v.tasks, j, h, i) && r.tasks[i].pid == v.tasks[i].pid
      ensures (i != j ==> r.tasks[i].tgid != v.tasks[j].pid)
    {
      HandedIds(v, j, h, i);
    }
    HandedBuf(v, j, h, j, 0);
    assert TaskOk(v, j) && TaskOk(v, h);
    forall i | 0 <= i < |r.tasks| ensures TaskOk(r, i) { HandedTask(v, j, h, i, r); }
    forall i, k | 0 <= i < |r.tasks| ensures SlotOk(r, i, k) { HandedSlot(v, j, h, i, k, r); }
    forall a, k, b, l | 0 <= a < |r.tasks| && 0 <= b < |r.tasks| ensures Alone(r.tasks, a, k, b, l) {
      HandedBuf(v, j, h, a, k);
      HandedBuf(v, j, h, b, l);
      IsAlone(v, Source(j, h, a), k, Source(j, h, b), l);
    }
    forall b | b in r.live ensures 0 < b < r.nextBuf && HasOwner(r, b) {
      assert HasOwner(v, b);
      var i, k :| 0 <= i < |v.tasks| && Buf(v.tasks, i, k) == b;
      HandedBuf(v, j, h, Source(j, h, i), k);
      assert Buf(r.tasks, Source(j, h, i), k) == b;
    }
  }

  lemma HandedIds(v: Vm, j: nat, h: nat, i: nat)
    requires Inv(v) && j < |v.tasks| && h < |v.tasks| && h != j && v.tasks[h].tgid == v.tasks[j].pid && i < |v.tasks|
    ensures Handed(v.tasks, j, h, i).pid == v.tasks[i].pid
    ensures (i != j ==> Handed(v.tasks, j, h, i).tgid != v.tasks[j].pid)
  {
    hide TableOk;
    assert TaskOk(v, j) && TaskOk(v, h);
    assert v.tasks[h].pid != v.tasks[j].pid;
  }

  lemma HandedTask(v: Vm, j: nat, h: nat, i: nat, r: Vm)
    requires Inv(v) && InGroup(v.tasks, j, h) && i < |v.tasks| && r == HandOver(v, j, h)
    ensures TaskOk(r, i)
  {
    HandedBuf(v, j, h, j, 0);
    assert TaskOk(v, i) && TaskOk(v, j) && TaskOk(v, h);
    assert r.tasks[i] == Handed(v.tasks, j, h, i);
    DisownedOk(v.tasks[j].table);
    if !Leads(r.tasks[i]) {
      if i != j && v.tasks[i].tgid == v.tasks[j].pid {
        assert r.tasks[h].pid == r.tasks[i].tgid && Leads(r.tasks[h]);
      } else if i != j {
        var m :| 0 <= m < |v.tasks| && v.tasks[m].pid == v.tasks[i].tgid && Leads(v.tasks[m]);
        assert r.tasks[m] == Handed(v.tasks, j, h, m);
        assert m != j && m != h;
        assert r.tasks[m].pid == r.tasks[i].tgid && Leads(r.tasks[m]);
      } else {
        ThreadLeadsNone(v, j, h);
      }
    }
  }

  /** A thread has no heir: nobody is in a group led by a thread. */
  lemma ThreadLeadsNone(v: Vm, j: nat, h: nat)
    requires Inv(v) && j < |v.tasks| && h < |v.tasks| && h != j && v.tasks[h].tgid == v.tasks[j].pid
    ensures Leads(v.tasks[j])
  {
    HandedBuf(v, j, h, j, 0);
    assert TaskOk(v, h);
    var m :| 0 <= m < |v.tasks| && v.tasks[m].pid == v.tasks[h].tgid && Leads(v.tasks[m]);
    SameTask(v, m, j);
  }

  lemma HandedSlot(v: Vm, j: nat, h: nat, i: nat, k: nat, r: Vm)
    requires Inv(v) && InGroup(v.tasks, j, h) && i < |v.tasks| && r == HandOver(v, j, h)
    ensures SlotOk(r, i, k)
  {
    HandedBuf(v, j, h, i, k);
    assert r.tasks[i] == Handed(v.tasks, j, h, i);
    assert SlotOk(v, Source(j, h, i), k);
    HandedBuf(v, j, h, j, k);
  }

  /** The old index of entry `i` after swap-removal of `j`. */
  function Was(j: nat, n: nat, i: nat): nat { if i == j then n else i }

  lemma FreedInv(v: Vm, j: nat)
    requires Inv(v) && j < |v.tasks| && forall i {:trigger v.tasks[i]} ::
              0 <= i < |v.tasks| && i != j ==> v.tasks[i].tgid != v.tasks[j].pid
    ensures Inv(Freed(v, j))
  {
    var n, r := |v.tasks| - 1, Freed(v, j);
    assert forall i {:trigger r.tasks[i]} :: 0 <= i < n ==> r.tasks[i] == v.tasks[Was(j, n, i)];
    forall i | 0 <= i < n ensures TaskOk(r, i) {
      var o := Was(j, n, i);
      assert TaskOk(v, o) && r.tasks[i] == v.tasks[o];
      if !Leads(v.tasks[o]) {
        var m :| 0 <= m < |v.tasks| && v.tasks[m].pid == v.tasks[o].tgid && Leads(v.tasks[m]);
        assert m != j;
        var m' := if m == n then j else m;
        assert r.tasks[m'] == v.tasks[m];
      }
    }
    forall a, b | 0 <= a < b < n ensures r.tasks[a].pid != r.tasks[b].pid {
      assert r.tasks[a] == v.tasks[Was(j, n, a)] && r.tasks[b] == v.tasks[Was(j, n, b)];
    }
    forall i, k | 0 <= i < n ensures SlotOk(r, i, k) { FreedSlot(v, j, i, k); }
    forall a, k, b, l | 0 <= a < n && 0 <= b < n ensures Alone(r.tasks, a, k, b, l) {
      assert r.tasks[a] == v.tasks[Was(j, n, a)] && r.tasks[b] == v.tasks[Was(j, n, b)];
      IsAlone(v, Was(j, n, a), k, Was(j, n, b), l);
    }
    forall b | b in r.live ensures 0 < b < r.nextBuf && HasOwner(r, b) {
      assert HasOwner(v, b);
      var i, k :| 0 <= i < |v.tasks| && Buf(v.tasks, i, k) == b;
      assert i != j;
      var i' := if i == n then j else i;
      assert r.tasks[i'] == v.tasks[i];
      assert Buf(r.tasks, i', k) == b;
    }
  }

  lemma FreedSlot(v: Vm, j: nat, i: nat, k: nat)
    requires Inv(v) && j < |v.tasks| && i < |v.tasks| - 1
    ensures SlotOk(Freed(v, j), i, k)
  {
    var n, r := |v.tasks| - 1, Freed(v, j);
    var o := Was(j, n, i);
    assert r.tasks[i] == v.tasks[o] && SlotOk(v, o, k);
    var b := Buf(v.tasks, o, k);
    if b != 0 && b in Owned(v.tasks[j].table) {
      var m :| 0 <= m < |v.tasks[j].table.vmas| && v.tasks[j].table.vmas[m].buf != 0
          && v.tasks[j].table.vmas[m].buf == b;
      IsAlone(v, o, k, j, m);
    }
  }

  /** Freeing a task, leader or thread, frees its own snapshots only, and those of a group with
      surviving threads not at all; whichever order the reaper uses. */
  lemma ReapInv(v: Vm, j: nat, late: bool)
    requires Inv(v) && j < |v.tasks|
    ensures Inv(ReapNext(v, j, late))
    ensures Heir(v.tasks, j, 0) < |v.tasks| ==> ReapNext(v, j, late).live == v.live
  {
    hide TableOk, Disowned, Freed;
    var h := if late then LateHeir(v.tasks, j) else Heir(v.tasks, j, 0);
    if h == |v.tasks| {
      FreedInv(v, j);
    } else {
      HandOverInv(v, j, h);
      FreedInv(HandOver(v, j, h), j);
      NothingOwned(v, j, h);
    }
  }

  lemma NothingOwned(v: Vm, j: nat, h: nat)
    requires Inv(v) && InGroup(v.tasks, j, h)
    ensures Freed(HandOver(v, j, h), j).live == v.live
  {
    assert TaskOk(v, j);
    DisownedOk(v.tasks[j].table);
    assert HandOver(v, j, h).tasks[j].table == Disowned(v.tasks[j].table);
    assert Owned(Disowned(v.tasks[j].table)) == {};
  }

  /** Removing the entry first and searching the compacted table finds that heir. */
  lemma {:induction false} LateHeirIs(tasks: seq<Task>, j: nat, k: nat)
    requires j < |tasks| && k < |tasks| - 1
    requires var rest := tasks[j := tasks[|tasks| - 1]][..|tasks| - 1];
             rest[k].tgid == tasks[j].pid && forall i {:trigger rest[i]} :: 0 <= i < k ==> rest[i].tgid != tasks[j].pid
    ensures LateHeir(tasks, j) == Was(j, |tasks| - 1, k)
  {
    var n := |tasks| - 1;
    var rest := tasks[j := tasks[n]][..n];
    var f, w := Heir(tasks, j, 0), Was(j, n, k);
    assert rest[k] == tasks[w] && w != j && tasks[w].tgid == tasks[j].pid;
    assert f <= w;
    forall i | 0 <= i < k && i != j ensures tasks[i].tgid != tasks[j].pid { assert rest[i] == tasks[i]; }
    if j < k { assert rest[j] == tasks[n]; }
  }

  // ---- whole runs ----------------------------------------------------------

  datatype Op =
    | MmapOp(i: nat, length: nat, prot: nat, file: bool, size: nat, snapped: bool)
    | MunmapOp(i: nat, addr: nat, end: nat)
    | ForkOp(i: nat, got: seq<bool>)
    | ForkFailOp(i: nat, got: seq<bool>)
    | CloneOp(i: nat)
    | ExecOp(i: nat)
    | ReapOp(i: nat, late: bool)

  /** Any task may act, within the exact conditions: mmap lengths do not wrap, a forker has caught up
      with its group, and a fork that fails late has copied no snapshot. */
  ghost predicate Enabled(v: Vm, op: Op) {
    && op.i < |v.tasks| && 0 < v.nextPid && 0 < v.nextBuf && (op.MmapOp? ==> op.length <= TWO64 - PAGE)
    && (op.ForkOp? ==> CaughtUp(v, op.i)) && (op.ForkFailOp? ==> Copies(v.tasks[op.i].table, v.nextBuf, op.got) == {})
  }

  ghost function Next(v: Vm, op: Op): (r: Vm)
    requires Enabled(v, op)
  {
    match op
    case MmapOp(i, length, prot, file, size, snapped) => MmapNext(v, i, length, prot, file, size, snapped)
    case MunmapOp(i, addr, end) => MunmapNext(v, i, addr, end)
    case ForkOp(i, got) => ForkNext(v, i, got)
    case ForkFailOp(i, got) => ForkFailNext(v, i, got)
    case CloneOp(i) => CloneNext(v, i)
    case ExecOp(i) => ExecNext(v, i)
    case ReapOp(i, late) => ReapNext(v, i, late)
  }

  ghost predicate Runs(v: Vm, ops: seq<Op>)
    decreases |ops|
  {
    ops == [] || (Enabled(v, ops[0]) && Runs(Next(v, ops[0]), ops[1..]))
  }

  ghost function After(v: Vm, ops: seq<Op>): (r: Vm)
    requires Runs(v, ops)
    decreases |ops|
  {
    if ops == [] then v else After(Next(v, ops[0]), ops[1..])
  }

  /** Over every run: regions stay aligned, disjoint and inside the window, no address is handed out
      twice between execs, and each snapshot has exactly one owner until it is freed once. */
  lemma {:induction false} RunInv(v: Vm, ops: seq<Op>)
    requires Inv(v) && Runs(v, ops)
    ensures Inv(After(v, ops))
    decreases |ops|
  {
    hide Inv, MmapNext, MunmapNext, ForkNext, ForkFailNext, CloneNext, ExecNext, ReapNext, CaughtUp;
    if ops != [] {
      match ops[0] {
        case MmapOp(i, length, prot, file, size, snapped) => MmapInv(v, i, length, prot, file, size, snapped);
        case MunmapOp(i, addr, end) => MunmapInv(v, i, addr, end);
        case ForkOp(i, got) => ForkInv(v, i, got);
        case ForkFailOp(i, got) => ForkFailInv(v, i, got);
        case CloneOp(i) => CloneInv(v, i);
        case ExecOp(i) => ExecInv(v, i);
        case ReapOp(i, late) => ReapInv(v, i, late);
      }
      RunInv(Next(v, ops[0]), ops[1..]);
    }
  }

  // ---- where the conditions are needed -------------------------------------

  function EmptyTable(): (t: Table) { Table(seq(SLOTS, k => EMPTY), 0, []) }

  /** One process that has mapped nothing. */
  function Boot(): (v: Vm) { Vm([Task(1, 0, EmptyTable())], {}, 1, 2) }

  lemma BootInv()
    ensures Inv(Boot())
  {
  }

  /** A thread is cloned, the leader maps a page, the thread forks: the child's first mmap is given
      the address of that page, which its address space inherited. */
  lemma StaleFork()
    ensures var v := MmapNext(CloneNext(Boot(), 0), 0, PAGE, 0, false, 0, true);
            Inv(v) && |v.tasks| == 2 && !CaughtUp(v, 1) && !Inv(ForkNext(v, 1, []))
            && var c := ForkNext(v, 1, []).tasks[2].table; CanMap(c, PAGE) && (Base(c), Base(c) + PAGE) in c.issued
  {
    BootInv();
    CloneInv(Boot(), 0);
    var u := CloneNext(Boot(), 0);
    MmapInv(u, 0, PAGE, 0, false, 0, true);
    var v := MmapNext(u, 0, PAGE, 0, false, 0, true);
    assert Leader(u.tasks, 0) == 0;
    assert CanMap(u.tasks[0].table, PAGE) && RoundUp(PAGE) == PAGE;
    assert v.tasks[0].table.issued == [(MMAP_BASE, MMAP_BASE + PAGE)];
    assert v.tasks[1] == u.tasks[1] && u.tasks[1].table.next == 0 && u.tasks[1].tgid == 1;
    assert Leader(v.tasks, 1) == 0;
    ForkInv(v, 1, []);
    var c := ForkNext(v, 1, []).tasks[2].table;
    assert c.issued[0] == (MMAP_BASE, MMAP_BASE + PAGE);
    assert !c.vmas[0].used;
  }

  /** A thread is cloned, the leader maps a page and execs: the thread's first mmap is given the
      address of that page, which is mapped in the space it still runs in. */
  lemma StaleExec()
    ensures var v := MmapNext(CloneNext(Boot(), 0), 0, PAGE, 0, false, 0, true);
            var r := ExecNext(v, 0);
            && Inv(v) && Inv(r) && Sibling(v.tasks, 0, 1) && !Unrepeated(v, r, 0)
            && var l := r.tasks[Leader(r.tasks, 1)].table;
               CanMap(l, PAGE) && (Base(l), Base(l) + PAGE) in v.tasks[0].table.issued
  {
    hide Inv;
    StaleFork();
    var v := MmapNext(CloneNext(Boot(), 0), 0, PAGE, 0, false, 0, true);
    StaleTables();
    ExecInv(v, 0);
    ExecUnrepeated(v, 0);
    var r := ExecNext(v, 0);
    SameLeader(v, r, 0, 1);
    assert !r.tasks[0].table.vmas[0].used;
  }

  lemma StaleTables()
    ensures var v := MmapNext(CloneNext(Boot(), 0), 0, PAGE, 0, false, 0, true);
            && |v.tasks| == 2 && Leads(v.tasks[0]) && Leader(v.tasks, 1) == 0 && |v.tasks[0].table.vmas| == SLOTS
            && v.tasks[0].table.issued == [(MMAP_BASE, MMAP_BASE + PAGE)]
  {
    var u := CloneNext(Boot(), 0);
    var v := MmapNext(u, 0, PAGE, 0, false, 0, true);
    assert Leader(u.tasks, 0) == 0;
    assert CanMap(u.tasks[0].table, PAGE) && RoundUp(PAGE) == PAGE;
    assert v.tasks[1] == u.tasks[1] && u.tasks[1].tgid == 1;
    assert v.tasks[0].pid == 1;
  }

  /** A process with one file mapping forks and the fork fails late: the copy has no owner. */
  lemma LeakedCopy()
    ensures var v := MmapNext(Boot(), 0, PAGE, 0, true, 1, true);
            Inv(v) && var r := ForkFailNext(v, 0, [true]); 2 in r.live && !HasOwner(r, 2)
  {
    BootInv();
    MmapInv(Boot(), 0, PAGE, 0, true, 1, true);
    var v := MmapNext(Boot(), 0, PAGE, 0, true, 1, true);
    assert CanMap(Boot().tasks[0].table, PAGE) && RoundUp(PAGE) == PAGE;
    var t := v.tasks[0].table;
    assert t.vmas[0].used && t.vmas[0].buf == 1 && v.nextBuf == 2;
    assert 2 + 0 in Copies(t, 2, [true]);
    var r := ForkFailNext(v, 0, [true]);
    forall j, k | 0 <= j < |r.tasks| ensures Buf(r.tasks, j, k) != 2 { OldBuf(v, j, k); }
  }
}
