/** Exit and wait on one core (kernel/process.c) as an interleaving state machine: each region
    with interrupts masked is one step, and any blocked process may be woken at any time. */
module Processes {
  /** PROC_PARKED, PROC_RUN, PROC_ZOMBIE, PROC_BLOCKED, PROC_STOPPED. */
  datatype State = Dormant | Running | Zombie | Blocked | Stopped

  /** The blocking call a process is inside: waitpid, kwait, kwait_all, or something else. */
  datatype Call = WaitPid(wpid: int) | KWait(pid: nat) | KWaitAll | Elsewhere

  datatype Proc = Proc(pid: nat, ppid: nat, state: State, waitingFor: nat, user: bool, managed: bool, code: int,
      reported: bool, sig: nat, call: Call)

  /** An exit status handed to a parent by waitpid. */
  datatype Collected = Collected(parent: nat, child: nat, code: int)

  /** The table, its cursor and the next pid; and the history: statuses collected, the parent of
      every process ever created, the status of every process that exited. */
  datatype Sys = Sys(procs: seq<Proc>, cur: nat, next: nat, log: seq<Collected>, born: map<nat, nat>, died: map<nat,
      int>)

  // ---- waiting -------------------------------------------------------------

  /** `p` is a child that a call of `self` waits for. */
  predicate Awaits(self: Proc, p: Proc) {
    p.ppid == self.pid &&
    match self.call
    case WaitPid(w) => w > 0 ==> p.pid == w
    case KWait(x) => p.pid == x
    case KWaitAll => p.pid != self.pid
    case Elsewhere => false
  }

  /** What the call stores in `waiting_for`. */
  function Target(c: Call): nat {
    match c
    case WaitPid(w) => if w > 0 then w else 0
    case KWait(x) => x
    case KWaitAll => 0
    case Elsewhere => 0
  }

  predicate Waiting(p: Proc) { p.state == Blocked && p.call != Elsewhere }

  /** Some child that `p` waits for has yet to exit. */
  ghost predicate HasLiveChild(procs: seq<Proc>, p: Proc) {
    exists q {:trigger Awaits(p, q)} :: q in procs && Awaits(p, q) && q.state != Zombie
  }

  /** No lost wakeup: whoever is parked in a wait has a child that will wake it. */
  ghost predicate NoLost(s: Sys) {
    forall p {:trigger Waiting(p)} ::
        p in s.procs && Waiting(p) ==> p.waitingFor == Target(p.call) && HasLiveChild(s.procs, p)
  }

  /** Its pid and parent are on record, so is its status once it exited, and whoever has a parent is
      scheduled: fork, clone and spawn set both. */
  ghost predicate Known(s: Sys, p: Proc) {
    && 0 < p.pid < s.next && p.pid in s.born && s.born[p.pid] == p.ppid && (p.ppid != 0 ==> p.managed)
    && (p.state == Zombie ==> p.pid in s.died && s.died[p.pid] == p.code)
  }

  ghost predicate Pids(s: Sys) {
    && (forall p {:trigger p in s.procs} :: p in s.procs ==> Known(s, p))
    && (forall i, j {:trigger s.procs[i], s.procs[j]} :: 0 <= i < j < |s.procs| ==> s.procs[i].pid != s.procs[j].pid)
  }

  /** The status went to the parent, and it is the one the child exited with. */
  ghost predicate Rightful(s: Sys, e: Collected) {
    e.child < s.next && e.child in s.born && s.born[e.child] == e.parent && e.child in s.died
        && s.died[e.child] == e.code
  }

  /** Each collected child is gone for good and was collected once, by its parent. */
  ghost predicate LogOk(s: Sys) {
    && (forall k {:trigger s.log[k]} ::
          0 <= k < |s.log| ==> Rightful(s, s.log[k]) && forall p {:trigger p in s.procs} ::
              p in s.procs ==> p.pid != s.log[k].child)
    && (forall k, l {:trigger s.log[k], s.log[l]} :: 0 <= k < l < |s.log| ==> s.log[k].child != s.log[l].child)
  }

  ghost predicate Inv(s: Sys) { Pids(s) && NoLost(s) && LogOk(s) }

  // ---- the table -----------------------------------------------------------

  /** find_process: the index of `pid`, or the table size. */
  function IndexOf(procs: seq<Proc>, pid: nat): (i: nat)
    ensures i <= |procs| && (i < |procs| ==> procs[i].pid == pid) && forall j :: 0 <= j < i ==> procs[j].pid != pid
  {
    if procs == [] then 0 else if procs[0].pid == pid then 0 else IndexOf(procs[1..], pid) + 1
  }

  /** wake_waiters for an exiting or stopping child. */
  function Woken(procs: seq<Proc>, child: Proc): (r: seq<Proc>)
    ensures |r| == |procs|
  {
    var i := IndexOf(procs, child.ppid);
    if child.ppid == 0 || i == |procs| then procs else
    var q := procs[i];
    if q.state == Blocked && (q.waitingFor == child.pid || q.waitingFor == 0)
        then procs[i := q.(waitingFor := 0, state := Running)] else procs
  }

  /** Swap-removal of entry `i`. */
  function Removed(procs: seq<Proc>, i: nat): (r: seq<Proc>)
    requires i < |procs|
    ensures |r| == |procs| - 1
  {
    procs[i := procs[|procs| - 1]][..|procs| - 1]
  }

  lemma RemovedMembers(procs: seq<Proc>, i: nat, p: Proc)
    requires i < |procs| && forall a, b {:trigger procs[a], procs[b]} ::
              0 <= a < b < |procs| ==> procs[a].pid != procs[b].pid
    ensures p in Removed(procs, i) <==> p in procs && p != procs[i]
  {
    var r, n := Removed(procs, i), |procs| - 1;
    if p in procs && p != procs[i] {
      var k :| 0 <= k < |procs| && procs[k] == p;
      if k == n { assert r[i] == p; } else { assert r[k] == p; }
    }
    if p in r {
      var k :| 0 <= k < n && r[k] == p;
      assert r[k] == if k == i then procs[n] else procs[k];
    }
  }

  lemma RemovedDistinct(procs: seq<Proc>, i: nat)
    requires i < |procs| && forall a, b {:trigger procs[a], procs[b]} ::
              0 <= a < b < |procs| ==> procs[a].pid != procs[b].pid
    ensures forall a, b {:trigger Removed(procs, i)[a], Removed(procs, i)[b]} ::
              0 <= a < b < |procs| - 1 ==> Removed(procs, i)[a].pid != Removed(procs, i)[b].pid
  {
    var r, n := Removed(procs, i), |procs| - 1;
    forall a, b | 0 <= a < b < n ensures r[a].pid != r[b].pid {
      assert r[a] == if a == i then procs[n] else procs[a];
      assert r[b] == if b == i then procs[n] else procs[b];
    }
  }

  /** The current index after entry `i` is swap-removed. */
  function CurAfter(cur: nat, n: nat, i: nat): nat
    requires n > 0
  {
    if cur == n - 1 then i else cur
  }

  // ---- one step of each operation ------------------------------------------

  /** Process `i` is replaced; nobody else moves. */
  function Set(s: Sys, i: nat, p: Proc): (r: Sys)
    requires i < |s.procs|
  {
    s.(procs := s.procs[i := p])
  }

  /** SYS_EXIT, a fatal signal, or destroy_process on a scheduled process. */
  function Exit(s: Sys, i: nat, code: int): (r: Sys)
    requires i < |s.procs|
  {
    var p := s.procs[i].(state := Zombie, code := code);
    s.(procs := Woken(s.procs[i := p], p), died := s.died[p.pid := code])
  }

  /** Job-control stop of process `i`. */
  function Stop(s: Sys, i: nat, sig: nat): (r: Sys)
    requires i < |s.procs|
  {
    var p := s.procs[i].(state := Stopped, reported := false, sig := sig);
    s.(procs := Woken(s.procs[i := p], p))
  }

  /** Park process `i` in a wait call. */
  function Park(s: Sys, i: nat, call: Call): (r: Sys)
    requires i < |s.procs|
  {
    Set(s, i, s.procs[i].(state := Blocked, waitingFor := Target(call), call := call))
  }

  /** Remove entry `i`. */
  function Remove(s: Sys, i: nat): (r: Sys)
    requires i < |s.procs|
  {
    s.(procs := Removed(s.procs, i), cur := CurAfter(s.cur, |s.procs|, i))
  }

  /** waitpid collects zombie `z` for process `i`. */
  function Collect(s: Sys, i: nat, z: nat): (r: Sys)
    requires i < |s.procs| && z < |s.procs|
  {
    Remove(s, z).(log := s.log + [Collected(s.procs[i].pid, s.procs[z].pid, s.procs[z].code)])
  }

  /** fork, clone and spawn make a scheduled child of `ppid`; create_process a kernel thread or a
      placeholder without a parent. */
  function Spawn(s: Sys, ppid: nat, user: bool, managed: bool): (r: Sys) {
    s.(procs := s.procs + [Proc(s.next, ppid, Running, 0, user, managed, 0, false, 0, Elsewhere)], next := s.next + 1,
        born := s.born[s.next := ppid])
  }

  // ---- the invariant, step by step -----------------------------------------

  /** Updating entry `i` to a process with the same pid. */
  lemma SetPids(s: Sys, i: nat, p: Proc)
    requires Pids(s) && LogOk(s) && i < |s.procs| && p.pid == s.procs[i].pid && Known(s, p)
    ensures Pids(Set(s, i, p)) && LogOk(Set(s, i, p))
  {
    var r := Set(s, i, p);
    forall q | q in r.procs ensures Known(r, q) && exists o :: o in s.procs && o.pid == q.pid {
      var k :| 0 <= k < |r.procs| && r.procs[k] == q;
      assert s.procs[k] in s.procs;
    }
  }

  /** Members after an update. */
  lemma SetMembers(procs: seq<Proc>, i: nat, p: Proc, q: Proc)
    requires i < |procs|
    ensures q in procs[i := p] ==> q == p || q in procs
    ensures q in procs && q != procs[i] ==> q in procs[i := p]
    ensures p in procs[i := p]
  {
    var r := procs[i := p];
    assert r[i] == p;
    if q in procs && q != procs[i] { var k :| 0 <= k < |procs| && procs[k] == q; assert r[k] == q; }
    if q in r { var k :| 0 <= k < |r| && r[k] == q; assert k == i || procs[k] == q; }
  }

  /** A change that neither parks anyone nor ends a live child keeps every wait answered. */
  lemma SetNoLost(s: Sys, i: nat, p: Proc)
    requires NoLost(s) && i < |s.procs| && p.pid == s.procs[i].pid && p.ppid == s.procs[i].ppid
    requires (p.state == Zombie ==> s.procs[i].state == Zombie) && !Waiting(p)
    ensures NoLost(Set(s, i, p))
  {
    var r := Set(s, i, p);
    forall q | q in r.procs && Waiting(q) ensures q.waitingFor == Target(q.call) && HasLiveChild(r.procs, q) {
      SetMembers(s.procs, i, p, q);
      var c :| c in s.procs && Awaits(q, c) && c.state != Zombie;
      SetMembers(s.procs, i, p, c);
      if c == s.procs[i] { assert Awaits(q, p); }
    }
  }

  /** Parking keeps every wait answered exactly when the parked call has a live child. */
  lemma ParkNoLost(s: Sys, i: nat, call: Call)
    requires NoLost(s) && i < |s.procs| && s.procs[i].state == Running && call != Elsewhere
    ensures var p := s.procs[i].(state := Blocked, waitingFor := Target(call), call := call);
            NoLost(Park(s, i, call)) <==> HasLiveChild(Park(s, i, call).procs, p)
  {
    var r := Park(s, i, call);
    var p := s.procs[i].(state := Blocked, waitingFor := Target(call), call := call);
    assert r.procs[i] == p && Waiting(p);
    forall q | q in r.procs && Waiting(q) && q != p ensures q.waitingFor == Target(q.call) && HasLiveChild(r.procs, q) {
      SetMembers(s.procs, i, p, q);
      var c :| c in s.procs && Awaits(q, c) && c.state != Zombie;
      SetMembers(s.procs, i, p, c);
      if c == s.procs[i] { assert Awaits(q, p); }
    }
  }

  lemma SamePid(s: Sys, p: Proc, q: Proc)
    requires Pids(s) && p in s.procs && q in s.procs && p.pid == q.pid
    ensures p == q
  {
    var i :| 0 <= i < |s.procs| && s.procs[i] == p;
    var j :| 0 <= j < |s.procs| && s.procs[j] == q;
    SameIndex(s, i, j);
  }

  lemma SameIndex(s: Sys, i: nat, j: nat)
    requires Pids(s) && i < |s.procs| && j < |s.procs| && s.procs[i].pid == s.procs[j].pid
    ensures i == j
  {
  }

  /** Waking the parent of `child` answers the one wait that `child` may have been answering. */
  lemma WokenNoLost(s: Sys, t: Sys, i: nat, child: Proc)
    requires NoLost(s) && Pids(t) && i < |s.procs| && t.procs == s.procs[i := child] && child.pid == s.procs[i].pid
    requires child.ppid == s.procs[i].ppid && !Waiting(child)
    ensures NoLost(t.(procs := Woken(t.procs, child)))
  {
    var j := IndexOf(t.procs, child.ppid);
    var r := Woken(t.procs, child);
    forall q | q in r && Waiting(q) ensures q.waitingFor == Target(q.call) && HasLiveChild(r, q) {
      WokenMembers(t, child, q);
      SetMembers(s.procs, i, child, q);
      var c :| c in s.procs && Awaits(q, c) && c.state != Zombie;
      if c == s.procs[i] {
        ParentWoken(t, child, q);
      } else {
        SetMembers(s.procs, i, child, c);
        WokenKeeps(t, child, c, q);
      }
    }
  }

  lemma WokenMembers(t: Sys, child: Proc, q: Proc)
    requires q in Woken(t.procs, child) && Waiting(q)
    ensures q in t.procs
  {
    var i := IndexOf(t.procs, child.ppid);
    if child.ppid != 0 && i < |t.procs| { SetMembers(t.procs, i, t.procs[i].(waitingFor := 0, state := Running), q); }
  }

  /** A process that waited for `child` is its parent, so it is no longer parked. */
  lemma ParentWoken(t: Sys, child: Proc, q: Proc)
    requires Pids(t) && q in t.procs && Waiting(q) && Awaits(q, child) && q.waitingFor == Target(q.call)
    ensures q !in Woken(t.procs, child)
  {
    var k :| 0 <= k < |t.procs| && t.procs[k] == q;
    var i := IndexOf(t.procs, child.ppid);
    assert i <= k;
    SameIndex(t, i, k);
    var w := q.(waitingFor := 0, state := Running);
    assert Woken(t.procs, child) == t.procs[i := w];
    forall m | 0 <= m < |t.procs| && m != i ensures t.procs[m] != q {}
    assert forall m :: 0 <= m < |t.procs| ==> t.procs[i := w][m] == if m == i then w else t.procs[m];
  }

  lemma WokenKeeps(t: Sys, child: Proc, c: Proc, q: Proc)
    requires c in t.procs && c.state != Zombie && Awaits(q, c)
    ensures HasLiveChild(Woken(t.procs, child), q)
  {
    var i := IndexOf(t.procs, child.ppid);
    if child.ppid != 0 && i < |t.procs| {
      var w := t.procs[i].(waitingFor := 0, state := Running);
      SetMembers(t.procs, i, w, c);
      if c == t.procs[i] { assert Awaits(q, w); }
    }
  }

  lemma WokenPids(t: Sys, child: Proc)
    requires Pids(t) && LogOk(t)
    ensures Pids(t.(procs := Woken(t.procs, child))) && LogOk(t.(procs := Woken(t.procs, child)))
  {
    var i := IndexOf(t.procs, child.ppid);
    if child.ppid != 0 && i < |t.procs| {
      assert t.procs[i] in t.procs && Known(t, t.procs[i]);
      SetPids(t, i, t.procs[i].(waitingFor := 0, state := Running));
    }
  }

  lemma ExitInv(s: Sys, i: nat, code: int)
    requires Inv(s) && i < |s.procs| && s.procs[i].state != Zombie
    ensures Inv(Exit(s, i, code))
  {
    var p := s.procs[i].(state := Zombie, code := code);
    ExitPids(s, i, code);
    var t := s.(procs := s.procs[i := p], died := s.died[p.pid := code]);
    WokenPids(t, p);
    WokenNoLost(s, t, i, p);
  }

  lemma ExitPids(s: Sys, i: nat, code: int)
    requires Pids(s) && LogOk(s) && i < |s.procs| && s.procs[i].state != Zombie
    ensures var p := s.procs[i].(state := Zombie, code := code);
            var t := s.(procs := s.procs[i := p], died := s.died[p.pid := code]);
            Pids(t) && LogOk(t)
  {
    var p := s.procs[i].(state := Zombie, code := code);
    assert s.procs[i] in s.procs;
    var t := s.(procs := s.procs[i := p], died := s.died[p.pid := code]);
    forall q | q in t.procs ensures Known(t, q) && exists o :: o in s.procs && o.pid == q.pid {
      var k :| 0 <= k < |t.procs| && t.procs[k] == q;
      assert s.procs[k] in s.procs && Known(s, s.procs[k]);
    }
  }

  lemma StopInv(s: Sys, i: nat, sig: nat)
    requires Inv(s) && i < |s.procs|
    ensures Inv(Stop(s, i, sig))
  {
    var p := s.procs[i].(state := Stopped, reported := false, sig := sig);
    assert s.procs[i] in s.procs && Known(s, s.procs[i]);
    SetPids(s, i, p);
    WokenPids(Set(s, i, p), p);
    WokenNoLost(s, Set(s, i, p), i, p);
  }

  lemma RemovePids(s: Sys, i: nat)
    requires Pids(s) && LogOk(s) && i < |s.procs|
    ensures Pids(Remove(s, i)) && LogOk(Remove(s, i))
  {
    var r := Remove(s, i);
    RemovedDistinct(s.procs, i);
    forall p | p in r.procs ensures p in s.procs { RemovedMembers(s.procs, i, p); }
  }

  /** Nobody is parked with entry `i` as its only live child. */
  ghost predicate NotSoleChild(s: Sys, i: nat)
    requires i < |s.procs|
  {
    forall p {:trigger Waiting(p)} ::
        p in s.procs && Waiting(p) && p != s.procs[i] && Awaits(p, s.procs[i]) && s.procs[i].state != Zombie ==>
      exists q {:trigger Awaits(p, q)} :: q in s.procs && q != s.procs[i] && Awaits(p, q) && q.state != Zombie
  }

  /** Removing an entry without waking anyone loses a wakeup exactly when somebody is parked on it. */
  lemma RemoveNoLost(s: Sys, i: nat)
    requires Pids(s) && NoLost(s) && i < |s.procs|
    ensures NoLost(Remove(s, i)) <==> NotSoleChild(s, i)
  {
    var r := Remove(s, i);
    if NotSoleChild(s, i) {
      forall p | p in r.procs && Waiting(p) ensures p.waitingFor == Target(p.call) && HasLiveChild(r.procs, p) {
        RemovedMembers(s.procs, i, p);
        var c :| c in s.procs && Awaits(p, c) && c.state != Zombie;
        if c == s.procs[i] {
          var q :| q in s.procs && q != s.procs[i] && Awaits(p, q) && q.state != Zombie;
          RemovedMembers(s.procs, i, q);
        } else {
          RemovedMembers(s.procs, i, c);
        }
      }
    }
    if NoLost(r) {
      forall p | p in s.procs && Waiting(p) && p != s.procs[i] && Awaits(p, s.procs[i]) && s.procs[i].state != Zombie
        ensures exists q {:trigger Awaits(p, q)} :: q in s.procs && q != s.procs[i] && Awaits(p, q) && q.state != Zombie
      {
        RemovedMembers(s.procs, i, p);
        var q :| q in r.procs && Awaits(p, q) && q.state != Zombie;
        RemovedMembers(s.procs, i, q);
      }
    }
  }

  /** Reaping a zombie. */
  lemma ReapInv(s: Sys, i: nat)
    requires Inv(s) && i < |s.procs| && s.procs[i].state == Zombie
    ensures Inv(Remove(s, i))
  {
    RemovePids(s, i);
    RemoveNoLost(s, i);
  }

  /** waitpid collecting a child. */
  lemma CollectInv(s: Sys, i: nat, z: nat)
    requires Inv(s) && i < |s.procs| && z < |s.procs| && s.procs[z].state == Zombie && s.procs[z].ppid == s.procs[i].pid
    ensures Inv(Collect(s, i, z))
  {
    ReapInv(s, z);
    var t, c := Remove(s, z), s.procs[z];
    assert c in s.procs && Known(s, c);
    forall p | p in t.procs ensures p.pid != c.pid {
      RemovedMembers(s.procs, z, p);
      if p.pid == c.pid { SamePid(s, p, c); }
    }
  }

  lemma SpawnInv(s: Sys, ppid: nat, user: bool, managed: bool)
    requires Inv(s) && 0 < s.next && (ppid != 0 ==> managed)
    ensures Inv(Spawn(s, ppid, user, managed))
  {
    var r := Spawn(s, ppid, user, managed);
    var n := r.procs[|s.procs|];
    forall p | p in r.procs ensures Known(r, p) && (p == n || p in s.procs) { if p in s.procs { assert Known(s, p); } }
    forall p | p in r.procs && Waiting(p) ensures p.waitingFor == Target(p.call) && HasLiveChild(r.procs, p) {
      var c :| c in s.procs && Awaits(p, c) && c.state != Zombie;
      assert c in r.procs;
    }
    forall a, b | 0 <= a < b < |r.procs| ensures r.procs[a].pid != r.procs[b].pid {
      if b == |s.procs| { assert s.procs[a] in s.procs; }
    }
  }

  // ---- the calls -----------------------------------------------------------

  predicate IsChild(p: Proc, self: nat, wpid: int) { p.ppid == self && (wpid > 0 ==> p.pid == wpid) }

  /** The first zombie child in table order, or the table size. */
  function FirstZombie(procs: seq<Proc>, self: nat, wpid: int): (z: nat)
    ensures z <= |procs| && (z < |procs| ==> IsChild(procs[z], self, wpid) && procs[z].state == Zombie)
    ensures forall j :: 0 <= j < z ==> !(IsChild(procs[j], self, wpid) && procs[j].state == Zombie)
  {
    if procs == [] then 0 else if IsChild(procs[0], self, wpid) && procs[0].state == Zombie then 0
        else FirstZombie(procs[1..], self, wpid) + 1
  }

  predicate Reportable(p: Proc, self: nat, wpid: int) { IsChild(p, self, wpid) && p.state == Stopped && !p.reported }

  /** The last stopped child not yet reported, or -1. */
  function LastStopped(procs: seq<Proc>, self: nat, wpid: int): (i: int)
    ensures -1 <= i < |procs| && (i >= 0 ==> Reportable(procs[i], self, wpid))
    ensures forall j :: i < j < |procs| ==> !Reportable(procs[j], self, wpid)
  {
    if procs == [] then -1 else
    var n := |procs| - 1;
    if Reportable(procs[n], self, wpid) then n else LastStopped(procs[..n], self, wpid)
  }

  predicate AnyChild(procs: seq<Proc>, self: nat, wpid: int) { exists p :: p in procs && IsChild(p, self, wpid) }

  /** One masked pass of do_waitpid by process `i`. */
  function WaitNext(s: Sys, i: nat, wpid: int, nohang: bool, untraced: bool): (r: Sys)
    requires i < |s.procs|
  {
    var self := s.procs[i].pid;
    var z, st := FirstZombie(s.procs, self, wpid), LastStopped(s.procs, self, wpid);
    if z < |s.procs| then Collect(s, i, z)
    else if !AnyChild(s.procs, self, wpid) then s
    else if untraced && st >= 0 then Set(s, st, s.procs[st].(reported := true))
    else if nohang then s
    else Park(s, i, WaitPid(wpid))
  }

  /** One masked pass of kwait. */
  function KWaitNext(s: Sys, i: nat, pid: nat): (r: Sys)
    requires i < |s.procs|
  {
    var c := IndexOf(s.procs, pid);
    if c == |s.procs| || s.procs[c].state == Zombie then s else Park(s, i, KWait(pid))
  }

  /** A child of process `i`, other than itself, has yet to exit. */
  predicate Pending(procs: seq<Proc>, i: nat)
    requires i < |procs|
  {
    exists j :: 0 <= j < |procs| && j != i && procs[j].ppid == procs[i].pid && procs[j].state != Zombie
  }

  /** One masked pass of kwait_all. */
  function KWaitAllNext(s: Sys, i: nat): (r: Sys)
    requires i < |s.procs|
  {
    if Pending(s.procs, i) then Park(s, i, KWaitAll) else s
  }

  /** destroy_process: a scheduled process becomes a zombie, any other entry is dropped. */
  function DestroyNext(s: Sys, pid: nat): (r: Sys) {
    var i := IndexOf(s.procs, pid);
    if i == |s.procs| then s
    else if s.procs[i].managed && s.procs[i].state != Zombie then Exit(s, i, -1)
    else s.(procs := Removed(s.procs, i))
  }

  /** The zombie's parent is a live user process that will collect it. */
  predicate Expected(procs: seq<Proc>, p: Proc) {
    var i := IndexOf(procs, p.ppid);
    i < |procs| && procs[i].user && procs[i].state != Zombie
  }

  // ---- the invariant, call by call -----------------------------------------

  lemma Unchanged(s: Sys, i: nat, p: Proc)
    requires Inv(s) && i < |s.procs| && p.pid == s.procs[i].pid && p.ppid == s.procs[i].ppid
    requires p.managed == s.procs[i].managed && p.state != Zombie && !Waiting(p)
    ensures Inv(Set(s, i, p))
  {
    assert s.procs[i] in s.procs && Known(s, s.procs[i]);
    SetPids(s, i, p);
    SetNoLost(s, i, p);
  }

  lemma ParkInv(s: Sys, i: nat, call: Call)
    requires Inv(s) && i < |s.procs| && s.procs[i].state == Running && call != Elsewhere
    ensures var p := s.procs[i].(state := Blocked, waitingFor := Target(call), call := call);
            Inv(Park(s, i, call)) <==> HasLiveChild(Park(s, i, call).procs, p)
  {
    ParkNoLost(s, i, call);
    assert s.procs[i] in s.procs && Known(s, s.procs[i]);
    SetPids(s, i, s.procs[i].(state := Blocked, waitingFor := Target(call), call := call));
  }

  /** A pass of waitpid never parks without a live child. */
  lemma WaitInv(s: Sys, i: nat, wpid: int, nohang: bool, untraced: bool)
    requires Inv(s) && i < |s.procs| && s.procs[i].state == Running
    ensures Inv(WaitNext(s, i, wpid, nohang, untraced))
  {
    var self := s.procs[i].pid;
    var z, st := FirstZombie(s.procs, self, wpid), LastStopped(s.procs, self, wpid);
    if z < |s.procs| {
      CollectInv(s, i, z);
    } else if AnyChild(s.procs, self, wpid) {
      if untraced && st >= 0 {
        Unchanged(s, st, s.procs[st].(reported := true));
      } else if !nohang {
        ParkInv(s, i, WaitPid(wpid));
        var c :| c in s.procs && IsChild(c, self, wpid);
        ParkedChild(s, i, WaitPid(wpid), c);
      }
    }
  }

  /** A live child stays a live child when its parent parks. */
  lemma ParkedChild(s: Sys, i: nat, call: Call, c: Proc)
    requires i < |s.procs| && c in s.procs && c.state != Zombie
    requires Awaits(s.procs[i].(call := call), c)
    ensures HasLiveChild(Park(s, i, call).procs,
              s.procs[i].(state := Blocked, waitingFor := Target(call), call := call))
  {
    var p := s.procs[i].(state := Blocked, waitingFor := Target(call), call := call);
    SetMembers(s.procs, i, p, c);
    if c == s.procs[i] { assert Awaits(p, p); } else { assert Awaits(p, c); }
  }

  lemma KWaitAllInv(s: Sys, i: nat)
    requires Inv(s) && i < |s.procs| && s.procs[i].state == Running
    ensures Inv(KWaitAllNext(s, i))
  {
    if Pending(s.procs, i) {
      var j :| 0 <= j < |s.procs| && j != i && s.procs[j].ppid == s.procs[i].pid && s.procs[j].state != Zombie;
      ParkInv(s, i, KWaitAll);
      assert s.procs[j].pid != s.procs[i].pid;
      ParkedChild(s, i, KWaitAll, s.procs[j]);
    }
  }

  /** kwait is called on a child of the caller, or on a process that has already exited or gone. */
  predicate OwnChild(s: Sys, i: nat, pid: nat)
    requires i < |s.procs|
  {
    var c := IndexOf(s.procs, pid);
    c == |s.procs| || s.procs[c].state == Zombie || s.procs[c].ppid == s.procs[i].pid
  }

  /** kwait parks the caller for good exactly when it is given somebody else's live child. */
  lemma KWaitInv(s: Sys, i: nat, pid: nat)
    requires Inv(s) && i < |s.procs| && s.procs[i].state == Running
    ensures Inv(KWaitNext(s, i, pid)) <==> OwnChild(s, i, pid)
  {
    var c := IndexOf(s.procs, pid);
    if c < |s.procs| && s.procs[c].state != Zombie {
      ParkInv(s, i, KWait(pid));
      var r := Park(s, i, KWait(pid));
      var p := s.procs[i].(state := Blocked, waitingFor := pid, call := KWait(pid));
      if s.procs[c].ppid == s.procs[i].pid {
        ParkedChild(s, i, KWait(pid), s.procs[c]);
      } else if HasLiveChild(r.procs, p) {
        var q :| q in r.procs && Awaits(p, q) && q.state != Zombie;
        NotThatChild(s, i, c, p, q);
      }
    }
  }

  lemma NotThatChild(s: Sys, i: nat, c: nat, p: Proc, q: Proc)
    requires Pids(s) && i < |s.procs| && c < |s.procs| && p.pid == s.procs[i].pid && p.ppid == s.procs[i].ppid
    requires q in s.procs[i := p] && q.pid == s.procs[c].pid
    ensures q.ppid == s.procs[c].ppid
  {
    SetMembers(s.procs, i, p, q);
    if q in s.procs { SamePid(s, q, s.procs[c]); } else { SameIndex(s, i, c); }
  }

  /** destroy_process loses no wakeup: an entry it drops without waking anyone is a zombie or has no
      parent. */
  lemma DestroyInv(s: Sys, pid: nat)
    requires Inv(s)
    ensures Inv(DestroyNext(s, pid))
  {
    var i := IndexOf(s.procs, pid);
    if i < |s.procs| {
      if s.procs[i].managed && s.procs[i].state != Zombie {
        ExitInv(s, i, -1);
      } else {
        NobodyWaits(s, i);
        RemoveNoLost(s, i);
        RemovePids(s, i);
        var r := s.(procs := Removed(s.procs, i));
        assert r.procs == Remove(s, i).procs;
      }
    }
  }

  lemma NobodyWaits(s: Sys, i: nat)
    requires Pids(s) && i < |s.procs| && (s.procs[i].state == Zombie || !s.procs[i].managed)
    ensures NotSoleChild(s, i)
  {
    assert s.procs[i] in s.procs && Known(s, s.procs[i]);
    forall p | p in s.procs && Awaits(p, s.procs[i]) ensures s.procs[i].state == Zombie { assert Known(s, p); }
  }

  /** destroy_process, unlike the other reaping paths, leaves the scan cursor alone: it still names
      the same process exactly when that process is neither the one dropped nor the last. */
  lemma DestroyCursor(s: Sys, pid: nat)
    requires Pids(s) && s.cur < |s.procs| && IndexOf(s.procs, pid) < |s.procs|
    requires var p := s.procs[IndexOf(s.procs, pid)]; p.state == Zombie || !p.managed
    ensures var r := DestroyNext(s, pid);
            s.cur < |r.procs| && r.procs[s.cur].pid == s.procs[s.cur].pid <==>
                s.procs[s.cur].pid != pid && s.cur != |s.procs| - 1
  {
    var i, n := IndexOf(s.procs, pid), |s.procs|;
    if s.cur < n - 1 && s.cur == i { assert s.procs[s.cur].pid != s.procs[n - 1].pid; }
    if s.cur != i && s.procs[s.cur].pid == pid { SameIndex(s, s.cur, i); }
  }

  // ---- whole runs ----------------------------------------------------------

  datatype Op =
    | WaitPidOp(i: nat, wpid: int, nohang: bool, untraced: bool)
    | KWaitOp(i: nat, pid: nat)
    | KWaitAllOp(i: nat)
    | ExitOp(i: nat, code: int)
    | StopOp(i: nat, sig: nat)
    | WakeOp(i: nat)
    | PipeWakeOp(i: nat)
    | BlockOp(i: nat)
    | SpawnOp(ppid: nat, user: bool, managed: bool)
    | DestroyOp(pid: nat)
    | ReapOp(i: nat)

  /** What the scheduler and the callers guarantee: only a running process makes a call, kwait is
      given a child of the caller, and a child is scheduled from the start.  A pipe makes its waiter
      runnable without looking at its state. */
  ghost predicate Enabled(s: Sys, op: Op) {
    match op
    case WaitPidOp(i, _, _, _) => i < |s.procs| && s.procs[i].state == Running
    case KWaitOp(i, pid) => i < |s.procs| && s.procs[i].state == Running && OwnChild(s, i, pid)
    case KWaitAllOp(i) => i < |s.procs| && s.procs[i].state == Running
    case ExitOp(i, _) => i < |s.procs| && s.procs[i].state != Zombie
    case StopOp(i, _) => i < |s.procs| && s.procs[i].state == Running
    case WakeOp(i) => i < |s.procs| && (s.procs[i].state == Blocked || s.procs[i].state == Stopped)
    case PipeWakeOp(i) => i < |s.procs|
    case BlockOp(i) => i < |s.procs| && s.procs[i].state == Running
    case SpawnOp(ppid, _, managed) => 0 < s.next && (ppid != 0 ==> managed)
    case DestroyOp(_) => true
    case ReapOp(i) => i < |s.procs| && i != s.cur && s.procs[i].state == Zombie && !Expected(s.procs, s.procs[i])
  }

  ghost function Next(s: Sys, op: Op): (r: Sys)
    requires Enabled(s, op)
  {
    match op
    case WaitPidOp(i, w, nohang, untraced) => WaitNext(s, i, w, nohang, untraced)
    case KWaitOp(i, pid) => KWaitNext(s, i, pid)
    case KWaitAllOp(i) => KWaitAllNext(s, i)
    case ExitOp(i, code) => Exit(s, i, code)
    case StopOp(i, sig) => Stop(s, i, sig)
    case WakeOp(i) => Set(s, i, s.procs[i].(state := Running))
    case PipeWakeOp(i) => Set(s, i, s.procs[i].(state := Running))
    case BlockOp(i) => Set(s, i, s.procs[i].(state := Blocked, call := Elsewhere))
    case SpawnOp(ppid, user, managed) => Spawn(s, ppid, user, managed)
    case DestroyOp(pid) => DestroyNext(s, pid)
    case ReapOp(i) => Remove(s, i)
  }

  lemma NextInv(s: Sys, op: Op)
    requires Inv(s) && Enabled(s, op)
    ensures Inv(Next(s, op))
  {
    hide Inv;
    match op
    case WaitPidOp(i, w, nohang, untraced) => WaitInv(s, i, w, nohang, untraced);
    case KWaitOp(i, pid) => KWaitInv(s, i, pid);
    case KWaitAllOp(i) => KWaitAllInv(s, i);
    case ExitOp(i, code) => ExitInv(s, i, code);
    case StopOp(i, sig) => StopInv(s, i, sig);
    case WakeOp(i) => Unchanged(s, i, s.procs[i].(state := Running));
    case PipeWakeOp(i) => Unchanged(s, i, s.procs[i].(state := Running));
    case BlockOp(i) => Unchanged(s, i, s.procs[i].(state := Blocked, call := Elsewhere));
    case SpawnOp(ppid, user, managed) => SpawnInv(s, ppid, user, managed);
    case DestroyOp(pid) => DestroyInv(s, pid);
    case ReapOp(i) => ReapInv(s, i);
  }

  ghost predicate Runs(s: Sys, ops: seq<Op>)
    decreases |ops|
  {
    ops == [] || (Enabled(s, ops[0]) && Runs(Next(s, ops[0]), ops[1..]))
  }

  ghost function After(s: Sys, ops: seq<Op>): (r: Sys)
    requires Runs(s, ops)
    decreases |ops|
  {
    if ops == [] then s else After(Next(s, ops[0]), ops[1..])
  }

  lemma NextLogs(s: Sys, op: Op)
    requires Enabled(s, op)
    ensures s.log <= Next(s, op).log
  {
  }

  /** Over every run: no wakeup is lost, and no exit status is collected twice or by anyone but the
      parent. */
  lemma {:induction false} WaitsAreAnswered(s: Sys, ops: seq<Op>)
    requires Inv(s) && Runs(s, ops)
    ensures Inv(After(s, ops)) && s.log <= After(s, ops).log
    decreases |ops|
  {
    hide Inv, Enabled, Next;
    if ops != [] {
      NextInv(s, ops[0]);
      NextLogs(s, ops[0]);
      WaitsAreAnswered(Next(s, ops[0]), ops[1..]);
    }
  }

  // ---- the dead stay dead --------------------------------------------------

  /** The entry of `z` is as it was, or gone. */
  ghost predicate Kept(procs: seq<Proc>, z: Proc) {
    forall k {:trigger procs[k]} :: 0 <= k < |procs| && procs[k].pid == z.pid ==> procs[k] == z
  }

  lemma SetKeeps(s: Sys, j: nat, p: Proc, z: Proc)
    requires Pids(s) && j < |s.procs| && p.pid == s.procs[j].pid && z in s.procs && s.procs[j] != z
    ensures Kept(Set(s, j, p).procs, z)
  {
    var r := s.procs[j := p];
    var k :| 0 <= k < |s.procs| && s.procs[k] == z;
    forall i | 0 <= i < |r| && r[i].pid == z.pid ensures r[i] == z {
      assert s.procs[i].pid == z.pid;
      SameIndex(s, i, k);
    }
  }

  lemma WokenSpares(procs: seq<Proc>, c: Proc, z: Proc)
    requires Kept(procs, z) && z.state == Zombie
    ensures Kept(Woken(procs, c), z)
  {
    var r := Woken(procs, c);
    forall i | 0 <= i < |r| && r[i].pid == z.pid ensures r[i] == z { assert procs[i].pid == z.pid; }
  }

  lemma SameKept(s: Sys, z: Proc)
    requires Pids(s) && z in s.procs
    ensures Kept(s.procs, z)
  {
    var k :| 0 <= k < |s.procs| && s.procs[k] == z;
    forall i | 0 <= i < |s.procs| && s.procs[i].pid == z.pid ensures s.procs[i] == z { SameIndex(s, i, k); }
  }

  lemma RemovedKeeps(procs: seq<Proc>, i: nat, z: Proc)
    requires i < |procs| && Kept(procs, z)
    ensures Kept(Removed(procs, i), z)
  {
    var r, n := Removed(procs, i), |procs| - 1;
    forall k | 0 <= k < n && r[k].pid == z.pid
      ensures r[k] == z
    {
      assert r[k] == if k == i then procs[n] else procs[k];
    }
  }

  /** Every step leaves a zombie's entry alone or removes it, but for a pipe that has it as waiter. */
  lemma ZombieKept(s: Sys, op: Op, z: Proc)
    requires Pids(s) && Enabled(s, op) && z in s.procs && z.state == Zombie
    requires op.PipeWakeOp? ==> s.procs[op.i] != z
    ensures Kept(Next(s, op).procs, z)
  {
    hide Kept, Woken, Known;
    SameKept(s, z);
    match op
    case WaitPidOp(i, w, nohang, untraced) => WaitKeeps(s, i, w, nohang, untraced, z);
    case KWaitOp(i, pid) => SetKeeps(s, i,
        s.procs[i].(state := Blocked, waitingFor := Target(KWait(pid)), call := KWait(pid)), z);
    case KWaitAllOp(i) => SetKeeps(s, i,
        s.procs[i].(state := Blocked, waitingFor := Target(KWaitAll), call := KWaitAll), z);
    case ExitOp(i, code) => ExitKeeps(s, i, code, z);
    case StopOp(i, sig) =>
      var p := s.procs[i].(state := Stopped, reported := false, sig := sig);
      SetKeeps(s, i, p, z);
      WokenSpares(s.procs[i := p], p, z);
    case WakeOp(i) => SetKeeps(s, i, s.procs[i].(state := Running), z);
    case PipeWakeOp(i) => SetKeeps(s, i, s.procs[i].(state := Running), z);
    case BlockOp(i) => SetKeeps(s, i, s.procs[i].(state := Blocked, call := Elsewhere), z);
    case SpawnOp(ppid, user, managed) => SpawnKeeps(s, ppid, user, managed, z);
    case DestroyOp(pid) =>
      var i := IndexOf(s.procs, pid);
      if i < |s.procs| {
        if s.procs[i].managed && s.procs[i].state != Zombie {
          ExitKeeps(s, i, -1, z);
        } else {
          RemovedKeeps(s.procs, i, z);
        }
      }
    case ReapOp(i) => RemovedKeeps(s.procs, i, z);
  }

  lemma ExitKeeps(s: Sys, i: nat, code: int, z: Proc)
    requires Pids(s) && i < |s.procs| && s.procs[i].state != Zombie && z in s.procs && z.state == Zombie
    ensures Kept(Exit(s, i, code).procs, z)
  {
    hide Kept, Woken, Known;
    var p := s.procs[i].(state := Zombie, code := code);
    SetKeeps(s, i, p, z);
    WokenSpares(s.procs[i := p], p, z);
  }

  lemma SpawnKeeps(s: Sys, ppid: nat, user: bool, managed: bool, z: Proc)
    requires Pids(s) && z in s.procs && Kept(s.procs, z)
    ensures Kept(Spawn(s, ppid, user, managed).procs, z)
  {
    assert Known(s, z);
  }

  lemma WaitKeeps(s: Sys, i: nat, wpid: int, nohang: bool, untraced: bool, z: Proc)
    requires Pids(s) && i < |s.procs| && s.procs[i].state == Running && z in s.procs && z.state == Zombie
    requires Kept(s.procs, z)
    ensures Kept(WaitNext(s, i, wpid, nohang, untraced).procs, z)
  {
    hide Kept, Known;
    var self := s.procs[i].pid;
    var c, st := FirstZombie(s.procs, self, wpid), LastStopped(s.procs, self, wpid);
    if c < |s.procs| { RemovedKeeps(s.procs, c, z); }
    if st >= 0 { SetKeeps(s, st, s.procs[st].(reported := true), z); }
    SetKeeps(s, i, s.procs[i].(state := Blocked, waitingFor := Target(WaitPid(wpid)), call := WaitPid(wpid)), z);
  }

  /** After every step a process that had exited is a zombie still, or gone, if and only if the step
      is not the wake of a pipe that names it as its waiter. */
  lemma ZombieStays(s: Sys, op: Op, j: nat)
    requires Inv(s) && Enabled(s, op) && j < |s.procs| && s.procs[j].state == Zombie
    ensures Kept(Next(s, op).procs, s.procs[j]) <==> op != PipeWakeOp(j)
  {
    hide Kept, NoLost, LogOk, Known;
    var z := s.procs[j];
    if op == PipeWakeOp(j) {
      Revived(s, j);
    } else {
      if op.PipeWakeOp? && s.procs[op.i] == z { SameIndex(s, op.i, j); }
      ZombieKept(s, op, z);
    }
  }

  lemma Revived(s: Sys, j: nat)
    requires j < |s.procs| && s.procs[j].state == Zombie
    ensures !Kept(Next(s, PipeWakeOp(j)).procs, s.procs[j])
  {
    assert Next(s, PipeWakeOp(j)).procs[j].state == Running;
  }

  /** A reader destroyed while it is parked in a pipe runs again on the next write. */
  lemma RunsAgain()
    ensures var s := Sys([Plain(1, 0, true)], 0, 2, [], map[1 := 0], map[]);
            var ops := [BlockOp(0), DestroyOp(1), PipeWakeOp(0)];
            Inv(s) && Runs(s, ops) && 1 in After(s, ops).died && After(s, ops).procs[0].state == Running
  {
    var s := Sys([Plain(1, 0, true)], 0, 2, [], map[1 := 0], map[]);
    var a, b, c := BlockOp(0), DestroyOp(1), PipeWakeOp(0);
    var s1 := Next(s, a);
    var s2 := Next(s1, b);
    assert s2.procs[0].state == Zombie && 1 in s2.died;
    var s3 := Next(s2, c);
    assert [a, b, c][1..] == [b, c] && [b, c][1..] == [c] && [c][1..] == [];
    assert Runs(s3, []) && Runs(s2, [c]) && Runs(s1, [b, c]);
    assert After(s2, [c]) == After(s3, []) == s3;
    assert After(s1, [b, c]) == After(s2, [c]);
  }

  // ---- where the guarantee is needed ---------------------------------------

  function Plain(pid: nat, ppid: nat, managed: bool): Proc {
    Proc(pid, ppid, Running, 0, false, managed, 0, false, 0, Elsewhere)
  }

  /** kwait on somebody else's child, as the shell's `wait <pid>` allows, parks the caller although
      no exit will wake it. */
  lemma KWaitStranger()
    ensures var s := Sys([Plain(1, 0, true), Plain(2, 0, true)], 0, 3, [], map[1 := 0, 2 := 0], map[]);
            Inv(s) && s.procs[0].state == Running && !NoLost(KWaitNext(s, 0, 2))
  {
    var s := Sys([Plain(1, 0, true), Plain(2, 0, true)], 0, 3, [], map[1 := 0, 2 := 0], map[]);
    assert IndexOf(s.procs, 2) == 1 by { assert s.procs[0].pid != 2 && s.procs[1].pid == 2; }
    assert Inv(s);
    var p := s.procs[0].(state := Blocked, waitingFor := 2, call := KWait(2));
    var r := KWaitNext(s, 0, 2);
    assert r.procs == [p, s.procs[1]];
    assert Waiting(p) && p in r.procs;
  }
}
