/** The process table of kernel/process.c: the scan loops of waitpid, kwait, kwait_all,
    wake_waiters, destroy_process and reap_zombies, each as one step of the state machine. */
module ProcessTable {
  import opened Processes

  datatype Outcome = NoChild | Reaped(pid: nat, code: int) | StopSeen(pid: nat, sig: nat) | NoneReady | Parked

  class Table {
    var procs: seq<Proc>
    var current: nat
    var nextPid: nat
    ghost var log: seq<Collected>
    ghost var born: map<nat, nat>
    ghost var died: map<nat, int>

    ghost function View(): Sys
      reads this
    {
      Sys(procs, current, nextPid, log, born, died)
    }

    /** find_process. */
    method FindProcess(pid: nat) returns (i: nat)
      ensures i == IndexOf(procs, pid)
    {
      i := 0;
      while i < |procs|
        invariant i <= |procs| && IndexOf(procs, pid) == i + IndexOf(procs[i..], pid)
      {
        if procs[i].pid == pid { return; }
        i := i + 1;
      }
    }

    /** wake_waiters. */
    method WakeWaiters(child: Proc)
      modifies this`procs
      ensures procs == Woken(old(procs), child)
    {
      if child.ppid == 0 { return; }
      var i := FindProcess(child.ppid);
      if i < |procs| && procs[i].state == Blocked && (procs[i].waitingFor == child.pid || procs[i].waitingFor == 0) {
        procs := procs[i := procs[i].(waitingFor := 0, state := Running)];
      }
    }

    /** A process exits: SYS_EXIT or a fatal signal. */
    method ExitProcess(i: nat, code: int)
      requires i < |procs|
      modifies this
      ensures View() == Exit(old(View()), i, code)
    {
      procs := procs[i := procs[i].(state := Zombie, code := code)];
      died := died[procs[i].pid := code];
      WakeWaiters(procs[i]);
    }

    /** Swap-removal that keeps the cursor on the same process. */
    method RemoveAt(i: nat)
      requires i < |procs|
      modifies this`procs, this`current
      ensures View() == Remove(old(View()), i)
    {
      var last := |procs| - 1;
      procs := procs[i := procs[last]][..last];
      if current == last { current := i; }
    }

    /** One masked pass of do_waitpid by the process at index `self`. */
    method WaitPass(self: nat, wpid: int, nohang: bool, untraced: bool) returns (out: Outcome)
      requires self < |procs|
      modifies this`procs, this`current, this`log
      ensures View() == WaitNext(old(View()), self, wpid, nohang, untraced)
      ensures out.Reaped? ==> log == old(log) + [Collected(old(procs)[self].pid, out.pid, out.code)]
      ensures !out.Reaped? ==> log == old(log)
      ensures out.Parked? ==> procs == Park(old(View()), self, WaitPid(wpid)).procs
      ensures out.NoChild? ==> !AnyChild(old(procs), old(procs)[self].pid, wpid)
    {
      var me := procs[self].pid;
      var zi, si, any := |procs|, -1, false;
      var i := 0;
      while i < |procs|
        invariant 0 <= i <= |procs| && zi == |procs| && -1 <= si < i
        invariant forall j :: 0 <= j < i ==> !(IsChild(procs[j], me, wpid) && procs[j].state == Zombie)
        invariant any <==> exists j :: 0 <= j < i && IsChild(procs[j], me, wpid)
        invariant si >= 0 ==> untraced && Reportable(procs[si], me, wpid)
        invariant untraced ==> forall j :: si < j < i ==> !Reportable(procs[j], me, wpid)
      {
        var p := procs[i];
        if IsChild(p, me, wpid) {
          any := true;
          if p.state == Zombie { zi := i; break; }
          if untraced && p.state == Stopped && !p.reported { si := i; }
        }
        i := i + 1;
      }
      ScanExact(procs, me, wpid, zi);
      if !any { return NoChild; }
      if zi == |procs| && si >= 0 {
        LastExact(procs, me, wpid, si);
        out := StopSeen(procs[si].pid, procs[si].sig);
        procs := procs[si := procs[si].(reported := true)];
        return;
      }
      if zi < |procs| {
        out := Reaped(procs[zi].pid, procs[zi].code);
        log := log + [Collected(me, procs[zi].pid, procs[zi].code)];
        RemoveAt(zi);
        return;
      }
      if untraced { LastNone(procs, me, wpid); }
      if nohang { return NoneReady; }
      procs := procs[self := procs[self].(state := Blocked, waitingFor := Target(WaitPid(wpid)),
          call := WaitPid(wpid))];
      out := Parked;
    }

    /** One masked pass of kwait. */
    method KWaitPass(self: nat, pid: nat) returns (out: Outcome)
      requires self < |procs|
      modifies this`procs
      ensures View() == KWaitNext(old(View()), self, pid)
      ensures out == var c := IndexOf(old(procs), pid); if c == |old(procs)| then NoChild
                else if old(procs)[c].state == Zombie then Reaped(pid, old(procs)[c].code) else Parked
    {
      var c := FindProcess(pid);
      if c == |procs| { return NoChild; }
      if procs[c].state == Zombie { return Reaped(pid, procs[c].code); }
      procs := procs[self := procs[self].(state := Blocked, waitingFor := pid, call := KWait(pid))];
      out := Parked;
    }

    /** One masked pass of kwait_all. */
    method KWaitAllPass(self: nat) returns (out: Outcome)
      requires self < |procs|
      modifies this`procs
      ensures View() == KWaitAllNext(old(View()), self)
      ensures out == if Pending(old(procs), self) then Parked else NoneReady
    {
      var i := 0;
      while i < |procs|
        invariant 0 <= i <= |procs|
        invariant forall j ::
                  0 <= j < i && j != self ==> !(procs[j].ppid == procs[self].pid && procs[j].state != Zombie)
      {
        if i != self && procs[i].ppid == procs[self].pid && procs[i].state != Zombie {
          procs := procs[self := procs[self].(state := Blocked, waitingFor := 0, call := KWaitAll)];
          return Parked;
        }
        i := i + 1;
      }
      out := NoneReady;
    }

    /** destroy_process. */
    method Destroy(pid: nat)
      modifies this
      ensures View() == DestroyNext(old(View()), pid)
    {
      var i := FindProcess(pid);
      if i == |procs| { return; }
      if procs[i].managed && procs[i].state != Zombie {
        ExitProcess(i, -1);
      } else {
        procs := procs[i := procs[|procs| - 1]][..|procs| - 1];
      }
    }

    /** reap_zombies: every zombie nobody will collect goes, and nothing else. */
    method ReapZombies()
      requires Inv(View()) && (procs == [] || current < |procs|)
      modifies this`procs, this`current
      ensures Inv(View()) && (old(procs) != [] ==> current < |procs| && procs[current] == old(procs)[old(current)])
      ensures Swept(old(procs), procs)
      ensures forall i {:trigger procs[i]} ::
                0 <= i < |procs| && i != current && procs[i].state == Zombie ==> Expected(procs, procs[i])
    {
      hide Inv, Expected, Swept, IndexOf;
      ghost var before := procs;
      SweptNone(procs);
      var i := 0;
      while i < |procs|
        invariant 0 <= i <= |procs| && Inv(View()) && Swept(before, procs)
        invariant before != [] ==> current < |procs| && procs[current] == before[old(current)]
        invariant before == [] ==> procs == []
        invariant forall k {:trigger procs[k]} ::
                  0 <= k < i && k != current && procs[k].state == Zombie ==> Expected(before, procs[k])
        decreases |procs| - i
      {
        if procs[i].state != Zombie || i == current { i := i + 1; continue; }
        var par := FindProcess(procs[i].ppid);
        ExpectedIs(procs, procs[i], par);
        if par < |procs| && procs[par].user && procs[par].state != Zombie {
          SweptExpected(before, procs, procs[i]); i := i + 1; continue;
        }
        ReapInv(View(), i);
        SweptMore(View(), before, i);
        RemoveAt(i);
      }
      forall k | 0 <= k < |procs| && k != current && procs[k].state == Zombie
        ensures Expected(procs, procs[k])
      {
        SweptExpected(before, procs, procs[k]);
      }
    }
  }

  /** Only zombies that nobody was going to collect are gone. */
  ghost predicate Swept(before: seq<Proc>, now: seq<Proc>) {
    && (forall p {:trigger p in now} :: p in now ==> p in before)
    && (forall p {:trigger p in now} :: p in before && p !in now ==> p.state == Zombie && !Expected(before, p))
    && (forall p {:trigger Expected(now, p)} :: Expected(now, p) <==> Expected(before, p))
  }

  lemma SweptNone(procs: seq<Proc>)
    ensures Swept(procs, procs)
  {
  }

  lemma SweptExpected(before: seq<Proc>, now: seq<Proc>, p: Proc)
    requires Swept(before, now)
    ensures Expected(now, p) <==> Expected(before, p)
  {
  }

  lemma ExpectedIs(procs: seq<Proc>, p: Proc, i: nat)
    requires i == IndexOf(procs, p.ppid)
    ensures Expected(procs, p) <==> i < |procs| && procs[i].user && procs[i].state != Zombie
  {
  }

  lemma SweptMore(s: Sys, before: seq<Proc>, i: nat)
    requires Inv(s) && i < |s.procs| && s.procs[i].state == Zombie && Swept(before, s.procs)
    requires !Expected(s.procs, s.procs[i])
    ensures Swept(before, Removed(s.procs, i))
  {
    hide Expected, Removed;
    var r := Removed(s.procs, i);
    assert !Expected(before, s.procs[i]);
    forall p ensures p in r <==> p in s.procs && p != s.procs[i] { RemovedMembers(s.procs, i, p); }
    forall p
      ensures Expected(r, p) <==> Expected(before, p)
    {
      ExpectedKept(s, i, p); assert Expected(s.procs, p) <==> Expected(before, p);
    }
  }

  lemma ScanExact(procs: seq<Proc>, me: nat, wpid: int, z: nat)
    requires z <= |procs| && (z < |procs| ==> IsChild(procs[z], me, wpid) && procs[z].state == Zombie)
    requires forall j :: 0 <= j < z ==> !(IsChild(procs[j], me, wpid) && procs[j].state == Zombie)
    ensures FirstZombie(procs, me, wpid) == z
  {
  }

  lemma LastExact(procs: seq<Proc>, me: nat, wpid: int, i: nat)
    requires i < |procs| && Reportable(procs[i], me, wpid) && forall j ::
              i < j < |procs| ==> !Reportable(procs[j], me, wpid)
    ensures LastStopped(procs, me, wpid) == i
  {
  }

  lemma LastNone(procs: seq<Proc>, me: nat, wpid: int)
    requires forall j :: 0 <= j < |procs| ==> !Reportable(procs[j], me, wpid)
    ensures LastStopped(procs, me, wpid) == -1
  {
  }

  /** Removing a zombie never changes who is expected to be collected. */
  lemma ExpectedKept(s: Sys, i: nat, p: Proc)
    requires Pids(s) && i < |s.procs| && s.procs[i].state == Zombie
    ensures Expected(Removed(s.procs, i), p) <==> Expected(s.procs, p)
  {
    var r := Removed(s.procs, i);
    RemovedDistinct(s.procs, i);
    if Expected(s.procs, p) {
      var q := s.procs[IndexOf(s.procs, p.ppid)];
      RemovedMembers(s.procs, i, q);
      FoundIs(r, q);
    }
    if Expected(r, p) {
      var q := r[IndexOf(r, p.ppid)];
      RemovedMembers(s.procs, i, q);
      FoundIs(s.procs, q);
    }
  }

  /** With distinct pids, looking up a member's pid finds that member. */
  lemma FoundIs(procs: seq<Proc>, q: Proc)
    requires q in procs && forall a, b {:trigger procs[a], procs[b]} ::
              0 <= a < b < |procs| ==> procs[a].pid != procs[b].pid
    ensures IndexOf(procs, q.pid) < |procs| && procs[IndexOf(procs, q.pid)] == q
  {
    var k :| 0 <= k < |procs| && procs[k] == q;
    var a := IndexOf(procs, q.pid);
    assert a <= k;
  }
}
