/** The weighted round-robin of irq_scheduler_tick (kernel/process.c) on one core. */
module Scheduler {
  /** A table of tasks: who may be scheduled here, the weights, the remaining quanta, the cursor. */
  datatype Sched = Sched(eligible: seq<bool>, weight: seq<nat>, quantum: seq<nat>, cur: nat)

  ghost predicate Shape(s: Sched) {
    0 < |s.eligible| == |s.weight| == |s.quantum| && s.cur < |s.eligible|
  }

  /** `weight ? weight : 1`. */
  function Turn(s: Sched, i: nat): (w: nat)
    requires i < |s.weight|
    ensures w >= 1
  {
    if s.weight[i] == 0 then 1 else s.weight[i]
  }

  /** The process `i` steps after the cursor. */
  function At(s: Sched, i: nat): (k: nat)
    requires Shape(s)
    ensures k < |s.eligible|
  {
    (s.cur + i) % |s.eligible|
  }

  predicate Ready(s: Sched, run: seq<bool>, k: nat)
    requires Shape(s) && |run| == |s.eligible| && k < |run|
  {
    run[k] && s.eligible[k]
  }

  /** Steps to the first ready task at or after `i` steps, or one more than a full turn. */
  function Scan(s: Sched, run: seq<bool>, i: nat): (d: nat)
    requires Shape(s) && |run| == |s.eligible| && i <= |s.eligible| + 1
    ensures i <= d <= |s.eligible| + 1 && (d <= |s.eligible| ==> Ready(s, run, At(s, d)))
    ensures forall j {:trigger At(s, j)} :: i <= j < d && j <= |s.eligible| ==> !Ready(s, run, At(s, j))
    decreases |s.eligible| + 1 - i
  {
    if i == |s.eligible| + 1 then i else if Ready(s, run, At(s, i)) then i else Scan(s, run, i + 1)
  }

  /** One timer tick with `run` saying which tasks are runnable. */
  function Tick(s: Sched, run: seq<bool>): (r: Sched)
    requires Shape(s) && |run| == |s.eligible|
    ensures Shape(r) && r.eligible == s.eligible && r.weight == s.weight
  {
    if run[s.cur] && s.quantum[s.cur] > 1 then s.(quantum := s.quantum[s.cur := s.quantum[s.cur] - 1])
    else
      var d := Scan(s, run, 1);
      if d <= |s.eligible| then s.(cur := At(s, d), quantum := s.quantum[At(s, d) := Turn(s, At(s, d))])
      else if run[s.cur] then s.(quantum := s.quantum[s.cur := Turn(s, s.cur)])
      else s
  }

  // ---- cyclic distances and sums -------------------------------------------

  lemma ModAdd(a: nat, b: nat, n: nat)
    requires n > 0
    ensures (a % n + b) % n == (a + b) % n
  {
    var q := a / n;
    assert a == n * q + a % n;
    ModShift(a % n + b, q, n);
  }

  lemma {:induction false} ModShift(x: nat, q: nat, n: nat)
    requires n > 0
    ensures (x + n * q) % n == x % n
    decreases q
  {
    if q > 0 {
      assert n * q == n * (q - 1) + n;
      ModShift(x, q - 1, n);
      ModOnce(x + n * (q - 1), n);
    }
  }

  lemma ModOnce(x: nat, n: nat)
    requires n > 0
    ensures (x + n) % n == x % n
  {
    var q, r := x / n, x % n;
    assert x == n * q + r;
    assert x + n == n * (q + 1) + r;
    Quotient(x + n, n, q + 1, r);
  }

  lemma Quotient(x: nat, n: nat, q: nat, r: nat)
    requires n > 0 && r < n && x == n * q + r
    ensures x % n == r
  {
    var p, t := x / n, x % n;
    assert n * p + t == n * q + r;
    if p < q { MulGap(n, p, q); }
    if q < p { MulGap(n, q, p); }
  }

  lemma {:induction false} MulGap(n: nat, p: nat, q: nat)
    requires p < q
    ensures n * p + n <= n * q
    decreases q
  {
    assert n * q == n * (q - 1) + n;
    if p < q - 1 { MulGap(n, p, q - 1); }
  }

  /** Steps from the cursor to task `t`, between 1 and a full turn. */
  function Dist(s: Sched, t: nat): (d: nat)
    requires Shape(s) && t < |s.eligible|
    ensures 1 <= d <= |s.eligible|
  {
    if t > s.cur then t - s.cur else t + |s.eligible| - s.cur
  }

  lemma DistReaches(s: Sched, t: nat)
    requires Shape(s) && t < |s.eligible|
    ensures At(s, Dist(s, t)) == t
  {
    var n := |s.eligible|;
    if t > s.cur { Quotient(t, n, 0, t); } else { Quotient(t + n, n, 1, t); }
  }

  /** Moving the cursor `d` steps forward, short of `t`. */
  lemma Moved(s: Sched, r: Sched, d: nat, t: nat, j: nat)
    requires Shape(s) && Shape(r) && |r.eligible| == |s.eligible| && t < |s.eligible| && 1 <= d < Dist(s, t)
    requires r.cur == At(s, d)
    ensures Dist(r, t) == Dist(s, t) - d && At(r, j) == At(s, d + j)
  {
    var n := |s.eligible|;
    ModAdd(s.cur + d, j, n);
    if s.cur + d < n { Quotient(s.cur + d, n, 0, s.cur + d); } else { Quotient(s.cur + d, n, 1, s.cur + d - n); }
  }

  function Weight(s: Sched, i: nat): nat
    requires Shape(s) && i < |s.eligible|
  {
    if s.eligible[i] then Turn(s, i) else 0
  }

  /** Total turns of the eligible tasks from `i` to `k` steps after the cursor. */
  function Sum(s: Sched, i: nat, k: nat): (t: nat)
    requires Shape(s)
    decreases k - i
  {
    if i > k then 0 else Weight(s, At(s, i)) + Sum(s, i + 1, k)
  }

  lemma {:induction false} SumMoved(s: Sched, r: Sched, d: nat, t: nat, i: nat, k: nat)
    requires Shape(s) && Shape(r) && r.eligible == s.eligible && r.weight == s.weight && t < |s.eligible|
    requires 1 <= d < Dist(s, t) && r.cur == At(s, d)
    ensures Sum(r, i, k) == Sum(s, d + i, d + k)
    decreases k - i
  {
    hide At;
    if i <= k {
      Moved(s, r, d, t, i);
      SumMoved(s, r, d, t, i + 1, k);
    }
  }

  lemma {:induction false} SumSplit(s: Sched, i: nat, m: nat, k: nat)
    requires Shape(s) && i <= m <= k + 1
    ensures Sum(s, i, k) == (if m > 0 then Sum(s, i, m - 1) else 0) + Sum(s, m, k)
    decreases m - i
  {
    hide At;
    if i < m { SumSplit(s, i + 1, m, k); }
  }

  // ---- bounded waiting -----------------------------------------------------

  /** Ticks task `t` may still have to wait: the rest of the current turn, and one turn of each
      eligible task between the cursor and `t`. */
  function Wait(s: Sched, t: nat): (w: nat)
    requires Shape(s) && t < |s.eligible|
    ensures w >= 1
  {
    Rest(s) + Sum(s, 1, Dist(s, t) - 1)
  }

  /** While `t` stays ready, each tick picks `t` or brings it nearer. */
  lemma TickProgress(s: Sched, run: seq<bool>, t: nat)
    requires Shape(s) && |run| == |s.eligible| && t < |s.eligible| && Ready(s, run, t)
    ensures var r := Tick(s, run);
            (r.cur == t && r.quantum[t] == Turn(s, t)) || (t == s.cur == r.cur && r.quantum[t] < s.quantum[t])
                || Wait(r, t) < Wait(s, t)
  {
    hide At, Sum;
    var r, dt := Tick(s, run), Dist(s, t);
    if run[s.cur] && s.quantum[s.cur] > 1 {
      SameSum(s, r, 1, dt - 1);
    } else {
      var d := Scan(s, run, 1);
      DistReaches(s, t);
      assert d <= dt;
      if d < dt {
        SumMoved(s, r, d, t, 1, Dist(r, t) - 1);
        Moved(s, r, d, t, 0);
        SumSplit(s, 1, d, dt - 1);
        SumHead(s, d, dt - 1);
      }
    }
  }

  lemma SumHead(s: Sched, i: nat, k: nat)
    requires Shape(s) && i <= k
    ensures Sum(s, i, k) == Weight(s, At(s, i)) + Sum(s, i + 1, k)
  {
  }

  lemma {:induction false} SameSum(s: Sched, r: Sched, i: nat, k: nat)
    requires Shape(s) && Shape(r) && r.eligible == s.eligible && r.weight == s.weight && r.cur == s.cur
    ensures Sum(r, i, k) == Sum(s, i, k)
    decreases k - i
  {
    if i <= k { SameSum(s, r, i + 1, k); }
  }

  /** The schedule over a sequence of ticks. */
  function Ticks(s: Sched, runs: seq<seq<bool>>): (r: Sched)
    requires Shape(s) && forall k :: 0 <= k < |runs| ==> |runs[k]| == |s.eligible|
    ensures Shape(r)
    decreases |runs|
  {
    if runs == [] then s else Ticks(Tick(s, runs[0]), runs[1..])
  }

  /** Task `t` was given the processor at one of the ticks. */
  ghost predicate Picked(s: Sched, runs: seq<seq<bool>>, t: nat)
    requires Shape(s) && forall k :: 0 <= k < |runs| ==> |runs[k]| == |s.eligible|
    decreases |runs|
  {
    runs != [] && (Tick(s, runs[0]).cur == t || Picked(Tick(s, runs[0]), runs[1..], t))
  }

  lemma {:induction false} PickedWithin(s: Sched, runs: seq<seq<bool>>, t: nat)
    requires Shape(s) && t < |s.eligible| && forall k {:trigger runs[k]} ::
              0 <= k < |runs| ==> |runs[k]| == |s.eligible| && Ready(s, runs[k], t)
    requires |runs| >= Wait(s, t)
    ensures Picked(s, runs, t)
    decreases |runs|
  {
    hide Tick, Wait;
    var r := Tick(s, runs[0]);
    TickProgress(s, runs[0], t);
    if r.cur != t {
      forall k | 0 <= k < |runs[1..]|
        ensures |runs[1..][k]| == |r.eligible| && Ready(r, runs[1..][k], t)
      {
        assert runs[1..][k] == runs[k + 1];
      }
      PickedWithin(r, runs[1..], t);
    }
  }

  // ---- the bound as a sum of weights ---------------------------------------

  /** The sum of the turns of all eligible tasks. */
  function Total(s: Sched, i: nat): (t: nat)
    requires Shape(s) && i <= |s.eligible|
    decreases i
  {
    if i == 0 then 0 else Total(s, i - 1) + Weight(s, i - 1)
  }

  /** Tasks after the cursor, in order. */
  lemma {:induction false} SumUp(s: Sched, k: nat)
    requires Shape(s) && s.cur + k < |s.eligible|
    ensures Sum(s, 1, k) + Total(s, s.cur + 1) == Total(s, s.cur + k + 1)
    decreases k
  {
    hide At;
    if k > 0 {
      SumUp(s, k - 1);
      SumSplit(s, 1, k, k);
      SumHead(s, k, k);
      AtUp(s, k);
    }
  }

  lemma AtUp(s: Sched, k: nat)
    requires Shape(s) && s.cur + k < |s.eligible|
    ensures At(s, k) == s.cur + k
  {
    Quotient(s.cur + k, |s.eligible|, 0, s.cur + k);
  }

  /** A full turn passes every task once. */
  lemma {:induction false} SumAround(s: Sched, k: nat)
    requires Shape(s) && |s.eligible| - s.cur <= k + 1 && k <= |s.eligible|
    ensures Sum(s, 1, k) == Total(s, |s.eligible|) - Total(s, s.cur + 1) + Total(s, s.cur + k + 1 - |s.eligible|)
    decreases k
  {
    hide At;
    var n := |s.eligible|;
    if k + s.cur + 1 == n {
      SumUp(s, k);
    } else {
      SumAround(s, k - 1);
      SumSplit(s, 1, k, k);
      SumHead(s, k, k);
      AtRound(s, k);
    }
  }

  lemma AtRound(s: Sched, k: nat)
    requires Shape(s) && |s.eligible| <= s.cur + k < 2 * |s.eligible|
    ensures At(s, k) == s.cur + k - |s.eligible|
  {
    Quotient(s.cur + k, |s.eligible|, 1, s.cur + k - |s.eligible|);
  }

  lemma {:induction false} TotalMonotone(s: Sched, i: nat, j: nat)
    requires Shape(s) && i <= j <= |s.eligible|
    ensures Total(s, i) <= Total(s, j)
    decreases j - i
  {
    if i < j { TotalMonotone(s, i, j - 1); }
  }

  /** What is left of the turn of the task at the cursor, at least one tick. */
  function Rest(s: Sched): (q: nat)
    requires Shape(s)
  {
    if s.quantum[s.cur] > 1 then s.quantum[s.cur] else 1
  }

  /** The task at the cursor may be scheduled here and is within its turn. */
  ghost predicate InTurn(s: Sched) { Shape(s) && s.eligible[s.cur] && s.quantum[s.cur] <= Turn(s, s.cur) }

  /** Every tick keeps this, and every tick that picks a task establishes it. */
  lemma TickInTurn(s: Sched, run: seq<bool>)
    requires Shape(s) && |run| == |s.eligible|
    ensures InTurn(s) ==> InTurn(Tick(s, run))
    ensures Tick(s, run).cur != s.cur ==> InTurn(Tick(s, run))
  {
  }

  /** The wait of any task: the rest of the turn under way and one turn of every other eligible task
      but itself. */
  lemma WaitBound(s: Sched, t: nat)
    requires Shape(s) && t < |s.eligible| && s.eligible[t]
    ensures Wait(s, t) + Weight(s, s.cur) + (if t == s.cur then 0 else Turn(s, t)) <= Rest(s) + Total(s, |s.eligible|)
    ensures InTurn(s) ==> Wait(s, t) <= Total(s, |s.eligible|)
  {
    hide At, Sum;
    var n, d := |s.eligible|, Dist(s, t);
    if t > s.cur {
      SumUp(s, d - 1);
      TotalMonotone(s, t + 1, n);
    } else if s.cur + d == n {
      SumUp(s, d - 1);
      if t < s.cur { TotalMonotone(s, t + 1, s.cur); }
    } else {
      SumAround(s, d - 1);
      if t < s.cur { TotalMonotone(s, t + 1, s.cur); }
    }
  }

  /** Any eligible task that stays runnable is picked within the sum of all eligible turns, however
      the other tasks block and wake, and within the rest of the turn under way more if the task at
      the cursor does not belong here. */
  lemma BoundedWaiting(s: Sched, runs: seq<seq<bool>>, t: nat)
    requires Shape(s) && t < |s.eligible| && s.eligible[t]
    requires forall k {:trigger runs[k]} :: 0 <= k < |runs| ==> |runs[k]| == |s.eligible| && Ready(s, runs[k], t)
    requires |runs| >= Total(s, |s.eligible|) + if InTurn(s) then 0 else Rest(s)
    ensures Picked(s, runs, t)
  {
    hide Wait, Picked, Total;
    WaitBound(s, t);
    PickedWithin(s, runs, t);
  }

  // ---- the wait is exact ---------------------------------------------------

  ghost predicate AllRun(s: Sched, runs: seq<seq<bool>>)
    requires Shape(s)
  {
    forall k {:trigger runs[k]} :: 0 <= k < |runs| ==> |runs[k]| == |s.eligible| && forall j ::
        0 <= j < |runs[k]| ==> runs[k][j]
  }

  lemma {:induction false} ZeroSum(s: Sched, i: nat, k: nat)
    requires Shape(s) && forall j {:trigger At(s, j)} :: i <= j <= k ==> !s.eligible[At(s, j)]
    ensures Sum(s, i, k) == 0
    decreases k - i
  {
    hide At;
    if i <= k { ZeroSum(s, i + 1, k); }
  }

  /** When nobody blocks, each tick brings another task nearer by exactly one. */
  lemma TickExact(s: Sched, run: seq<bool>, t: nat)
    requires Shape(s) && |run| == |s.eligible| && t < |s.eligible| && s.eligible[t] && t != s.cur && forall j ::
              0 <= j < |run| ==> run[j]
    ensures Tick(s, run).cur == t <==> Wait(s, t) == 1
    ensures Tick(s, run).cur != t ==> Wait(Tick(s, run), t) == Wait(s, t) - 1
  {
    hide At, Sum;
    var r, dt := Tick(s, run), Dist(s, t);
    if s.quantum[s.cur] > 1 {
      SameSum(s, r, 1, dt - 1);
    } else {
      var d := Scan(s, run, 1);
      DistReaches(s, t);
      assert d <= dt;
      forall j {:trigger At(s, j)} | 1 <= j <= d - 1 ensures !s.eligible[At(s, j)] { assert !Ready(s, run, At(s, j)); }
      ZeroSum(s, 1, d - 1);
      if d < dt {
        SumMoved(s, r, d, t, 1, Dist(r, t) - 1);
        Moved(s, r, d, t, 0);
        SumSplit(s, 1, d, dt - 1);
        SumHead(s, d, dt - 1);
      }
    }
  }

  /** When nobody blocks, a task other than the current one is picked at its wait and not before. */
  lemma {:induction false} PickedExactly(s: Sched, runs: seq<seq<bool>>, t: nat)
    requires Shape(s) && t < |s.eligible| && s.eligible[t] && t != s.cur && AllRun(s, runs)
    ensures Picked(s, runs, t) <==> |runs| >= Wait(s, t)
    decreases |runs|
  {
    hide Tick, Wait;
    if runs != [] {
      var r := Tick(s, runs[0]);
      assert |runs[0]| == |s.eligible|;
      TickExact(s, runs[0], t);
      if r.cur != t {
        forall k | 0 <= k < |runs[1..]|
          ensures |runs[1..][k]| == |r.eligible| && forall j :: 0 <= j < |runs[1..][k]| ==> runs[1..][k][j]
        {
          assert runs[1..][k] == runs[k + 1];
        }
        PickedExactly(r, runs[1..], t);
      }
    }
  }

  /** A cursor left on a task that may not run here, as a removal from the table can leave it: the
      other task waits for the rest of that turn, longer than the sum of the eligible turns. */
  lemma StrayCursor()
    ensures var s := Sched([false, true], [5, 1], [5, 1], 0); var runs := [[true, true]];
            Shape(s) && !InTurn(s) && AllRun(s, runs) && |runs| == Total(s, 2) && !Picked(s, runs, 1)
                && Wait(s, 1) == Rest(s) == 5
  {
    var s, runs := Sched([false, true], [5, 1], [5, 1], 0), [[true, true]];
    assert Total(s, 1) == 0 && Total(s, 2) == 1;
    assert Sum(s, 1, 0) == 0 && Dist(s, 1) == 1;
    PickedExactly(s, runs, 1);
  }

  // ---- the timer handler ---------------------------------------------------

  class RoundRobin {
    const eligible: array<bool>
    const weight: array<nat>
    const quantum: array<nat>
    var cur: nat

    ghost predicate Valid()
      reads this
    {
      0 < eligible.Length == weight.Length == quantum.Length && cur < eligible.Length && weight != quantum
    }

    ghost function View(): Sched
      reads this, eligible, weight, quantum
    {
      Sched(eligible[..], weight[..], quantum[..], cur)
    }

    /** The scheduling part of irq_scheduler_tick. */
    method OnTick(run: seq<bool>)
      requires Valid() && |run| == eligible.Length
      modifies this`cur, quantum
      ensures Valid() && View() == Tick(old(View()), run)
    {
      hide At;
      ghost var s := View();
      if run[cur] && quantum[cur] > 1 {
        quantum[cur] := quantum[cur] - 1;
        return;
      }
      var n, i := eligible.Length, 1;
      while i <= n
        invariant 1 <= i <= n + 1 && View() == s && Scan(s, run, 1) == Scan(s, run, i)
      {
        var idx := (cur + i) % n;
        AtIs(s, i);
        if run[idx] && eligible[idx] {
          cur := idx;
          quantum[idx] := if weight[idx] != 0 then weight[idx] else 1;
          return;
        }
        i := i + 1;
      }
      if run[cur] { quantum[cur] := if weight[cur] != 0 then weight[cur] else 1; }
    }
  }

  lemma AtIs(s: Sched, i: nat)
    requires Shape(s)
    ensures At(s, i) == (s.cur + i) % |s.eligible|
  {
  }
}
