/** Round-robin scheduling with a fixed quantum. Each pass of the `for` loop
    visits the records in array order and grants every record that has
    arrived by the current time and still needs service up to one quantum;
    passes repeat until every record has completed. */
module RoundRobin {
  import opened Processes

  const TIME_QUANTUM: int := 3

  function Min(x: int, y: int): int
  {
    if x < y then x else y
  }

  /** One turn of record `p` starting at time `t`: it runs for the smaller of
      its remaining service and the quantum. Yields the record and the time
      the turn ends. */
  function Grant(p: Process, t: int): (r: (Process, int))
    ensures SameJob(p, r.0)
    ensures r.1 - t == Min(p.remaining, TIME_QUANTUM)
    ensures r.0.remaining == p.remaining - (r.1 - t)
    ensures r.0.remaining == 0 ==> r.0.arrival + r.0.turnaround == r.1 && r.0.turnaround == r.0.waiting + r.0.burst
    ensures r.0.remaining != 0 ==> r.0.waiting == p.waiting && r.0.turnaround == p.turnaround
  {
    if p.remaining > TIME_QUANTUM then
      (p.(remaining := p.remaining - TIME_QUANTUM), t + TIME_QUANTUM)
    else
      var now := t + p.remaining;
      (Complete(p, now), now)
  }

  /** The rest of a pass, from index `i` on, started at time `t`: the records
      and the time when the pass ends. */
  function PassFrom(s: seq<Process>, t: int, i: int): (r: (seq<Process>, int))
    requires 0 <= i <= |s|
    ensures |r.0| == |s| && r.1 >= t
    decreases |s| - i
  {
    if i == |s| then (s, t)
    else if Eligible(s[i], t) then
      var g := Grant(s[i], t);
      PassFrom(s[i := g.0], g.1, i + 1)
    else
      PassFrom(s, t, i + 1)
  }

  /** A pass moves the clock by exactly the service it grants. */
  lemma {:induction false} PassWork(s: seq<Process>, t: int, i: int)
    requires 0 <= i <= |s|
    ensures PassFrom(s, t, i).1 - t == TotalRemaining(s) - TotalRemaining(PassFrom(s, t, i).0)
    decreases |s| - i
  {
    if i < |s| {
      if Eligible(s[i], t) {
        var g := Grant(s[i], t);
        TotalRemainingUpdate(s, i, g.0);
        PassWork(s[i := g.0], g.1, i + 1);
      } else {
        PassWork(s, t, i + 1);
      }
    }
  }

  /** A pass leaves the clock where it was exactly when no record it visits is
      eligible at the start, and such an idle pass changes no record either:
      repeating it from the same state repeats it identically. */
  lemma {:induction false} PassIdle(s: seq<Process>, t: int, i: int)
    requires 0 <= i <= |s|
    ensures PassFrom(s, t, i).1 == t <==> forall j :: i <= j < |s| ==> !Eligible(s[j], t)
    ensures PassFrom(s, t, i).1 == t ==> PassFrom(s, t, i).0 == s
    decreases |s| - i
  {
    if i < |s| {
      if Eligible(s[i], t) {
        var g := Grant(s[i], t);
        assert PassFrom(s, t, i).1 >= g.1 > t;
      } else {
        PassIdle(s, t, i + 1);
      }
    }
  }

  /** A pass keeps every record tracked, never touches a record that has
      already completed (so each record completes exactly once) and never
      revisits the indices before `i`. */
  lemma {:induction false} PassTracked(s0: seq<Process>, s: seq<Process>, t: int, i: int)
    requires 0 <= i <= |s| == |s0|
    requires forall j :: 0 <= j < |s| ==> Tracked(s0[j], s[j], t)
    ensures forall j :: 0 <= j < |s| ==> Tracked(s0[j], PassFrom(s, t, i).0[j], PassFrom(s, t, i).1)
    ensures forall j :: 0 <= j < |s| && (j < i || s[j].remaining == 0) ==> PassFrom(s, t, i).0[j] == s[j]
    decreases |s| - i
  {
    if i < |s| {
      if Eligible(s[i], t) {
        var g := Grant(s[i], t);
        var s' := s[i := g.0];
        assert Tracked(s0[i], g.0, g.1);
        PassTracked(s0, s', g.1, i + 1);
      } else {
        PassTracked(s0, s, t, i + 1);
      }
    }
  }

  /** One pass of the `for` loop of `schedule_rr`, with the `completed`
      counter kept in step with the records. */
  method RoundRobinPass(a: array<Process>, currentTime: int, completed: int)
    returns (currentTime': int, completed': int)
    requires completed == CountDone(a[..])
    modifies a
    ensures (a[..], currentTime') == PassFrom(old(a[..]), currentTime, 0)
    ensures completed' == CountDone(a[..])
  {
    currentTime', completed' := currentTime, completed;
    for i := 0 to a.Length
      invariant PassFrom(a[..], currentTime', i) == PassFrom(old(a[..]), currentTime, 0)
      invariant completed' == CountDone(a[..])
    {
      if a[i].arrival <= currentTime' && a[i].remaining > 0 {
        ghost var s, t := a[..], currentTime';
        ghost var g := Grant(s[i], t);
        assert PassFrom(s, t, i) == PassFrom(s[i := g.0], g.1, i + 1);
        if a[i].remaining > TIME_QUANTUM {
          currentTime' := currentTime' + TIME_QUANTUM;
          a[i] := a[i].(remaining := a[i].remaining - TIME_QUANTUM);
        } else {
          currentTime' := currentTime' + a[i].remaining;
          a[i] := Complete(a[i], currentTime');
          completed' := completed' + 1;
        }
        assert a[i] == g.0 && currentTime' == g.1;
        CountDoneUpdate(s, i, a[i]);
        assert a[..] == s[i := a[i]];
      }
    }
  }

  /** A pass never leaves a record owed a negative amount of service. */
  lemma {:induction false} PassOwing(s: seq<Process>, t: int, i: int)
    requires 0 <= i <= |s| && Owing(s)
    ensures Owing(PassFrom(s, t, i).0)
    decreases |s| - i
  {
    if i < |s| {
      if Eligible(s[i], t) {
        var g := Grant(s[i], t);
        PassOwing(s[i := g.0], g.1, i + 1);
      } else {
        PassOwing(s, t, i + 1);
      }
    }
  }

  /** The `while` loop of `schedule_rr` from records `s` at time `t`: passes
      repeat until every record has completed. A pass that leaves the clock
      where it was is a fixed point that the C loop would repeat forever; the
      result then carries `true` and the state at which the loop hangs.
      Otherwise it carries `false`, the final records and the final time. */
  ghost function RrFrom(s: seq<Process>, t: int): (r: (seq<Process>, int, bool))
    requires Owing(s)
    ensures |r.0| == |s| && r.1 >= t
    ensures !r.2 ==> CountDone(r.0) == |r.0|
    ensures r.2 ==> CountDone(r.0) < |r.0| && PassFrom(r.0, r.1, 0) == (r.0, r.1)
    decreases TotalRemaining(s)
  {
    if CountDone(s) == |s| then (s, t, false)
    else
      var p := PassFrom(s, t, 0);
      PassWork(s, t, 0);
      PassIdle(s, t, 0);
      PassOwing(s, t, 0);
      if p.1 == t then (s, t, true) else RrFrom(p.0, p.1)
  }

  /** The same loop with the idle-time advance: after a pass that grants
      nothing the clock moves on by one. It always ends with every record
      completed, and yields the records and the final time. */
  ghost function RrIdleFrom(s: seq<Process>, t: int): (r: (seq<Process>, int))
    requires Owing(s)
    ensures |r.0| == |s| && CountDone(r.0) == |r.0| && r.1 >= t
    decreases TotalRemaining(s), MaxArrival(s) - t
  {
    if CountDone(s) == |s| then (s, t)
    else
      var p := PassFrom(s, t, 0);
      PassWork(s, t, 0);
      PassIdle(s, t, 0);
      PassOwing(s, t, 0);
      if p.1 == t then
        IdleAwaitsArrival(s, t);
        RrIdleFrom(s, t + 1)
      else
        RrIdleFrom(p.0, p.1)
  }

  /** What one whole pass does to a consistent state: it keeps every record
      tracked; a pass that moves the clock lowers the service still owed, and
      one that does not changes nothing, while a record still unfinished
      then has yet to arrive. Both loops continue from the state the pass
      leaves, or, with the idle-time advance, from the next tick. */
  lemma PassOutcome(s0: seq<Process>, s: seq<Process>, t: int)
    requires AllTracked(s0, s, t) && CountDone(s) < |s|
    ensures Owing(s) && Owing(PassFrom(s, t, 0).0)
    ensures AllTracked(s0, PassFrom(s, t, 0).0, PassFrom(s, t, 0).1)
    ensures PassFrom(s, t, 0).1 > t ==> TotalRemaining(PassFrom(s, t, 0).0) < TotalRemaining(s)
    ensures PassFrom(s, t, 0).1 == t ==> PassFrom(s, t, 0).0 == s && MaxArrival(s) > t
    ensures PassFrom(s, t, 0).1 == t ==> RrFrom(s, t) == (s, t, true)
    ensures PassFrom(s, t, 0).1 > t ==> RrFrom(s, t) == RrFrom(PassFrom(s, t, 0).0, PassFrom(s, t, 0).1)
    ensures PassFrom(s, t, 0).1 == t ==> RrIdleFrom(s, t) == RrIdleFrom(s, t + 1)
    ensures PassFrom(s, t, 0).1 > t ==> RrIdleFrom(s, t) == RrIdleFrom(PassFrom(s, t, 0).0, PassFrom(s, t, 0).1)
  {
    PassWork(s, t, 0);
    PassTracked(s0, s, t, 0);
    PassIdle(s, t, 0);
    PassOwing(s, t, 0);
    if PassFrom(s, t, 0).1 == t {
      IdleAwaitsArrival(s, t);
    }
  }

  /** `schedule_rr` as written. It has no idle-time advance: a pass in which
      no record is eligible leaves everything unchanged, and the C `while`
      loop then repeats that pass forever. The model stops there instead and
      reports `stalled`, with the state at which the pass is a fixed point.
      The outcome is that of `RrFrom` from time 0. */
  method ScheduleRr(a: array<Process>) returns (stalled: bool, ghost time: int)
    requires forall i :: 0 <= i < a.Length ==> Pending(a[i])
    modifies a
    ensures Owing(old(a[..])) && (a[..], time, stalled) == RrFrom(old(a[..]), 0)
    ensures forall i :: 0 <= i < a.Length ==> Tracked(old(a[i]), a[i], time)
    ensures !stalled ==> forall i :: 0 <= i < a.Length ==> Finished(a[i])
    ensures stalled ==> CountDone(a[..]) < a.Length && PassFrom(a[..], time, 0) == (a[..], time)
  {
    ghost var init := a[..];
    assert AllTracked(init, init, 0);
    ghost var final := RrFrom(init, 0);
    var currentTime := 0;
    var completed := 0;
    stalled := false;
    while completed < a.Length
      invariant completed == CountDone(a[..])
      invariant AllTracked(init, a[..], currentTime)
      invariant Owing(a[..]) && !stalled && RrFrom(a[..], currentTime) == final
      decreases TotalRemaining(a[..])
    {
      ghost var s := a[..];
      var passStart := currentTime;
      PassOutcome(init, s, passStart);
      currentTime, completed := RoundRobinPass(a, currentTime, completed);
      if currentTime == passStart {
        stalled := true;
        break;
      }
    }
    time := currentTime;
    assert forall i :: 0 <= i < a.Length ==> Tracked(init[i], a[..][i], time);
  }

  /** `schedule_rr` with the idle-time advance it lacks: after a pass that
      granted nothing, the clock moves on by one. The outcome is that of
      `RrIdleFrom` from time 0, so every record finishes. */
  method ScheduleRrIdleAdvance(a: array<Process>)
    requires forall i :: 0 <= i < a.Length ==> Pending(a[i])
    modifies a
    ensures Owing(old(a[..])) && a[..] == RrIdleFrom(old(a[..]), 0).0
    ensures forall i :: 0 <= i < a.Length ==> SameJob(old(a[i]), a[i]) && Finished(a[i])
  {
    ghost var init := a[..];
    assert AllTracked(init, init, 0);
    ghost var final := RrIdleFrom(init, 0);
    var currentTime := 0;
    var completed := 0;
    while completed < a.Length
      invariant completed == CountDone(a[..])
      invariant AllTracked(init, a[..], currentTime)
      invariant Owing(a[..]) && RrIdleFrom(a[..], currentTime) == final
      decreases TotalRemaining(a[..]), MaxArrival(a[..]) - currentTime
    {
      ghost var s := a[..];
      var passStart := currentTime;
      PassOutcome(init, s, passStart);
      currentTime, completed := RoundRobinPass(a, currentTime, completed);
      if currentTime == passStart {
        assert a[..] == s;
        currentTime := currentTime + 1;
      }
      assert RrIdleFrom(a[..], currentTime) == RrIdleFrom(s, passStart);
    }
    assert forall i :: 0 <= i < a.Length ==> Tracked(init[i], a[..][i], currentTime);
  }

  /** A set `create_processes` can produce on which `schedule_rr` hangs: the
      only process arrives at time 1, so the first pass, at time 0, grants
      nothing and leaves the state as it found it. With the idle-time advance
      the process instead runs 1..2, waiting 0. */
  lemma RoundRobinStallsBeforeFirstArrival()
    ensures Generated([Process(1, 1, 1, 1, 0, 0, 1)])
    ensures RrFrom([Process(1, 1, 1, 1, 0, 0, 1)], 0) == ([Process(1, 1, 1, 1, 0, 0, 1)], 0, true)
    ensures RrIdleFrom([Process(1, 1, 1, 1, 0, 0, 1)], 0) == ([Process(1, 1, 1, 1, 0, 1, 0)], 2)
  {
    var p, q := Process(1, 1, 1, 1, 0, 0, 1), Process(1, 1, 1, 1, 0, 1, 0);
    assert PassFrom([p], 0, 0) == ([p], 0);
    assert [p][0 := q] == [q];
    assert PassFrom([p], 1, 0) == ([q], 2);
    assert RrIdleFrom([q], 2) == ([q], 2);
  }

  /** Two processes, quantum 3: P1 (arrival 0, burst 5) runs 0..3; P2 (arrival
      1, burst 3) runs its whole burst 3..6 and completes with waiting 2 and
      turnaround 5; the second pass runs P1 6..8, completing it with waiting 3
      and turnaround 8. */
  lemma RoundRobinTwoProcesses()
    ensures RrFrom([Process(1, 0, 5, 1, 0, 0, 5), Process(2, 1, 3, 1, 0, 0, 3)], 0)
         == ([Process(1, 0, 5, 1, 3, 8, 0), Process(2, 1, 3, 1, 2, 5, 0)], 8, false)
  {
    var p1, p2 := Process(1, 0, 5, 1, 0, 0, 5), Process(2, 1, 3, 1, 0, 0, 3);
    var p1', p2' := p1.(remaining := 2), Process(2, 1, 3, 1, 2, 5, 0);
    assert Grant(p1, 0) == (p1', 3);
    assert Grant(p2, 3) == (p2', 6);
    assert [p1, p2][0 := p1'] == [p1', p2];
    assert [p1', p2][1 := p2'] == [p1', p2'];
    assert PassFrom([p1', p2'], 6, 2) == ([p1', p2'], 6);
    assert PassFrom([p1', p2], 3, 1) == ([p1', p2'], 6);
    assert PassFrom([p1, p2], 0, 0) == ([p1', p2'], 6);

    var p1'' := Process(1, 0, 5, 1, 3, 8, 0);
    assert Grant(p1', 6) == (p1'', 8);
    assert [p1', p2'][0 := p1''] == [p1'', p2'];
    assert PassFrom([p1'', p2'], 8, 2) == ([p1'', p2'], 8);
    assert PassFrom([p1'', p2'], 8, 1) == ([p1'', p2'], 8);
    assert PassFrom([p1', p2'], 6, 0) == ([p1'', p2'], 8);
    assert RrFrom([p1'', p2'], 8) == ([p1'', p2'], 8, false);
    assert RrFrom([p1', p2'], 6) == ([p1'', p2'], 8, false);
  }

  /** Three processes with unit bursts, P1 and P3 arriving at 0 and P2 at 2:
      the first pass runs P1 0..1, skips P2, which has not arrived by 1, and
      runs P3 1..2; the second pass runs P2 2..3. So P1 waits 0, P3 waits 1
      and P2 waits 0, and the schedule ends at time 3. */
  lemma RoundRobinSkipsLateArrival()
    ensures RrFrom([Process(1, 0, 1, 1, 0, 0, 1), Process(2, 2, 1, 1, 0, 0, 1), Process(3, 0, 1, 1, 0, 0, 1)], 0)
         == ([Process(1, 0, 1, 1, 0, 1, 0), Process(2, 2, 1, 1, 0, 1, 0), Process(3, 0, 1, 1, 1, 2, 0)], 3, false)
  {
    var p1, p2, p3 := Process(1, 0, 1, 1, 0, 0, 1), Process(2, 2, 1, 1, 0, 0, 1), Process(3, 0, 1, 1, 0, 0, 1);
    var q1, q2, q3 := Process(1, 0, 1, 1, 0, 1, 0), Process(2, 2, 1, 1, 0, 1, 0), Process(3, 0, 1, 1, 1, 2, 0);
    assert [p1, p2, p3][0 := q1] == [q1, p2, p3];
    assert [q1, p2, p3][2 := q3] == [q1, p2, q3];
    assert PassFrom([q1, p2, q3], 2, 3) == ([q1, p2, q3], 2);
    assert PassFrom([q1, p2, p3], 1, 2) == ([q1, p2, q3], 2);
    assert PassFrom([q1, p2, p3], 1, 1) == ([q1, p2, q3], 2);
    assert PassFrom([p1, p2, p3], 0, 0) == ([q1, p2, q3], 2);

    assert [q1, p2, q3][1 := q2] == [q1, q2, q3];
    assert PassFrom([q1, q2, q3], 3, 2) == ([q1, q2, q3], 3);
    assert PassFrom([q1, p2, q3], 2, 1) == ([q1, q2, q3], 3);
    assert PassFrom([q1, p2, q3], 2, 0) == ([q1, q2, q3], 3);
    assert RrFrom([q1, q2, q3], 3) == ([q1, q2, q3], 3, false);
    assert RrFrom([q1, p2, q3], 2) == ([q1, q2, q3], 3, false);
  }
}
