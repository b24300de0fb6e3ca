/** Preemptive shortest-remaining-time-first and preemptive priority
    scheduling. Time advances one tick per iteration; every tick the scan
    picks, among the records that have arrived and still need service, the one
    with the smallest key, and runs it for that tick. The two C functions
    differ only in the key, so both are `RunPreemptive` with a `Rule`. */
module Preemptive {
  import opened Processes

  /** The key the scan minimises. */
  datatype Rule = ShortestRemaining | HighestPriority

  function Key(rule: Rule, p: Process): int
  {
    match rule
    case ShortestRemaining => p.remaining
    case HighestPriority => p.priority
  }

  /** `k` is the record the scan must pick at time `t`: it is eligible, no
      eligible record has a smaller key, and every eligible record before it
      has a strictly larger key (ties go to the lowest index). */
  predicate IsChoice(s: seq<Process>, rule: Rule, t: int, k: int)
  {
    && 0 <= k < |s|
    && Eligible(s[k], t)
    && (forall j :: 0 <= j < |s| && Eligible(s[j], t) ==> Key(rule, s[k]) <= Key(rule, s[j]))
    && (forall j :: 0 <= j < k && Eligible(s[j], t) ==> Key(rule, s[k]) < Key(rule, s[j]))
  }

  /** The choice is unique: the rule leaves nothing to chance. */
  lemma ChoiceUnique(s: seq<Process>, rule: Rule, t: int, k: int, k': int)
    requires IsChoice(s, rule, t, k) && IsChoice(s, rule, t, k')
    ensures k == k'
  {
  }

  /** The record the scan settles on among the first `n`: -1 when none of
      them is eligible at `t`, otherwise the first eligible one with the
      smallest key. */
  function Best(s: seq<Process>, rule: Rule, t: int, n: int): (r: int)
    requires 0 <= n <= |s|
    ensures -1 <= r < n
    decreases n
  {
    if n == 0 then -1
    else
      var k := Best(s, rule, t, n - 1);
      if Eligible(s[n - 1], t) && (k == -1 || Key(rule, s[n - 1]) < Key(rule, s[k])) then n - 1 else k
  }

  /** `Best` finds the rule's choice among the first `n` records. */
  lemma {:induction false} BestIsChoice(s: seq<Process>, rule: Rule, t: int, n: int)
    requires 0 <= n <= |s|
    ensures Best(s, rule, t, n) == -1 <==> forall j :: 0 <= j < n ==> !Eligible(s[j], t)
    ensures Best(s, rule, t, n) != -1 ==> IsChoice(s[..n], rule, t, Best(s, rule, t, n))
    decreases n
  {
    if n > 0 {
      BestIsChoice(s, rule, t, n - 1);
      assert s[..n - 1] == s[..n][..n - 1];
    }
  }

  /** The record the rule picks at time `t`, or -1 when none is eligible. */
  function Choice(s: seq<Process>, rule: Rule, t: int): (k: int)
    ensures -1 <= k < |s|
  {
    Best(s, rule, t, |s|)
  }

  lemma ChoiceSpec(s: seq<Process>, rule: Rule, t: int)
    ensures Choice(s, rule, t) == -1 <==> forall j :: 0 <= j < |s| ==> !Eligible(s[j], t)
    ensures Choice(s, rule, t) != -1 ==> IsChoice(s, rule, t, Choice(s, rule, t))
  {
    BestIsChoice(s, rule, t, |s|);
    assert s[..|s|] == s;
  }

  /** The selection scan of `schedule_psjf` and `schedule_ppriority`: -1 when
      no record is eligible at `t`, otherwise the rule's choice. */
  method PickNext(a: array<Process>, rule: Rule, t: int) returns (k: int)
    requires forall j :: 0 <= j < a.Length ==> Key(rule, a[j]) < INT_MAX
    ensures k == -1 <==> forall j :: 0 <= j < a.Length ==> !Eligible(a[j], t)
    ensures k != -1 ==> IsChoice(a[..], rule, t, k)
    ensures k == Choice(a[..], rule, t)
  {
    k := -1;
    var best := INT_MAX;
    for i := 0 to a.Length
      invariant -1 <= k < i
      invariant k == -1 <==> forall j :: 0 <= j < i ==> !Eligible(a[j], t)
      invariant k == -1 ==> best == INT_MAX
      invariant k != -1 ==> Eligible(a[k], t) && best == Key(rule, a[k])
      invariant forall j :: 0 <= j < i && Eligible(a[j], t) ==> best <= Key(rule, a[j])
      invariant forall j :: 0 <= j < k && Eligible(a[j], t) ==> best < Key(rule, a[j])
    {
      if Eligible(a[i], t) && Key(rule, a[i]) < best {
        best := Key(rule, a[i]);
        k := i;
      }
    }
    ChoiceSpec(a[..], rule, t);
    if k != -1 {
      ChoiceUnique(a[..], rule, t, k, Choice(a[..], rule, t));
    }
  }

  /** `p` after running for the tick that ends at `now`: one unit less to go,
      and if that was the last, its times are filled in. */
  function Tick(p: Process, now: int): (r: Process)
    ensures SameJob(p, r) && r.remaining == p.remaining - 1
    ensures r.remaining == 0 ==> r.arrival + r.turnaround == now && r.turnaround == r.waiting + r.burst
    ensures r.remaining != 0 ==> r.waiting == p.waiting && r.turnaround == p.turnaround
  {
    var left := p.remaining - 1;
    if left == 0 then Complete(p, now) else p.(remaining := left)
  }

  /** A record served for one tick at an instant it was eligible stays tracked. */
  lemma TickTracked(p0: Process, p: Process, t: int)
    requires Tracked(p0, p, t) && Eligible(p, t)
    ensures Tracked(p0, Tick(p, t + 1), t + 1)
  {
  }

  /** The records after one iteration of the loop at time `t`: the rule's
      choice runs for the tick that ends at `t + 1`; with nothing eligible,
      nothing changes. */
  function Next(rule: Rule, s: seq<Process>, t: int): seq<Process>
  {
    var k := Choice(s, rule, t);
    if k == -1 then s else s[k := Tick(s[k], t + 1)]
  }

  /** An iteration that finds a record unfinished either lowers the service
      still owed or, idle, waits for a record that has yet to arrive. */
  lemma NextOutcome(rule: Rule, s: seq<Process>, t: int)
    requires Owing(s) && CountDone(s) < |s|
    ensures |Next(rule, s, t)| == |s| && Owing(Next(rule, s, t))
    ensures TotalRemaining(Next(rule, s, t)) < TotalRemaining(s)
         || (Next(rule, s, t) == s && MaxArrival(s) > t)
  {
    var k := Choice(s, rule, t);
    ChoiceSpec(s, rule, t);
    if k == -1 {
      IdleAwaitsArrival(s, t);
    } else {
      TotalRemainingUpdate(s, k, Tick(s[k], t + 1));
    }
  }

  /** The records when the loop, entered at time `t` with the records `s`,
      ends: iterations repeated until every record has completed. */
  ghost function Run(rule: Rule, s: seq<Process>, t: int): (r: seq<Process>)
    requires Owing(s)
    ensures |r| == |s| && CountDone(r) == |r|
    decreases TotalRemaining(s), MaxArrival(s) - t
  {
    if CountDone(s) == |s| then s
    else
      NextOutcome(rule, s, t);
      Run(rule, Next(rule, s, t), t + 1)
  }

  /** Unfolding `Run` by one iteration. */
  lemma RunStep(rule: Rule, s: seq<Process>, t: int)
    requires Owing(s) && CountDone(s) < |s|
    ensures Owing(Next(rule, s, t))
    ensures Run(rule, s, t) == Run(rule, Next(rule, s, t), t + 1)
  {
    NextOutcome(rule, s, t);
  }

  /** Every key of `s` is below the scan's starting value. */
  predicate KeysBelowMax(rule: Rule, s: seq<Process>)
  {
    forall j :: 0 <= j < |s| ==> Key(rule, s[j]) < INT_MAX
  }

  /** One iteration of the `while` loop: the scan picks the rule's choice;
      that record runs for one tick, counted when it completes, or, with
      nothing eligible, only the clock moves. */
  method Step(a: array<Process>, rule: Rule, currentTime: int, completed: int)
    returns (k: int, currentTime': int, completed': int)
    requires KeysBelowMax(rule, a[..])
    requires completed == CountDone(a[..])
    modifies a
    ensures currentTime' == currentTime + 1
    ensures k == Choice(old(a[..]), rule, currentTime)
    ensures a[..] == Next(rule, old(a[..]), currentTime)
    ensures completed' == CountDone(a[..])
  {
    ghost var s := a[..];
    k := PickNext(a, rule, currentTime);
    completed' := completed;
    if k != -1 {
      a[k] := a[k].(remaining := a[k].remaining - 1);
      currentTime' := currentTime + 1;
      if a[k].remaining == 0 {
        a[k] := Complete(a[k], currentTime');
        completed' := completed' + 1;
      }
      assert a[k] == Tick(s[k], currentTime');
      assert a[..] == s[k := a[k]];
      CountDoneUpdate(s, k, a[k]);
    } else {
      currentTime' := currentTime + 1;
    }
    assert a[..] == Next(rule, s, currentTime);
  }

  /** One iteration keeps every record tracked and every key below `INT_MAX`. */
  lemma NextTracked(rule: Rule, s0: seq<Process>, s: seq<Process>, t: int)
    requires AllTracked(s0, s, t) && KeysBelowMax(rule, s)
    ensures AllTracked(s0, Next(rule, s, t), t + 1) && KeysBelowMax(rule, Next(rule, s, t))
  {
    var k := Choice(s, rule, t);
    ChoiceSpec(s, rule, t);
    if k != -1 {
      TickTracked(s0[k], s[k], t);
    }
  }

  /** What one iteration does to a consistent state with a record unfinished:
      it keeps every record tracked and every key below `INT_MAX`, it is one
      step of `Run`, and it either lowers the service still owed or, idle,
      waits for a record that has yet to arrive. */
  lemma StepOutcome(rule: Rule, s0: seq<Process>, s: seq<Process>, t: int)
    requires AllTracked(s0, s, t) && KeysBelowMax(rule, s) && CountDone(s) < |s|
    ensures AllTracked(s0, Next(rule, s, t), t + 1) && KeysBelowMax(rule, Next(rule, s, t))
    ensures Owing(s) && Owing(Next(rule, s, t))
    ensures Run(rule, s, t) == Run(rule, Next(rule, s, t), t + 1)
    ensures TotalRemaining(Next(rule, s, t)) < TotalRemaining(s)
         || (Next(rule, s, t) == s && MaxArrival(s) > t)
  {
    var k := Choice(s, rule, t);
    ChoiceSpec(s, rule, t);
    if k == -1 {
      IdleAwaitsArrival(s, t);
    } else {
      var p := Tick(s[k], t + 1);
      TickTracked(s0[k], s[k], t);
      TotalRemainingUpdate(s, k, p);
    }
    NextTracked(rule, s0, s, t);
    RunStep(rule, s, t);
  }

  /** The body of `schedule_psjf` and `schedule_ppriority`. Started from
      records that each need at least one unit of service, it ends in the
      state `Run` gives: every record finished, in the same place and with its
      fixed fields intact. */
  method RunPreemptive(a: array<Process>, rule: Rule)
    requires forall i :: 0 <= i < a.Length ==> Pending(a[i]) && Key(rule, a[i]) < INT_MAX
    modifies a
    ensures Owing(old(a[..])) && a[..] == Run(rule, old(a[..]), 0)
    ensures forall i :: 0 <= i < a.Length ==> SameJob(old(a[i]), a[i]) && Finished(a[i])
  {
    ghost var init := a[..];
    assert Owing(init) && AllTracked(init, init, 0);
    ghost var final := Run(rule, init, 0);
    var currentTime := 0;
    var completed := 0;
    while completed < a.Length
      invariant completed == CountDone(a[..])
      invariant AllTracked(init, a[..], currentTime) && KeysBelowMax(rule, a[..])
      invariant Owing(a[..]) && Run(rule, a[..], currentTime) == final
      decreases TotalRemaining(a[..]), MaxArrival(a[..]) - currentTime
    {
      ghost var s := a[..];
      ghost var t := currentTime;
      StepOutcome(rule, init, s, t);
      var k;
      k, currentTime, completed := Step(a, rule, currentTime, completed);
    }
    assert forall i :: 0 <= i < a.Length ==> Tracked(init[i], a[..][i], currentTime);
  }

  /** `schedule_psjf`: shortest remaining time first. */
  method SchedulePsjf(a: array<Process>)
    requires forall i :: 0 <= i < a.Length ==> Pending(a[i]) && a[i].remaining < INT_MAX
    modifies a
    ensures Owing(old(a[..])) && a[..] == Run(ShortestRemaining, old(a[..]), 0)
    ensures forall i :: 0 <= i < a.Length ==> SameJob(old(a[i]), a[i]) && Finished(a[i])
  {
    RunPreemptive(a, ShortestRemaining);
  }

  /** `schedule_ppriority`: the smallest `priority` value first. */
  method SchedulePpriority(a: array<Process>)
    requires forall i :: 0 <= i < a.Length ==> Pending(a[i]) && a[i].priority < INT_MAX
    modifies a
    ensures Owing(old(a[..])) && a[..] == Run(HighestPriority, old(a[..]), 0)
    ensures forall i :: 0 <= i < a.Length ==> SameJob(old(a[i]), a[i]) && Finished(a[i])
  {
    RunPreemptive(a, HighestPriority);
  }

  /** The loop on a set of two records, spelled out without the scan: the
      first record runs when it is eligible and its key is not larger than
      that of an eligible second one; otherwise the second runs if eligible;
      otherwise the clock moves on. */
  ghost function RunTwo(rule: Rule, p: Process, q: Process, t: int): (r: (Process, Process))
    requires p.remaining >= 0 && q.remaining >= 0
    ensures r.0.remaining == 0 && r.1.remaining == 0
    decreases p.remaining + q.remaining, Max(p.arrival, q.arrival) - t
  {
    if p.remaining == 0 && q.remaining == 0 then (p, q)
    else if Eligible(p, t) && (!Eligible(q, t) || Key(rule, p) <= Key(rule, q)) then RunTwo(rule, Tick(p, t + 1), q, t + 1)
    else if Eligible(q, t) then RunTwo(rule, p, Tick(q, t + 1), t + 1)
    else RunTwo(rule, p, q, t + 1)
  }

  /** Once the second of two records has completed, the first runs without a
      pause from any instant it is eligible and completes `remaining` ticks
      later. */
  lemma {:induction false} RunTwoAlone(rule: Rule, p: Process, q: Process, t: int)
    requires Eligible(p, t) && q.remaining == 0
    ensures RunTwo(rule, p, q, t) == (Complete(p, t + p.remaining), q)
    decreases p.remaining
  {
    if p.remaining > 1 {
      RunTwoAlone(rule, Tick(p, t + 1), q, t + 1);
    }
  }

  /** One iteration on two records, spelled out. */
  lemma NextTwo(rule: Rule, p: Process, q: Process, t: int)
    ensures Next(rule, [p, q], t) ==
      if Eligible(p, t) && (!Eligible(q, t) || Key(rule, p) <= Key(rule, q)) then [Tick(p, t + 1), q]
      else if Eligible(q, t) then [p, Tick(q, t + 1)]
      else [p, q]
  {
    var s := [p, q];
    assert Best(s, rule, t, 1) == (if Eligible(p, t) then 0 else -1);
    assert s[0 := Tick(p, t + 1)] == [Tick(p, t + 1), q];
    assert s[1 := Tick(q, t + 1)] == [p, Tick(q, t + 1)];
  }

  /** On two records, `Run` is `RunTwo`. */
  lemma {:induction false} RunTwoIsRun(rule: Rule, s: seq<Process>, t: int)
    requires |s| == 2 && Owing(s)
    ensures Run(rule, s, t) == [RunTwo(rule, s[0], s[1], t).0, RunTwo(rule, s[0], s[1], t).1]
    decreases TotalRemaining(s), MaxArrival(s) - t
  {
    assert s == [s[0], s[1]];
    if CountDone(s) == |s| {
      assert s[0].remaining == 0 && s[1].remaining == 0;
    } else {
      var n := Next(rule, s, t);
      NextOutcome(rule, s, t);
      RunStep(rule, s, t);
      NextTwo(rule, s[0], s[1], t);
      RunTwoIsRun(rule, n, t + 1);
      assert RunTwo(rule, s[0], s[1], t) == RunTwo(rule, n[0], n[1], t + 1);
    }
  }

  /** P1 (arrival 0, burst 6) runs 0..2; P2 (arrival 2, burst 2) has less left
      and takes the CPU 2..4, completing with waiting 0; P1 resumes 4..8 and
      completes with waiting 2 and turnaround 8. */
  lemma PsjfPreemptsForShorterArrival(p1: Process, p2: Process)
    requires p1 == Process(1, 0, 6, 1, 0, 0, 6) && p2 == Process(2, 2, 2, 1, 0, 0, 2)
    ensures Run(ShortestRemaining, [p1, p2], 0)
         == [Process(1, 0, 6, 1, 2, 8, 0), Process(2, 2, 2, 1, 0, 2, 0)]
  {
    var r := ShortestRemaining;
    var p1', p2' := Tick(p1, 1), Tick(p2, 3);
    var p1'', p2'' := Tick(p1', 2), Tick(p2', 4);
    RunTwoAlone(r, p1'', p2'', 4);
    assert RunTwo(r, p1'', p2', 3) == RunTwo(r, p1'', p2'', 4);
    assert RunTwo(r, p1'', p2, 2) == RunTwo(r, p1'', p2', 3);
    assert RunTwo(r, p1', p2, 1) == RunTwo(r, p1'', p2, 2);
    assert RunTwo(r, p1, p2, 0) == RunTwo(r, p1', p2, 1);
    RunTwoIsRun(r, [p1, p2], 0);
  }

  /** P1 (arrival 0, burst 3, priority 2) runs 0..1; P2 (arrival 1, burst 1,
      priority 1) preempts it and completes at 2 with waiting 0; P1 resumes
      and completes at 4 with waiting 1. */
  lemma PpriorityPreemptsForHigherPriority(p1: Process, p2: Process)
    requires p1 == Process(1, 0, 3, 2, 0, 0, 3) && p2 == Process(2, 1, 1, 1, 0, 0, 1)
    ensures Run(HighestPriority, [p1, p2], 0)
         == [Process(1, 0, 3, 2, 1, 4, 0), Process(2, 1, 1, 1, 0, 1, 0)]
  {
    var r := HighestPriority;
    var p1', p2' := Tick(p1, 1), Tick(p2, 2);
    RunTwoAlone(r, p1', p2', 2);
    assert RunTwo(r, p1', p2, 1) == RunTwo(r, p1', p2', 2);
    assert RunTwo(r, p1, p2, 0) == RunTwo(r, p1', p2, 1);
    RunTwoIsRun(r, [p1, p2], 0);
  }
}
