/** First-come-first-served, shortest-job-first and priority scheduling: sort
    the array with the policy's comparator, then sweep it once in the sorted
    order, running each record to completion. */
module NonPreemptive {
  import opened Processes
  import opened Comparators
  import opened Sorting

  /** The time at which the sweep, starting at time 0, has run every record of
      `s` in order: the CPU idles until a record arrives, then runs it for its
      whole burst. */
  function Finish(s: seq<Process>): (r: int)
    ensures |s| > 0 ==> r >= s[|s| - 1].arrival + s[|s| - 1].burst
  {
    if s == [] then 0 else Max(Finish(s[..|s| - 1]), s[|s| - 1].arrival) + s[|s| - 1].burst
  }

  /** The time record `i` of `s` starts running in the sweep: once it has
      arrived and its predecessors have finished. */
  function Start(s: seq<Process>, i: int): (r: int)
    requires 0 <= i < |s|
    ensures r >= s[i].arrival && r >= Finish(s[..i])
  {
    Max(Finish(s[..i]), s[i].arrival)
  }

  /** Record `i` of `s` with the waiting and turnaround times the sweep gives it. */
  function Swept(s: seq<Process>, i: int): (p: Process)
    requires 0 <= i < |s|
    ensures SameJob(s[i], p) && p.remaining == s[i].remaining
    ensures p.arrival + p.waiting == Start(s, i)
    ensures p.turnaround == p.waiting + p.burst
  {
    var w := Start(s, i) - s[i].arrival;
    s[i].(waiting := w, turnaround := w + s[i].burst)
  }

  /** Running the first `i + 1` records ends when record `i` ends. */
  lemma FinishStep(s: seq<Process>, i: int)
    requires 0 <= i < |s|
    ensures Finish(s[..i + 1]) == Start(s, i) + s[i].burst
  {
    assert s[..i + 1][..i] == s[..i];
  }

  /** With no negative bursts, a longer prefix never finishes earlier. */
  lemma {:induction false} FinishMonotone(s: seq<Process>, i: int, j: int)
    requires 0 <= i <= j <= |s|
    requires forall k :: 0 <= k < |s| ==> s[k].burst >= 0
    ensures Finish(s[..i]) <= Finish(s[..j])
    decreases j - i
  {
    if i < j {
      FinishMonotone(s, i, j - 1);
      FinishStep(s, j - 1);
    }
  }

  /** The sweep of `a`, in its current order: each record's `waiting` becomes
      its start time minus its arrival, its `turnaround` that plus its burst. */
  method Sweep(a: array<Process>)
    modifies a
    ensures forall i :: 0 <= i < a.Length ==> a[i] == Swept(old(a[..]), i)
  {
    ghost var s := a[..];
    var currentTime := 0;
    for i := 0 to a.Length
      invariant currentTime == Finish(s[..i])
      invariant forall k :: 0 <= k < i ==> a[k] == Swept(s, k)
      invariant forall k :: i <= k < a.Length ==> a[k] == s[k]
    {
      var p := a[i];
      if currentTime < p.arrival {
        currentTime := p.arrival;
      }
      var waiting := currentTime - p.arrival;
      currentTime := currentTime + p.burst;
      a[i] := p.(waiting := waiting, turnaround := waiting + p.burst);
      FinishStep(s, i);
    }
  }

  /** `after` is the outcome of sorting `before` with `o`'s comparator into
      `order` and sweeping `order`. */
  ghost predicate ScheduledFrom(o: Order, before: seq<Process>, order: seq<Process>, after: seq<Process>)
  {
    && multiset(order) == multiset(before)
    && SortedBy(o, order)
    && |after| == |order|
    && forall i :: 0 <= i < |after| ==> after[i] == Swept(order, i)
  }

  /** A sort-and-sweep schedule leaves the records sorted by the policy's key:
      the sweep writes only fields the comparators do not read. */
  lemma ScheduledSorted(o: Order, before: seq<Process>, order: seq<Process>, after: seq<Process>)
    requires ScheduledFrom(o, before, order, after)
    ensures SortedBy(o, after)
  {
    forall i, j | 0 <= i < j < |after|
      ensures Le(o, after[i], after[j])
    {
      LeSameJob(o, order[i], order[j], after[i], after[j]);
    }
  }

  /** Every record of a sort-and-sweep schedule waits a non-negative time and
      has `turnaround == waiting + burst`. */
  lemma ScheduledTimes(o: Order, before: seq<Process>, order: seq<Process>, after: seq<Process>)
    requires ScheduledFrom(o, before, order, after)
    ensures forall i :: 0 <= i < |after| ==>
      after[i].waiting >= 0 && after[i].turnaround == after[i].waiting + after[i].burst
  {
  }

  /** Where each record of a sort-and-sweep schedule starts, stated on the
      records' own fields (a record starts at `arrival + waiting` and ends at
      `arrival + turnaround`): the first at its arrival or at 0, whichever is
      later, and every later one at the later of its arrival and the end of
      its predecessor. */
  lemma ScheduledStarts(o: Order, before: seq<Process>, order: seq<Process>, after: seq<Process>)
    requires ScheduledFrom(o, before, order, after)
    ensures |after| > 0 ==> after[0].arrival + after[0].waiting == Max(0, after[0].arrival)
    ensures forall i :: 0 < i < |after| ==>
      after[i].arrival + after[i].waiting == Max(after[i - 1].arrival + after[i - 1].turnaround, after[i].arrival)
  {
    if |after| > 0 {
      assert order[..0] == [];
    }
    forall i | 0 < i < |after|
      ensures after[i].arrival + after[i].waiting == Max(after[i - 1].arrival + after[i - 1].turnaround, after[i].arrival)
    {
      FinishStep(order, i - 1);
    }
  }

  /** With no negative bursts, the runs of a sort-and-sweep schedule never
      overlap: each record ends no later than any later record starts. */
  lemma ScheduledNoOverlap(o: Order, before: seq<Process>, order: seq<Process>, after: seq<Process>)
    requires ScheduledFrom(o, before, order, after)
    requires forall k :: 0 <= k < |after| ==> after[k].burst >= 0
    ensures forall i, j :: 0 <= i < j < |after| ==>
      after[i].arrival + after[i].turnaround <= after[j].arrival + after[j].waiting
  {
    assert forall k :: 0 <= k < |order| ==> order[k].burst == after[k].burst;
    forall i, j | 0 <= i < j < |after|
      ensures after[i].arrival + after[i].turnaround <= after[j].arrival + after[j].waiting
    {
      FinishStep(order, i);
      FinishMonotone(order, i + 1, j);
    }
  }

  /** `schedule_fcfs`. `order` is the array as `qsort` left it. */
  method ScheduleFcfs(a: array<Process>) returns (ghost order: seq<Process>)
    modifies a
    ensures ScheduledFrom(ByArrival, old(a[..]), order, a[..])
  {
    SortInPlace(a, ByArrival);
    order := a[..];
    Sweep(a);
  }

  /** `schedule_sjf`. */
  method ScheduleSjf(a: array<Process>) returns (ghost order: seq<Process>)
    modifies a
    ensures ScheduledFrom(ByBurst, old(a[..]), order, a[..])
  {
    SortInPlace(a, ByBurst);
    order := a[..];
    Sweep(a);
  }

  /** `schedule_priority`. */
  method SchedulePriority(a: array<Process>) returns (ghost order: seq<Process>)
    modifies a
    ensures ScheduledFrom(ByPriority, old(a[..]), order, a[..])
  {
    SortInPlace(a, ByPriority);
    order := a[..];
    Sweep(a);
  }
}
