/** The process record that every scheduling policy works on, and the facts
    about sequences of records that several policies share. */
module Processes {

  /** The largest C `int`. The preemptive scans start their "best key so far"
      from it, so a record whose key equals it is never selected. */
  const INT_MAX: int := 0x7fff_ffff

  /** One simulated process. `waiting`, `turnaround` and `remaining` are the
      fields a scheduler updates; the other four never change. */
  datatype Process = Process(
    pid: int,
    arrival: int,
    burst: int,
    priority: int,
    waiting: int,
    turnaround: int,
    remaining: int)

  function Max(x: int, y: int): int
  {
    if x < y then y else x
  }

  /** What `create_processes` leaves in a set of records: ids 1..n in order,
      arrivals in 0..9, bursts and priorities in 1..10, nothing served yet. */
  predicate Generated(s: seq<Process>)
  {
    forall i :: 0 <= i < |s| ==>
      && s[i].pid == i + 1
      && 0 <= s[i].arrival <= 9
      && 1 <= s[i].burst <= 10
      && 1 <= s[i].priority <= 10
      && s[i].waiting == 0
      && s[i].turnaround == 0
      && s[i].remaining == s[i].burst
  }

  /** A record the tick- and quantum-driven schedulers may start from: it needs
      at least one unit of service and none of it has been granted yet. */
  predicate Pending(p: Process)
  {
    p.burst >= 1 && p.remaining == p.burst
  }

  lemma GeneratedIsPending(s: seq<Process>)
    requires Generated(s)
    ensures forall i :: 0 <= i < |s| ==>
      Pending(s[i]) && s[i].remaining < INT_MAX && s[i].priority < INT_MAX
  {
  }

  /** `p` may be granted the CPU at time `t`. */
  predicate Eligible(p: Process, t: int)
  {
    p.arrival <= t && p.remaining > 0
  }

  /** `p` and `q` are the same job: only the fields a scheduler writes may differ. */
  predicate SameJob(p: Process, q: Process)
  {
    p.pid == q.pid && p.arrival == q.arrival && p.burst == q.burst && p.priority == q.priority
  }

  /** The state every completed record must be in, under every policy. */
  predicate Finished(p: Process)
  {
    p.remaining == 0 && p.waiting >= 0 && p.turnaround == p.waiting + p.burst
  }

  /** `p` after its last unit of service ends at time `now`. */
  function Complete(p: Process, now: int): (r: Process)
    ensures SameJob(p, r) && r.remaining == 0
    ensures r.arrival + r.turnaround == now
    ensures r.turnaround == r.waiting + r.burst
  {
    p.(remaining := 0, waiting := now - p.arrival - p.burst, turnaround := now - p.arrival)
  }

  /** `p` is a state that the record which started as `p0` can be in at time
      `t` under a policy that serves a record only once it has arrived:
      `remaining` lies in 0..burst, the service already granted fitted between
      the arrival and `t`, a completed record has consistent times that end no
      later than `t`, and an uncompleted one still has its initial times. */
  predicate Tracked(p0: Process, p: Process, t: int)
  {
    && SameJob(p0, p)
    && 0 <= p.remaining <= p.burst
    && (p.remaining < p.burst ==> p.arrival + (p.burst - p.remaining) <= t)
    && (p.remaining == 0 ==> Finished(p) && p.arrival + p.turnaround <= t)
    && (p.remaining > 0 ==> p.waiting == p0.waiting && p.turnaround == p0.turnaround)
  }

  /** Every record of `s` is tracked against its initial state in `s0`. */
  predicate AllTracked(s0: seq<Process>, s: seq<Process>, t: int)
  {
    |s| == |s0| && forall j :: 0 <= j < |s| ==> Tracked(s0[j], s[j], t)
  }

  function DoneFlag(p: Process): int
  {
    if p.remaining == 0 then 1 else 0
  }

  /** The number of records whose `remaining` is 0: the value the schedulers'
      `completed` counter must agree with. */
  function CountDone(s: seq<Process>): (r: int)
    ensures 0 <= r <= |s|
    ensures r == |s| <==> forall j :: 0 <= j < |s| ==> s[j].remaining == 0
    ensures r == 0 <==> forall j :: 0 <= j < |s| ==> s[j].remaining != 0
  {
    if s == [] then 0 else DoneFlag(s[0]) + CountDone(s[1..])
  }

  lemma {:induction false} CountDoneUpdate(s: seq<Process>, i: int, p: Process)
    requires 0 <= i < |s|
    ensures CountDone(s[i := p]) == CountDone(s) - DoneFlag(s[i]) + DoneFlag(p)
    decreases |s|
  {
    if i > 0 {
      assert s[i := p][1..] == s[1..][i - 1 := p];
      CountDoneUpdate(s[1..], i - 1, p);
    } else {
      assert s[i := p][1..] == s[1..];
    }
  }

  /** The total service still owed to the records of `s`. */
  function TotalRemaining(s: seq<Process>): (r: int)
    ensures (forall j :: 0 <= j < |s| ==> s[j].remaining >= 0) ==> r >= 0
    ensures ((exists j :: 0 <= j < |s| && s[j].remaining > 0) &&
             (forall j :: 0 <= j < |s| ==> s[j].remaining >= 0)) ==> r > 0
  {
    if s == [] then 0 else s[0].remaining + TotalRemaining(s[1..])
  }

  lemma {:induction false} TotalRemainingUpdate(s: seq<Process>, i: int, p: Process)
    requires 0 <= i < |s|
    ensures TotalRemaining(s[i := p]) == TotalRemaining(s) - s[i].remaining + p.remaining
    decreases |s|
  {
    if i > 0 {
      assert s[i := p][1..] == s[1..][i - 1 := p];
      TotalRemainingUpdate(s[1..], i - 1, p);
    } else {
      assert s[i := p][1..] == s[1..];
    }
  }

  /** No record of `s` is owed a negative amount of service. */
  predicate Owing(s: seq<Process>)
  {
    forall j :: 0 <= j < |s| ==> s[j].remaining >= 0
  }

  /** The latest arrival in `s` (0 for no records). */
  function MaxArrival(s: seq<Process>): (r: int)
    ensures forall j :: 0 <= j < |s| ==> s[j].arrival <= r
  {
    if s == [] then 0 else Max(s[0].arrival, MaxArrival(s[1..]))
  }

  /** When some record is unfinished but none is eligible at `t`, a record
      has yet to arrive: the clock of an idle scheduler has somewhere to go. */
  lemma IdleAwaitsArrival(s: seq<Process>, t: int)
    requires Owing(s) && CountDone(s) < |s|
    requires forall j :: 0 <= j < |s| ==> !Eligible(s[j], t)
    ensures MaxArrival(s) > t
  {
    var j :| 0 <= j < |s| && s[j].remaining != 0;
    assert s[j].arrival > t;
  }
}
