/** The integer part of `evaluate`: the running totals of waiting and
    turnaround time over a scheduled set of records. */
module Metrics {
  import opened Processes

  /** A per-record time that can be totalled. */
  datatype Field = Waiting | Turnaround | Burst

  function FieldOf(f: Field, p: Process): int
  {
    match f
    case Waiting => p.waiting
    case Turnaround => p.turnaround
    case Burst => p.burst
  }

  /** The sum of field `f` over `s`, accumulated front to back. */
  function Total(s: seq<Process>, f: Field): int
  {
    if s == [] then 0 else Total(s[..|s| - 1], f) + FieldOf(f, s[|s| - 1])
  }

  /** The accumulation loop of `evaluate`. */
  method Evaluate(a: array<Process>) returns (totalWaiting: int, totalTurnaround: int)
    ensures totalWaiting == Total(a[..], Waiting)
    ensures totalTurnaround == Total(a[..], Turnaround)
  {
    totalWaiting, totalTurnaround := 0, 0;
    for i := 0 to a.Length
      invariant totalWaiting == Total(a[..i], Waiting)
      invariant totalTurnaround == Total(a[..i], Turnaround)
    {
      assert a[..i + 1][..i] == a[..i];
      totalWaiting := totalWaiting + a[i].waiting;
      totalTurnaround := totalTurnaround + a[i].turnaround;
    }
    assert a[..a.Length] == a[..];
  }

  /** Over any set in which every record has `turnaround == waiting + burst`
      (which every scheduler leaves behind), the turnaround total is the
      waiting total plus the burst total. */
  lemma {:induction false} TotalsBalance(s: seq<Process>)
    requires forall i :: 0 <= i < |s| ==> s[i].turnaround == s[i].waiting + s[i].burst
    ensures Total(s, Turnaround) == Total(s, Waiting) + Total(s, Burst)
    decreases |s|
  {
    if s != [] {
      TotalsBalance(s[..|s| - 1]);
    }
  }
}
