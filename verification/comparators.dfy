/** The three `qsort` comparators and the orderings they induce. A comparator
    returns a negative number, zero or a positive number as its first record
    goes before, ties with, or goes after its second. */
module Comparators {
  import opened Processes

  /** `(x1, y1)` comes strictly before `(x2, y2)` in lexicographic order. */
  predicate LexLess(x1: int, y1: int, x2: int, y2: int)
  {
    x1 < x2 || (x1 == x2 && y1 < y2)
  }

  /** First come, first served: by arrival alone. */
  function CompareFcfs(p: Process, q: Process): (r: int)
    ensures r < 0 <==> p.arrival < q.arrival
    ensures r == 0 <==> p.arrival == q.arrival
    ensures r > 0 <==> q.arrival < p.arrival
  {
    p.arrival - q.arrival
  }

  /** Shortest job first: by burst, ties broken by arrival. */
  function CompareSjf(p: Process, q: Process): (r: int)
    ensures r < 0 <==> LexLess(p.burst, p.arrival, q.burst, q.arrival)
    ensures r == 0 <==> p.burst == q.burst && p.arrival == q.arrival
    ensures r > 0 <==> LexLess(q.burst, q.arrival, p.burst, p.arrival)
  {
    if p.burst == q.burst then p.arrival - q.arrival else p.burst - q.burst
  }

  /** Priority: lower value first, ties broken by arrival. */
  function ComparePriority(p: Process, q: Process): (r: int)
    ensures r < 0 <==> LexLess(p.priority, p.arrival, q.priority, q.arrival)
    ensures r == 0 <==> p.priority == q.priority && p.arrival == q.arrival
    ensures r > 0 <==> LexLess(q.priority, q.arrival, p.priority, p.arrival)
  {
    if p.priority == q.priority then p.arrival - q.arrival else p.priority - q.priority
  }

  /** Which comparator a non-preemptive scheduler sorts with. */
  datatype Order = ByArrival | ByBurst | ByPriority

  function Compare(o: Order, p: Process, q: Process): int
  {
    match o
    case ByArrival => CompareFcfs(p, q)
    case ByBurst => CompareSjf(p, q)
    case ByPriority => ComparePriority(p, q)
  }

  /** `p` may stand before `q` in an array sorted with `o`'s comparator. */
  predicate Le(o: Order, p: Process, q: Process)
  {
    Compare(o, p, q) <= 0
  }

  /** The comparators read only the fields no scheduler writes. */
  lemma LeSameJob(o: Order, p: Process, q: Process, p': Process, q': Process)
    requires SameJob(p, p') && SameJob(q, q')
    ensures Le(o, p, q) <==> Le(o, p', q')
  {
  }

  lemma LeTotal(o: Order, p: Process, q: Process)
    ensures Le(o, p, q) || Le(o, q, p)
  {
  }

  lemma LeTransitive(o: Order, p: Process, q: Process, r: Process)
    requires Le(o, p, q) && Le(o, q, r)
    ensures Le(o, p, r)
  {
  }

  /** Non-decreasing with respect to `o`'s comparator. */
  predicate SortedBy(o: Order, s: seq<Process>)
  {
    forall i, j :: 0 <= i < j < |s| ==> Le(o, s[i], s[j])
  }
}
