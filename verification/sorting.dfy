/** The library `qsort` the non-preemptive schedulers call. Only its contract
    matters to them: afterwards the array is a permutation of what it held,
    non-decreasing by the comparator. `qsort` is not stable, so nothing is
    promised about the order of records the comparator calls equal. */
module Sorting {
  import opened Processes
  import opened Comparators

  /** `s` with `x` placed before the first element it may precede. */
  function Insert(o: Order, x: Process, s: seq<Process>): (r: seq<Process>)
    ensures multiset(r) == multiset(s) + multiset{x}
    ensures |r| == |s| + 1
  {
    if s == [] || Le(o, x, s[0]) then [x] + s
    else
      assert s == [s[0]] + s[1..];
      [s[0]] + Insert(o, x, s[1..])
  }

  lemma {:induction false} InsertSorted(o: Order, x: Process, s: seq<Process>)
    requires SortedBy(o, s)
    ensures SortedBy(o, Insert(o, x, s))
    decreases |s|
  {
    if s == [] || Le(o, x, s[0]) {
      var r := [x] + s;
      assert Insert(o, x, s) == r;
      forall i, j | 0 <= i < j < |r|
        ensures Le(o, r[i], r[j])
      {
        if i == 0 && j > 1 {
          LeTransitive(o, x, s[0], s[j - 1]);
        }
      }
    } else {
      LeTotal(o, x, s[0]);
      var tail := Insert(o, x, s[1..]);
      InsertSorted(o, x, s[1..]);
      var r := [s[0]] + tail;
      assert Insert(o, x, s) == r;
      forall i, j | 0 <= i < j < |r|
        ensures Le(o, r[i], r[j])
      {
        if i == 0 {
          var y := tail[j - 1];
          assert y in multiset(tail);
          if y != x {
            assert y in multiset(s[1..]);
            var k :| 0 <= k < |s[1..]| && s[1..][k] == y;
            assert s[k + 1] == y;
          }
        }
      }
    }
  }

  function InsertionSort(o: Order, s: seq<Process>): (r: seq<Process>)
    ensures multiset(r) == multiset(s)
    ensures |r| == |s|
  {
    if s == [] then []
    else
      assert s == [s[0]] + s[1..];
      Insert(o, s[0], InsertionSort(o, s[1..]))
  }

  lemma {:induction false} InsertionSortSorted(o: Order, s: seq<Process>)
    ensures SortedBy(o, InsertionSort(o, s))
    decreases |s|
  {
    if s != [] {
      assert s == [s[0]] + s[1..];
      InsertionSortSorted(o, s[1..]);
      InsertSorted(o, s[0], InsertionSort(o, s[1..]));
    }
  }

  /** `qsort(a, n, sizeof(Process), cmp)`. */
  method SortInPlace(a: array<Process>, o: Order)
    modifies a
    ensures SortedBy(o, a[..])
    ensures multiset(a[..]) == multiset(old(a[..]))
  {
    var sorted := InsertionSort(o, a[..]);
    InsertionSortSorted(o, a[..]);
    forall i | 0 <= i < a.Length {
      a[i] := sorted[i];
    }
    assert a[..] == sorted;
  }
}
