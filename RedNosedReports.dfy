/** Reactor safety reports of 2024/day2/day2.py: a report is safe when its levels are
    strictly increasing or strictly decreasing and adjacent levels differ by 1 to 3;
    part 2 also accepts a report that becomes safe once one level is removed. */
module RedNosedReports {

  function Abs(v: int): int {
    if v < 0 then -v else v
  }

  /** is_monotonic (2024/day2/day2.py:11-14): every adjacent pair rises, or every
      adjacent pair falls. */
  predicate IsMonotonic(v: seq<int>) {
    (forall i :: 0 <= i < |v| - 1 ==> v[i] < v[i + 1]) ||
    (forall i :: 0 <= i < |v| - 1 ==> v[i] > v[i + 1])
  }

  /** are_adjacent_differences_valid (2024/day2/day2.py:17-18). */
  predicate DifferencesValid(v: seq<int>) {
    forall i :: 0 <= i < |v| - 1 ==> 1 <= Abs(v[i] - v[i + 1]) <= 3
  }

  predicate Safe(v: seq<int>) {
    IsMonotonic(v) && DifferencesValid(v)
  }

  /** Strictly increasing as a relation between any two positions. */
  predicate Increasing(v: seq<int>) {
    forall i, j :: 0 <= i < j < |v| ==> v[i] < v[j]
  }

  predicate Decreasing(v: seq<int>) {
    forall i, j :: 0 <= i < j < |v| ==> v[i] > v[j]
  }

  lemma {:induction false} AdjacentRiseIsIncreasing(v: seq<int>)
    requires forall i :: 0 <= i < |v| - 1 ==> v[i] < v[i + 1]
    ensures Increasing(v)
  {
    if |v| > 1 {
      var p := v[..|v| - 1];
      AdjacentRiseIsIncreasing(p);
      forall i | 0 <= i < |v| - 1 ensures v[i] < v[|v| - 1] {
        assert i < |v| - 2 ==> p[i] < p[|v| - 2];
      }
    }
  }

  lemma {:induction false} AdjacentFallIsDecreasing(v: seq<int>)
    requires forall i :: 0 <= i < |v| - 1 ==> v[i] > v[i + 1]
    ensures Decreasing(v)
  {
    if |v| > 1 {
      var p := v[..|v| - 1];
      AdjacentFallIsDecreasing(p);
      forall i | 0 <= i < |v| - 1 ensures v[i] > v[|v| - 1] {
        assert i < |v| - 2 ==> p[i] > p[|v| - 2];
      }
    }
  }

  /** The adjacent-pair test means strict monotonicity over all positions. */
  lemma {:induction false} MonotonicMeansOrdered(v: seq<int>)
    ensures IsMonotonic(v) <==> Increasing(v) || Decreasing(v)
  {
    if forall i :: 0 <= i < |v| - 1 ==> v[i] < v[i + 1] {
      AdjacentRiseIsIncreasing(v);
    }
    if forall i :: 0 <= i < |v| - 1 ==> v[i] > v[i + 1] {
      AdjacentFallIsDecreasing(v);
    }
    if Increasing(v) {
      assert forall i :: 0 <= i < |v| - 1 ==> v[i] < v[i + 1];
    }
    if Decreasing(v) {
      assert forall i :: 0 <= i < |v| - 1 ==> v[i] > v[i + 1];
    }
  }

  /** Reports of at most one level pass both checks. */
  lemma ShortReportsAreSafe(v: seq<int>)
    requires |v| <= 1
    ensures Safe(v)
  {
  }

  /** A safe report spans, first to last level, between 1 and 3 per step. */
  lemma {:induction false} SafeSpan(v: seq<int>)
    requires |v| >= 1 && Safe(v)
    ensures |v| - 1 <= Abs(v[|v| - 1] - v[0]) <= 3 * (|v| - 1)
  {
    if |v| > 1 {
      var n := |v| - 1;
      SafeLast(v);
      SafeSpan(v[..n]);
      assert v[..n][0] == v[0] && v[..n][n - 1] == v[n - 1];
      SpanStep(v[0], v[n - 1], v[n], n - 1);
    }
  }

  /** Dropping the last level of a safe report keeps it safe; the dropped step goes
      the same way as the whole span before it. */
  lemma SafeLast(v: seq<int>)
    requires |v| > 1 && Safe(v)
    ensures Safe(v[..|v| - 1])
    ensures 1 <= Abs(v[|v| - 2] - v[|v| - 1]) <= 3
    ensures (v[0] <= v[|v| - 2] && v[|v| - 2] < v[|v| - 1]) ||
            (v[0] >= v[|v| - 2] && v[|v| - 2] > v[|v| - 1])
  {
    var p := v[..|v| - 1];
    assert Safe(p);
    if forall i :: 0 <= i < |v| - 1 ==> v[i] < v[i + 1] {
      AdjacentRiseIsIncreasing(p);
      assert p[0] <= p[|p| - 1];
    } else {
      AdjacentFallIsDecreasing(p);
      assert p[0] >= p[|p| - 1];
    }
  }

  /** A span of k steps of 1 to 3 extended by one more step in the same direction. */
  lemma SpanStep(first: int, last: int, next: int, k: int)
    requires k <= Abs(last - first) <= 3 * k && 1 <= Abs(last - next) <= 3
    requires (first <= last && last < next) || (first >= last && last > next)
    ensures k + 1 <= Abs(next - first) <= 3 * (k + 1)
  {
  }

  /** Dropping the first or the last level of a safe report keeps it safe, so a safe
      report also passes the tolerant check when it is tried with a removal. */
  lemma {:induction false} SafeWithoutEnd(v: seq<int>)
    requires |v| >= 1 && Safe(v)
    ensures Safe(v[1..]) && Safe(v[..|v| - 1])
  {
    var a := v[1..];
    assert forall i :: 0 <= i < |a| ==> a[i] == v[i + 1];
  }

  /** v with the level at position i removed: list.pop(i) on a copy. */
  function Remove(v: seq<int>, i: int): (r: seq<int>)
    requires 0 <= i < |v|
    ensures |r| == |v| - 1
  {
    v[..i] + v[i + 1..]
  }

  ghost predicate Tolerable(v: seq<int>) {
    Safe(v) || exists i :: 0 <= i < |v| && Safe(Remove(v, i))
  }

  /** The number of reports of rs that satisfy Safe, left to right. */
  function CountSafe(rs: seq<seq<int>>): nat {
    if rs == [] then 0 else CountSafe(rs[..|rs| - 1]) + (if Safe(rs[|rs| - 1]) then 1 else 0)
  }

  ghost function CountTolerable(rs: seq<seq<int>>): nat {
    if rs == [] then 0 else CountTolerable(rs[..|rs| - 1]) + (if Tolerable(rs[|rs| - 1]) then 1 else 0)
  }

  /** print_safe_list_nb (2024/day2/day2.py:30-38) on the parsed reports. */
  method SafeListNb(rs: seq<seq<int>>) returns (safeLists: nat)
    ensures safeLists == CountSafe(rs)
  {
    safeLists := 0;
    for j := 0 to |rs|
      invariant safeLists == CountSafe(rs[..j])
    {
      assert rs[..j + 1][..j] == rs[..j];
      if IsMonotonic(rs[j]) && DifferencesValid(rs[j]) {
        safeLists := safeLists + 1;
      }
    }
    assert rs[..|rs|] == rs;
  }

  /** The inner loop of print_safe_list_with_toleration (2024/day2/day2.py:49-55): try
      each removal in turn and stop at the first that makes the report safe. */
  method SomeRemovalSafe(values: seq<int>) returns (found: bool)
    ensures found <==> exists i :: 0 <= i < |values| && Safe(Remove(values, i))
  {
    for i := 0 to |values|
      invariant forall i' :: 0 <= i' < i ==> !Safe(Remove(values, i'))
    {
      var newValues := values[..i] + values[i + 1..];
      if IsMonotonic(newValues) && DifferencesValid(newValues) {
        assert Safe(Remove(values, i));
        return true;
      }
    }
    return false;
  }

  /** print_safe_list_with_toleration (2024/day2/day2.py:41-57) on the parsed reports:
      each report counts at most once, whether safe as is or after one removal. The
      line printed for every attempt is left out. */
  method SafeListWithToleration(rs: seq<seq<int>>) returns (safeLists: nat)
    ensures safeLists == CountTolerable(rs)
  {
    safeLists := 0;
    for j := 0 to |rs|
      invariant safeLists == CountTolerable(rs[..j])
    {
      assert rs[..j + 1][..j] == rs[..j];
      var values := rs[j];
      if IsMonotonic(values) && DifferencesValid(values) {
        safeLists := safeLists + 1;
      } else {
        var found := SomeRemovalSafe(values);
        if found {
          safeLists := safeLists + 1;
        }
      }
    }
    assert rs[..|rs|] == rs;
  }

  /** The tolerant count lies between the strict count and the number of reports. */
  lemma {:induction false} ToleranceBounds(rs: seq<seq<int>>)
    ensures CountSafe(rs) <= CountTolerable(rs) <= |rs|
  {
    if rs != [] {
      ToleranceBounds(rs[..|rs| - 1]);
    }
  }

  /** A safe report with at least one level is still safe after dropping its last
      level, so the removal loop alone would accept it too. */
  lemma {:induction false} SafeIsRemovable(v: seq<int>)
    requires |v| >= 1 && Safe(v)
    ensures Safe(Remove(v, |v| - 1))
  {
    SafeWithoutEnd(v);
    assert Remove(v, |v| - 1) == v[..|v| - 1];
  }
}
