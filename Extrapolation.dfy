/** Oasis report extrapolation of 2023/day9/day9.py: take differences of adjacent
    values until a row is constant, then add up the last value of every row. */
module Extrapolation {

  /** The differences of adjacent values: one element shorter. */
  function Diffs(s: seq<int>): (d: seq<int>)
    requires |s| > 0
    ensures |d| == |s| - 1
    ensures forall i :: 0 <= i < |d| ==> d[i] == s[i + 1] - s[i]
  {
    seq(|s| - 1, i requires 0 <= i < |s| - 1 => s[i + 1] - s[i])
  }

  predicate AllSame(s: seq<int>) {
    forall i :: 0 <= i < |s| ==> s[i] == s[0]
  }

  function Last(s: seq<int>): int
    requires |s| > 0
  {
    s[|s| - 1]
  }

  /** The extrapolated next value: the last value plus the extrapolation of the
      differences, until a row holds a single distinct value. */
  function Extrapolate(s: seq<int>): int
    requires |s| > 0
    decreases |s|
  {
    if AllSame(s) then Last(s) else Last(s) + Extrapolate(Diffs(s))
  }

  function Sum(s: seq<int>): int {
    if s == [] then 0 else s[0] + Sum(s[1..])
  }

  lemma {:induction false} SumAppend(s: seq<int>, x: int)
    ensures Sum(s + [x]) == Sum(s) + x
  {
    if s != [] {
      assert (s + [x])[1..] == s[1..] + [x];
      SumAppend(s[1..], x);
    }
  }

  /** Python's len(set(s)): the number of distinct values. */
  function DistinctCount(s: seq<int>): nat {
    |set x | x in s|
  }

  lemma {:induction false} SubsetCard(a: set<int>, b: set<int>)
    requires a <= b
    ensures |a| <= |b|
  {
    assert b == a + (b - a);
    assert a * (b - a) == {};
  }

  /** At most one distinct value exactly when all values are equal. */
  lemma {:induction false} DistinctCountAtMostOne(s: seq<int>)
    requires |s| > 0
    ensures DistinctCount(s) <= 1 <==> AllSame(s)
  {
    var st := set x | x in s;
    if AllSame(s) {
      assert st == {s[0]};
    } else {
      var i :| 0 <= i < |s| && s[i] != s[0];
      SubsetCard({s[0], s[i]}, st);
      assert |{s[0], s[i]}| == 2;
    }
  }

  /** The inner loop of find_extrapolated_value (2023/day9/day9.py:38-42). */
  method Differences(current: seq<int>) returns (next: seq<int>)
    requires |current| > 0
    ensures next == Diffs(current)
  {
    next := [];
    for n := 0 to |current| - 1
      invariant |next| == n
      invariant forall i :: 0 <= i < n ==> next[i] == current[i + 1] - current[i]
    {
      next := next + [current[n + 1] - current[n]];
    }
  }

  /** find_extrapolated_value (2023/day9/day9.py:20-57): each row's last value is
      recorded, then the recorded values are added up from the last row back. The
      source indexes [-1] of the report, so it needs at least one value. */
  method FindExtrapolatedValue(values: seq<int>) returns (r: int)
    requires |values| > 0
    ensures r == Extrapolate(values)
  {
    var lastValues: seq<int> := [];
    var current := values;
    lastValues := lastValues + [Last(current)];
    while DistinctCount(current) > 1
      invariant 0 < |current| <= |values|
      invariant |current| == |values| - (|lastValues| - 1)
      invariant Sum(lastValues) - Last(current) + Extrapolate(current) == Extrapolate(values)
      decreases |current|
    {
      DistinctCountAtMostOne(current);
      var next := Differences(current);
      SumAppend(lastValues, Last(next));
      current := next;
      lastValues := lastValues + [Last(current)];
    }
    DistinctCountAtMostOne(current);
    var extrapolated := 0;
    var i := |lastValues|;
    while i > 0
      invariant 0 <= i <= |lastValues|
      invariant extrapolated == Sum(lastValues[i..])
    {
      i := i - 1;
      assert lastValues[i..][1..] == lastValues[i + 1..];
      extrapolated := extrapolated + lastValues[i];
    }
    r := extrapolated;
  }

  /** A constant report extrapolates to its own value. */
  lemma {:induction false} ConstantExtrapolates(s: seq<int>)
    requires |s| > 0 && AllSame(s)
    ensures Extrapolate(s) == s[0]
  {
  }

  /** The n values a, a + d, ..., a + (n-1)d. */
  function Arith(a: int, d: int, n: nat): (s: seq<int>)
    ensures |s| == n
  {
    seq(n, i => a + i * d)
  }

  lemma {:induction false} ArithDiffs(a: int, d: int, n: nat)
    requires n > 0
    ensures Diffs(Arith(a, d, n)) == Arith(d, 0, n - 1)
  {
    var s := Arith(a, d, n);
    forall i | 0 <= i < n - 1 ensures Diffs(s)[i] == d {
      assert s[i + 1] - s[i] == (i + 1) * d - i * d;
      assert (i + 1) * d == i * d + d;
    }
  }

  /** An arithmetic report of at least two values extrapolates to its next term
      a + n*d. */
  lemma {:induction false} ArithmeticExtrapolates(a: int, d: int, n: nat)
    requires n >= 2
    ensures Extrapolate(Arith(a, d, n)) == a + n * d
  {
    var s := Arith(a, d, n);
    assert Last(s) == a + (n - 1) * d;
    assert (n - 1) * d + d == n * d;
    if AllSame(s) {
      assert s[1] == a + 1 * d;
    } else {
      ArithDiffs(a, d, n);
      var ds := Arith(d, 0, n - 1);
      assert AllSame(ds);
      assert Extrapolate(ds) == d;
    }
  }
}
