/** Fresh ingredient ranges of 2025/day5/day5.py: inclusive id ranges (start, end),
    merged into disjoint ranges to count every fresh id once. */
module FreshRanges {
  import opened Wrappers

  /** An inclusive range of ingredient ids, as the tuple (start, end). */
  type Range = (int, int)

  /** Python's ordering of 2-tuples. */
  predicate Le(a: Range, b: Range) {
    a.0 < b.0 || (a.0 == b.0 && a.1 <= b.1)
  }

  predicate Sorted(s: seq<Range>) {
    forall i, j :: 0 <= i < j < |s| ==> Le(s[i], s[j])
  }

  predicate InRange(r: Range, x: int) {
    r.0 <= x <= r.1
  }

  /** Some range of rs contains x. */
  predicate Covered(rs: seq<Range>, x: int) {
    exists i :: 0 <= i < |rs| && InRange(rs[i], x)
  }

  predicate WellFormed(rs: seq<Range>) {
    forall i :: 0 <= i < |rs| ==> rs[i].0 <= rs[i].1
  }

  /** Every range starts after the previous one ends, and starts never go down. */
  predicate Separated(rs: seq<Range>) {
    (forall i :: 0 <= i < |rs| - 1 ==> rs[i].1 < rs[i + 1].0) &&
    (forall i, j :: 0 <= i < j < |rs| ==> rs[i].0 <= rs[j].0)
  }

  /** `ranges.sort()` (2025/day5/day5.py:12): an insertion sort by adjacent swaps. */
  method SortRanges(a: array<Range>)
    modifies a
    ensures Sorted(a[..])
    ensures multiset(a[..]) == multiset(old(a[..]))
  {
    var i := 0;
    while i < a.Length
      invariant 0 <= i <= a.Length
      invariant Sorted(a[..i])
      invariant multiset(a[..]) == multiset(old(a[..]))
    {
      InsertLast(a, i);
      i := i + 1;
    }
    assert a[..] == a[..i];
  }

  /** One pass of the insertion sort: a[i] sinks into the sorted prefix a[..i]. */
  method InsertLast(a: array<Range>, i: int)
    requires 0 <= i < a.Length && Sorted(a[..i])
    modifies a
    ensures Sorted(a[..i + 1])
    ensures multiset(a[..]) == multiset(old(a[..]))
  {
    var j := i;
    while j > 0 && !Le(a[j - 1], a[j])
      invariant 0 <= j <= i
      invariant multiset(a[..]) == multiset(old(a[..]))
      invariant forall p, q :: 0 <= p < q <= i && p != j && q != j ==> Le(a[p], a[q])
      invariant forall q :: j < q <= i ==> Le(a[j], a[q])
    {
      Swap(a, j - 1, j);
      j := j - 1;
    }
  }

  method Swap(a: array<Range>, p: int, q: int)
    requires 0 <= p < q < a.Length
    modifies a
    ensures a[..] == old(a[..])[p := old(a[q])][q := old(a[p])]
    ensures multiset(a[..]) == multiset(old(a[..]))
  {
    a[p], a[q] := a[q], a[p];
  }

  lemma {:induction false} SeparatedAppend(rs: seq<Range>, r: Range)
    ensures Separated(rs + [r]) <==>
      Separated(rs) && (rs != [] ==> rs[|rs| - 1].1 < r.0 && rs[|rs| - 1].0 <= r.0)
  {
    var t := rs + [r];
    if Separated(rs) && (rs != [] ==> rs[|rs| - 1].1 < r.0 && rs[|rs| - 1].0 <= r.0) {
      forall i, j | 0 <= i < j < |t| ensures t[i].0 <= t[j].0 {
        if j == |rs| && i < |rs| - 1 {
          assert rs[i].0 <= rs[|rs| - 1].0;
        }
      }
    }
    if Separated(t) {
      forall i | 0 <= i < |rs| - 1 ensures rs[i].1 < rs[i + 1].0 {
        assert t[i] == rs[i] && t[i + 1] == rs[i + 1];
      }
      forall i, j | 0 <= i < j < |rs| ensures rs[i].0 <= rs[j].0 {
        assert t[i] == rs[i] && t[j] == rs[j];
      }
      if rs != [] {
        assert t[|rs| - 1] == rs[|rs| - 1] && t[|rs|] == r;
      }
    }
  }

  lemma {:induction false} WellFormedAppend(rs: seq<Range>, r: Range)
    ensures WellFormed(rs + [r]) <==> WellFormed(rs) && r.0 <= r.1
  {
    var t := rs + [r];
    if WellFormed(t) {
      forall i | 0 <= i < |rs| ensures rs[i].0 <= rs[i].1 {
        assert t[i] == rs[i];
      }
      assert t[|rs|] == r;
    }
  }

  lemma {:induction false} CoveredAppend(rs: seq<Range>, r: Range, x: int)
    ensures Covered(rs + [r], x) <==> Covered(rs, x) || InRange(r, x)
  {
    if Covered(rs, x) {
      var i :| 0 <= i < |rs| && InRange(rs[i], x);
      assert (rs + [r])[i] == rs[i];
    }
    if InRange(r, x) {
      assert (rs + [r])[|rs|] == r;
    }
    if Covered(rs + [r], x) {
      var i :| 0 <= i < |rs| + 1 && InRange((rs + [r])[i], x);
      if i < |rs| {
        assert rs[i] == (rs + [r])[i];
      }
    }
  }

  /** The merge loop of merge_ranges as a definition: cur is the range being grown and
      acc holds the ranges already closed; a range starting at or before cur's end
      extends it, any other range closes it. */
  function MergeLoop(rs: seq<Range>, acc: seq<Range>, cur: Range): seq<Range>
    decreases |rs|
  {
    if rs == [] then acc + [cur]
    else if rs[0].0 <= cur.1 then MergeLoop(rs[1..], acc, (cur.0, if cur.1 >= rs[0].1 then cur.1 else rs[0].1))
    else MergeLoop(rs[1..], acc + [cur], rs[0])
  }

  /** The ranges merge_ranges returns for a non-empty sorted list. */
  function Merge(rs: seq<Range>): seq<Range>
    requires |rs| > 0
  {
    MergeLoop(rs[1..], [], rs[0])
  }

  /** The state of the merge loop before rs[i]: the closed ranges and the range
      being grown are separated, cover what rs[..i] covers, and finish as Merge(rs). */
  ghost predicate MergeInv(rs: seq<Range>, i: int, acc: seq<Range>, cur: Range) {
    1 <= i <= |rs| && |acc| < i && Separated(acc + [cur]) && cur.0 <= rs[i - 1].0 &&
    (forall x :: Covered(acc + [cur], x) <==> Covered(rs[..i], x)) &&
    (WellFormed(rs) ==> WellFormed(acc + [cur])) &&
    MergeLoop(rs[i..], acc, cur) == Merge(rs)
  }

  /** rs[i] starts at or before the end of the range being grown: it extends it. */
  lemma MergeExtend(rs: seq<Range>, i: int, acc: seq<Range>, cur: Range)
    requires Sorted(rs) && MergeInv(rs, i, acc, cur) && i < |rs| && rs[i].0 <= cur.1
    ensures MergeInv(rs, i + 1, acc, (cur.0, if cur.1 >= rs[i].1 then cur.1 else rs[i].1))
  {
    var next := (cur.0, if cur.1 >= rs[i].1 then cur.1 else rs[i].1);
    assert rs[..i + 1] == rs[..i] + [rs[i]];
    assert rs[i..][1..] == rs[i + 1..];
    assert Le(rs[i - 1], rs[i]);
    forall x
      ensures Covered(acc + [next], x) <==> Covered(rs[..i + 1], x)
    {
      CoveredAppend(acc, cur, x);
      CoveredAppend(acc, next, x);
      CoveredAppend(rs[..i], rs[i], x);
    }
    SeparatedAppend(acc, cur);
    SeparatedAppend(acc, next);
    WellFormedAppend(acc, cur);
    WellFormedAppend(acc, next);
  }

  /** rs[i] starts after the end of the range being grown: that range is closed and
      rs[i] is grown next. */
  lemma MergeClose(rs: seq<Range>, i: int, acc: seq<Range>, cur: Range)
    requires Sorted(rs) && MergeInv(rs, i, acc, cur) && i < |rs| && rs[i].0 > cur.1
    ensures MergeInv(rs, i + 1, acc + [cur], rs[i])
  {
    var acc' := acc + [cur];
    assert rs[..i + 1] == rs[..i] + [rs[i]];
    assert rs[i..][1..] == rs[i + 1..];
    assert Le(rs[i - 1], rs[i]);
    forall x
      ensures Covered(acc' + [rs[i]], x) <==> Covered(rs[..i + 1], x)
    {
      CoveredAppend(acc', rs[i], x);
      CoveredAppend(rs[..i], rs[i], x);
    }
    SeparatedAppend(acc', rs[i]);
    SeparatedAppend(acc, cur);
    WellFormedAppend(acc', rs[i]);
    assert rs[i] == (rs[i].0, rs[i].1);
  }

  /** The loop of merge_ranges (2025/day5/day5.py:14-28) over ranges sorted by start. */
  method MergeSorted(rs: seq<Range>) returns (merged: seq<Range>)
    requires |rs| > 0 && Sorted(rs)
    ensures 0 < |merged| <= |rs|
    ensures Separated(merged)
    ensures forall x :: Covered(merged, x) <==> Covered(rs, x)
    ensures WellFormed(rs) ==> WellFormed(merged)
    ensures merged == Merge(rs)
  {
    var start, end := rs[0].0, rs[0].1;
    var acc: seq<Range> := [];
    assert rs[..1] == [] + [rs[0]];
    var i := 1;
    while i < |rs|
      invariant MergeInv(rs, i, acc, (start, end))
    {
      var s, e := rs[i].0, rs[i].1;
      if s <= end {
        MergeExtend(rs, i, acc, (start, end));
        end := if end >= e then end else e;
      } else {
        MergeClose(rs, i, acc, (start, end));
        acc := acc + [(start, end)];
        start, end := s, e;
      }
      i := i + 1;
    }
    assert rs[..i] == rs && rs[i..] == [];
    merged := acc + [(start, end)];
  }

  lemma {:induction false} SameElementsSameCover(a: seq<Range>, b: seq<Range>, x: int)
    requires multiset(a) == multiset(b)
    ensures Covered(a, x) <==> Covered(b, x)
  {
    if Covered(a, x) {
      var i :| 0 <= i < |a| && InRange(a[i], x);
      assert a[i] in multiset(b);
      var j :| 0 <= j < |b| && b[j] == a[i];
    }
    if Covered(b, x) {
      var i :| 0 <= i < |b| && InRange(b[i], x);
      assert b[i] in multiset(a);
      var j :| 0 <= j < |a| && a[j] == b[i];
    }
  }

  /** merge_ranges (2025/day5/day5.py:10-28): sorts its argument in place, then merges.
      Reading ranges[0] of an empty list raises; that is None here. */
  method MergeRanges(ranges: array<Range>) returns (merged: Option<seq<Range>>)
    modifies ranges
    ensures Sorted(ranges[..]) && multiset(ranges[..]) == multiset(old(ranges[..]))
    ensures merged.None? <==> ranges.Length == 0
    ensures merged.Some? ==> 0 < |merged.value| <= ranges.Length && Separated(merged.value)
    ensures merged.Some? ==> forall x :: Covered(merged.value, x) <==> Covered(old(ranges[..]), x)
    ensures merged.Some? && WellFormed(old(ranges[..])) ==> WellFormed(merged.value)
    ensures merged.Some? ==> merged.value == Merge(ranges[..])
  {
    SortRanges(ranges);
    if ranges.Length == 0 {
      return None;
    }
    var m := MergeSorted(ranges[..]);
    forall x
      ensures Covered(ranges[..], x) <==> Covered(old(ranges[..]), x)
    {
      SameElementsSameCover(ranges[..], old(ranges[..]), x);
    }
    forall i | 0 <= i < ranges.Length && WellFormed(old(ranges[..]))
      ensures ranges[i].0 <= ranges[i].1
    {
      assert ranges[..][i] in multiset(old(ranges[..]));
    }
    merged := Some(m);
  }

  /** The ids of a range, as a set. */
  function Ids(r: Range): set<int> {
    set x | r.0 <= x <= r.1 && InRange(r, x)
  }

  /** The ids of all ranges. */
  function UnionIds(rs: seq<Range>): set<int> {
    if rs == [] then {} else UnionIds(rs[..|rs| - 1]) + Ids(rs[|rs| - 1])
  }

  /** The number of fresh ids the source adds up: e - s + 1 per range
      (2025/day5/day5.py:57). */
  function FreshCount(rs: seq<Range>): int {
    if rs == [] then 0 else FreshCount(rs[..|rs| - 1]) + (rs[|rs| - 1].1 - rs[|rs| - 1].0 + 1)
  }

  lemma {:induction false} UnionIdsCovered(rs: seq<Range>, x: int)
    ensures x in UnionIds(rs) <==> Covered(rs, x)
  {
    if rs != [] {
      var p := rs[..|rs| - 1];
      UnionIdsCovered(p, x);
      assert rs == p + [rs[|rs| - 1]];
      CoveredAppend(p, rs[|rs| - 1], x);
    }
  }

  lemma {:induction false} IdsSize(r: Range)
    requires r.0 <= r.1 + 1
    ensures |Ids(r)| == r.1 - r.0 + 1
    decreases r.1 - r.0
  {
    if r.0 == r.1 + 1 {
      assert Ids(r) == {};
    } else {
      IdsSize((r.0, r.1 - 1));
      assert Ids(r) == Ids((r.0, r.1 - 1)) + {r.1};
    }
  }

  /** All ids of a separated sequence lie at or below its last end. */
  lemma {:induction false} UnionBelowLastEnd(rs: seq<Range>, x: int)
    requires |rs| > 0 && Separated(rs) && WellFormed(rs)
    requires x in UnionIds(rs)
    ensures x <= rs[|rs| - 1].1
  {
    var p := rs[..|rs| - 1];
    if x !in Ids(rs[|rs| - 1]) {
      UnionBelowLastEnd(p, x);
    }
  }

  /** For well-formed separated ranges, the count the source adds up is the number
      of distinct fresh ids. */
  lemma {:induction false} FreshCountIsUnionSize(rs: seq<Range>)
    requires Separated(rs) && WellFormed(rs)
    ensures FreshCount(rs) == |UnionIds(rs)|
  {
    if rs != [] {
      var p := rs[..|rs| - 1];
      var r := rs[|rs| - 1];
      FreshCountIsUnionSize(p);
      IdsSize(r);
      if p != [] {
        forall x | x in UnionIds(p) ensures x !in Ids(r) {
          UnionBelowLastEnd(p, x);
        }
      }
      assert UnionIds(p) * Ids(r) == {};
    }
  }

  /** Well-formed separated ranges covering what rs covers count the ids of rs. */
  lemma CountIsUnion(m: seq<Range>, rs: seq<Range>)
    requires Separated(m) && WellFormed(m)
    requires forall x :: Covered(m, x) <==> Covered(rs, x)
    ensures FreshCount(m) == |UnionIds(rs)|
  {
    FreshCountIsUnionSize(m);
    assert UnionIds(m) == UnionIds(rs) by {
      forall x ensures x in UnionIds(m) <==> x in UnionIds(rs) {
        UnionIdsCovered(m, x);
        UnionIdsCovered(rs, x);
      }
    }
  }

  /** get_nb_all_fresh_ingredients (2025/day5/day5.py:55-57) on the parsed ranges:
      the sum of e - s + 1 over the merged ranges, which is the number of distinct ids
      some range contains when no range ends before it starts. */
  method AllFreshCount(ranges: array<Range>) returns (count: Option<int>)
    modifies ranges
    ensures count.None? <==> ranges.Length == 0
    ensures count.Some? ==> count.value == FreshCount(Merge(ranges[..]))
    ensures count.Some? && WellFormed(old(ranges[..])) ==> count.value == |UnionIds(old(ranges[..]))|
  {
    var merged := MergeRanges(ranges);
    if merged.None? {
      return None;
    }
    var m := merged.value;
    var total := 0;
    var i := 0;
    while i < |m|
      invariant 0 <= i <= |m|
      invariant total == FreshCount(m[..i])
    {
      assert m[..i + 1][..i] == m[..i];
      total := total + (m[i].1 - m[i].0 + 1);
      i := i + 1;
    }
    assert m[..i] == m;
    if WellFormed(old(ranges[..])) {
      CountIsUnion(m, old(ranges[..]));
    }
    count := Some(total);
  }

  /** get_nb_fresh_ingredients (2025/day5/day5.py:44-53): the number of distinct
      available ids that some range contains. */
  method CountFreshIngredients(ranges: seq<Range>, available: seq<int>) returns (count: nat)
    ensures count == |set x | x in available && Covered(ranges, x)|
  {
    var found: seq<int> := [];
    var i := 0;
    while i < |available|
      invariant 0 <= i <= |available|
      invariant (set x | x in found) == (set x | x in available[..i] && Covered(ranges, x))
    {
      var id := available[i];
      var j := 0;
      ghost var before := found;
      while j < |ranges|
        invariant 0 <= j <= |ranges|
        invariant (set x | x in found) == (set x | x in before) + (if Covered(ranges[..j], id) then {id} else {})
      {
        assert ranges[..j + 1] == ranges[..j] + [ranges[j]];
        CoveredAppend(ranges[..j], ranges[j], id);
        if ranges[j].0 <= id <= ranges[j].1 {
          found := found + [id];
        }
        j := j + 1;
      }
      assert ranges[..j] == ranges;
      assert available[..i + 1] == available[..i] + [id];
      i := i + 1;
    }
    assert available[..i] == available;
    count := |set x | x in found|;
  }
}
