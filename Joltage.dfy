/** Battery banks of 2025/day3/day3.py: a bank is a row of digits, and the joltage of
    a choice of batteries is the number their digits spell, in bank order. */
module Joltage {
  import opened Wrappers

  predicate IsDigits(d: seq<int>) {
    forall i :: 0 <= i < |d| ==> 0 <= d[i] <= 9
  }

  /** Python's max of a non-empty list. */
  function MaxOf(s: seq<int>): (m: int)
    requires |s| > 0
    ensures forall i :: 0 <= i < |s| ==> s[i] <= m
    ensures exists i :: 0 <= i < |s| && s[i] == m
  {
    if |s| == 1 then s[0]
    else
      var m := MaxOf(s[..|s| - 1]);
      assert forall i :: 0 <= i < |s| - 1 ==> s[..|s| - 1][i] == s[i];
      if s[|s| - 1] > m then s[|s| - 1] else m
  }

  /** Python's list.index: the first position holding x. */
  function FirstIndex(s: seq<int>, x: int): (p: int)
    requires x in s
    ensures 0 <= p < |s| && s[p] == x
    ensures forall i :: 0 <= i < p ==> s[i] != x
  {
    if s[0] == x then 0 else 1 + FirstIndex(s[1..], x)
  }

  /** find_highest (2025/day3/day3.py:10-20) as written: a side of the first maximum
      counts only when its largest digit is positive. */
  function FindHighest(d: seq<int>): int
    requires |d| > 0
  {
    var m := MaxOf(d);
    var p := FirstIndex(d, m);
    var maxLeft := if p > 0 then MaxOf(d[..p]) else 0;
    var maxRight := if p + 1 < |d| then MaxOf(d[p + 1..]) else 0;
    Sides(maxLeft, m, maxRight)
  }

  /** The end of find_highest (2025/day3/day3.py:17-20): the pivot digit m with the
      largest digit on its left before it, or on its right after it, whichever is
      larger; a side whose largest digit is 0 counts as 0. */
  function Sides(maxLeft: int, m: int, maxRight: int): int {
    var nbLeft := if maxLeft > 0 then maxLeft * 10 + m else 0;
    var nbRight := if maxRight > 0 then m * 10 + maxRight else 0;
    if nbLeft >= nbRight then nbLeft else nbRight
  }

  /** find_highest with each side guarded by its being non-empty. */
  function FindHighestFixed(d: seq<int>): int
    requires |d| > 0
  {
    var m := MaxOf(d);
    var p := FirstIndex(d, m);
    var nbLeft := if p > 0 then MaxOf(d[..p]) * 10 + m else 0;
    var nbRight := if p + 1 < |d| then m * 10 + MaxOf(d[p + 1..]) else 0;
    if nbLeft >= nbRight then nbLeft else nbRight
  }

  /** The joltage of the batteries at positions i < j. */
  function PairValue(d: seq<int>, i: int, j: int): int
    requires 0 <= i < j < |d|
  {
    10 * d[i] + d[j]
  }

  /** The largest joltage of two batteries taken in order: the best second battery
      at the end, or the best pair before it. */
  function BestPair(d: seq<int>): int
    requires |d| >= 2
  {
    if |d| == 2 then 10 * d[0] + d[1]
    else
      var rest := BestPair(d[..|d| - 1]);
      var last := 10 * MaxOf(d[..|d| - 1]) + d[|d| - 1];
      if rest >= last then rest else last
  }

  /** BestPair is the maximum over all pairs: it bounds every pair and some pair
      reaches it. */
  lemma {:induction false} BestPairIsMax(d: seq<int>)
    requires |d| >= 2
    ensures forall i, j :: 0 <= i < j < |d| ==> PairValue(d, i, j) <= BestPair(d)
    ensures exists i, j :: 0 <= i < j < |d| && PairValue(d, i, j) == BestPair(d)
  {
    if |d| == 2 {
      assert PairValue(d, 0, 1) == BestPair(d);
    } else {
      var p := d[..|d| - 1];
      BestPairIsMax(p);
      forall i, j | 0 <= i < j < |d| ensures PairValue(d, i, j) <= BestPair(d) {
        if j < |d| - 1 {
          assert PairValue(d, i, j) == PairValue(p, i, j);
        } else {
          assert d[i] == p[i];
        }
      }
      if BestPair(p) >= 10 * MaxOf(p) + d[|d| - 1] {
        var i, j :| 0 <= i < j < |p| && PairValue(p, i, j) == BestPair(p);
        assert PairValue(d, i, j) == BestPair(d);
      } else {
        var i :| 0 <= i < |p| && p[i] == MaxOf(p);
        assert PairValue(d, i, |d| - 1) == BestPair(d);
      }
    }
  }

  /** Any value that bounds every pair and is reached by one is BestPair. */
  lemma {:induction false} IsBestPair(d: seq<int>, v: int, i0: int, j0: int)
    requires |d| >= 2
    requires forall i, j :: 0 <= i < j < |d| ==> PairValue(d, i, j) <= v
    requires 0 <= i0 < j0 < |d| && PairValue(d, i0, j0) == v
    ensures v == BestPair(d)
  {
    BestPairIsMax(d);
    var i, j :| 0 <= i < j < |d| && PairValue(d, i, j) == BestPair(d);
  }

  /** The corrected find_highest returns the largest two-battery joltage. */
  lemma {:induction false} FindHighestFixedIsBest(d: seq<int>)
    requires |d| >= 2 && IsDigits(d)
    ensures FindHighestFixed(d) == BestPair(d)
  {
    var m := MaxOf(d);
    var p := FirstIndex(d, m);
    if p + 1 < |d| {
      BestWithRight(d);
      if p > 0 {
        var ml := MaxOf(d[..p]);
        var l :| 0 <= l < p && d[..p][l] == ml;
        assert d[l] != m;
      }
    } else {
      BestWithLeftOnly(d);
    }
  }

  /** When the first maximum m is not last, the best pair is m followed by the
      largest digit after it. */
  lemma {:induction false} BestWithRight(d: seq<int>)
    requires |d| >= 2 && IsDigits(d)
    requires FirstIndex(d, MaxOf(d)) + 1 < |d|
    ensures BestPair(d) == MaxOf(d) * 10 + MaxOf(d[FirstIndex(d, MaxOf(d)) + 1..])
  {
    var m := MaxOf(d);
    var p := FirstIndex(d, m);
    var right := d[p + 1..];
    var mr := MaxOf(right);
    var k :| 0 <= k < |right| && right[k] == mr;
    forall i, j | 0 <= i < j < |d| ensures PairValue(d, i, j) <= m * 10 + mr {
      if d[i] == m {
        assert right[j - p - 1] == d[j];
      }
    }
    IsBestPair(d, m * 10 + mr, p, p + 1 + k);
  }

  /** When the first maximum m is last, the best pair is the largest digit before it
      followed by m. */
  lemma {:induction false} BestWithLeftOnly(d: seq<int>)
    requires |d| >= 2 && IsDigits(d)
    requires FirstIndex(d, MaxOf(d)) == |d| - 1
    ensures BestPair(d) == MaxOf(d[..|d| - 1]) * 10 + MaxOf(d)
  {
    var m := MaxOf(d);
    var p := |d| - 1;
    var left := d[..p];
    var ml := MaxOf(left);
    var l :| 0 <= l < |left| && left[l] == ml;
    forall i, j | 0 <= i < j < |d| ensures PairValue(d, i, j) <= ml * 10 + m {
      assert left[i] == d[i];
    }
    IsBestPair(d, ml * 10 + m, l, p);
  }

  /** On banks of digits 1 to 9, the only digits the puzzle uses, find_highest as
      written is correct. */
  lemma {:induction false} FindHighestIsBest(d: seq<int>)
    requires |d| >= 2
    requires forall i :: 0 <= i < |d| ==> 1 <= d[i] <= 9
    ensures FindHighest(d) == BestPair(d)
  {
    var m := MaxOf(d);
    var p := FirstIndex(d, m);
    if p > 0 {
      var l :| 0 <= l < p && d[..p][l] == MaxOf(d[..p]);
    }
    if p + 1 < |d| {
      var k :| 0 <= k < |d| - p - 1 && d[p + 1..][k] == MaxOf(d[p + 1..]);
    }
    FindHighestFixedIsBest(d);
  }

  /** A zero after the maximum is ignored as if that side were empty: "90" gives 0
      instead of 90. */
  lemma FindHighestZeroDigit()
    ensures FindHighest([9, 0]) == 0
    ensures BestPair([9, 0]) == 90
  {
    assert MaxOf([9, 0]) == 9;
    assert FirstIndex([9, 0], 9) == 0;
    assert [9, 0][1..] == [0];
  }

  /** Result bounds of find_highest: a value in 0..99 of which one digit is the
      largest digit of the bank. */
  lemma {:induction false} FindHighestRange(d: seq<int>)
    requires |d| > 0 && IsDigits(d)
    ensures 0 <= FindHighest(d) <= 99
    ensures FindHighest(d) == 0 || FindHighest(d) / 10 == MaxOf(d) || FindHighest(d) % 10 == MaxOf(d)
  {
    var m := MaxOf(d);
    var p := FirstIndex(d, m);
    var maxLeft := if p > 0 then MaxOf(d[..p]) else 0;
    var maxRight := if p + 1 < |d| then MaxOf(d[p + 1..]) else 0;
    MaxOfDigits(d);
    if p > 0 {
      MaxOfDigits(d[..p]);
    }
    if p + 1 < |d| {
      MaxOfDigits(d[p + 1..]);
    }
    SidesRange(maxLeft, m, maxRight);
  }

  lemma MaxOfDigits(s: seq<int>)
    requires |s| > 0 && IsDigits(s)
    ensures 0 <= MaxOf(s) <= 9
  {
    var i :| 0 <= i < |s| && s[i] == MaxOf(s);
  }

  /** On digits, the choice between the two sides is a two-digit number with the
      pivot digit as one of its digits, or 0. */
  lemma SidesRange(maxLeft: int, m: int, maxRight: int)
    requires 0 <= maxLeft <= 9 && 0 <= m <= 9 && 0 <= maxRight <= 9
    ensures var r := Sides(maxLeft, m, maxRight);
      0 <= r <= 99 && (r == 0 || r / 10 == m || r % 10 == m)
  {
    TwoDigits(maxLeft, m);
    TwoDigits(m, maxRight);
  }

  /** The two-digit number with digits a and b. */
  lemma TwoDigits(a: int, b: int)
    requires 0 <= a <= 9 && 0 <= b <= 9
    ensures 0 <= a * 10 + b <= 99 && (a * 10 + b) / 10 == a && (a * 10 + b) % 10 == b
  {
  }

  /** a is b with some elements left out, the rest kept in order. */
  predicate IsSubseq(a: seq<int>, b: seq<int>)
    decreases |b|
  {
    a == [] ||
    (b != [] &&
     ((a[|a| - 1] == b[|b| - 1] && IsSubseq(a[..|a| - 1], b[..|b| - 1])) ||
      IsSubseq(a, b[..|b| - 1])))
  }

  lemma {:induction false} SubseqRefl(a: seq<int>)
    ensures IsSubseq(a, a)
  {
    if a != [] {
      SubseqRefl(a[..|a| - 1]);
    }
  }

  lemma {:induction false} SubseqExtend(a: seq<int>, b: seq<int>, x: int)
    requires IsSubseq(a, b)
    ensures IsSubseq(a + [x], b + [x])
  {
    assert (a + [x])[..|a|] == a;
    assert (b + [x])[..|b|] == b;
  }

  lemma {:induction false} SubseqDropLast(a: seq<int>, b: seq<int>)
    requires a != [] && IsSubseq(a, b)
    ensures IsSubseq(a[..|a| - 1], b)
    decreases |b|
  {
    var a' := a[..|a| - 1];
    if a' != [] && b != [] {
      var b' := b[..|b| - 1];
      if a[|a| - 1] == b[|b| - 1] && IsSubseq(a', b') {
        SubseqWeaken(a', b);
      } else {
        SubseqDropLast(a, b');
      }
    }
  }

  lemma {:induction false} SubseqWeaken(a: seq<int>, b: seq<int>)
    requires b != [] && IsSubseq(a, b[..|b| - 1])
    ensures IsSubseq(a, b)
  {
  }

  lemma {:induction false} SubseqPrefix(a: seq<int>, b: seq<int>, k: int)
    requires 0 <= k <= |a| && IsSubseq(a, b)
    ensures IsSubseq(a[..k], b)
    decreases |a| - k
  {
    if k < |a| {
      SubseqDropLast(a, b);
      SubseqPrefix(a[..|a| - 1], b, k);
      assert a[..|a| - 1][..k] == a[..k];
    } else {
      assert a[..k] == a;
    }
  }

  /** The number spelled by decimal digits, most significant first. */
  function DecimalValue(d: seq<int>): int {
    if d == [] then 0 else DecimalValue(d[..|d| - 1]) * 10 + d[|d| - 1]
  }

  /** One pop of max_subsequence: the top digit removed, and the incoming digit that
      removed it. */
  datatype Pop = Pop(digit: int, incoming: int)

  /** No digit is smaller than a later one. */
  predicate NonIncreasing(s: seq<int>) {
    forall i, j :: 0 <= i < j < |s| ==> s[i] >= s[j]
  }

  /** The loop invariant of max_subsequence after the first i digits: toRemove counts
      the removals left, every pop so far removed a smaller digit, and the stack is an
      in-order subsequence of the digits read, non-increasing while removals remain. */
  ghost predicate StackInv(d: seq<int>, k: int, i: int, stack: seq<int>, toRemove: int, pops: seq<Pop>)
    requires 0 <= i <= |d|
  {
    (|d| >= k ==> 0 <= toRemove <= |d| - k) &&
    (|d| < k ==> toRemove == |d| - k) &&
    |pops| == |d| - k - toRemove &&
    (forall j :: 0 <= j < |pops| ==> pops[j].digit < pops[j].incoming) &&
    (toRemove > 0 ==> NonIncreasing(stack)) &&
    |stack| == i - |pops| &&
    IsSubseq(stack, d[..i]) &&
    (toRemove == |d| - k ==> stack == d[..i])
  }

  /** Popping a top smaller than the incoming digit keeps the invariant. */
  lemma PopStep(d: seq<int>, k: int, i: int, stack: seq<int>, toRemove: int, pops: seq<Pop>)
    requires 0 <= i < |d| && StackInv(d, k, i, stack, toRemove, pops)
    requires stack != [] && toRemove > 0 && stack[|stack| - 1] < d[i]
    ensures StackInv(d, k, i, stack[..|stack| - 1], toRemove - 1, pops + [Pop(stack[|stack| - 1], d[i])])
  {
    SubseqDropLast(stack, d[..i]);
  }

  /** Pushing the incoming digit once no pop applies keeps the invariant for i + 1. */
  lemma PushStep(d: seq<int>, k: int, i: int, stack: seq<int>, toRemove: int, pops: seq<Pop>)
    requires 0 <= i < |d| && StackInv(d, k, i, stack, toRemove, pops)
    requires stack == [] || toRemove <= 0 || stack[|stack| - 1] >= d[i]
    ensures StackInv(d, k, i + 1, stack + [d[i]], toRemove, pops)
  {
    assert d[..i + 1] == d[..i] + [d[i]];
    SubseqExtend(stack, d[..i], d[i]);
  }

  /** max_subsequence (2025/day3/day3.py:22-51): a stack of kept digits, popping a
      smaller top while removals remain. `kept` is the digit list whose decimal
      reading the source returns; int("") of an empty list raises, which is None.
      `pops` records every pop: each removes a digit smaller than the incoming one, at
      most |d| - k of them happen, and while removals remain the stack stays
      non-increasing. */
  method MaxSubsequence(d: seq<int>, k: int) returns (kept: seq<int>, value: Option<int>, ghost pops: seq<Pop>)
    requires k >= 0
    ensures |d| >= k ==> |kept| == k
    ensures |d| <= k ==> kept == d
    ensures IsSubseq(kept, d)
    ensures value.None? <==> kept == []
    ensures value.Some? ==> value.value == DecimalValue(kept)
    ensures forall j :: 0 <= j < |pops| ==> pops[j].digit < pops[j].incoming
    ensures |d| >= k ==> |pops| <= |d| - k
    ensures |d| <= k ==> pops == []
    ensures |pops| < |d| - k ==> NonIncreasing(kept)
  {
    var stack: seq<int> := [];
    var toRemove := |d| - k;
    pops := [];
    SubseqRefl([]);
    for i := 0 to |d|
      invariant StackInv(d, k, i, stack, toRemove, pops)
    {
      var n := d[i];
      while stack != [] && toRemove > 0 && stack[|stack| - 1] < n
        invariant StackInv(d, k, i, stack, toRemove, pops)
        decreases |stack|
      {
        PopStep(d, k, i, stack, toRemove, pops);
        pops := pops + [Pop(stack[|stack| - 1], n)];
        stack := stack[..|stack| - 1];
        toRemove := toRemove - 1;
      }
      PushStep(d, k, i, stack, toRemove, pops);
      stack := stack + [n];
    }
    assert d[..|d|] == d;
    var cut := if k <= |stack| then k else |stack|;
    kept := stack[..cut];
    SubseqPrefix(stack, d, cut);
    if kept == [] {
      value := None;
    } else {
      value := Some(DecimalValue(kept));
    }
  }
}
