/** Invalid product ids of 2025/day2/day2.py: ids whose decimal spelling is a block
    of digits repeated (twice for part 1, at least twice for part 2). */
module InvalidIds {

  function DigitChar(d: int): char
    requires 0 <= d <= 9
  {
    ('0' as int + d) as char
  }

  /** Python's str(n) for n >= 0. */
  function Str(n: nat): (s: string)
    ensures |s| >= 1
    ensures |s| == 1 <==> n < 10
  {
    if n < 10 then [DigitChar(n)] else Str(n / 10) + [DigitChar(n % 10)]
  }

  /** is_valid (2025/day2/day2.py:9-14): an even number of digits whose two halves
      are equal. */
  predicate IsValid(n: nat) {
    var s := Str(n);
    if |s| % 2 == 1 then false else s[..|s| / 2] == s[|s| / 2..]
  }

  /** k copies of w, one after the other. */
  function Repeat(w: string, k: nat): (r: string)
    ensures |r| == k * |w|
  {
    if k == 0 then [] else Repeat(w, k - 1) + w
  }

  /** What is_valid2 searches for: some part count 2..|s| dividing |s| such that s is
      its first |s|/part characters repeated part times. */
  ghost predicate IsRepetition(s: string) {
    exists part :: TilesWith(s, part)
  }

  /** s is its first |s|/part characters written part times, for 2 <= part <= |s|. */
  predicate TilesWith(s: string, part: int) {
    2 <= part <= |s| && |s| % part == 0 && s == Repeat(s[..|s| / part], part)
  }

  /** Any id spelled as a block written twice is invalid in part 1, whatever the
      block. */
  lemma {:induction false} DoubledIsValid(n: nat, w: string)
    requires Str(n) == w + w
    ensures IsValid(n)
  {
    var s := Str(n);
    assert |s| / 2 == |w|;
    assert s[..|w|] == w && s[|w|..] == w;
  }

  /** An invalid part-1 id is its first half written twice. */
  lemma {:induction false} ValidIsDoubled(n: nat)
    requires IsValid(n)
    ensures Str(n) == Str(n)[..|Str(n)| / 2] + Str(n)[..|Str(n)| / 2]
  {
    var s := Str(n);
    assert s == s[..|s| / 2] + s[|s| / 2..];
  }

  lemma {:induction false} RepeatTwice(w: string)
    ensures Repeat(w, 2) == w + w
  {
    assert Repeat(w, 1) == [] + w;
  }

  /** Every id invalid in part 1 is invalid in part 2 (the part = 2 case). */
  lemma {:induction false} ValidImpliesValid2(n: nat)
    requires IsValid(n)
    ensures IsRepetition(Str(n))
  {
    var s := Str(n);
    ValidIsDoubled(n);
    RepeatTwice(s[..|s| / 2]);
    assert |s| >= 2;
    assert TilesWith(s, 2);
  }

  /** Single-digit ids are never invalid in part 2. */
  lemma {:induction false} SingleDigitNotValid2(n: nat)
    requires n < 10
    ensures !IsRepetition(Str(n))
  {
  }

  lemma {:induction false} RepeatPrefix(w: string, k: nat)
    requires k >= 1
    ensures Repeat(w, k)[..|w|] == w
  {
    if k > 1 {
      RepeatPrefix(w, k - 1);
      assert Repeat(w, k) == Repeat(w, k - 1) + w;
      assert |Repeat(w, k - 1)| >= |w| by {
        assert (k - 1) * |w| >= |w|;
      }
    }
  }

  lemma {:induction false} MulDiv(k: int, m: int)
    requires k >= 2 && m >= 1
    ensures (k * m) / k == m && (k * m) % k == 0 && k <= k * m
  {
    assert k * m == k * (m - 1) + k;
    assert k * (m - 1) >= 0;
  }

  lemma {:induction false} DivAtMost(a: int, b: int)
    requires a >= 0 && b >= 1
    ensures 0 <= a / b <= a
  {
    assert a == b * (a / b) + a % b;
  }

  /** Any id spelled as a non-empty block written k >= 2 times is invalid in part 2. */
  lemma {:induction false} RepeatedIsValid2(n: nat, w: string, k: nat)
    requires k >= 2 && |w| > 0 && Str(n) == Repeat(w, k)
    ensures IsRepetition(Str(n))
  {
    var s := Str(n);
    MulDiv(k, |w|);
    RepeatPrefix(w, k);
    assert TilesWith(s, k);
  }

  /** is_valid2 (2025/day2/day2.py:16-26): try every part count from 2 to the number of
      digits and stop at the first that tiles the spelling. */
  method IsValid2(n: nat) returns (b: bool)
    ensures b <==> IsRepetition(Str(n))
  {
    var s := Str(n);
    if |s| >= 2 {
      var part := 2;
      while part <= |s|
        invariant 2 <= part <= |s| + 1
        invariant forall q :: 2 <= q < part ==> !TilesWith(s, q)
      {
        if |s| % part == 0 {
          DivAtMost(|s|, part);
          var compare := Repeat(s[..|s| / part], part);
          if s == compare {
            assert TilesWith(s, part);
            return true;
          }
        }
        part := part + 1;
      }
      assert forall q :: !TilesWith(s, q);
      return false;
    } else {
      assert forall q :: !TilesWith(s, q);
      return false;
    }
  }

  /** The selected predicate of parse_input: is_valid or is_valid2. */
  ghost predicate Selected(n: nat, part2: bool) {
    if part2 then IsRepetition(Str(n)) else IsValid(n)
  }

  /** The sum of the selected ids in lo..hi, both ends included. */
  ghost function RangeSum(lo: nat, hi: int, part2: bool): int
    decreases hi - lo
  {
    if hi < lo then 0 else RangeSum(lo, hi - 1, part2) + (if Selected(hi, part2) then hi else 0)
  }

  ghost function TotalSum(ranges: seq<(nat, nat)>, part2: bool): int {
    if ranges == [] then 0
    else TotalSum(ranges[..|ranges| - 1], part2) + RangeSum(ranges[|ranges| - 1].0, ranges[|ranges| - 1].1, part2)
  }

  lemma {:induction false} RangeSumNonNeg(lo: nat, hi: int, part2: bool)
    ensures RangeSum(lo, hi, part2) >= 0
    decreases hi - lo
  {
    if hi >= lo {
      RangeSumNonNeg(lo, hi - 1, part2);
    }
  }

  /** A range holding no selected id contributes nothing. */
  lemma {:induction false} RangeSumNoneSelected(lo: nat, hi: int, part2: bool)
    requires forall n: nat :: lo <= n <= hi ==> !Selected(n, part2)
    ensures RangeSum(lo, hi, part2) == 0
    decreases hi - lo
  {
    if hi >= lo {
      RangeSumNoneSelected(lo, hi - 1, part2);
    }
  }

  /** parse_input (2025/day2/day2.py:29-40) on the parsed ranges: the sum over every
      range, ends included, of the ids the predicate selects. */
  method SumInvalid(ranges: seq<(nat, nat)>, part2: bool) returns (response: int)
    ensures response == TotalSum(ranges, part2)
  {
    response := 0;
    var r := 0;
    while r < |ranges|
      invariant 0 <= r <= |ranges|
      invariant response == TotalSum(ranges[..r], part2)
    {
      var lo, hi := ranges[r].0, ranges[r].1;
      ghost var before := response;
      var n: int := lo;
      while n <= hi
        invariant lo <= n <= hi + 1 || (n == lo && hi < lo)
        invariant response == before + RangeSum(lo, n - 1, part2)
      {
        var ok: bool;
        if part2 {
          ok := IsValid2(n);
        } else {
          ok := IsValid(n);
        }
        if ok {
          response := response + n;
        }
        n := n + 1;
      }
      assert RangeSum(lo, n - 1, part2) == RangeSum(lo, hi, part2);
      assert ranges[..r + 1][..r] == ranges[..r];
      r := r + 1;
    }
    assert ranges[..r] == ranges;
  }
}
