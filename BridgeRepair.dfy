/** Bridge calibration equations of 2024/day7/day7.py: can the operators between the
    numbers of an equation, evaluated left to right, be chosen so that the numbers
    give the equation's result? Part 1 chooses among + and *, part 2 also among
    concatenation of decimal spellings. */
module BridgeRepair {
  import opened Wrappers
  import InvalidIds
  import opened Arith

  datatype Equation = Equation(result: nat, numbers: seq<nat>)

  // ---------------------------------------------------------------------------
  // Base-3 digit strings (increment_base3)

  predicate IsBase3(s: string) {
    forall j :: 0 <= j < |s| ==> '0' <= s[j] <= '2'
  }

  /** Python's int(s, 3) on a string of base-3 digits (the empty string reads as 0
      here; Python rejects it, see IncrementBase3). */
  function Base3Value(s: string): nat
    requires IsBase3(s)
  {
    if s == [] then 0 else 3 * Base3Value(s[..|s| - 1]) + (s[|s| - 1] as int - '0' as int)
  }

  function Digit3(d: nat): (c: char)
    requires d < 3
    ensures '0' <= c <= '2' && c as int - '0' as int == d
  {
    ('0' as int + d) as char
  }

  /** The base-3 spelling of n without leading zeros (empty for 0), as the while loop
      of increment_base3 builds it. */
  function ToBase3(n: nat): (s: string)
    ensures IsBase3(s) && Base3Value(s) == n
    ensures n > 0 ==> |s| > 0 && s[0] != '0'
  {
    if n == 0 then []
    else
      var s := ToBase3(n / 3) + [Digit3(n % 3)];
      assert s[..|s| - 1] == ToBase3(n / 3);
      s
  }

  function Zeros(k: nat): (z: string)
    ensures |z| == k && IsBase3(z)
  {
    seq(k, _ => '0')
  }

  /** Python's s.zfill(width) on a string without a sign. */
  function ZFill(s: string, width: nat): (r: string)
    ensures |r| == if |s| >= width then |s| else width
  {
    if |s| >= width then s else Zeros(width - |s|) + s
  }

  lemma {:induction false} ZerosValue(k: nat)
    ensures Base3Value(Zeros(k)) == 0
  {
    if k > 0 {
      assert Zeros(k)[..k - 1] == Zeros(k - 1);
      ZerosValue(k - 1);
    }
  }

  /** Leading zeros do not change a base-3 value. */
  lemma {:induction false} PaddedValue(k: nat, s: string)
    requires IsBase3(s)
    ensures IsBase3(Zeros(k) + s) && Base3Value(Zeros(k) + s) == Base3Value(s)
    decreases |s|
  {
    var z := Zeros(k) + s;
    if s == [] {
      assert z == Zeros(k);
      ZerosValue(k);
    } else {
      assert z[..|z| - 1] == Zeros(k) + s[..|s| - 1];
      PaddedValue(k, s[..|s| - 1]);
    }
  }

  /** A base-3 string of length k is worth less than 3^k. */
  lemma {:induction false} Base3Bound(s: string)
    requires IsBase3(s)
    ensures Base3Value(s) < Pow(3, |s|)
  {
    if s != [] {
      Base3Bound(s[..|s| - 1]);
    }
  }

  /** A base-3 spelling that starts with a non-zero digit is worth at least
      3^(length-1). */
  lemma {:induction false} Base3Lower(s: string)
    requires IsBase3(s) && |s| > 0 && s[0] != '0'
    ensures Base3Value(s) >= Pow(3, |s| - 1)
  {
    if |s| > 1 {
      var p := s[..|s| - 1];
      assert p[0] == s[0];
      Base3Lower(p);
    }
  }

  /** Two base-3 strings of the same length and value are the same string. */
  lemma {:induction false} Base3Unique(a: string, b: string)
    requires IsBase3(a) && IsBase3(b) && |a| == |b| && Base3Value(a) == Base3Value(b)
    ensures a == b
  {
    if a != [] {
      var n := |a|;
      Base3Unique(a[..n - 1], b[..n - 1]);
      assert a == a[..n - 1] + [a[n - 1]] && b == b[..n - 1] + [b[n - 1]];
    }
  }

  /** increment_base3 (2024/day7/day7.py:11-23): the base-3 string one more than s,
      padded with zeros to s's length. int("", 3) raises, so the empty string gives
      None; the one-number equations of eval_equation_3ops reach that case. */
  method IncrementBase3(s: string) returns (r: Option<string>)
    requires IsBase3(s)
    ensures r.None? <==> s == []
    ensures r.Some? ==> IsBase3(r.value) && Base3Value(r.value) == Base3Value(s) + 1
    ensures r.Some? ==> |r.value| >= |s|
    ensures r.Some? && Base3Value(s) + 1 < Pow(3, |s|) ==> |r.value| == |s|
  {
    if s == [] {
      return None;
    }
    var total := Base3Value(s) + 1;
    var result := Base3Digits(total);
    var padded := ZFill(result, |s|);
    FilledIncrement(s, result);
    r := Some(if padded == [] then "0" else padded);
  }

  /** The while loop of increment_base3 (2024/day7/day7.py:17-20): the base-3
      spelling of n, built from its last digit to its first. */
  method Base3Digits(n: nat) returns (result: string)
    ensures result == ToBase3(n)
    ensures IsBase3(result) && Base3Value(result) == n
    ensures n > 0 ==> |result| > 0 && result[0] != '0'
  {
    var incremented := n;
    result := "";
    while incremented > 0
      invariant ToBase3(incremented) + result == ToBase3(n)
    {
      ToBase3Step(incremented, result);
      result := [Digit3(incremented % 3)] + result;
      incremented := incremented / 3;
    }
    assert ToBase3(incremented) == [];
  }

  /** Moving the last base-3 digit of n to the front of the digits already built. */
  lemma ToBase3Step(n: nat, result: string)
    requires n > 0
    ensures ToBase3(n / 3) + ([Digit3(n % 3)] + result) == ToBase3(n) + result
  {
    assert ToBase3(n) == ToBase3(n / 3) + [Digit3(n % 3)];
    AppendAssoc(ToBase3(n / 3), [Digit3(n % 3)], result);
  }

  lemma AppendAssoc(a: string, b: string, c: string)
    ensures a + (b + c) == (a + b) + c
  {
  }

  /** The zero-filled spelling of Base3Value(s) + 1 is a non-empty base-3 string
      worth that much, as long as s at least, and exactly as long as s when the value
      fits in |s| digits. */
  lemma FilledIncrement(s: string, result: string)
    requires IsBase3(s) && s != [] && IsBase3(result) && Base3Value(result) == Base3Value(s) + 1
    requires |result| > 0 && result[0] != '0'
    ensures var p := ZFill(result, |s|);
      p != [] && IsBase3(p) && Base3Value(p) == Base3Value(s) + 1 && |p| >= |s| &&
      (Base3Value(s) + 1 < Pow(3, |s|) ==> |p| == |s|)
  {
    if |result| < |s| {
      PaddedValue(|s| - |result|, result);
    }
    if Base3Value(s) + 1 < Pow(3, |s|) && |result| > |s| {
      Base3Lower(result);
      PowMonotonic(3, |s|, |result| - 1);
    }
  }

  // ---------------------------------------------------------------------------
  // Decimal concatenation (the "2" operator)

  function DecValue(s: string): nat
    requires forall j :: 0 <= j < |s| ==> '0' <= s[j] <= '9'
  {
    if s == [] then 0 else 10 * DecValue(s[..|s| - 1]) + (s[|s| - 1] as int - '0' as int)
  }

  lemma {:induction false} StrDigits(n: nat)
    ensures forall j :: 0 <= j < |InvalidIds.Str(n)| ==> '0' <= InvalidIds.Str(n)[j] <= '9'
    ensures DecValue(InvalidIds.Str(n)) == n
  {
    var s := InvalidIds.Str(n);
    if n >= 10 {
      StrDigits(n / 10);
      assert s == InvalidIds.Str(n / 10) + [InvalidIds.DigitChar(n % 10)];
      assert s[..|s| - 1] == InvalidIds.Str(n / 10);
    } else {
      assert s == [InvalidIds.DigitChar(n)];
    }
  }

  lemma {:induction false} DecValueAppend(a: string, b: string)
    requires forall j :: 0 <= j < |a| ==> '0' <= a[j] <= '9'
    requires forall j :: 0 <= j < |b| ==> '0' <= b[j] <= '9'
    ensures forall j :: 0 <= j < |a + b| ==> '0' <= (a + b)[j] <= '9'
    ensures DecValue(a + b) == DecValue(a) * Pow(10, |b|) + DecValue(b)
    decreases |b|
  {
    if b != [] {
      var n := |b|;
      assert (a + b)[..|a + b| - 1] == a + b[..n - 1];
      DecValueAppend(a, b[..n - 1]);
      var d := b[n - 1] as int - '0' as int;
      assert DecValue(a + b) == 10 * DecValue(a + b[..n - 1]) + d;
      assert DecValue(b) == 10 * DecValue(b[..n - 1]) + d;
      ShiftDigit(DecValue(a), Pow(10, n - 1), DecValue(b[..n - 1]), d);
    } else {
      assert a + b == a;
    }
  }

  /** int(str(a) + str(b)). */
  function Concat(a: nat, b: nat): nat {
    StrDigits(a);
    StrDigits(b);
    DecValueAppend(InvalidIds.Str(a), InvalidIds.Str(b));
    DecValue(InvalidIds.Str(a) + InvalidIds.Str(b))
  }

  /** Concatenation shifts a left by the number of decimal digits of b and adds b. */
  lemma {:induction false} ConcatShifts(a: nat, b: nat)
    ensures Concat(a, b) == a * Pow(10, |InvalidIds.Str(b)|) + b
  {
    StrDigits(a);
    StrDigits(b);
    DecValueAppend(InvalidIds.Str(a), InvalidIds.Str(b));
  }

  // ---------------------------------------------------------------------------
  // Left-to-right evaluation

  /** Part 1: op j joins the running value with number j+1; true is +, false is *. */
  function EvalBits(nums: seq<nat>, ops: seq<bool>): nat
    requires |nums| >= 1 && |ops| == |nums| - 1
  {
    if ops == [] then nums[0]
    else
      var r := EvalBits(nums[..|nums| - 1], ops[..|ops| - 1]);
      if ops[|ops| - 1] then r + nums[|nums| - 1] else r * nums[|nums| - 1]
  }

  /** One step of the inner loop of eval_equation_3ops: "0" adds, "1" multiplies, "2"
      concatenates; any other character leaves the value alone. */
  function ApplyDigit(acc: nat, c: char, x: nat): nat {
    if c == '0' then acc + x
    else if c == '1' then acc * x
    else if c == '2' then Concat(acc, x)
    else acc
  }

  /** Part 2: operator j is digit j of the base-3 string. */
  function EvalDigits(nums: seq<nat>, ops: string): nat
    requires |nums| >= 1 && |ops| == |nums| - 1
  {
    if ops == [] then nums[0]
    else ApplyDigit(EvalDigits(nums[..|nums| - 1], ops[..|ops| - 1]), ops[|ops| - 1], nums[|nums| - 1])
  }

  ghost predicate Solvable2(e: Equation)
    requires |e.numbers| >= 1
  {
    exists ops: seq<bool> :: |ops| == |e.numbers| - 1 && EvalBits(e.numbers, ops) == e.result
  }

  ghost predicate Solvable3(e: Equation)
    requires |e.numbers| >= 1
  {
    exists ops: string :: IsBase3(ops) && |ops| == |e.numbers| - 1 && EvalDigits(e.numbers, ops) == e.result
  }

  // ---------------------------------------------------------------------------
  // Masks (eval_equation)

  /** The operators eval_equation tries at loop value i: bit j of i set means +. */
  function MaskBits(i: nat, k: nat): (ops: seq<bool>)
    ensures |ops| == k
  {
    seq(k, j requires 0 <= j < k => (i / Pow(2, j)) % 2 == 1)
  }

  /** The loop value at which eval_equation tries the operators ops. */
  function MaskOf(ops: seq<bool>): nat {
    if ops == [] then 0 else (if ops[0] then 1 else 0) + 2 * MaskOf(ops[1..])
  }

  lemma {:induction false} DivHalf(b: nat, m: nat, p: nat)
    requires b < 2 && p > 0
    ensures (b + 2 * m) / (2 * p) == m / p
  {
    var q, r := m / p, m % p;
    assert b + 2 * m == q * (2 * p) + (2 * r + b);
    Arith.DivModUnique(b + 2 * m, 2 * p, q, 2 * r + b);
  }

  /** Every choice of + and * is tried: its mask is below 2^k and decodes back to it. */
  lemma {:induction false} MaskRoundTrip(ops: seq<bool>)
    ensures MaskOf(ops) < Pow(2, |ops|)
    ensures MaskBits(MaskOf(ops), |ops|) == ops
  {
    if ops != [] {
      var k := |ops|;
      var b := if ops[0] then 1 else 0;
      var m := MaskOf(ops[1..]);
      MaskRoundTrip(ops[1..]);
      assert MaskOf(ops) == b + 2 * m;
      assert Pow(2, k) == 2 * Pow(2, k - 1);
      forall j | 0 <= j < k ensures MaskBits(b + 2 * m, k)[j] == ops[j] {
        MaskBit(b, m, j, ops[1..]);
      }
    }
  }

  lemma {:induction false} MaskBit(b: nat, m: nat, j: nat, rest: seq<bool>)
    requires b < 2 && j <= |rest| && MaskBits(m, |rest|) == rest
    ensures ((b + 2 * m) / Pow(2, j)) % 2 == 1 <==> (if j == 0 then b == 1 else rest[j - 1])
  {
    if j > 0 {
      var p := Pow(2, j - 1);
      assert Pow(2, j) == 2 * p;
      DivHalf(b, m, p);
      assert rest[j - 1] == MaskBits(m, |rest|)[j - 1];
    }
  }

  /** The inner loop of eval_equation (2024/day7/day7.py:44-51): evaluate with the
      operators of loop value i; `i & mask` with mask = 2^(n-1) is bit n-1 of i. */
  method EvalMask(numbers: seq<nat>, i: nat) returns (res: nat)
    requires |numbers| >= 1
    ensures res == EvalBits(numbers, MaskBits(i, |numbers| - 1))
  {
    var mask := 1;
    res := numbers[0];
    ghost var ops := MaskBits(i, |numbers| - 1);
    for n := 1 to |numbers|
      invariant mask == Pow(2, n - 1)
      invariant res == EvalBits(numbers[..n], ops[..n - 1])
    {
      EvalBitsStep(numbers, ops, n);
      assert ops[n - 1] == ((i / mask) % 2 == 1);
      if (i / mask) % 2 == 1 {
        res := res + numbers[n];
      } else {
        res := res * numbers[n];
      }
      mask := mask * 2;
    }
    assert numbers[..|numbers|] == numbers && ops[..|numbers| - 1] == ops;
  }

  /** Evaluating one more number applies the next operator to the value so far. */
  lemma EvalBitsStep(nums: seq<nat>, ops: seq<bool>, n: int)
    requires 1 <= n < |nums| && |ops| == |nums| - 1
    ensures EvalBits(nums[..n + 1], ops[..n]) ==
      if ops[n - 1] then EvalBits(nums[..n], ops[..n - 1]) + nums[n]
      else EvalBits(nums[..n], ops[..n - 1]) * nums[n]
  {
    assert nums[..n + 1][..n] == nums[..n];
    assert ops[..n][..n - 1] == ops[..n - 1];
  }

  /** eval_equation (2024/day7/day7.py:40-54): try every i below 2^(k) for k
      operators; bit j of i (`i & mask` with mask = 2^j) selects + for operator j. The
      source falls off the end, returning None, when nothing matches. */
  method EvalEquation(e: Equation) returns (found: bool)
    requires |e.numbers| >= 1
    ensures found <==> Solvable2(e)
  {
    var numbers := e.numbers;
    var k := |numbers| - 1;
    var i := 0;
    while i < Pow(2, k)
      invariant 0 <= i <= Pow(2, k)
      invariant forall i' :: 0 <= i' < i ==> EvalBits(numbers, MaskBits(i', k)) != e.result
    {
      var res := EvalMask(numbers, i);
      if res == e.result {
        return true;
      }
      i := i + 1;
    }
    forall ops: seq<bool> | |ops| == k ensures EvalBits(numbers, ops) != e.result {
      MaskRoundTrip(ops);
    }
    return false;
  }

  /** Evaluating one more number applies the next operator digit to the value so far. */
  lemma EvalDigitsStep(nums: seq<nat>, ops: string, n: int)
    requires 0 <= n < |ops| && |ops| == |nums| - 1
    ensures EvalDigits(nums[..n + 2], ops[..n + 1]) ==
      ApplyDigit(EvalDigits(nums[..n + 1], ops[..n]), ops[n], nums[n + 1])
  {
    assert nums[..n + 2][..n + 1] == nums[..n + 1];
    assert ops[..n + 1][..n] == ops[..n];
  }

  /** The inner loop of eval_equation_3ops (2024/day7/day7.py:65-74). */
  method EvalOperators(numbers: seq<nat>, it: string) returns (res: nat)
    requires |numbers| >= 1 && |it| == |numbers| - 1
    ensures res == EvalDigits(numbers, it)
  {
    res := numbers[0];
    for n := 0 to |it|
      invariant res == EvalDigits(numbers[..n + 1], it[..n])
    {
      EvalDigitsStep(numbers, it, n);
      if it[n] == '0' {
        res := res + numbers[n + 1];
      } else if it[n] == '1' {
        res := res * numbers[n + 1];
      } else if it[n] == '2' {
        res := Concat(res, numbers[n + 1]);
      }
    }
    assert numbers[..|it| + 1] == numbers && it[..|it|] == it;
  }

  /** eval_equation_3ops (2024/day7/day7.py:57-81): walk the base-3 strings of length
      k from all zeros upwards with increment_base3. On a one-number equation the
      increment of the empty string raises, which is None here. */
  method EvalEquation3Ops(e: Equation) returns (r: Option<bool>)
    requires |e.numbers| >= 1
    ensures r.None? <==> |e.numbers| == 1
    ensures r.Some? ==> (r.value <==> Solvable3(e))
  {
    var numbers := e.numbers;
    var k := |numbers| - 1;
    var it := Zeros(k);
    ZerosValue(k);
    var i := 0;
    while i < Pow(3, k)
      invariant 0 <= i <= Pow(3, k)
      invariant k == 0 ==> i == 0
      invariant i < Pow(3, k) ==> IsBase3(it) && |it| == k && Base3Value(it) == i
      invariant forall s :: IsBase3(s) && |s| == k && Base3Value(s) < i ==> EvalDigits(numbers, s) != e.result
    {
      var res := EvalOperators(numbers, it);
      ghost var tried := it;
      var next := IncrementBase3(it);
      if next.None? {
        return None;
      }
      it := next.value;
      if res == e.result {
        return Some(true);
      }
      forall s | IsBase3(s) && |s| == k && Base3Value(s) < i + 1
        ensures EvalDigits(numbers, s) != e.result
      {
        if Base3Value(s) == i {
          Base3Unique(s, tried);
        }
      }
      i := i + 1;
    }
    forall s | IsBase3(s) && |s| == k ensures EvalDigits(numbers, s) != e.result {
      Base3Bound(s);
    }
    return Some(false);
  }

  /** Every + / * choice is a base-3 string over "0" and "1", so an equation that part 1
      solves is solved by part 2 as well. */
  lemma {:induction false} EncodeBits(nums: seq<nat>, ops: seq<bool>)
    requires |nums| >= 1 && |ops| == |nums| - 1
    ensures IsBase3(Encode(ops))
    ensures EvalDigits(nums, Encode(ops)) == EvalBits(nums, ops)
  {
    if ops != [] {
      assert Encode(ops)[..|ops| - 1] == Encode(ops[..|ops| - 1]);
      EncodeBits(nums[..|nums| - 1], ops[..|ops| - 1]);
    }
  }

  function Encode(ops: seq<bool>): (s: string)
    ensures |s| == |ops|
  {
    seq(|ops|, j requires 0 <= j < |ops| => if ops[j] then '0' else '1')
  }

  lemma {:induction false} Part1SolvesPart2(e: Equation)
    requires |e.numbers| >= 1 && Solvable2(e)
    ensures Solvable3(e)
  {
    var ops :| |ops| == |e.numbers| - 1 && EvalBits(e.numbers, ops) == e.result;
    EncodeBits(e.numbers, ops);
  }

  // ---------------------------------------------------------------------------
  // Calibration totals

  predicate WellFormed(eqs: seq<Equation>) {
    forall j :: 0 <= j < |eqs| ==> |eqs[j].numbers| >= 1
  }

  ghost function Total2(eqs: seq<Equation>): nat
    requires WellFormed(eqs)
  {
    if eqs == [] then 0
    else
      var e := eqs[|eqs| - 1];
      Total2(eqs[..|eqs| - 1]) + (if Solvable2(e) then e.result else 0)
  }

  ghost function Total3(eqs: seq<Equation>): nat
    requires WellFormed(eqs)
  {
    if eqs == [] then 0
    else
      var e := eqs[|eqs| - 1];
      Total3(eqs[..|eqs| - 1]) + (if Solvable3(e) then e.result else 0)
  }

  /** find_calibration_result (2024/day7/day7.py:84-91). */
  method FindCalibrationResult(eqs: seq<Equation>) returns (total: nat)
    requires WellFormed(eqs)
    ensures total == Total2(eqs)
  {
    total := 0;
    for j := 0 to |eqs|
      invariant total == Total2(eqs[..j])
    {
      assert eqs[..j + 1][..j] == eqs[..j];
      var ok := EvalEquation(eqs[j]);
      if ok {
        total := total + eqs[j].result;
      }
    }
    assert eqs[..|eqs|] == eqs;
  }

  /** find_calibration_result_3ops (2024/day7/day7.py:94-101): None when some
      equation has a single number, as eval_equation_3ops then raises. */
  method FindCalibrationResult3Ops(eqs: seq<Equation>) returns (total: Option<nat>)
    requires WellFormed(eqs)
    ensures total.None? <==> exists j :: 0 <= j < |eqs| && |eqs[j].numbers| == 1
    ensures total.Some? ==> total.value == Total3(eqs)
  {
    var sum := 0;
    for j := 0 to |eqs|
      invariant sum == Total3(eqs[..j])
      invariant forall j' :: 0 <= j' < j ==> |eqs[j'].numbers| > 1
    {
      assert eqs[..j + 1][..j] == eqs[..j];
      var ok := EvalEquation3Ops(eqs[j]);
      if ok.None? {
        return None;
      }
      if ok.value {
        sum := sum + eqs[j].result;
      }
    }
    assert eqs[..|eqs|] == eqs;
    return Some(sum);
  }

  /** Part 2's total is never below part 1's. */
  lemma {:induction false} Total3AtLeastTotal2(eqs: seq<Equation>)
    requires WellFormed(eqs)
    ensures Total2(eqs) <= Total3(eqs)
  {
    if eqs != [] {
      var e := eqs[|eqs| - 1];
      Total3AtLeastTotal2(eqs[..|eqs| - 1]);
      if Solvable2(e) {
        Part1SolvesPart2(e);
      }
    }
  }
}
