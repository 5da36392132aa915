/** Balanced base-5 ("SNAFU") numerals of day25/day25.py. A numeral is a string over
    2, 1, 0, '-' (minus one) and '=' (minus two), most significant digit first. */
module Snafu {
  import opened Wrappers
  import opened Arith

  predicate IsSnafuDigit(c: char) {
    c == '0' || c == '1' || c == '2' || c == '-' || c == '='
  }

  predicate IsSnafu(s: string) {
    forall i :: 0 <= i < |s| ==> IsSnafuDigit(s[i])
  }

  function DigitValue(c: char): (d: int)
    requires IsSnafuDigit(c)
    ensures -2 <= d <= 2
  {
    if c == '0' then 0 else if c == '1' then 1 else if c == '2' then 2
    else if c == '-' then -1 else -2
  }

  function DigitChar(d: int): char
    requires -2 <= d <= 2
  {
    if d == 0 then '0' else if d == 1 then '1' else if d == 2 then '2'
    else if d == -1 then '-' else '='
  }

  /** The digit values of a numeral, in order. */
  function Digits(s: string): (d: seq<int>)
    requires IsSnafu(s)
    ensures |d| == |s|
    ensures forall i :: 0 <= i < |s| ==> d[i] == DigitValue(s[i])
  {
    if s == [] then [] else Digits(s[..|s| - 1]) + [DigitValue(s[|s| - 1])]
  }

  /** The numeral spelled by a sequence of balanced digits. */
  function Chars(d: seq<int>): (s: string)
    requires forall i :: 0 <= i < |d| ==> -2 <= d[i] <= 2
    ensures |s| == |d| && IsSnafu(s)
    ensures forall i :: 0 <= i < |d| ==> s[i] == DigitChar(d[i])
  {
    if d == [] then [] else Chars(d[..|d| - 1]) + [DigitChar(d[|d| - 1])]
  }

  function Pow5(n: nat): (p: nat)
    ensures p > 0
  {
    if n == 0 then 1 else 5 * Pow5(n - 1)
  }

  /** Positional value in base 5 of a digit sequence, most significant first; digits
      may lie outside 0..4. */
  function Value(d: seq<int>): int {
    if d == [] then 0 else Value(d[..|d| - 1]) * 5 + d[|d| - 1]
  }

  /** What a SNAFU numeral denotes. */
  function SnafuValue(s: string): int
    requires IsSnafu(s)
  {
    Value(Digits(s))
  }

  lemma {:induction false} DigitCharValue(d: int)
    requires -2 <= d <= 2
    ensures IsSnafuDigit(DigitChar(d)) && DigitValue(DigitChar(d)) == d
  {
  }

  lemma {:induction false} DigitsOfChars(d: seq<int>)
    requires forall i :: 0 <= i < |d| ==> -2 <= d[i] <= 2
    ensures Digits(Chars(d)) == d
  {
    var s := Chars(d);
    forall i | 0 <= i < |d| ensures Digits(s)[i] == d[i] {
      DigitCharValue(d[i]);
    }
  }

  lemma {:induction false} ValueConcat(a: seq<int>, b: seq<int>)
    ensures Value(a + b) == Value(a) * Pow5(|b|) + Value(b)
  {
    if b == [] {
      assert a + b == a;
    } else {
      var b' := b[..|b| - 1];
      assert (a + b)[..|a + b| - 1] == a + b';
      ValueConcat(a, b');
      calc {
        Value(a + b);
        Value(a + b') * 5 + b[|b| - 1];
        (Value(a) * Pow5(|b'|) + Value(b')) * 5 + b[|b| - 1];
        { assert (Value(a) * Pow5(|b'|)) * 5 == Value(a) * (5 * Pow5(|b'|)); }
        Value(a) * Pow5(|b|) + Value(b);
      }
    }
  }

  /** Moving k units from position x (weight 5^m) to position x - 1 (weight 5^(m+1))
      leaves the value unchanged: the step both the borrow and the carry loop take. */
  lemma {:induction false} ValueShift(s: seq<int>, x: int, k: int)
    requires 0 < x < |s|
    ensures Value(s[x - 1 := s[x - 1] + k][x := s[x] - 5 * k]) == Value(s)
  {
    var t := s[x - 1 := s[x - 1] + k][x := s[x] - 5 * k];
    var a, b := s[..x - 1], s[x + 1..];
    assert s == (a + [s[x - 1], s[x]]) + b;
    assert t == (a + [s[x - 1] + k, s[x] - 5 * k]) + b;
    ValueConcat(a + [s[x - 1], s[x]], b);
    ValueConcat(a + [s[x - 1] + k, s[x] - 5 * k], b);
    ValueConcat(a, [s[x - 1], s[x]]);
    ValueConcat(a, [s[x - 1] + k, s[x] - 5 * k]);
    assert [s[x - 1], s[x]][..1] == [s[x - 1]];
    assert [s[x - 1] + k, s[x] - 5 * k][..1] == [s[x - 1] + k];
  }

  /** Digits in 0..4 spell a value in [0, 5^n). */
  lemma {:induction false} ValueRange(d: seq<int>)
    requires forall i :: 0 <= i < |d| ==> 0 <= d[i] <= 4
    ensures 0 <= Value(d) < Pow5(|d|)
  {
    if d != [] {
      ValueRange(d[..|d| - 1]);
    }
  }

  lemma {:induction false} ValueFirst(d: seq<int>)
    requires |d| > 0
    ensures Value(d) == d[0] * Pow5(|d| - 1) + Value(d[1..])
  {
    assert d == [d[0]] + d[1..];
    ValueConcat([d[0]], d[1..]);
    assert [d[0]][..0] == [];
  }

  /** Python's int(t, 5) applied to the decimal spelling of digits whose first entry
      may be negative and whose other entries are in 0..4: a leading minus sign
      negates the whole remaining numeral. */
  function ParseBase5(d: seq<int>): int
    requires |d| > 0
  {
    if d[0] < 0 then -((-d[0]) * Pow5(|d| - 1) + Value(d[1..])) else Value(d)
  }

  /** The value snafu2int computes: the borrow loop rewrites the digits after the
      first as Value(tail) mod 5^(n-1) and lowers the first digit by one when the tail
      is negative; the result is then parsed as a signed base-5 string. */
  function BorrowedValue(s: string): int
    requires |s| > 0 && IsSnafu(s)
  {
    var d := Digits(s);
    var p := Pow5(|d| - 1);
    var tail := Value(d[1..]);
    ParseBase5([d[0] + tail / p] + BorrowedTail(tail % p, |d| - 1))
  }

  /** The n base-5 digits (0..4) of 0 <= v < 5^n. */
  function BorrowedTail(v: int, n: nat): (t: seq<int>)
    requires 0 <= v < Pow5(n)
    ensures |t| == n && Value(t) == v
    ensures forall i :: 0 <= i < n ==> 0 <= t[i] <= 4
  {
    if n == 0 then [] else
      var t := BorrowedTail(v / 5, n - 1) + [v % 5];
      assert t[..|t| - 1] == BorrowedTail(v / 5, n - 1);
      t
  }

  /** Base-5 digits in 0..4 are determined by their value. */
  lemma {:induction false} Base5Unique(a: seq<int>, b: seq<int>)
    requires |a| == |b|
    requires forall i :: 0 <= i < |a| ==> 0 <= a[i] <= 4
    requires forall i :: 0 <= i < |b| ==> 0 <= b[i] <= 4
    requires Value(a) == Value(b)
    ensures a == b
  {
    if a != [] {
      var a', b' := a[..|a| - 1], b[..|b| - 1];
      ValueRange(a');
      ValueRange(b');
      assert Value(a) == Value(a') * 5 + a[|a| - 1];
      assert Value(a') == Value(a) / 5 && Value(b') == Value(b) / 5;
      Base5Unique(a', b');
      assert a == a' + [a[|a| - 1]] && b == b' + [b[|b| - 1]];
    }
  }

  /** snafu2int (day25/day25.py:19-28): map the characters to digits, borrow from the
      left neighbour while a digit (other than the first) is negative, and parse the
      result as a base-5 integer. */
  method SnafuToInt(snafu: string) returns (n: int)
    requires |snafu| > 0 && IsSnafu(snafu)
    ensures n == BorrowedValue(snafu)
    ensures (DigitValue(snafu[0]) > 0 || |snafu| == 1) ==> n == SnafuValue(snafu)
  {
    var digits := Digits(snafu);
    var a := digits;
    var x := |a| - 1;
    while x > 0
      invariant 0 <= x < |a| == |digits|
      invariant a[..x] == digits[..x]
      invariant a[x] == digits[x] || a[x] == digits[x] - 1
      invariant forall j :: x < j < |a| ==> 0 <= a[j] <= 4
      invariant Value(a) == Value(digits)
    {
      if a[x] < 0 {
        ValueShift(a, x, -1);
        a := a[x - 1 := a[x - 1] - 1][x := a[x] + 5];
      }
      x := x - 1;
    }
    n := ParseBase5(a);
    BorrowedMatches(snafu, a);
  }

  /** The digits the borrow loop leaves behind are those BorrowedValue describes. */
  lemma {:induction false} BorrowedMatches(snafu: string, a: seq<int>)
    requires |snafu| > 0 && IsSnafu(snafu)
    requires |a| == |snafu|
    requires a[0] == Digits(snafu)[0] || a[0] == Digits(snafu)[0] - 1
    requires forall j :: 0 < j < |a| ==> 0 <= a[j] <= 4
    requires Value(a) == Value(Digits(snafu))
    ensures ParseBase5(a) == BorrowedValue(snafu)
    ensures (DigitValue(snafu[0]) > 0 || |snafu| == 1) ==> ParseBase5(a) == SnafuValue(snafu)
  {
    var d := Digits(snafu);
    BorrowedParse(snafu, a);
    assert SnafuValue(snafu) == Value(d);
    if DigitValue(snafu[0]) > 0 {
      assert a[0] >= 0;
    } else if |a| == 1 {
      SingleDigit(a);
      SingleDigit(d);
    }
  }

  /** The first half of BorrowedMatches: the digits are those BorrowedValue parses. */
  lemma {:induction false} BorrowedParse(snafu: string, a: seq<int>)
    requires |snafu| > 0 && IsSnafu(snafu)
    requires |a| == |snafu|
    requires forall j :: 0 < j < |a| ==> 0 <= a[j] <= 4
    requires Value(a) == Value(Digits(snafu))
    ensures ParseBase5(a) == BorrowedValue(snafu)
  {
    var d := Digits(snafu);
    var p, tail := Pow5(|d| - 1), Value(d[1..]);
    assert BorrowedValue(snafu) == ParseBase5([d[0] + tail / p] + BorrowedTail(tail % p, |d| - 1));
    BorrowedDigits(a, d);
    ParseBase5Split(a);
  }

  lemma {:induction false} ParseBase5Split(a: seq<int>)
    requires |a| > 0
    ensures ParseBase5(a) == ParseBase5([a[0]] + a[1..])
  {
    assert a == [a[0]] + a[1..];
  }

  lemma {:induction false} SingleDigit(a: seq<int>)
    requires |a| == 1
    ensures Value(a) == a[0] && ParseBase5(a) == a[0]
  {
    assert a[..0] == [] && a[1..] == [];
  }

  /** Equal-length digit sequences of equal value whose tail is plain base 5: the
      tail is the remainder of the other tail by the first weight, and the first
      digit absorbs the quotient. */
  lemma {:induction false} BorrowedDigits(a: seq<int>, d: seq<int>)
    requires |a| == |d| > 0
    requires forall j :: 0 < j < |a| ==> 0 <= a[j] <= 4
    requires Value(a) == Value(d)
    ensures a[0] == d[0] + Value(d[1..]) / Pow5(|d| - 1)
    ensures a[1..] == BorrowedTail(Value(d[1..]) % Pow5(|d| - 1), |d| - 1)
  {
    BorrowedQuotient(a, d);
    TailIsBorrowed(a[1..]);
  }

  /** Digits in 0..4 are the plain base-5 spelling of their value. */
  lemma {:induction false} TailIsBorrowed(t: seq<int>)
    requires forall j :: 0 <= j < |t| ==> 0 <= t[j] <= 4
    ensures 0 <= Value(t) < Pow5(|t|) && t == BorrowedTail(Value(t), |t|)
  {
    ValueRange(t);
    Base5Unique(t, BorrowedTail(Value(t), |t|));
  }

  /** The quotient and remainder of the other tail by the first weight. */
  lemma {:induction false} BorrowedQuotient(a: seq<int>, d: seq<int>)
    requires |a| == |d| > 0
    requires forall j :: 0 < j < |a| ==> 0 <= a[j] <= 4
    requires Value(a) == Value(d)
    ensures Value(d[1..]) / Pow5(|d| - 1) == a[0] - d[0]
    ensures Value(d[1..]) % Pow5(|d| - 1) == Value(a[1..])
  {
    FirstDigitDifference(a, d);
    ValueRange(a[1..]);
    DivModUnique(Value(d[1..]), Pow5(|d| - 1), a[0] - d[0], Value(a[1..]));
  }

  lemma {:induction false} PrependDigit(n: int, digits: seq<int>)
    requires n >= 0
    ensures n * Pow5(|digits|) + Value(digits)
         == (n / 5) * Pow5(|[n % 5] + digits|) + Value([n % 5] + digits)
  {
    var q, m, p := n / 5, n % 5, Pow5(|digits|);
    ValueConcat([m], digits);
    assert [m][..0] == [];
    assert Value([m] + digits) == m * p + Value(digits);
    assert Pow5(|[m] + digits|) == 5 * p;
    calc {
      q * (5 * p) + (m * p + Value(digits));
      (5 * q + m) * p + Value(digits);
      n * p + Value(digits);
    }
  }

  lemma {:induction false} PrependOne(d: seq<int>)
    requires |d| > 0
    ensures Value([1] + d[0 := d[0] - 5]) == Value(d)
  {
    var e := d[0 := d[0] - 5];
    var p := Pow5(|d| - 1);
    ValueConcat([1], e);
    assert [1][..0] == [];
    ValueFirst(e);
    ValueFirst(d);
    assert e[1..] == d[1..];
    assert Pow5(|e|) == 5 * p;
    calc {
      Value([1] + e);
      5 * p + ((d[0] - 5) * p + Value(d[1..]));
      d[0] * p + Value(d[1..]);
    }
  }

  /** The first loop of int2snafu (day25/day25.py:35-37): the base-5 digits of n,
      most significant first, with no leading zero. */
  method Base5Digits(n0: int) returns (digits: seq<int>)
    requires n0 > 0
    ensures |digits| > 0 && digits[0] > 0
    ensures forall i :: 0 <= i < |digits| ==> 0 <= digits[i] <= 4
    ensures Value(digits) == n0
  {
    var n := n0;
    digits := [];
    while n > 0
      invariant n >= 0
      invariant forall i :: 0 <= i < |digits| ==> 0 <= digits[i] <= 4
      invariant n0 == n * Pow5(|digits|) + Value(digits)
      invariant n == 0 ==> digits != [] && digits[0] > 0
    {
      PrependDigit(n, digits);
      n, digits := n / 5, [n % 5] + digits;
    }
  }

  /** The second loop of int2snafu (day25/day25.py:39-46): from the right, every digit
      above 2 gives 5 back and carries one to its left neighbour; a carry out of the
      leftmost digit becomes a new leading 1. The value does not change. */
  method BalanceDigits(d: seq<int>) returns (digits: seq<int>)
    requires |d| > 0 && d[0] > 0
    requires forall i :: 0 <= i < |d| ==> 0 <= d[i] <= 4
    ensures |digits| > 0 && (digits[0] == 1 || digits[0] == 2)
    ensures forall i :: 0 <= i < |digits| ==> -2 <= digits[i] <= 2
    ensures Value(digits) == Value(d)
  {
    digits := d;
    var x := |digits| - 1;
    while x > 0
      invariant 0 <= x < |digits|
      invariant Value(digits) == Value(d)
      invariant 1 <= digits[0]
      invariant forall j :: 0 <= j < x ==> 0 <= digits[j] <= 4
      invariant 0 <= digits[x] <= 5
      invariant forall j :: x < j < |digits| ==> -2 <= digits[j] <= 2
    {
      if digits[x] > 2 {
        ValueShift(digits, x, 1);
        digits := digits[x - 1 := digits[x - 1] + 1][x := digits[x] - 5];
      }
      x := x - 1;
    }
    if digits[0] > 2 {
      PrependOne(digits);
      digits := [1] + digits[0 := digits[0] - 5];
    }
  }

  /** int2snafu (day25/day25.py:31-48): write nb in base 5, then replace every digit
      above 2 by that digit minus 5 and carry one into its left neighbour. The source
      indexes an empty list, and fails, when nb <= 0; that failure is None here. */
  method IntToSnafu(nb: int) returns (r: Option<string>)
    ensures nb <= 0 <==> r.None?
    ensures r.Some? ==> |r.value| > 0 && IsSnafu(r.value) && SnafuValue(r.value) == nb
    ensures r.Some? ==> r.value[0] == '1' || r.value[0] == '2'
  {
    if nb <= 0 {
      return None;
    }
    var base5 := Base5Digits(nb);
    var digits := BalanceDigits(base5);
    var s := Chars(digits);
    DigitsOfChars(digits);
    r := Some(s);
  }

  /** day25_1 (day25/day25.py:51-53): the SNAFU spelling of the sum of what snafu2int
      reads from each numeral. An empty line makes `int("", 5)` raise, so every
      numeral is non-empty; int2snafu fails on a sum that is not positive. */
  method SumOfNumerals(snafus: seq<string>) returns (r: Option<string>)
    requires forall i :: 0 <= i < |snafus| ==> |snafus[i]| > 0 && IsSnafu(snafus[i])
    ensures r.Some? <==> SumRead(snafus) > 0
    ensures r.Some? ==> IsSnafu(r.value) && SnafuValue(r.value) == SumRead(snafus)
  {
    var total := 0;
    var i := 0;
    while i < |snafus|
      invariant 0 <= i <= |snafus|
      invariant total == SumRead(snafus[..i])
    {
      var v := SnafuToInt(snafus[i]);
      assert snafus[..i + 1] == snafus[..i] + [snafus[i]];
      SumReadAppend(snafus[..i], snafus[i]);
      total := total + v;
      i := i + 1;
    }
    assert snafus[..i] == snafus;
    r := IntToSnafu(total);
  }

  /** The sum of snafu2int over the numerals. */
  function SumRead(snafus: seq<string>): int
    requires forall i :: 0 <= i < |snafus| ==> |snafus[i]| > 0 && IsSnafu(snafus[i])
  {
    if snafus == [] then 0 else SumRead(snafus[..|snafus| - 1]) + BorrowedValue(snafus[|snafus| - 1])
  }

  /** The sum of the values the numerals denote. */
  function SumValues(snafus: seq<string>): int
    requires forall i :: 0 <= i < |snafus| ==> IsSnafu(snafus[i])
  {
    if snafus == [] then 0 else SumValues(snafus[..|snafus| - 1]) + SnafuValue(snafus[|snafus| - 1])
  }

  lemma SumReadAppend(snafus: seq<string>, s: string)
    requires forall i :: 0 <= i < |snafus| ==> |snafus[i]| > 0 && IsSnafu(snafus[i])
    requires |s| > 0 && IsSnafu(s)
    ensures SumRead(snafus + [s]) == SumRead(snafus) + BorrowedValue(s)
  {
    assert (snafus + [s])[..|snafus|] == snafus;
  }

  /** When every numeral has one digit or a positive leading digit, as int2snafu
      writes them, day25_1 sums the values the numerals denote. */
  lemma {:induction false} SumReadIsSumValues(snafus: seq<string>)
    requires forall i :: 0 <= i < |snafus| ==>
      (|snafus[i]| > 0 && IsSnafu(snafus[i]) && (DigitValue(snafus[i][0]) > 0 || |snafus[i]| == 1))
    ensures SumRead(snafus) == SumValues(snafus)
    decreases |snafus|
  {
    if snafus != [] {
      var n := |snafus| - 1;
      SumReadIsSumValues(snafus[..n]);
      BorrowedIsValue(snafus[n]);
    }
  }

  /** snafu2int reads a numeral with one digit or a positive leading digit as the
      number it denotes. */
  lemma BorrowedIsValue(s: string)
    requires |s| > 0 && IsSnafu(s) && (DigitValue(s[0]) > 0 || |s| == 1)
    ensures BorrowedValue(s) == SnafuValue(s)
  {
    if DigitValue(s[0]) > 0 {
      SnafuRoundTrip(s);
    } else {
      var d := Digits(s);
      SingleDigit(d);
      assert d[1..] == [];
      SingleDigit([d[0]]);
    }
  }

  /** With a negative leading digit the borrow makes snafu2int read another number:
      "-1" denotes -4, but the borrowed digits spell "-11" in base 5, which is -6. */
  lemma ReadNegativeLead()
    ensures BorrowedValue("-1") == -6 && SnafuValue("-1") == -4
  {
    var d := Digits("-1");
    assert d == [-1, 1];
    assert d[1..] == [1];
    assert Value([1]) == 1 by { SingleDigit([1]); }
    assert BorrowedTail(1, 1) == [1];
    assert Value([-1, 1]) == -4 by { assert [-1, 1][..1] == [-1]; SingleDigit([-1]); }
  }

  /** A numeral whose leading digit is 1 or 2 is read back by snafu2int as the
      number it denotes; with IntToSnafu's contract this gives
      snafu2int(int2snafu(n)) == n for every n > 0. */
  lemma {:induction false} SnafuRoundTrip(s: string)
    requires |s| > 0 && IsSnafu(s)
    requires s[0] == '1' || s[0] == '2'
    ensures BorrowedValue(s) == SnafuValue(s)
  {
    var d := Digits(s);
    var p := Pow5(|d| - 1);
    var tail := Value(d[1..]);
    var a := [d[0] + tail / p] + BorrowedTail(tail % p, |d| - 1);
    assert BorrowedValue(s) == ParseBase5(a);
    assert tail / p >= -1 by {
      TailQuotient(d[1..]);
    }
    RegroupFirst(d);
  }

  /** Two numerals of equal length and value differ in their first digit by what
      their tails differ by, in units of the first digit's weight. */
  lemma {:induction false} FirstDigitDifference(a: seq<int>, d: seq<int>)
    requires |a| == |d| > 0
    requires Value(a) == Value(d)
    ensures Value(d[1..]) == (a[0] - d[0]) * Pow5(|d| - 1) + Value(a[1..])
  {
    ValueFirst(a);
    ValueFirst(d);
    SplitDifference(a[0], d[0], Pow5(|d| - 1), Value(a[1..]), Value(d[1..]));
  }

  /** Moving the tail's whole multiples of the first weight into the first digit and
      spelling the remainder in plain base 5 keeps the value. */
  lemma {:induction false} RegroupFirst(d: seq<int>)
    requires |d| > 0
    ensures Value([d[0] + Value(d[1..]) / Pow5(|d| - 1)]
                  + BorrowedTail(Value(d[1..]) % Pow5(|d| - 1), |d| - 1)) == Value(d)
  {
    var p, tail := Pow5(|d| - 1), Value(d[1..]);
    var t := BorrowedTail(tail % p, |d| - 1);
    ValueCons(d[0] + tail / p, t);
    ValueFirst(d);
    AddQuotient(d[0], tail, p);
  }

  lemma {:induction false} ValueCons(x: int, t: seq<int>)
    ensures Value([x] + t) == x * Pow5(|t|) + Value(t)
  {
    ValueConcat([x], t);
    assert [x][..0] == [];
  }

  /** A balanced tail is above minus its weight, so it borrows at most one. */
  lemma {:induction false} TailQuotient(t: seq<int>)
    requires forall i :: 0 <= i < |t| ==> -2 <= t[i] <= 2
    ensures Value(t) / Pow5(|t|) >= -1
  {
    var p, v := Pow5(|t|), Value(t);
    TailBound(t);
    var k := if v < 0 then -1 else 0;
    DivModUnique(v, p, k, if v < 0 then v + p else v);
  }

  /** A balanced tail of n digits lies strictly between -5^n/2 and 5^n/2. */
  lemma {:induction false} TailBound(d: seq<int>)
    requires forall i :: 0 <= i < |d| ==> -2 <= d[i] <= 2
    ensures -(Pow5(|d|) as int) < 2 * Value(d) < Pow5(|d|)
  {
    if d != [] {
      TailBound(d[..|d| - 1]);
    }
  }
}
