/** The HASH algorithm of 2023/day15/day15.py: a rolling hash of the characters of
    an initialisation step, taken modulo 256 after every character. */
module LensHash {

  /** One step of the rolling hash: add the character code, multiply by 17, keep the
      remainder modulo 256. */
  function HashStep(h: int, c: char): int {
    ((h + c as int) * 17) % 256
  }

  /** The hash of a string, read left to right from 0. */
  function Hash(s: string): int {
    if s == [] then 0 else HashStep(Hash(s[..|s| - 1]), s[|s| - 1])
  }

  /** The same polynomial without any intermediate reduction:
      the sum of ord(s[i]) * 17^(|s| - i). */
  function Poly(s: string): int {
    if s == [] then 0 else (Poly(s[..|s| - 1]) + s[|s| - 1] as int) * 17
  }

  /** str2hash (2023/day15/day15.py:10-15). */
  method StrToHash(s: string) returns (h: int)
    ensures h == Hash(s)
    ensures 0 <= h < 256
  {
    h := 0;
    var i := 0;
    while i < |s|
      invariant 0 <= i <= |s|
      invariant h == Hash(s[..i])
    {
      assert s[..i + 1][..i] == s[..i];
      h := ((h + s[i] as int) * 17) % 256;
      i := i + 1;
    }
    assert s[..i] == s;
    HashRange(s);
  }

  lemma {:induction false} HashRange(s: string)
    ensures 0 <= Hash(s) < 256
  {
  }

  lemma {:induction false} HashEmpty()
    ensures Hash([]) == 0
  {
  }

  /** Extending the string by one character takes one more step from the old hash. */
  lemma {:induction false} HashAppend(s: string, c: char)
    ensures Hash(s + [c]) == ((Hash(s) + c as int) * 17) % 256
  {
    assert (s + [c])[..|s|] == s;
  }

  lemma {:induction false} ModAddMultiple(a: int, j: int)
    ensures (a + j * 256) % 256 == a % 256
  {
    var q, r := a / 256, a % 256;
    assert a + j * 256 == (q + j) * 256 + r;
  }

  /** Reducing the running value before the next step does not change the result. */
  lemma {:induction false} StepReduces(x: int, c: int)
    ensures ((x % 256 + c) * 17) % 256 == ((x + c) * 17) % 256
  {
    var q := x / 256;
    assert (x + c) * 17 == (x % 256 + c) * 17 + (q * 17) * 256;
    ModAddMultiple((x % 256 + c) * 17, q * 17);
  }

  /** The hash is the unreduced polynomial modulo 256. */
  lemma {:induction false} HashIsPolyMod(s: string)
    ensures Hash(s) == Poly(s) % 256
  {
    if s != [] {
      var p := s[..|s| - 1];
      HashIsPolyMod(p);
      StepReduces(Poly(p), s[|s| - 1] as int);
    }
  }

  /** The sum of the hashes of the steps. */
  function SumHashes(steps: seq<string>): int {
    if steps == [] then 0 else SumHashes(steps[..|steps| - 1]) + Hash(steps[|steps| - 1])
  }

  lemma {:induction false} SumHashesBound(steps: seq<string>)
    ensures 0 <= SumHashes(steps) <= 255 * |steps|
  {
    if steps != [] {
      SumHashesBound(steps[..|steps| - 1]);
      HashRange(steps[|steps| - 1]);
    }
  }

  /** find_sum (2023/day15/day15.py:25-31). */
  method FindSum(steps: seq<string>) returns (result: int)
    ensures result == SumHashes(steps)
    ensures 0 <= result <= 255 * |steps|
  {
    result := 0;
    var i := 0;
    while i < |steps|
      invariant 0 <= i <= |steps|
      invariant result == SumHashes(steps[..i])
    {
      var h := StrToHash(steps[i]);
      assert steps[..i + 1][..i] == steps[..i];
      result := result + h;
      i := i + 1;
    }
    assert steps[..i] == steps;
    SumHashesBound(steps);
  }
}
