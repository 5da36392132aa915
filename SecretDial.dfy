/** The safe dial of 2025/day1/day1.py: a dial numbered 0..99 starts at 50 and is
    turned left or right by a number of clicks, one rotation per input line. Part 1
    counts the rotations that end at 0, part 2 every click that lands on 0. */
module SecretDial {
  import opened Wrappers
  import opened Arith

  /** One input line: its first character and the integer after it. */
  datatype Rotation = Rotation(letter: char, ticks: int)

  const START: int := 50
  const SIZE: int := 100

  // ---------------------------------------------------------------------------
  // Part 1 (rotate_dial)

  /** One rotation of rotate_dial (2025/day1/day1.py:15-20): Python's % with a
      positive modulus agrees with Dafny's. Any other letter leaves the dial alone. */
  function Turn(d: int, r: Rotation): int {
    if r.letter == 'L' then (d - r.ticks) % SIZE
    else if r.letter == 'R' then (d + r.ticks) % SIZE
    else d
  }

  /** A left turn is undone by a right turn of the same number of clicks. */
  lemma {:induction false} TurnBack(d: int, n: int)
    requires 0 <= d < SIZE
    ensures Turn(Turn(d, Rotation('L', n)), Rotation('R', n)) == d
  {
    var a := (d - n) % SIZE;
    DivModUnique(d - n, SIZE, (d - n) / SIZE, a);
    DivModUnique(a + n, SIZE, -((d - n) / SIZE), d);
  }

  /** The dial after the given lines. */
  function Dial1(rs: seq<Rotation>): int {
    if rs == [] then START else Turn(Dial1(rs[..|rs| - 1]), rs[|rs| - 1])
  }

  /** The number of lines after which the dial reads 0. */
  function Password1(rs: seq<Rotation>): nat {
    if rs == [] then 0 else Password1(rs[..|rs| - 1]) + (if Dial1(rs) == 0 then 1 else 0)
  }

  /** The dial starts at 50 and never leaves 0..99. */
  lemma {:induction false} DialInRange(rs: seq<Rotation>)
    ensures 0 <= Dial1(rs) < SIZE
  {
    if rs != [] {
      DialInRange(rs[..|rs| - 1]);
    }
  }

  /** The password counts lines, so it never exceeds their number. */
  lemma {:induction false} Password1AtMostLines(rs: seq<Rotation>)
    ensures Password1(rs) <= |rs|
  {
    if rs != [] {
      Password1AtMostLines(rs[..|rs| - 1]);
    }
  }

  /** rotate_dial (2025/day1/day1.py:9-25) on the parsed lines. */
  method RotateDial(rs: seq<Rotation>) returns (password: nat)
    ensures password == Password1(rs)
  {
    var dial := START;
    password := 0;
    for j := 0 to |rs|
      invariant dial == Dial1(rs[..j])
      invariant password == Password1(rs[..j])
    {
      assert rs[..j + 1][..j] == rs[..j];
      var r := rs[j];
      if r.letter == 'L' {
        dial := (dial - r.ticks) % SIZE;
      } else if r.letter == 'R' {
        dial := (dial + r.ticks) % SIZE;
      }
      if dial == 0 {
        password := password + 1;
      }
    }
    assert rs[..|rs|] == rs;
  }

  // ---------------------------------------------------------------------------
  // Part 2 (rotate_dial2)

  /** The number of the first n single clicks of size pace, from d, that land on 0. */
  function Clicks(d: int, pace: int, n: int): nat
    decreases n
  {
    if n <= 0 then 0 else Clicks(d, pace, n - 1) + (if (d + n * pace) % SIZE == 0 then 1 else 0)
  }

  /** Turning right n clicks from d in 0..99 passes 0 once per completed hundred. */
  lemma {:induction false} ClicksRight(d: int, n: nat)
    requires 0 <= d < SIZE
    ensures Clicks(d, 1, n) == (d + n) / SIZE
  {
    if n > 0 {
      ClicksRight(d, n - 1);
    }
  }

  /** Turning left n clicks from d in 0..99: from 0 once per hundred, otherwise first
      after d clicks and then once per hundred. */
  lemma {:induction false} ClicksLeft(d: int, n: nat)
    requires 0 <= d < SIZE
    ensures Clicks(d, -1, n) == if d == 0 then n / SIZE else if n >= d then (n - d) / SIZE + 1 else 0
  {
    if n > 0 {
      ClicksLeft(d, n - 1);
    }
  }

  /** The state of rotate_dial2 between lines. The letter of a line sets pace; a line
      with another letter keeps the pace of the line before. */
  datatype State2 = State2(dial: int, pace: Option<int>, password: nat)

  /** The state after the given lines, or None when a line clicks with no pace set:
      Python then reads the unbound local `pace` and raises. */
  function Run2(rs: seq<Rotation>): Option<State2> {
    if rs == [] then Some(State2(START, None, 0))
    else
      var prev := Run2(rs[..|rs| - 1]);
      var r := rs[|rs| - 1];
      if prev.None? then None
      else
        var s := prev.value;
        var pace := if r.letter == 'L' then Some(-1) else if r.letter == 'R' then Some(1) else s.pace;
        if r.ticks <= 0 then Some(State2(s.dial, pace, s.password))
        else if pace.None? then None
        else Some(State2((s.dial + r.ticks * pace.value) % SIZE, pace,
                         s.password + Clicks(s.dial, pace.value, r.ticks)))
  }

  /** Once rotate_dial2 has raised, later lines do not matter. */
  lemma {:induction false} FailureSticks(rs: seq<Rotation>, j: int)
    requires 0 <= j <= |rs| && Run2(rs[..j]).None?
    ensures Run2(rs).None?
    decreases |rs| - j
  {
    if j < |rs| {
      assert rs[..j + 1][..j] == rs[..j];
      FailureSticks(rs, j + 1);
    } else {
      assert rs[..j] == rs;
    }
  }

  /** The clicks of one line (2025/day1/day1.py:40-43). */
  method Click(dial0: int, pace: int, ticks: int, password0: nat) returns (dial: int, password: nat)
    ensures dial == if ticks <= 0 then dial0 else (dial0 + ticks * pace) % SIZE
    ensures password == password0 + Clicks(dial0, pace, ticks)
  {
    dial, password := dial0, password0;
    var n := 0;
    while n < ticks
      invariant 0 <= n && (n <= ticks || n == 0)
      invariant dial == if n == 0 then dial0 else (dial0 + n * pace) % SIZE
      invariant password == password0 + Clicks(dial0, pace, n)
    {
      assert (dial + pace) % SIZE == (dial0 + (n + 1) * pace) % SIZE by {
        assert dial0 + (n + 1) * pace == dial0 + n * pace + pace;
      }
      dial := (dial + pace) % SIZE;
      if dial == 0 {
        password := password + 1;
      }
      n := n + 1;
    }
    assert ticks > 0 ==> n == ticks;
  }

  /** rotate_dial2 (2025/day1/day1.py:27-45) on the parsed lines. */
  method RotateDial2(rs: seq<Rotation>) returns (password: Option<nat>)
    ensures password.None? <==> Run2(rs).None?
    ensures password.Some? ==> password.value == Run2(rs).value.password
  {
    var dial := START;
    var pace: Option<int> := None;
    var count := 0;
    for j := 0 to |rs|
      invariant Run2(rs[..j]) == Some(State2(dial, pace, count))
    {
      assert rs[..j + 1][..j] == rs[..j];
      var r := rs[j];
      if r.letter == 'L' {
        pace := Some(-1);
      } else if r.letter == 'R' {
        pace := Some(1);
      }
      if r.ticks > 0 {
        if pace.None? {
          assert Run2(rs[..j + 1]).None?;
          FailureSticks(rs, j + 1);
          return None;
        }
        dial, count := Click(dial, pace.value, r.ticks, count);
      }
    }
    assert rs[..|rs|] == rs;
    return Some(count);
  }

  // ---------------------------------------------------------------------------
  // Relating the parts

  /** Lines that turn left or right by at least one click. */
  predicate Proper(rs: seq<Rotation>) {
    forall j :: 0 <= j < |rs| ==> rs[j].letter in {'L', 'R'} && rs[j].ticks >= 1
  }

  /** On proper lines both parts see the same dial, part 2 never fails, and every
      line that ends at 0 is among part 2's clicks, so part 2's password is at least
      part 1's. */
  lemma {:induction false} Part2CountsPart1(rs: seq<Rotation>)
    requires Proper(rs)
    ensures Run2(rs).Some? && Run2(rs).value.dial == Dial1(rs)
    ensures Run2(rs).value.password >= Password1(rs)
  {
    if rs != [] {
      var p := rs[..|rs| - 1];
      var r := rs[|rs| - 1];
      assert Proper(p);
      Part2CountsPart1(p);
      var s := Run2(p).value;
      var pace := if r.letter == 'L' then -1 else 1;
      assert r.ticks * pace == if r.letter == 'L' then -r.ticks else r.ticks;
      assert Clicks(s.dial, pace, r.ticks) >= (if Dial1(rs) == 0 then 1 else 0);
    }
  }

  /** A rotation of zero clicks that leaves the dial at 0 counts in part 1 but not in
      part 2: for "L50" then "R0" part 1 gives 2 and part 2 gives 1. */
  lemma ZeroTickLine()
    ensures var rs := [Rotation('L', 50), Rotation('R', 0)];
      Password1(rs) == 2 && Run2(rs).Some? && Run2(rs).value.password == 1
  {
    var rs := [Rotation('L', 50), Rotation('R', 0)];
    var first := [Rotation('L', 50)];
    assert rs[..1] == first && first[..0] == [];
    assert Dial1(first) == 0;
    assert Dial1(rs) == 0;
    assert Password1(first) == 1;
    assert Clicks(50, -1, 50) == 1 by {
      ClicksLeft(50, 50);
    }
    assert Run2(first) == Some(State2(0, Some(-1), 1));
  }
}
