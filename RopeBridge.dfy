/** Rope knots of 2022/day9/day9.py: the head moves one step per command letter and
    the tail follows it. A position is a two-element list [x, y] updated in place. */
module RopeBridge {

  function Abs(v: int): int {
    if v < 0 then -v else v
  }

  /** Two knots touch when they are at most one step apart on each axis. */
  predicate Touching(hx: int, hy: int, tx: int, ty: int) {
    Abs(hx - tx) <= 1 && Abs(hy - ty) <= 1
  }

  /** Python's `v >> 1`: halving rounded towards minus infinity (Dafny's `/` agrees
      for a positive divisor). */
  function HalfFloor(v: int): int {
    v / 2
  }

  /** Where move_head (2022/day9/day9.py:26-36) puts the head: the first letter of the
      command picks the axis and the sign; any other command leaves it in place. */
  function HeadStep(command: string, x: int, y: int): (int, int) {
    if |command| > 0 && command[0] == 'R' then (x + 1, y)
    else if |command| > 0 && command[0] == 'D' then (x, y - 1)
    else if |command| > 0 && command[0] == 'U' then (x, y + 1)
    else if |command| > 0 && command[0] == 'L' then (x - 1, y)
    else (x, y)
  }

  /** Where move_tail (2022/day9/day9.py:39-53) puts the tail. Both tests read the
      deltas taken before either update. */
  function TailStep(hx: int, hy: int, tx: int, ty: int): (int, int) {
    var dx := hx - tx;
    var dy := hy - ty;
    var x1 := if dx == 2 || dx == -2 then tx + HalfFloor(dx) else tx;
    var y1 := if (dx == 2 || dx == -2) && (dy == 1 || dy == -1) then ty + dy else ty;
    var y2 := if dy == 2 || dy == -2 then y1 + HalfFloor(dy) else y1;
    var x2 := if (dy == 2 || dy == -2) && (dx == 1 || dx == -1) then x1 + dx else x1;
    (x2, y2)
  }

  /** move_head: mutates head and returns the new position. */
  method MoveHead(command: string, head: array<int>) returns (x: int, y: int)
    requires head.Length == 2
    modifies head
    ensures (x, y) == HeadStep(command, old(head[0]), old(head[1]))
    ensures head[0] == x && head[1] == y
  {
    if |command| > 0 && command[0] == 'R' {
      head[0] := head[0] + 1;
    } else if |command| > 0 && command[0] == 'D' {
      head[1] := head[1] - 1;
    } else if |command| > 0 && command[0] == 'U' {
      head[1] := head[1] + 1;
    } else if |command| > 0 && command[0] == 'L' {
      head[0] := head[0] - 1;
    }
    x, y := head[0], head[1];
  }

  /** move_tail: mutates tail and returns the new position. */
  method MoveTail(head: array<int>, tail: array<int>) returns (x: int, y: int)
    requires head.Length == 2 && tail.Length == 2 && head != tail
    modifies tail
    ensures (x, y) == TailStep(head[0], head[1], old(tail[0]), old(tail[1]))
    ensures tail[0] == x && tail[1] == y
  {
    var dx := head[0] - tail[0];
    var dy := head[1] - tail[1];
    if dx == 2 || dx == -2 {
      tail[0] := tail[0] + HalfFloor(dx);
      if dy == 1 || dy == -1 {
        tail[1] := tail[1] + dy;
      }
    }
    if dy == 2 || dy == -2 {
      tail[1] := tail[1] + HalfFloor(dy);
      if dx == 1 || dx == -1 {
        tail[0] := tail[0] + dx;
      }
    }
    x, y := tail[0], tail[1];
  }

  /** R, L, U and D move exactly one coordinate by one; other commands move nothing. */
  lemma {:induction false} HeadStepIsUnit(command: string, x: int, y: int)
    ensures var (x', y') := HeadStep(command, x, y);
      if |command| > 0 && command[0] in {'R', 'L', 'U', 'D'} then
        (x' == x && Abs(y' - y) == 1) || (y' == y && Abs(x' - x) == 1)
      else x' == x && y' == y
  {
  }

  /** A tail that touches the head stays where it is. */
  lemma {:induction false} TouchingTailStays(hx: int, hy: int, tx: int, ty: int)
    requires Touching(hx, hy, tx, ty)
    ensures TailStep(hx, hy, tx, ty) == (tx, ty)
  {
  }

  /** A tail at most two steps away on each axis touches the head afterwards. */
  lemma {:induction false} TailCatchesUp(hx: int, hy: int, tx: int, ty: int)
    requires Abs(hx - tx) <= 2 && Abs(hy - ty) <= 2
    ensures var (x, y) := TailStep(hx, hy, tx, ty); Touching(hx, hy, x, y)
  {
  }

  /** The tail moves at most one step on each axis. */
  lemma {:induction false} TailStepIsSmall(hx: int, hy: int, tx: int, ty: int)
    ensures var (x, y) := TailStep(hx, hy, tx, ty); Abs(x - tx) <= 1 && Abs(y - ty) <= 1
  {
  }

  /** One head step from a touching position leaves the tail at most two steps away
      on each axis, so the rope stays connected step after step. */
  lemma {:induction false} RopeStaysConnected(command: string, hx: int, hy: int, tx: int, ty: int)
    requires Touching(hx, hy, tx, ty)
    ensures var (hx', hy') := HeadStep(command, hx, hy);
      var (tx', ty') := TailStep(hx', hy', tx, ty);
      Touching(hx', hy', tx', ty')
  {
    var (hx', hy') := HeadStep(command, hx, hy);
    TailCatchesUp(hx', hy', tx, ty);
  }
}
