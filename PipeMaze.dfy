/** The pipe maze of 2023/day10/day10.py: a grid area[x][y] of pipe codes holds one
    loop through the start cell 'S'. find_loop follows connected pipes from the start
    until no unvisited connected neighbour is left; the farthest point of the loop is
    half its length, and the enclosed area comes from the shoelace formula. */
module PipeMaze {
  import opened Wrappers
  import opened Arith

  const PIPE_V: int := 10
  const PIPE_H: int := 11
  const PIPE_B_NE: int := 12
  const PIPE_B_NW: int := 13
  const PIPE_B_SW: int := 14
  const PIPE_B_SE: int := 15
  const NO_PIPE: int := 0
  const STARTING_POINT: int := 1

  type Coord = (int, int)

  /** The codes convert_to_pipe produces. */
  predicate IsPipeCode(v: int) {
    v in {PIPE_V, PIPE_H, PIPE_B_NE, PIPE_B_NW, PIPE_B_SW, PIPE_B_SE, NO_PIPE, STARTING_POINT}
  }

  /** PIPES_CONNECTIONS (2023/day10/day10.py:33-42): whether the pipe opens to the
      north, east, south and west, in that order. */
  function Connections(v: int): (c: seq<bool>)
    requires IsPipeCode(v)
    ensures |c| == 4
  {
    if v == PIPE_V then [true, false, true, false]
    else if v == PIPE_H then [false, true, false, true]
    else if v == PIPE_B_NE then [true, true, false, false]
    else if v == PIPE_B_NW then [true, false, false, true]
    else if v == PIPE_B_SW then [false, false, true, true]
    else if v == PIPE_B_SE then [false, true, true, false]
    else if v == NO_PIPE then [false, false, false, false]
    else [true, true, true, true]
  }

  predicate IsStraightPipe(v: int) {
    v in {PIPE_V, PIPE_H}
  }

  predicate IsCornerPipe(v: int) {
    v in {PIPE_B_NE, PIPE_B_NW, PIPE_B_SW, PIPE_B_SE}
  }

  /** A straight pipe opens to two opposite sides, a corner pipe to two sides at a
      right angle, and the start to all four. */
  lemma PipeShapes(v: int)
    requires IsPipeCode(v)
    ensures IsStraightPipe(v) ==> Connections(v)[0] == Connections(v)[2] && Connections(v)[1] == Connections(v)[3]
    ensures IsCornerPipe(v) ==> Connections(v)[0] != Connections(v)[2] && Connections(v)[1] != Connections(v)[3]
    ensures v == STARTING_POINT <==> forall d :: 0 <= d < 4 ==> Connections(v)[d]
  {
    var c := Connections(v);
    if forall d :: 0 <= d < 4 ==> c[d] {
      assert c[0] && c[1] && c[2] && c[3];
    }
  }

  /** area.shape: the first index runs over x, the second over y. */
  function SizeX(area: seq<seq<int>>): nat {
    |area|
  }

  function SizeY(area: seq<seq<int>>): nat {
    if area == [] then 0 else |area[0]|
  }

  /** A rectangular array of pipe codes, as parse_file builds it. */
  predicate ValidArea(area: seq<seq<int>>) {
    (forall x :: 0 <= x < |area| ==> |area[x]| == SizeY(area)) &&
    (forall x, y :: 0 <= x < |area| && 0 <= y < |area[x]| ==> IsPipeCode(area[x][y]))
  }

  predicate InBounds(area: seq<seq<int>>, c: Coord) {
    0 <= c.0 < SizeX(area) && 0 <= c.1 < SizeY(area)
  }

  function At(area: seq<seq<int>>, c: Coord): int
    requires ValidArea(area) && InBounds(area, c)
  {
    area[c.0][c.1]
  }

  /** The cell next to c in direction d (0 north, 1 east, 2 south, 3 west). */
  function Step(c: Coord, d: int): Coord {
    if d == 0 then (c.0, c.1 - 1)
    else if d == 1 then (c.0 + 1, c.1)
    else if d == 2 then (c.0, c.1 + 1)
    else (c.0 - 1, c.1)
  }

  function Abs(v: int): int {
    if v < 0 then -v else v
  }

  function Manhattan(a: Coord, b: Coord): int {
    Abs(a.0 - b.0) + Abs(a.1 - b.1)
  }

  /** neighbourhood (2023/day10/day10.py:60-72): the four neighbours of c, north, east,
      south and west, each None where it would leave the array. */
  function Neighbourhood(area: seq<seq<int>>, c: Coord): (r: seq<Option<Coord>>)
    ensures |r| == 4
    ensures forall d :: 0 <= d < 4 && r[d].Some? ==> r[d].value == Step(c, d) && Manhattan(c, r[d].value) == 1
    ensures InBounds(area, c) ==> forall d :: 0 <= d < 4 ==> (r[d].Some? <==> InBounds(area, Step(c, d)))
  {
    var (x, y) := c;
    [ if y > 0 then Some((x, y - 1)) else None,
      if x < SizeX(area) - 1 then Some((x + 1, y)) else None,
      if y < SizeY(area) - 1 then Some((x, y + 1)) else None,
      if x > 0 then Some((x - 1, y)) else None ]
  }

  /** Direction d is a way on from cur: the neighbour exists, is not visited yet, cur
      opens towards it and it opens back towards cur. */
  predicate Qualifies(area: seq<seq<int>>, visited: seq<Coord>, cur: Coord, d: int)
    requires ValidArea(area) && InBounds(area, cur) && 0 <= d < 4
  {
    var nh := Neighbourhood(area, cur)[d];
    nh.Some? && nh.value !in visited &&
    Connections(At(area, cur))[d] && Connections(At(area, nh.value))[(d + 2) % 4]
  }

  /** The if/elif chain of find_loop (2023/day10/day10.py:135-164) from direction d on. */
  function NextFrom(area: seq<seq<int>>, visited: seq<Coord>, cur: Coord, d: nat): (r: Option<Coord>)
    requires ValidArea(area) && InBounds(area, cur) && d <= 4
    ensures r.None? <==> forall e :: d <= e < 4 ==> !Qualifies(area, visited, cur, e)
    ensures r.Some? ==> exists e :: d <= e < 4 && Qualifies(area, visited, cur, e) && r.value == Step(cur, e) &&
                                    forall e' :: d <= e' < e ==> !Qualifies(area, visited, cur, e')
    decreases 4 - d
  {
    if d == 4 then None
    else if Qualifies(area, visited, cur, d) then Some(Step(cur, d))
    else NextFrom(area, visited, cur, d + 1)
  }

  /** The cell find_loop moves to from cur: the first qualifying direction in the order
      north, east, south, west. It lies in the array, next to cur, outside visited. */
  function NextStep(area: seq<seq<int>>, visited: seq<Coord>, cur: Coord): (r: Option<Coord>)
    requires ValidArea(area) && InBounds(area, cur)
    ensures r.None? <==> forall d :: 0 <= d < 4 ==> !Qualifies(area, visited, cur, d)
    ensures r.Some? ==> InBounds(area, r.value) && r.value !in visited && Manhattan(cur, r.value) == 1
  {
    NextFrom(area, visited, cur, 0)
  }

  /** The position of the start cell np.where finds first (x major, then y), or None
      where indexing its empty result raises. */
  function FindStart(area: seq<seq<int>>, x: nat): (r: Option<Coord>)
    requires ValidArea(area)
    ensures r.None? <==> forall x', y :: x <= x' < |area| && 0 <= y < SizeY(area) ==> area[x'][y] != STARTING_POINT
    ensures r.Some? ==> (x <= r.value.0 && InBounds(area, r.value) && At(area, r.value) == STARTING_POINT &&
                         (forall x', y :: x <= x' < r.value.0 && 0 <= y < SizeY(area) ==> area[x'][y] != STARTING_POINT) &&
                         (forall y :: 0 <= y < r.value.1 ==> area[r.value.0][y] != STARTING_POINT))
    decreases |area| - x
  {
    if x >= |area| then None
    else
      match FindInColumn(area[x], 0)
      case Some(y) => Some((x, y))
      case None => FindStart(area, x + 1)
  }

  function FindInColumn(col: seq<int>, y: nat): (r: Option<nat>)
    ensures r.None? <==> forall y' :: y <= y' < |col| ==> col[y'] != STARTING_POINT
    ensures r.Some? ==> (y <= r.value < |col| && col[r.value] == STARTING_POINT &&
                         forall y' :: y <= y' < r.value ==> col[y'] != STARTING_POINT)
    decreases |col| - y
  {
    if y >= |col| then None
    else if col[y] == STARTING_POINT then Some(y)
    else FindInColumn(col, y + 1)
  }

  /** No cell occurs twice. */
  predicate NoDuplicates(cs: seq<Coord>) {
    forall i, j :: 0 <= i < j < |cs| ==> cs[i] != cs[j]
  }

  /** visited follows find_loop's rule from its first cell: each next cell is the one
      NextStep picks from the previous cell given the cells visited so far. */
  predicate FollowsRule(area: seq<seq<int>>, visited: seq<Coord>)
    requires ValidArea(area)
  {
    (forall i :: 0 <= i < |visited| ==> InBounds(area, visited[i])) &&
    forall i :: 0 <= i < |visited| - 1 ==> NextStep(area, visited[..i + 1], visited[i]) == Some(visited[i + 1])
  }

  /** A path that follows the rule visits no cell twice and moves one cell at a time. */
  lemma {:induction false} RulePathIsSimple(area: seq<seq<int>>, visited: seq<Coord>)
    requires ValidArea(area) && FollowsRule(area, visited)
    ensures NoDuplicates(visited)
    ensures forall i :: 0 <= i < |visited| - 1 ==> Manhattan(visited[i], visited[i + 1]) == 1
  {
    forall i, j | 0 <= i < j < |visited| ensures visited[i] != visited[j] {
      var prev := visited[..j];
      assert visited[i] == prev[i];
      assert NextStep(area, prev, visited[j - 1]) == Some(visited[j]);
    }
  }

  /** The number of straight (or corner) pipes among the cells cs. */
  function CountPipes(area: seq<seq<int>>, cs: seq<Coord>, straight: bool): nat
    requires ValidArea(area) && forall i :: 0 <= i < |cs| ==> InBounds(area, cs[i])
  {
    if cs == [] then 0
    else
      var v := At(area, cs[|cs| - 1]);
      CountPipes(area, cs[..|cs| - 1], straight) +
      (if straight && IsStraightPipe(v) then 1 else if !straight && IsCornerPipe(v) then 1 else 0)
  }

  lemma {:induction false} CountPipesBound(area: seq<seq<int>>, cs: seq<Coord>)
    requires ValidArea(area) && forall i :: 0 <= i < |cs| ==> InBounds(area, cs[i])
    ensures CountPipes(area, cs, true) + CountPipes(area, cs, false) <= |cs|
  {
    if cs != [] {
      CountPipesBound(area, cs[..|cs| - 1]);
    }
  }

  /** A step of a path that follows the rule is still a step of any longer path
      beginning with it. */
  lemma StepKept(area: seq<seq<int>>, visited: seq<Coord>, v: seq<Coord>, i: int)
    requires ValidArea(area) && FollowsRule(area, visited) && 0 <= i < |visited| - 1
    requires |visited| <= |v| && v[..|visited|] == visited
    ensures InBounds(area, v[i]) && NextStep(area, v[..i + 1], v[i]) == Some(v[i + 1])
  {
    assert v[..i + 1] == visited[..i + 1] && v[i] == visited[i] && v[i + 1] == visited[i + 1];
  }

  lemma {:induction false} FollowsRuleExtend(area: seq<seq<int>>, visited: seq<Coord>, next: Coord)
    requires ValidArea(area) && |visited| >= 1 && FollowsRule(area, visited)
    requires NextStep(area, visited, visited[|visited| - 1]) == Some(next)
    ensures FollowsRule(area, visited + [next])
  {
    var v := visited + [next];
    var last := |visited| - 1;
    assert v[..last + 1] == visited && v[last] == visited[last] && v[last + 1] == next;
    forall i | 0 <= i < |v| - 1 ensures NextStep(area, v[..i + 1], v[i]) == Some(v[i + 1]) {
      if i < last {
        StepKept(area, visited, v, i);
      }
    }
  }

  function Cells(area: seq<seq<int>>): set<Coord> {
    set x, y | 0 <= x < SizeX(area) && 0 <= y < SizeY(area) :: (x, y)
  }

  /** Visiting a new cell of the array leaves fewer cells unvisited. */
  lemma CellsShrink(area: seq<seq<int>>, visited: seq<Coord>, next: Coord)
    requires InBounds(area, next) && next !in visited
    ensures Cells(area) - (set c | c in visited + [next]) < Cells(area) - (set c | c in visited)
  {
    assert next in Cells(area);
    assert next in Cells(area) - (set c | c in visited);
  }

  lemma CountPipesSnoc(area: seq<seq<int>>, visited: seq<Coord>, next: Coord, b: bool)
    requires ValidArea(area) && |visited| >= 1 && InBounds(area, next)
    requires forall i :: 0 <= i < |visited| ==> InBounds(area, visited[i])
    ensures CountPipes(area, (visited + [next])[1..], b) == CountPipes(area, visited[1..], b) +
      (if b && IsStraightPipe(At(area, next)) then 1 else if !b && IsCornerPipe(At(area, next)) then 1 else 0)
  {
    var v := (visited + [next])[1..];
    assert v[..|v| - 1] == visited[1..];
  }

  datatype Loop = Loop(visited: seq<Coord>, nbStraightPipes: nat, nbCornerPipes: nat)

  /** visited is the walk of find_loop from start: it begins there, follows the rule
      and ends where the rule gives no next cell. */
  ghost predicate Walked(area: seq<seq<int>>, start: Coord, visited: seq<Coord>)
    requires ValidArea(area)
  {
    |visited| >= 1 && visited[0] == start && FollowsRule(area, visited) &&
    NextStep(area, visited, visited[|visited| - 1]).None?
  }

  /** The while loop of find_loop (2023/day10/day10.py:131-180): step to the next
      connected cell until there is none, counting the straight and corner pipes
      entered. */
  method WalkLoop(area: seq<seq<int>>, start: Coord) returns (visitedCoords: seq<Coord>, nbStraightPipes: nat, nbCornerPipes: nat)
    requires ValidArea(area) && InBounds(area, start)
    ensures Walked(area, start, visitedCoords)
    ensures nbStraightPipes == CountPipes(area, visitedCoords[1..], true)
    ensures nbCornerPipes == CountPipes(area, visitedCoords[1..], false)
  {
    var currentCoord := start;
    visitedCoords := [currentCoord];
    nbStraightPipes := 0;
    nbCornerPipes := 0;
    while true
      invariant |visitedCoords| >= 1 && visitedCoords[0] == start
      invariant currentCoord == visitedCoords[|visitedCoords| - 1]
      invariant FollowsRule(area, visitedCoords)
      invariant nbStraightPipes == CountPipes(area, visitedCoords[1..], true)
      invariant nbCornerPipes == CountPipes(area, visitedCoords[1..], false)
      decreases Cells(area) - set c | c in visitedCoords
    {
      var next := NextStep(area, visitedCoords, currentCoord);
      if next.None? {
        break;
      }
      ghost var before := visitedCoords;
      currentCoord := next.value;
      visitedCoords := visitedCoords + [currentCoord];
      FollowsRuleExtend(area, before, currentCoord);
      CellsShrink(area, before, currentCoord);
      CountPipesSnoc(area, before, currentCoord, true);
      CountPipesSnoc(area, before, currentCoord, false);
      var v := At(area, currentCoord);
      if IsStraightPipe(v) {
        nbStraightPipes := nbStraightPipes + 1;
      } else if IsCornerPipe(v) {
        nbCornerPipes := nbCornerPipes + 1;
      }
    }
  }

  /** find_loop (2023/day10/day10.py:122-189). It fails where Python raises: no start
      cell, or no first step (visited_coords[1] does not exist). Otherwise the visited
      cells are the walk from the start cell, and the counters count the straight and
      corner pipes entered plus one for the start cell, which is straight when the last
      and second cells share a column or row. */
  method FindLoop(area: seq<seq<int>>) returns (r: Option<Loop>)
    requires ValidArea(area)
    ensures r.None? <==> FindStart(area, 0).None? || NextStep(area, [FindStart(area, 0).value], FindStart(area, 0).value).None?
    ensures r.Some? ==> var v := r.value.visited;
      |v| >= 2 && Walked(area, FindStart(area, 0).value, v) &&
      r.value.nbStraightPipes + r.value.nbCornerPipes == CountPipes(area, v[1..], true) + CountPipes(area, v[1..], false) + 1 &&
      r.value.nbStraightPipes == CountPipes(area, v[1..], true) +
        (if v[|v| - 1].0 == v[1].0 || v[|v| - 1].1 == v[1].1 then 1 else 0)
  {
    var start := FindStart(area, 0);
    if start.None? {
      return None;
    }
    var visitedCoords, nbStraightPipes, nbCornerPipes := WalkLoop(area, start.value);
    if |visitedCoords| < 2 {
      assert visitedCoords == [start.value];
      return None;
    }
    assert visitedCoords[..1] == [start.value];
    assert NextStep(area, [start.value], start.value) == Some(visitedCoords[1]);
    var currentCoord := visitedCoords[|visitedCoords| - 1];
    if currentCoord.0 == visitedCoords[1].0 || currentCoord.1 == visitedCoords[1].1 {
      nbStraightPipes := nbStraightPipes + 1;
    } else {
      nbCornerPipes := nbCornerPipes + 1;
    }
    return Some(Loop(visitedCoords, nbStraightPipes, nbCornerPipes));
  }

  /** The counters of a loop never exceed the number of its cells. */
  lemma LoopCounters(area: seq<seq<int>>, l: Loop)
    requires ValidArea(area) && |l.visited| >= 2 && FollowsRule(area, l.visited)
    requires l.nbStraightPipes + l.nbCornerPipes ==
             CountPipes(area, l.visited[1..], true) + CountPipes(area, l.visited[1..], false) + 1
    ensures l.nbStraightPipes + l.nbCornerPipes <= |l.visited|
  {
    CountPipesBound(area, l.visited[1..]);
  }

  // ---------------------------------------------------------------------------
  // Farthest point

  /** find_farthest_point (2023/day10/day10.py:192-194). */
  function FindFarthestPoint(visited: seq<Coord>): nat {
    |visited| / 2
  }

  /** The distance along a closed loop of n cells between cell 0 and cell k. */
  function LoopDistance(n: int, k: int): int {
    if k <= n - k then k else n - k
  }

  /** Half the loop length is the largest distance along the loop from the start, and
      some cell is that far. */
  lemma FarthestIsMaximal(visited: seq<Coord>)
    ensures forall k :: 0 <= k <= |visited| ==> LoopDistance(|visited|, k) <= FindFarthestPoint(visited)
    ensures LoopDistance(|visited|, |visited| / 2) == FindFarthestPoint(visited)
  {
  }

  // ---------------------------------------------------------------------------
  // Shoelace formula

  /** The cross term of vertex i and the vertex after it, cyclically. */
  function Cross(coords: seq<Coord>, i: int): int
    requires 0 <= i < |coords|
  {
    var j := (i + 1) % |coords|;
    coords[i].0 * coords[j].1 - coords[j].0 * coords[i].1
  }

  function Terms(coords: seq<Coord>): (t: seq<int>)
    ensures |t| == |coords| && forall i :: 0 <= i < |coords| ==> t[i] == Cross(coords, i)
  {
    seq(|coords|, i requires 0 <= i < |coords| => Cross(coords, i))
  }

  function Sum(t: seq<int>): int {
    if t == [] then 0 else Sum(t[..|t| - 1]) + t[|t| - 1]
  }

  /** Twice the signed area of the polygon, and the area shoelace reports. */
  function ShoelaceArea(coords: seq<Coord>): int {
    Abs(Sum(Terms(coords))) / 2
  }

  /** shoelace (2023/day10/day10.py:75-83). */
  method Shoelace(coords: seq<Coord>) returns (r: int)
    ensures r == ShoelaceArea(coords) && r >= 0
  {
    var nbCoords := |coords|;
    var area := 0;
    for i := 0 to nbCoords
      invariant area == Sum(Terms(coords)[..i])
    {
      assert Terms(coords)[..i + 1][..i] == Terms(coords)[..i];
      var j := (i + 1) % nbCoords;
      area := area + coords[i].0 * coords[j].1;
      area := area - coords[j].0 * coords[i].1;
    }
    assert Terms(coords)[..nbCoords] == Terms(coords);
    r := Abs(area) / 2;
  }

  function RotateLeft<T>(s: seq<T>, k: int): (r: seq<T>)
    requires 0 <= k <= |s|
    ensures |r| == |s|
  {
    s[k..] + s[..k]
  }

  lemma {:induction false} SumAppend(a: seq<int>, b: seq<int>)
    ensures Sum(a + b) == Sum(a) + Sum(b)
    decreases |b|
  {
    if b == [] {
      assert a + b == a;
    } else {
      assert (a + b)[..|a + b| - 1] == a + b[..|b| - 1];
      SumAppend(a, b[..|b| - 1]);
    }
  }

  lemma {:induction false} RotatedIndex<T>(s: seq<T>, k: int, i: int)
    requires 0 <= k < |s| && 0 <= i < |s|
    ensures RotateLeft(s, k)[i] == s[(i + k) % |s|]
  {
    if i + k < |s| {
      DivModUnique(i + k, |s|, 0, i + k);
    } else {
      DivModUnique(i + k, |s|, 1, i + k - |s|);
    }
  }

  lemma {:induction false} ModNext(a: int, n: int)
    requires n > 0
    ensures (a % n + 1) % n == (a + 1) % n
  {
    DivModUnique(a % n + 1, n, (a + 1) / n - a / n, (a + 1) % n);
  }

  /** The cross terms of a rotated vertex list are the rotated cross terms. */
  lemma {:induction false} TermsRotate(coords: seq<Coord>, k: int)
    requires 0 <= k < |coords|
    ensures Terms(RotateLeft(coords, k)) == RotateLeft(Terms(coords), k)
  {
    var n := |coords|;
    var c := RotateLeft(coords, k);
    forall i | 0 <= i < n ensures Terms(c)[i] == RotateLeft(Terms(coords), k)[i] {
      var j := (i + 1) % n;
      RotatedIndex(coords, k, i);
      RotatedIndex(coords, k, j);
      RotatedIndex(Terms(coords), k, i);
      ModNext(i, n);
      DivModUnique(i, n, 0, i);
      ModNext(i + k, n);
      ModAddK(i + 1, k, n);
      assert c[j] == coords[((i + k) % n + 1) % n];
    }
  }

  lemma {:induction false} ModAddK(a: int, k: int, n: int)
    requires n > 0
    ensures (a % n + k) % n == (a + k) % n
  {
    DivModUnique(a % n + k, n, (a + k) / n - a / n, (a + k) % n);
  }

  /** shoelace does not depend on which vertex of the loop comes first. */
  lemma {:induction false} ShoelaceRotation(coords: seq<Coord>, k: int)
    requires 0 <= k < |coords|
    ensures ShoelaceArea(RotateLeft(coords, k)) == ShoelaceArea(coords)
  {
    var t := Terms(coords);
    TermsRotate(coords, k);
    SumAppend(t[k..], t[..k]);
    SumAppend(t[..k], t[k..]);
    assert t[..k] + t[k..] == t;
  }

  /** find_enclosed_area (2023/day10/day10.py:197-209). */
  function FindEnclosedArea(area: int, nbStraightPipes: int, nbCornerPipes: int): int {
    area - (nbStraightPipes + (1 + (nbCornerPipes - 3))) / 2
  }

  /** With b = straight + corner boundary cells and b even, as on a closed grid loop,
      the result is Pick's theorem solved for the interior points: A - b/2 + 1. */
  lemma EnclosedIsPick(area: int, s: int, c: int)
    requires (s + c) % 2 == 0
    ensures FindEnclosedArea(area, s, c) == area - (s + c) / 2 + 1
  {
    assert s + c == (s + c) / 2 * 2;
    DivModUnique(s + c - 2, 2, (s + c) / 2 - 1, 0);
  }
}
