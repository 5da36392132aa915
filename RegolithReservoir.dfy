/** The cave of day14/day14.py: rock paths are drawn as walls into a grid indexed
    grid[x][y] (y grows downwards), and grains of sand fall from (500, 0) straight down,
    else down-left, else down-right, until they rest or fall out of the last row. */
module RegolithReservoir {
  import opened Wrappers

  const CELL_AIR := 0
  const CELL_WALL := 1
  const CELL_SAND := 2
  const CELL_POUR := 3
  const POUR_X := 500
  const POUR_Y := 0

  type Point = (int, int)

  function Min(a: int, b: int): int {
    if a <= b then a else b
  }

  function Max(a: int, b: int): int {
    if a <= b then b else a
  }

  // ---------------------------------------------------------------------------
  // xrange and the walls of the rock paths

  /** The integers from start to end, both included, one step at a time. */
  function Towards(start: int, end: int): (r: seq<int>)
    ensures |r| == Max(start, end) - Min(start, end) + 1 && r[0] == start && r[|r| - 1] == end
    ensures forall n :: 0 <= n < |r| ==> r[n] == if start < end then start + n else start - n
    ensures forall i :: i in r <==> Min(start, end) <= i <= Max(start, end)
    decreases Max(start, end) - Min(start, end)
  {
    if start == end then [end]
    else [start] + Towards(if start < end then start + 1 else start - 1, end)
  }

  /** xrange (day14/day14.py:28-34): from start to end, both included, stepping towards
      end; nothing at all when start == end. */
  function XRange(start: int, end: int): (r: seq<int>)
    ensures start == end ==> r == []
    ensures start != end ==> (|r| == Max(start, end) - Min(start, end) + 1 && r[0] == start && r[|r| - 1] == end)
    ensures forall n :: 0 <= n < |r| ==> r[n] == if start < end then start + n else start - n
    ensures forall i :: i in r <==> start != end && Min(start, end) <= i <= Max(start, end)
  {
    if start == end then [] else Towards(start, end)
  }

  /** The cells of one straight piece of a rock path: a vertical piece, else a
      horizontal one; a diagonal piece draws nothing. */
  function SegmentWalls(a: Point, b: Point): set<Point> {
    if a.0 == b.0 then (set i | i in XRange(a.1, b.1) :: (a.0, i))
    else if a.1 == b.1 then (set i | i in XRange(a.0, b.0) :: (i, a.1))
    else {}
  }

  /** The cells of a rock path. */
  function PathWalls(path: seq<Point>): set<Point> {
    if |path| < 2 then {}
    else PathWalls(path[..|path| - 1]) + SegmentWalls(path[|path| - 2], path[|path| - 1])
  }

  /** The cells of all rock paths. */
  function Walls(paths: seq<seq<Point>>): set<Point> {
    if paths == [] then {} else Walls(paths[..|paths| - 1]) + PathWalls(paths[|paths| - 1])
  }

  /** A straight piece covers its two ends and what lies between, unless the ends
      coincide; every cell lies in the box of the ends. */
  lemma SegmentShape(a: Point, b: Point)
    requires a != b && (a.0 == b.0 || a.1 == b.1)
    ensures a in SegmentWalls(a, b) && b in SegmentWalls(a, b)
    ensures forall p :: p in SegmentWalls(a, b) ==>
      Min(a.0, b.0) <= p.0 <= Max(a.0, b.0) && Min(a.1, b.1) <= p.1 <= Max(a.1, b.1)
  {
    if a.0 == b.0 {
      assert a.1 in XRange(a.1, b.1) && b.1 in XRange(a.1, b.1);
    } else {
      assert a.0 in XRange(a.0, b.0) && b.0 in XRange(a.0, b.0);
    }
  }

  /** A piece whose ends coincide draws nothing (xrange(v, v) is empty). */
  lemma PointSegmentEmpty(a: Point)
    ensures SegmentWalls(a, a) == {}
  {
  }

  predicate InBox(p: Point, width: int, height: int) {
    0 <= p.0 < width && 0 <= p.1 < height
  }

  predicate PointsInBox(paths: seq<seq<Point>>, width: int, height: int) {
    forall k, n :: 0 <= k < |paths| && 0 <= n < |paths[k]| ==> InBox(paths[k][n], width, height)
  }

  lemma SegmentInBox(a: Point, b: Point, width: int, height: int)
    requires InBox(a, width, height) && InBox(b, width, height)
    ensures forall p :: p in SegmentWalls(a, b) ==> InBox(p, width, height)
  {
    if a != b && (a.0 == b.0 || a.1 == b.1) {
      SegmentShape(a, b);
    }
  }

  /** One piece of a rock path, drawn by the inner loops of parse_paths
      (day14/day14.py:49-54). */
  method DrawSegment(grid: array2<int>, a: Point, b: Point)
    requires InBox(a, grid.Length0, grid.Length1) && InBox(b, grid.Length0, grid.Length1)
    modifies grid
    ensures forall i, j :: 0 <= i < grid.Length0 && 0 <= j < grid.Length1 ==>
      grid[i, j] == if (i, j) in SegmentWalls(a, b) then CELL_WALL else old(grid[i, j])
  {
    SegmentInBox(a, b, grid.Length0, grid.Length1);
    if a.0 == b.0 {
      var r := XRange(a.1, b.1);
      for n := 0 to |r|
        invariant forall i, j :: 0 <= i < grid.Length0 && 0 <= j < grid.Length1 ==>
          grid[i, j] == if i == a.0 && j in r[..n] then CELL_WALL else old(grid[i, j])
      {
        assert (a.0, r[n]) in SegmentWalls(a, b);
        grid[a.0, r[n]] := CELL_WALL;
        assert r[..n + 1] == r[..n] + [r[n]];
      }
      assert r[..|r|] == r;
    } else if a.1 == b.1 {
      var r := XRange(a.0, b.0);
      for n := 0 to |r|
        invariant forall i, j :: 0 <= i < grid.Length0 && 0 <= j < grid.Length1 ==>
          grid[i, j] == if j == a.1 && i in r[..n] then CELL_WALL else old(grid[i, j])
      {
        assert (r[n], a.1) in SegmentWalls(a, b);
        grid[r[n], a.1] := CELL_WALL;
        assert r[..n + 1] == r[..n] + [r[n]];
      }
      assert r[..|r|] == r;
    }
  }

  /** The wall drawing of parse_paths (day14/day14.py:47-54): exactly the cells of the
      rock paths become walls, the rest of the grid is left as it was. */
  method DrawPaths(grid: array2<int>, paths: seq<seq<Point>>)
    requires PointsInBox(paths, grid.Length0, grid.Length1)
    modifies grid
    ensures forall i, j :: 0 <= i < grid.Length0 && 0 <= j < grid.Length1 ==>
      grid[i, j] == if (i, j) in Walls(paths) then CELL_WALL else old(grid[i, j])
  {
    for k := 0 to |paths|
      invariant forall i, j :: 0 <= i < grid.Length0 && 0 <= j < grid.Length1 ==>
        grid[i, j] == if (i, j) in Walls(paths[..k]) then CELL_WALL else old(grid[i, j])
    {
      assert paths[..k + 1][..k] == paths[..k];
      DrawPath(grid, paths[k]);
    }
    assert paths[..|paths|] == paths;
  }

  /** One rock path of parse_paths (day14/day14.py:48-54): its pieces in order, so
      that exactly its cells become walls. */
  method DrawPath(grid: array2<int>, path: seq<Point>)
    requires forall n :: 0 <= n < |path| ==> InBox(path[n], grid.Length0, grid.Length1)
    modifies grid
    ensures forall i, j :: 0 <= i < grid.Length0 && 0 <= j < grid.Length1 ==>
      grid[i, j] == if (i, j) in PathWalls(path) then CELL_WALL else old(grid[i, j])
  {
    if |path| >= 2 {
      for x := 0 to |path| - 1
        invariant forall i, j :: 0 <= i < grid.Length0 && 0 <= j < grid.Length1 ==>
          grid[i, j] == if (i, j) in PathWalls(path[..x + 1]) then CELL_WALL else old(grid[i, j])
      {
        assert path[..x + 2][..x + 1] == path[..x + 1];
        DrawSegment(grid, path[x], path[x + 1]);
      }
      assert path[..|path|] == path;
    }
  }

  // ---------------------------------------------------------------------------
  // parse_paths

  /** All the points of all paths, in order. */
  function Flatten(paths: seq<seq<Point>>): (r: seq<Point>)
    ensures forall p :: p in r <==> exists k :: 0 <= k < |paths| && p in paths[k]
  {
    if paths == [] then []
    else
      var init := paths[..|paths| - 1];
      assert forall k :: 0 <= k < |init| ==> init[k] == paths[k];
      Flatten(init) + paths[|paths| - 1]
  }

  /** Python's max over one coordinate of the points: None for no points, where max
      raises ValueError. */
  function MaxCoord(points: seq<Point>, axis: bool): (r: Option<int>)
    ensures r.None? <==> points == []
    ensures r.Some? ==> forall n :: 0 <= n < |points| ==> (if axis then points[n].1 else points[n].0) <= r.value
    ensures r.Some? ==> exists n :: 0 <= n < |points| && (if axis then points[n].1 else points[n].0) == r.value
  {
    if points == [] then None
    else
      var v := if axis then points[|points| - 1].1 else points[|points| - 1].0;
      match MaxCoord(points[..|points| - 1], axis)
      case None => Some(v)
      case Some(m) => Some(Max(m, v))
  }

  /** The cell the parsed grid holds at (i, j): the pour point, else the floor, else a
      rock wall, else air. */
  function Expected(paths: seq<seq<Point>>, addFloor: bool, maxY: int, i: int, j: int): int {
    if (i, j) == (POUR_X, POUR_Y) then CELL_POUR
    else if addFloor && j == maxY + 2 then CELL_WALL
    else if (i, j) in Walls(paths) then CELL_WALL
    else CELL_AIR
  }

  /** parse_paths (day14/day14.py:37-62) after reading the file. The grid is
      (max_x + max_y + 2) by (max_y + 3); None where max raises on no points or where
      the pour point lies outside the grid, which makes numpy raise IndexError. */
  method ParsePaths(paths: seq<seq<Point>>, addFloor: bool) returns (r: Option<array2<int>>)
    requires forall p :: p in Flatten(paths) ==> p.0 >= 0 && p.1 >= 0
    ensures r.None? <==> (Flatten(paths) == [] ||
      MaxCoord(Flatten(paths), false).value + MaxCoord(Flatten(paths), true).value + 2 <= POUR_X)
    ensures r.Some? ==> (fresh(r.value) &&
      r.value.Length0 == MaxCoord(Flatten(paths), false).value + MaxCoord(Flatten(paths), true).value + 2 &&
      r.value.Length1 == MaxCoord(Flatten(paths), true).value + 3)
    ensures r.Some? ==> forall i, j :: 0 <= i < r.value.Length0 && 0 <= j < r.value.Length1 ==>
      r.value[i, j] == Expected(paths, addFloor, MaxCoord(Flatten(paths), true).value, i, j)
  {
    var points := Flatten(paths);
    var mx := MaxCoord(points, false);
    if mx.None? {
      return None;
    }
    var maxX := mx.value;
    var maxY := MaxCoord(points, true).value;
    assert maxX >= 0 && maxY >= 0 by {
      assert points[0] in points;
    }
    var grid := new int[maxX + maxY + 2, maxY + 3]((i, j) => CELL_AIR);
    PathsInBox(paths, maxX, maxY);
    DrawPaths(grid, paths);
    if grid.Length0 <= POUR_X {
      return None;
    }
    assert forall i, j :: 0 <= i < grid.Length0 && 0 <= j < grid.Length1 ==>
      grid[i, j] == if (i, j) in Walls(paths) then CELL_WALL else CELL_AIR;
    grid[POUR_X, 0] := CELL_POUR;
    assert forall i, j :: 0 <= i < grid.Length0 && 0 <= j < grid.Length1 ==>
      grid[i, j] == Expected(paths, false, maxY, i, j);
    if addFloor {
      DrawFloor(grid, paths, maxY);
    }
    return Some(grid);
  }

  /** Every point of the paths lies in the grid of (maxX + maxY + 2) by (maxY + 3)
      cells, when maxX and maxY bound the coordinates of their points. */
  lemma PathsInBox(paths: seq<seq<Point>>, maxX: int, maxY: int)
    requires forall p :: p in Flatten(paths) ==> 0 <= p.0 && 0 <= p.1
    requires maxY >= 0
    requires forall n :: 0 <= n < |Flatten(paths)| ==> Flatten(paths)[n].0 <= maxX
    requires forall n :: 0 <= n < |Flatten(paths)| ==> Flatten(paths)[n].1 <= maxY
    ensures PointsInBox(paths, maxX + maxY + 2, maxY + 3)
  {
    var points := Flatten(paths);
    forall k, n | 0 <= k < |paths| && 0 <= n < |paths[k]|
      ensures InBox(paths[k][n], maxX + maxY + 2, maxY + 3)
    {
      var p := paths[k][n];
      assert p in points;
      var m :| 0 <= m < |points| && points[m] == p;
    }
  }

  /** The floor loop of parse_paths (day14/day14.py:58-60): row maxY + 2 becomes
      rock wall, which turns the grid without floor into the grid with one. */
  method DrawFloor(grid: array2<int>, paths: seq<seq<Point>>, maxY: int)
    requires maxY >= 0 && grid.Length1 == maxY + 3
    requires forall i, j :: 0 <= i < grid.Length0 && 0 <= j < grid.Length1 ==>
      grid[i, j] == Expected(paths, false, maxY, i, j)
    modifies grid
    ensures forall i, j :: 0 <= i < grid.Length0 && 0 <= j < grid.Length1 ==>
      grid[i, j] == Expected(paths, true, maxY, i, j)
  {
    for x := 0 to grid.Length0
      invariant forall i, j :: 0 <= i < grid.Length0 && 0 <= j < grid.Length1 ==>
        grid[i, j] == Expected(paths, i < x, maxY, i, j)
    {
      grid[x, maxY + 2] := CELL_WALL;
    }
  }

  // ---------------------------------------------------------------------------
  // pour_sand

  /** Where a grain ends: it falls out of the last row, comes to rest at (x, y), or
      numpy raises IndexError on the way. */
  datatype Outcome = Void | Rest(x: int, y: int) | Crash

  /** Python's index i into a dimension of n: negative indices count from the end,
      the others must lie below n. */
  function PyIndex(i: int, n: nat): (r: Option<nat>)
    ensures r.Some? <==> -(n as int) <= i < n
    ensures r.Some? ==> r.value < n && (r.value == i || r.value == i + n)
  {
    if 0 <= i < n then Some(i) else if -(n as int) <= i < 0 then Some(i + n) else None
  }

  /** grid[x][y] with x a Python index. */
  function Cell(grid: array2<int>, x: int, y: nat): Option<int>
    reads grid
    requires y < grid.Length1
  {
    match PyIndex(x, grid.Length0)
    case None => None
    case Some(i) => Some(grid[i, y])
  }

  /** The fall of a grain now at (x, y), one row per step. */
  ghost function Fall(grid: array2<int>, x: int, y: nat): Outcome
    reads grid
    decreases grid.Length1 - y
  {
    if y >= grid.Length1 - 1 then Void
    else
      match Cell(grid, x, y + 1)
      case None => Crash
      case Some(below) =>
        if below == CELL_AIR then Fall(grid, x, y + 1)
        else
          match Cell(grid, x - 1, y + 1)
          case None => Crash
          case Some(left) =>
            if left == CELL_AIR then Fall(grid, x - 1, y + 1)
            else
              match Cell(grid, x + 1, y + 1)
              case None => Crash
              case Some(right) =>
                if right == CELL_AIR then Fall(grid, x + 1, y + 1) else Rest(x, y)
  }

  /** The cell (i, j) is where the grain of outcome o comes to rest. */
  predicate Lands(o: Outcome, width: nat, i: int, j: int) {
    o.Rest? && PyIndex(o.x, width) == Some(i) && o.y == j
  }

  /** Where a grain rests: above the last row, no farther sideways than it fell, on
      three cells none of which is air, and (unless it never moved) in a cell that
      was air. */
  lemma {:induction false} RestSupported(grid: array2<int>, x: int, y: nat)
    requires Fall(grid, x, y).Rest?
    ensures Supported(grid, Fall(grid, x, y), x, y)
    decreases grid.Length1 - y
  {
    var below := Cell(grid, x, y + 1);
    if below.value == CELL_AIR {
      RestSupported(grid, x, y + 1);
      SupportedStep(grid, Fall(grid, x, y), x, y, x);
    } else if Cell(grid, x - 1, y + 1).value == CELL_AIR {
      RestSupported(grid, x - 1, y + 1);
      SupportedStep(grid, Fall(grid, x, y), x, y, x - 1);
    } else if Cell(grid, x + 1, y + 1).value == CELL_AIR {
      RestSupported(grid, x + 1, y + 1);
      SupportedStep(grid, Fall(grid, x, y), x, y, x + 1);
    }
  }

  /** Outcome o of a grain that fell from (x, y) rests above the last row, no farther
      sideways than it fell, on three cells none of which is air, and (unless it
      never moved) in a cell that was air. */
  ghost predicate Supported(grid: array2<int>, o: Outcome, x: int, y: nat)
    reads grid
  {
    o.Rest? && y <= o.y < grid.Length1 - 1 && -(o.y - y) <= o.x - x <= o.y - y &&
    Cell(grid, o.x, o.y + 1).Some? && Cell(grid, o.x, o.y + 1).value != CELL_AIR &&
    Cell(grid, o.x - 1, o.y + 1).Some? && Cell(grid, o.x - 1, o.y + 1).value != CELL_AIR &&
    Cell(grid, o.x + 1, o.y + 1).Some? && Cell(grid, o.x + 1, o.y + 1).value != CELL_AIR &&
    (o.y > y ==> Cell(grid, o.x, o.y) == Some(CELL_AIR))
  }

  /** A rest supported for a grain in the air cell (x', y + 1), one column at most
      from x, is supported for the grain at (x, y) that fell into it. */
  lemma SupportedStep(grid: array2<int>, o: Outcome, x: int, y: nat, x': int)
    requires Supported(grid, o, x', y + 1) && x - 1 <= x' <= x + 1 && Cell(grid, x', y + 1) == Some(CELL_AIR)
    ensures Supported(grid, o, x, y)
  {
  }

  /** The cell of column i in the last row. */
  function Bottom(grid: array2<int>, i: int): int
    reads grid
    requires 0 <= i < grid.Length0 && grid.Length1 >= 1
  {
    grid[i, grid.Length1 - 1]
  }

  /** A grain that falls out of the grid passes an air cell of the last row: in_void is
      reported only when the grain reaches the last row. */
  lemma {:induction false} VoidPassesLastRow(grid: array2<int>, x: int, y: nat)
    requires Fall(grid, x, y).Void? && y < grid.Length1 - 1
    ensures exists i :: 0 <= i < grid.Length0 && Bottom(grid, i) == CELL_AIR
    decreases grid.Length1 - y
  {
    var last := grid.Length1 - 1;
    var below := Cell(grid, x, y + 1);
    var next := if below.value == CELL_AIR then x
                else if Cell(grid, x - 1, y + 1).value == CELL_AIR then x - 1
                else x + 1;
    if y + 1 < last {
      VoidPassesLastRow(grid, next, y + 1);
    } else {
      var i := PyIndex(next, grid.Length0).value;
      assert Bottom(grid, i) == CELL_AIR;
    }
  }

  /** With the floor that parse_paths adds for part 2, no grain ever falls into the
      void. */
  lemma FloorStopsVoid(grid: array2<int>, x: int)
    requires grid.Length1 >= 2
    requires forall i :: 0 <= i < grid.Length0 ==> Bottom(grid, i) == CELL_WALL
    ensures !Fall(grid, x, 0).Void?
  {
    if Fall(grid, x, 0).Void? {
      VoidPassesLastRow(grid, x, 0);
    }
  }

  /** pour_sand (day14/day14.py:65-93): one grain falls from the pour point. It fills
      the one cell it rests in and nothing else; the result is in_void, or blocked
      (it rests at the pour point) when returnBlocked is set; None where numpy raises. */
  method PourSand(grid: array2<int>, returnBlocked: bool) returns (r: Option<bool>)
    modifies grid
    ensures r.None? <==> old(Fall(grid, POUR_X, POUR_Y)).Crash?
    ensures r.Some? && !returnBlocked ==> (r.value <==> old(Fall(grid, POUR_X, POUR_Y)).Void?)
    ensures r.Some? && returnBlocked ==> (r.value <==> old(Fall(grid, POUR_X, POUR_Y)) == Rest(POUR_X, POUR_Y))
    ensures forall i, j :: 0 <= i < grid.Length0 && 0 <= j < grid.Length1 ==>
      grid[i, j] == if Lands(old(Fall(grid, POUR_X, POUR_Y)), grid.Length0, i, j) then CELL_SAND else old(grid[i, j])
    ensures forall i, j :: (0 <= i < grid.Length0 && 0 <= j < grid.Length1 && old(grid[i, j]) != CELL_AIR &&
      (i, j) != (POUR_X, POUR_Y)) ==> grid[i, j] == old(grid[i, j])
  {
    ghost var outcome := Fall(grid, POUR_X, POUR_Y);
    var x, y := POUR_X, POUR_Y;
    var inVoid, blocked := false, false;
    while true
      invariant 0 <= y && y - POUR_Y >= x - POUR_X >= -(y - POUR_Y)
      invariant Fall(grid, x, y) == outcome
      invariant unchanged(grid)
      decreases grid.Length1 - y
    {
      if y >= grid.Length1 - 1 {
        inVoid := true;
        break;
      }
      var below := Cell(grid, x, y + 1);
      if below.None? {
        return None;
      }
      if below.value == CELL_AIR {
        y := y + 1;
      } else {
        var left := Cell(grid, x - 1, y + 1);
        if left.None? {
          return None;
        }
        if left.value == CELL_AIR {
          x, y := x - 1, y + 1;
        } else {
          var right := Cell(grid, x + 1, y + 1);
          if right.None? {
            return None;
          }
          if right.value == CELL_AIR {
            x, y := x + 1, y + 1;
          } else {
            assert outcome == Rest(x, y);
            RestSupported(grid, POUR_X, POUR_Y);
            var i := PyIndex(x, grid.Length0).value;
            grid[i, y] := CELL_SAND;
            if x == POUR_X && y == POUR_Y {
              blocked := true;
            }
            break;
          }
        }
      }
    }
    return Some(if returnBlocked then blocked else inVoid);
  }
}
