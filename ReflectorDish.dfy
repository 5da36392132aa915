/** The reflector dish of 2023/day14/day14.py: a grid grid[x, y] of rounded rocks 'O',
    cube rocks '#' and empty cells '.', tilted north by repeated passes in which every
    rounded rock with an empty cell directly above moves up one row; the load of a
    rock is its distance, in rows, to the south edge. */
module ReflectorDish {
  import opened Arrays
  import opened Arith

  const ROUNDED := 'O'
  const CUBED := '#'
  const EMPTY := '.'

  /** A grid as its columns: g[x][y]. */
  type Grid = seq<seq<char>>

  predicate Rect(g: Grid, h: nat) {
    forall x :: 0 <= x < |g| ==> |g[x]| == h
  }

  // ---------------------------------------------------------------------------
  // One column

  /** The rock at y moves up into the empty cell above it. */
  predicate Leaving(c: seq<char>, y: int)
    requires 0 <= y < |c|
  {
    y > 0 && c[y] == ROUNDED && c[y - 1] == EMPTY
  }

  /** The cell at y receives the rock from below. */
  predicate Arriving(c: seq<char>, y: int)
    requires 0 <= y < |c|
  {
    c[y] == EMPTY && y + 1 < |c| && c[y + 1] == ROUNDED
  }

  /** One tilt pass on one column, every rock looking at the column as it was. */
  function StepColumn(c: seq<char>): (r: seq<char>)
    ensures |r| == |c|
  {
    seq(|c|, y requires 0 <= y < |c| =>
      if Leaving(c, y) then EMPTY else if Arriving(c, y) then ROUNDED else c[y])
  }

  function Rounded(c: seq<char>): nat {
    if c == [] then 0 else (if c[0] == ROUNDED then 1 else 0) + Rounded(c[1..])
  }

  /** The number of rocks that move in a pass. */
  function Moves(c: seq<char>): nat {
    if |c| < 2 then 0 else (if c[0] == EMPTY && c[1] == ROUNDED then 1 else 0) + Moves(c[1..])
  }

  /** Σ over the rocks of (|c| - y). */
  function ColumnLoad(c: seq<char>): nat {
    if c == [] then 0 else (if c[0] == ROUNDED then |c| else 0) + ColumnLoad(c[1..])
  }

  /** A pass on a column is its first cell followed by a pass on the rest, except
      where the first two cells are '.' and 'O', which swap. */
  lemma {:induction false} StepUnfold(c: seq<char>)
    requires |c| >= 1
    ensures |c| >= 2 && c[0] == EMPTY && c[1] == ROUNDED ==>
      StepColumn(c) == [ROUNDED, EMPTY] + StepColumn(c[1..])[1..]
    ensures !(|c| >= 2 && c[0] == EMPTY && c[1] == ROUNDED) ==>
      StepColumn(c) == [c[0]] + StepColumn(c[1..])
  {
    var r := c[1..];
    forall k | 1 <= k < |r| ensures StepColumn(c)[k + 1] == StepColumn(r)[k] {
      assert Leaving(c, k + 1) == Leaving(r, k);
      assert Arriving(c, k + 1) == Arriving(r, k);
    }
    if |c| >= 2 && c[0] == EMPTY && c[1] == ROUNDED {
      assert StepColumn(c) == [ROUNDED, EMPTY] + StepColumn(r)[1..];
    } else if |c| >= 2 {
      assert StepColumn(c)[1] == StepColumn(r)[0];
      assert StepColumn(c) == [c[0]] + StepColumn(r);
    } else {
      assert StepColumn(c) == [c[0]] + StepColumn(r);
    }
  }

  /** A pass keeps the number of rounded rocks of a column. */
  lemma {:induction false} StepKeepsRounded(c: seq<char>)
    ensures Rounded(StepColumn(c)) == Rounded(c)
  {
    if c != [] {
      var r := c[1..];
      StepUnfold(c);
      StepKeepsRounded(r);
      if |c| >= 2 && c[0] == EMPTY && c[1] == ROUNDED {
        var t := StepColumn(r)[1..];
        assert StepColumn(r) == [ROUNDED] + t;
        assert ([ROUNDED, EMPTY] + t)[1..] == [EMPTY] + t;
        assert ([EMPTY] + t)[1..] == t;
      } else {
        assert ([c[0]] + StepColumn(r))[1..] == StepColumn(r);
      }
    }
  }

  /** A pass raises the load of a column by the number of rocks that move. */
  lemma {:induction false} StepLoad(c: seq<char>)
    ensures ColumnLoad(StepColumn(c)) == ColumnLoad(c) + Moves(c)
  {
    if c != [] {
      var r := c[1..];
      StepUnfold(c);
      StepLoad(r);
      if |c| >= 2 && c[0] == EMPTY && c[1] == ROUNDED {
        assert StepColumn(r)[0] == ROUNDED;
        LoadSwap(c, StepColumn(r));
      } else {
        LoadCopy(c, StepColumn(r));
      }
    }
  }

  /** The load step of StepLoad where the rock below the empty first cell moves up:
      s is the pass of the rest of the column. */
  lemma LoadSwap(c: seq<char>, s: seq<char>)
    requires |c| >= 2 && c[0] == EMPTY && c[1] == ROUNDED && |s| == |c| - 1 && s[0] == ROUNDED
    requires ColumnLoad(s) == ColumnLoad(c[1..]) + Moves(c[1..])
    ensures ColumnLoad([ROUNDED, EMPTY] + s[1..]) == ColumnLoad(c) + Moves(c)
  {
    var t := s[1..];
    assert s == [ROUNDED] + t;
    assert ([ROUNDED, EMPTY] + t)[1..] == [EMPTY] + t;
    assert ([EMPTY] + t)[1..] == t;
    assert ([ROUNDED] + t)[1..] == t;
  }

  /** The load step of StepLoad where the first cell stays as it is: s is the pass
      of the rest of the column. */
  lemma LoadCopy(c: seq<char>, s: seq<char>)
    requires |c| >= 1 && !(|c| >= 2 && c[0] == EMPTY && c[1] == ROUNDED) && |s| == |c| - 1
    requires ColumnLoad(s) == ColumnLoad(c[1..]) + Moves(c[1..])
    ensures ColumnLoad([c[0]] + s) == ColumnLoad(c) + Moves(c)
  {
    assert ([c[0]] + s)[1..] == s;
    if |c| >= 2 {
      assert Moves(c) == Moves(c[1..]);
    }
  }

  /** A column's load is at most its height times its number of rocks. */
  lemma {:induction false} LoadBound(c: seq<char>)
    ensures ColumnLoad(c) <= |c| * Rounded(c)
  {
    if c != [] {
      LoadBound(c[1..]);
      assert (|c| - 1) * Rounded(c[1..]) <= |c| * Rounded(c[1..]);
    }
  }

  /** A column that still has a rock under an empty cell has a move left. */
  lemma {:induction false} LeavingMoves(c: seq<char>, y: int)
    requires 0 <= y < |c| && Leaving(c, y)
    ensures Moves(c) >= 1
  {
    if y > 1 {
      assert Leaving(c[1..], y - 1);
      LeavingMoves(c[1..], y - 1);
    }
  }

  /** A pass moves every rock by at most one row, never moves anything else, and keeps
      which cells hold rocks or are empty apart from the moves. */
  lemma StepShape(c: seq<char>, y: int)
    requires 0 <= y < |c|
    ensures StepColumn(c)[y] == ROUNDED ==> c[y] == ROUNDED || (y + 1 < |c| && c[y + 1] == ROUNDED)
    ensures c[y] == ROUNDED ==> StepColumn(c)[y] == ROUNDED || (y > 0 && StepColumn(c)[y - 1] == ROUNDED)
    ensures c[y] != ROUNDED && c[y] != EMPTY ==> StepColumn(c)[y] == c[y]
    ensures StepColumn(c)[y] != ROUNDED && StepColumn(c)[y] != EMPTY ==> StepColumn(c)[y] == c[y]
  {
  }

  // ---------------------------------------------------------------------------
  // The whole grid

  /** One pass of tilt_grid on the whole grid. */
  function Pass(g: Grid): (r: Grid)
    ensures |r| == |g| && forall x :: 0 <= x < |g| ==> r[x] == StepColumn(g[x])
  {
    seq(|g|, x requires 0 <= x < |g| => StepColumn(g[x]))
  }

  /** The grid after k passes. */
  function Passes(g: Grid, k: nat): Grid {
    if k == 0 then g else Pass(Passes(g, k - 1))
  }

  /** No rounded rock has an empty cell directly above it. */
  predicate Settled(g: Grid) {
    forall x, y :: 0 <= x < |g| && 0 <= y < |g[x]| ==> !Leaving(g[x], y)
  }

  function GridRounded(g: Grid): nat {
    if g == [] then 0 else GridRounded(g[..|g| - 1]) + Rounded(g[|g| - 1])
  }

  function GridMoves(g: Grid): nat {
    if g == [] then 0 else GridMoves(g[..|g| - 1]) + Moves(g[|g| - 1])
  }

  /** The total load: Σ over the rounded rocks of (rows - y). */
  function GridLoad(g: Grid): nat {
    if g == [] then 0 else GridLoad(g[..|g| - 1]) + ColumnLoad(g[|g| - 1])
  }

  /** The rocks and the cube rocks of a grid stay where they are, as far as the
      cube rocks go, and every column keeps its number of rounded rocks. */
  predicate SameFrame(a: Grid, b: Grid) {
    |a| == |b| &&
    (forall x :: 0 <= x < |a| ==> |a[x]| == |b[x]| && Rounded(a[x]) == Rounded(b[x])) &&
    (forall x, y :: 0 <= x < |a| && 0 <= y < |a[x]| && y < |b[x]| ==>
       (a[x][y] != ROUNDED && a[x][y] != EMPTY ==> b[x][y] == a[x][y]) &&
       (b[x][y] != ROUNDED && b[x][y] != EMPTY ==> b[x][y] == a[x][y]))
  }

  /** A pass keeps the frame of the grid. */
  lemma PassKeepsFrame(g: Grid)
    ensures SameFrame(g, Pass(g))
  {
    forall x | 0 <= x < |g| ensures Rounded(g[x]) == Rounded(Pass(g)[x]) {
      StepKeepsRounded(g[x]);
    }
    forall x, y | 0 <= x < |g| && 0 <= y < |g[x]| ensures
      (g[x][y] != ROUNDED && g[x][y] != EMPTY ==> Pass(g)[x][y] == g[x][y]) &&
      (Pass(g)[x][y] != ROUNDED && Pass(g)[x][y] != EMPTY ==> Pass(g)[x][y] == g[x][y])
    {
      StepShape(g[x], y);
    }
  }

  lemma {:induction false} PassPrefix(g: Grid, n: nat)
    requires n <= |g|
    ensures Pass(g)[..n] == Pass(g[..n])
  {
  }

  /** A pass raises the total load by the number of rocks that move, and keeps the
      number of rocks. */
  lemma {:induction false} PassLoad(g: Grid)
    ensures GridLoad(Pass(g)) == GridLoad(g) + GridMoves(g)
    ensures GridRounded(Pass(g)) == GridRounded(g)
  {
    if g != [] {
      var n := |g| - 1;
      PassLoad(g[..n]);
      PassPrefix(g, n);
      StepLoad(g[n]);
      StepKeepsRounded(g[n]);
    }
  }

  /** The load of a grid of h rows is at most h times its number of rocks. */
  lemma {:induction false} GridLoadBound(g: Grid, h: nat)
    requires Rect(g, h)
    ensures GridLoad(g) <= h * GridRounded(g)
  {
    if g != [] {
      var n := |g| - 1;
      assert Rect(g[..n], h);
      GridLoadBound(g[..n], h);
      LoadBound(g[n]);
      assert |g[n]| == h;
      SumBound(GridLoad(g[..n]), ColumnLoad(g[n]), h, GridRounded(g[..n]), Rounded(g[n]));
    }
  }

  /** A grid that is not settled has a move left. */
  lemma {:induction false} UnsettledMoves(g: Grid)
    requires !Settled(g)
    ensures GridMoves(g) >= 1
  {
    var x, y :| 0 <= x < |g| && 0 <= y < |g[x]| && Leaving(g[x], y);
    var n := |g| - 1;
    if x == n {
      LeavingMoves(g[n], y);
    } else {
      assert g[..n][x] == g[x];
      UnsettledMoves(g[..n]);
    }
  }

  /** A pass leaves a settled grid as it is. */
  lemma SettledFixed(g: Grid)
    requires Settled(g)
    ensures Pass(g) == g
  {
    forall x | 0 <= x < |g| ensures StepColumn(g[x]) == g[x] {
      forall y | 0 <= y < |g[x]| ensures StepColumn(g[x])[y] == g[x][y] {
        if y + 1 < |g[x]| {
          assert !Leaving(g[x], y + 1);
        }
      }
    }
  }

  lemma SameFrameTrans(a: Grid, b: Grid, c: Grid)
    requires SameFrame(a, b) && SameFrame(b, c)
    ensures SameFrame(a, c)
  {
  }

  /** What a pass does to a grid that is a rectangle of h rows: it stays one, keeps its
      frame and its rocks, and raises its load by at least one unless it was settled. */
  lemma {:induction false} PassProgress(g0: Grid, g: Grid, h: nat)
    requires Rect(g, h) && SameFrame(g0, g) && GridRounded(g) == GridRounded(g0)
    ensures Rect(Pass(g), h) && SameFrame(g0, Pass(g)) && GridRounded(Pass(g)) == GridRounded(g0)
    ensures GridLoad(g) <= h * GridRounded(g0)
    ensures GridLoad(Pass(g)) >= GridLoad(g)
    ensures !Settled(g) ==> GridLoad(Pass(g)) > GridLoad(g)
    ensures Settled(g) ==> Pass(g) == g
  {
    PassKeepsFrame(g);
    SameFrameTrans(g0, g, Pass(g));
    PassLoad(g);
    GridLoadBound(g, h);
    if Settled(g) {
      SettledFixed(g);
    } else {
      UnsettledMoves(g);
    }
  }

  // ---------------------------------------------------------------------------
  // tilt_grid

  /** The cell (x, y) of the new grid after the scan has visited it: emptied if its
      rock moved up, else copied. */
  function Visited(c: seq<char>, y: int): char
    requires 0 <= y < |c|
  {
    if Leaving(c, y) then EMPTY else c[y]
  }

  /** The cell above y after a pass: the rock from y when it moves up, else the
      cell as the scan of its own row left it. */
  lemma CellAbove(c: seq<char>, y: int)
    requires 0 < y < |c|
    ensures StepColumn(c)[y - 1] == if Leaving(c, y) then ROUNDED else Visited(c, y - 1)
  {
  }

  /** The inner loop of tilt_grid (2023/day14/day14.py:53-65) over row y: every cell
      of row y is visited, and every cell of row y - 1 receives the rock from below
      if one moves up. moved counts the rocks moved and is 0 exactly when none of row y
      can move. */
  method ScanRow(grid: array2<char>, newGrid: array2<char>, y: int, ghost g: Grid) returns (moved: nat)
    requires grid != newGrid && g == Snapshot(grid)
    requires newGrid.Length0 == grid.Length0 && newGrid.Length1 == grid.Length1 && 0 <= y < grid.Length1
    requires y > 0 ==> forall x :: 0 <= x < grid.Length0 ==> newGrid[x, y - 1] == Visited(g[x], y - 1)
    modifies newGrid
    ensures forall x :: 0 <= x < grid.Length0 ==> newGrid[x, y] == Visited(g[x], y)
    ensures y > 0 ==> forall x :: 0 <= x < grid.Length0 ==> newGrid[x, y - 1] == StepColumn(g[x])[y - 1]
    ensures forall x, y' :: 0 <= x < grid.Length0 && 0 <= y' < grid.Length1 && y' != y && y' != y - 1 ==>
      newGrid[x, y'] == old(newGrid[x, y'])
    ensures moved == 0 <==> forall x :: 0 <= x < grid.Length0 ==> !Leaving(g[x], y)
  {
    moved := 0;
    for x := 0 to grid.Length0
      invariant forall x' :: 0 <= x' < grid.Length0 ==>
        newGrid[x', y] == if x' < x then Visited(g[x'], y) else old(newGrid[x', y])
      invariant y > 0 ==> forall x' :: 0 <= x' < grid.Length0 ==>
        newGrid[x', y - 1] == if x' < x then StepColumn(g[x'])[y - 1] else Visited(g[x'], y - 1)
      invariant forall x', y' :: 0 <= x' < grid.Length0 && 0 <= y' < grid.Length1 && y' != y && y' != y - 1 ==>
        newGrid[x', y'] == old(newGrid[x', y'])
      invariant moved == 0 <==> forall x' :: 0 <= x' < x ==> !Leaving(g[x'], y)
    {
      var m := ScanCell(grid, newGrid, x, y, g);
      moved := moved + m;
    }
  }

  /** The body of the inner loop of tilt_grid (2023/day14/day14.py:55-65) at (x, y):
      the cell is copied, and a rock with an empty cell above moves up into it. m
      is 1 when the rock moved, else 0; only the two cells may change. */
  method ScanCell(grid: array2<char>, newGrid: array2<char>, x: int, y: int, ghost g: Grid) returns (m: nat)
    requires grid != newGrid && g == Snapshot(grid)
    requires newGrid.Length0 == grid.Length0 && newGrid.Length1 == grid.Length1
    requires 0 <= x < grid.Length0 && 0 <= y < grid.Length1
    requires y > 0 ==> newGrid[x, y - 1] == Visited(g[x], y - 1)
    modifies newGrid
    ensures newGrid[x, y] == Visited(g[x], y)
    ensures y > 0 ==> newGrid[x, y - 1] == StepColumn(g[x])[y - 1]
    ensures forall x', y' ::
      0 <= x' < grid.Length0 && 0 <= y' < grid.Length1 && (x', y') != (x, y) && (x', y') != (x, y - 1) ==>
        newGrid[x', y'] == old(newGrid[x', y'])
    ensures m == if Leaving(g[x], y) then 1 else 0
  {
    assert grid[x, y] == g[x][y];
    if y > 0 {
      assert grid[x, y - 1] == g[x][y - 1];
      CellAbove(g[x], y);
    }
    m := 0;
    newGrid[x, y] := grid[x, y];
    if y > 0 && grid[x, y] == ROUNDED {
      if grid[x, y - 1] == EMPTY {
        newGrid[x, y - 1] := ROUNDED;
        newGrid[x, y] := EMPTY;
        m := 1;
      }
    }
  }

  /** The row loop of one pass (2023/day14/day14.py:52-65): every cell of newGrid
      holds the pass, and the count of moved rocks is 0 exactly when the grid is
      settled. */
  method ScanRows(grid: array2<char>, newGrid: array2<char>, ghost g: Grid) returns (nbTilt: nat)
    requires grid != newGrid && g == Snapshot(grid)
    requires newGrid.Length0 == grid.Length0 && newGrid.Length1 == grid.Length1
    modifies newGrid
    ensures forall x, y :: 0 <= x < grid.Length0 && 0 <= y < grid.Length1 ==> newGrid[x, y] == StepColumn(g[x])[y]
    ensures nbTilt == 0 <==> Settled(g)
  {
    var w, h := grid.Length0, grid.Length1;
    nbTilt := 0;
    for y := 0 to h
      invariant forall x', y' :: 0 <= x' < w && 0 <= y' < y - 1 ==> newGrid[x', y'] == StepColumn(g[x'])[y']
      invariant y > 0 ==> forall x' :: 0 <= x' < w ==> newGrid[x', y - 1] == Visited(g[x'], y - 1)
      invariant nbTilt == 0 <==> forall x', y' :: 0 <= x' < w && 0 <= y' < y ==> !Leaving(g[x'], y')
    {
      var moved := ScanRow(grid, newGrid, y, g);
      nbTilt := nbTilt + moved;
    }
    forall x' | 0 <= x' < w && h > 0 ensures newGrid[x', h - 1] == StepColumn(g[x'])[h - 1] {
    }
  }

  /** One pass of the while-loop of tilt_grid (2023/day14/day14.py:46-65): a new grid
      holding the pass, and the number of rocks moved, which is 0 exactly when the grid
      is settled. */
  method TiltPass(grid: array2<char>) returns (newGrid: array2<char>, nbTilt: nat)
    ensures fresh(newGrid) && newGrid.Length0 == grid.Length0 && newGrid.Length1 == grid.Length1
    ensures Snapshot(newGrid) == Pass(Snapshot(grid))
    ensures nbTilt == 0 <==> Settled(Snapshot(grid))
  {
    ghost var g := Snapshot(grid);
    newGrid := new char[grid.Length0, grid.Length1]((x, y) => EMPTY);
    nbTilt := ScanRows(grid, newGrid, g);
    SameEntries(Snapshot(newGrid), Pass(g));
  }

  /** tilt_grid (2023/day14/day14.py:43-75): passes until none moves a rock. The grid
      ends settled, with its cube rocks in place, as many rounded rocks in every
      column and at least the load it had; the returned grid holds the same cells. */
  method TiltGrid(grid: array2<char>) returns (newGrid: array2<char>)
    modifies grid
    ensures Snapshot(newGrid) == Snapshot(grid)
    ensures Settled(Snapshot(grid))
    ensures exists k: nat :: Snapshot(grid) == Passes(old(Snapshot(grid)), k)
    ensures SameFrame(old(Snapshot(grid)), Snapshot(grid))
    ensures GridLoad(Snapshot(grid)) >= GridLoad(old(Snapshot(grid)))
  {
    var h := grid.Length1;
    ghost var g0 := Snapshot(grid);
    ghost var cur := g0;
    ghost var k: nat := 0;
    var nbTilt: nat := 1;
    newGrid := grid;
    while nbTilt != 0
      invariant grid.Length1 == h && Rect(cur, h) && Snapshot(grid) == cur && cur == Passes(g0, k)
      invariant nbTilt == 0 ==> Snapshot(newGrid) == cur && Settled(cur)
      invariant SameFrame(g0, cur) && GridRounded(cur) == GridRounded(g0)
      invariant GridLoad(cur) >= GridLoad(g0)
      decreases nbTilt != 0, h * GridRounded(g0) - GridLoad(cur)
    {
      PassProgress(g0, cur, h);
      newGrid, nbTilt := TiltPass(grid);
      CopyInto(grid, newGrid);
      cur := Pass(cur);
      k := k + 1;
    }
  }

  // ---------------------------------------------------------------------------
  // find_total_load

  /** Σ_{x < n} f(x, y) */
  function RowSum(f: (int, int) -> int, y: int, n: nat): int {
    if n == 0 then 0 else RowSum(f, y, n - 1) + f(n - 1, y)
  }

  /** Σ_{y < n} Σ_{x < w} f(x, y): the cells row by row. */
  function Rows(f: (int, int) -> int, w: nat, n: nat): int {
    if n == 0 then 0 else Rows(f, w, n - 1) + RowSum(f, n - 1, w)
  }

  /** Σ_{y < n} f(x, y) */
  function ColSum(f: (int, int) -> int, x: int, n: nat): int {
    if n == 0 then 0 else ColSum(f, x, n - 1) + f(x, n - 1)
  }

  /** Σ_{x < n} Σ_{y < h} f(x, y): the cells column by column. */
  function Cols(f: (int, int) -> int, n: nat, h: nat): int {
    if n == 0 then 0 else Cols(f, n - 1, h) + ColSum(f, n - 1, h)
  }

  lemma {:induction false} ColsStep(f: (int, int) -> int, n: nat, h: nat)
    ensures Cols(f, n, h + 1) == Cols(f, n, h) + RowSum(f, h, n)
  {
    if n > 0 {
      ColsStep(f, n - 1, h);
    }
  }

  lemma {:induction false} ColsEmpty(f: (int, int) -> int, n: nat)
    ensures Cols(f, n, 0) == 0
  {
    if n > 0 {
      ColsEmpty(f, n - 1);
    }
  }

  /** Summing a rectangle row by row or column by column gives the same total. */
  lemma {:induction false} RowsAreCols(f: (int, int) -> int, w: nat, h: nat)
    ensures Rows(f, w, h) == Cols(f, w, h)
  {
    if h > 0 {
      RowsAreCols(f, w, h - 1);
      ColsStep(f, w, h - 1);
      assert Rows(f, w, h) == Rows(f, w, h - 1) + RowSum(f, h - 1, w);
      assert Cols(f, w, h) == Cols(f, w, h - 1) + RowSum(f, h - 1, w);
    } else {
      ColsEmpty(f, w);
    }
  }

  /** The load of the cell (x, y) of a grid of h rows. */
  function LoadAt(g: Grid, h: nat, x: int, y: int): int {
    if 0 <= x < |g| && 0 <= y < |g[x]| && g[x][y] == ROUNDED then h - y else 0
  }

  /** Σ_{y < n} (|c| - y) over the rocks among the first n cells of c. */
  function PrefixLoad(c: seq<char>, n: nat): int
    requires n <= |c|
  {
    if n == 0 then 0 else PrefixLoad(c, n - 1) + (if c[n - 1] == ROUNDED then |c| - (n - 1) else 0)
  }

  lemma {:induction false} PrefixLoadShift(c: seq<char>, n: nat)
    requires 1 <= n <= |c|
    ensures PrefixLoad(c, n) == (if c[0] == ROUNDED then |c| else 0) + PrefixLoad(c[1..], n - 1)
  {
    if n > 1 {
      PrefixLoadShift(c, n - 1);
      assert c[1..][n - 2] == c[n - 1];
    }
  }

  lemma {:induction false} PrefixLoadFull(c: seq<char>)
    ensures PrefixLoad(c, |c|) == ColumnLoad(c)
  {
    if c != [] {
      PrefixLoadShift(c, |c|);
      PrefixLoadFull(c[1..]);
    }
  }

  lemma {:induction false} ColumnIsColSum(g: Grid, h: nat, x: int, n: nat)
    requires 0 <= x < |g| && |g[x]| == h && n <= h
    ensures ColSum((x', y') => LoadAt(g, h, x', y'), x, n) == PrefixLoad(g[x], n)
  {
    if n > 0 {
      ColumnIsColSum(g, h, x, n - 1);
    }
  }

  lemma {:induction false} GridLoadIsCols(g: Grid, h: nat, n: nat)
    requires Rect(g, h) && n <= |g|
    ensures Cols((x', y') => LoadAt(g, h, x', y'), n, h) == GridLoad(g[..n])
  {
    if n > 0 {
      GridLoadIsCols(g, h, n - 1);
      assert g[..n][..n - 1] == g[..n - 1];
      ColumnIsColSum(g, h, n - 1, h);
      PrefixLoadFull(g[n - 1]);
    }
  }

  /** find_total_load (2023/day14/day14.py:78-97): the total load of the grid, summed
      row by row. */
  method FindTotalLoad(grid: array2<char>) returns (totalLoad: int)
    ensures totalLoad == GridLoad(Snapshot(grid))
  {
    ghost var g := Snapshot(grid);
    var w, h := grid.Length0, grid.Length1;
    ghost var f := (x', y') => LoadAt(g, h, x', y');
    totalLoad := 0;
    for y := 0 to h
      invariant totalLoad == Rows(f, w, y)
    {
      for x := 0 to w
        invariant totalLoad == Rows(f, w, y) + RowSum(f, y, x)
      {
        if grid[x, y] == ROUNDED {
          var loadForCurrentRock := h - y;
          totalLoad := totalLoad + loadForCurrentRock;
        }
      }
    }
    RowsAreCols(f, w, h);
    GridLoadIsCols(g, h, w);
    assert g[..w] == g;
  }
}
