/** The expanding universe of 2023/day11/day11.py: an array space[x][y] holds galaxies
    (1) and empty space (0); every column and row without a galaxy grows by a factor,
    and the answer is the sum of the Manhattan distances between all pairs of expanded
    galaxies. */
module CosmicExpansion {

  const SPACE_EMPTY: int := 0
  const SPACE_GALAXY: int := 1

  type Coord = (int, int)

  function Abs(v: int): int {
    if v < 0 then -v else v
  }

  /** manhattan_distance (2023/day11/day11.py:20-22): never negative and 0 only between
      equal coordinates. */
  function ManhattanDistance(c1: Coord, c2: Coord): (d: int)
    ensures d >= 0 && (d == 0 <==> c1 == c2)
  {
    Abs(c1.0 - c2.0) + Abs(c1.1 - c2.1)
  }

  lemma ManhattanSymmetric(c1: Coord, c2: Coord)
    ensures ManhattanDistance(c1, c2) == ManhattanDistance(c2, c1)
  {
  }

  lemma ManhattanTriangle(a: Coord, b: Coord, c: Coord)
    ensures ManhattanDistance(a, c) <= ManhattanDistance(a, b) + ManhattanDistance(b, c)
  {
  }

  // ---------------------------------------------------------------------------
  // Expanding one coordinate

  /** One more than the last position n of empties with v > empties[n], or 0: the
      factor expand_coord applies to the expansion. */
  function LastLess(empties: seq<int>, v: int): (k: nat)
    ensures k <= |empties|
  {
    if empties == [] then 0
    else if v > empties[|empties| - 1] then |empties|
    else LastLess(empties[..|empties| - 1], v)
  }

  /** The number of empties below v. */
  function CountLess(empties: seq<int>, v: int): (k: nat)
    ensures k <= |empties|
  {
    if empties == [] then 0
    else CountLess(empties[..|empties| - 1], v) + (if empties[|empties| - 1] < v then 1 else 0)
  }

  /** The number of empties c with u <= c < v. */
  function CountRange(empties: seq<int>, u: int, v: int): nat {
    if empties == [] then 0
    else CountRange(empties[..|empties| - 1], u, v) + (if u <= empties[|empties| - 1] < v then 1 else 0)
  }

  predicate Ascending(s: seq<int>) {
    forall i, j :: 0 <= i < j < |s| ==> s[i] < s[j]
  }

  lemma {:induction false} AllBelow(empties: seq<int>, v: int)
    requires forall i :: 0 <= i < |empties| ==> empties[i] < v
    ensures CountLess(empties, v) == |empties|
  {
    if empties != [] {
      AllBelow(empties[..|empties| - 1], v);
    }
  }

  /** On an ascending list the last empty below v is the number of empties below v. */
  lemma {:induction false} LastLessCounts(empties: seq<int>, v: int)
    requires Ascending(empties)
    ensures LastLess(empties, v) == CountLess(empties, v)
  {
    if empties != [] {
      var p := empties[..|empties| - 1];
      if v > empties[|empties| - 1] {
        AllBelow(empties, v);
      } else {
        LastLessCounts(p, v);
      }
    }
  }

  lemma {:induction false} CountLessDifference(empties: seq<int>, u: int, v: int)
    requires u <= v
    ensures CountLess(empties, v) - CountLess(empties, u) == CountRange(empties, u, v)
  {
    if empties != [] {
      CountLessDifference(empties[..|empties| - 1], u, v);
    }
  }

  /** The coordinate v after expand_coord's loop over the empties. */
  function ExpandAxis(empties: seq<int>, v: int, expansion: int): int {
    v + LastLess(empties, v) * expansion
  }

  /** expand_coord (2023/day11/day11.py:33-67). */
  method ExpandCoord(colsEmpty: seq<int>, rowsEmpty: seq<int>, coord: Coord, expansion: int) returns (r: Coord)
    ensures r == (ExpandAxis(colsEmpty, coord.0, expansion), ExpandAxis(rowsEmpty, coord.1, expansion))
  {
    var newCoordX := coord.0;
    var newCoordY := coord.1;
    for n := 0 to |colsEmpty|
      invariant newCoordX == ExpandAxis(colsEmpty[..n], coord.0, expansion)
    {
      assert colsEmpty[..n + 1][..n] == colsEmpty[..n];
      if coord.0 > colsEmpty[n] {
        newCoordX := coord.0 + (n + 1) * expansion;
      }
    }
    for n := 0 to |rowsEmpty|
      invariant newCoordY == ExpandAxis(rowsEmpty[..n], coord.1, expansion)
    {
      assert rowsEmpty[..n + 1][..n] == rowsEmpty[..n];
      if coord.1 > rowsEmpty[n] {
        newCoordY := coord.1 + (n + 1) * expansion;
      }
    }
    assert colsEmpty[..|colsEmpty|] == colsEmpty && rowsEmpty[..|rowsEmpty|] == rowsEmpty;
    return (newCoordX, newCoordY);
  }

  /** With an ascending list of empties a coordinate grows by the expansion once per
      empty below it: it never decreases for a non-negative expansion and stays put
      for expansion 0. */
  lemma ExpandAxisCounts(empties: seq<int>, v: int, expansion: int)
    requires Ascending(empties)
    ensures ExpandAxis(empties, v, expansion) == v + CountLess(empties, v) * expansion
    ensures expansion >= 0 ==> ExpandAxis(empties, v, expansion) >= v
    ensures expansion == 0 ==> ExpandAxis(empties, v, expansion) == v
  {
    LastLessCounts(empties, v);
  }

  /** The number of empties between two coordinates, counted from the smaller. */
  function Between(empties: seq<int>, u: int, v: int): nat {
    if u <= v then CountRange(empties, u, v) else CountRange(empties, v, u)
  }

  lemma {:induction false} ExpandAxisStep(empties: seq<int>, u: int, v: int, expansion: int)
    requires Ascending(empties) && expansion >= 0 && u <= v
    ensures ExpandAxis(empties, v, expansion) - ExpandAxis(empties, u, expansion) ==
            (v - u) + expansion * CountRange(empties, u, v)
    ensures (v - u) + expansion * CountRange(empties, u, v) >= 0
  {
    LastLessCounts(empties, u);
    LastLessCounts(empties, v);
    CountLessDifference(empties, u, v);
    var k := CountRange(empties, u, v);
    var cu := CountLess(empties, u);
    assert CountLess(empties, v) == cu + k;
    assert (cu + k) * expansion - cu * expansion == expansion * k;
    assert expansion * k >= 0;
  }

  lemma {:induction false} ExpandAxisDistance(empties: seq<int>, u: int, v: int, expansion: int)
    requires Ascending(empties) && expansion >= 0
    ensures Abs(ExpandAxis(empties, u, expansion) - ExpandAxis(empties, v, expansion)) ==
            Abs(u - v) + expansion * Between(empties, u, v)
  {
    if u <= v {
      ExpandAxisStep(empties, u, v, expansion);
    } else {
      ExpandAxisStep(empties, v, u, expansion);
    }
  }

  /** After expansion two galaxies lie as far apart as before plus the expansion once
      for every empty column and row between them. */
  lemma ExpandedDistance(cols: seq<int>, rows: seq<int>, a: Coord, b: Coord, expansion: int)
    requires Ascending(cols) && Ascending(rows) && expansion >= 0
    ensures ManhattanDistance((ExpandAxis(cols, a.0, expansion), ExpandAxis(rows, a.1, expansion)),
                              (ExpandAxis(cols, b.0, expansion), ExpandAxis(rows, b.1, expansion))) ==
            ManhattanDistance(a, b) + expansion * (Between(cols, a.0, b.0) + Between(rows, a.1, b.1))
  {
    ExpandAxisDistance(cols, a.0, b.0, expansion);
    ExpandAxisDistance(rows, a.1, b.1, expansion);
  }

  // ---------------------------------------------------------------------------
  // Empty columns and rows

  function SizeX(space: seq<seq<int>>): nat {
    |space|
  }

  function SizeY(space: seq<seq<int>>): nat {
    if space == [] then 0 else |space[0]|
  }

  /** A rectangular array, as parse_file builds it. */
  predicate Rectangular(space: seq<seq<int>>) {
    forall x :: 0 <= x < |space| ==> |space[x]| == SizeY(space)
  }

  predicate ColumnEmpty(space: seq<seq<int>>, x: int)
    requires Rectangular(space) && 0 <= x < SizeX(space)
  {
    forall y :: 0 <= y < SizeY(space) ==> space[x][y] != SPACE_GALAXY
  }

  predicate RowEmpty(space: seq<seq<int>>, y: int)
    requires Rectangular(space) && 0 <= y < SizeY(space)
  {
    forall x :: 0 <= x < SizeX(space) ==> space[x][y] != SPACE_GALAXY
  }

  /** The empty columns below n, in increasing order. */
  function ColumnsEmpty(space: seq<seq<int>>, n: nat): seq<int>
    requires Rectangular(space) && n <= SizeX(space)
  {
    if n == 0 then [] else ColumnsEmpty(space, n - 1) + (if ColumnEmpty(space, n - 1) then [n - 1] else [])
  }

  function RowsEmpty(space: seq<seq<int>>, n: nat): seq<int>
    requires Rectangular(space) && n <= SizeY(space)
  {
    if n == 0 then [] else RowsEmpty(space, n - 1) + (if RowEmpty(space, n - 1) then [n - 1] else [])
  }

  /** columns_empty lists exactly the columns without a galaxy, in increasing order. */
  lemma {:induction false} ColumnsEmptyExact(space: seq<seq<int>>, n: nat)
    requires Rectangular(space) && n <= SizeX(space)
    ensures Ascending(ColumnsEmpty(space, n))
    ensures forall i :: 0 <= i < |ColumnsEmpty(space, n)| ==> 0 <= ColumnsEmpty(space, n)[i] < n
    ensures forall x :: 0 <= x < n ==> (x in ColumnsEmpty(space, n) <==> ColumnEmpty(space, x))
  {
    if n > 0 {
      ColumnsEmptyExact(space, n - 1);
    }
  }

  /** rows_empty lists exactly the rows without a galaxy, in increasing order. */
  lemma {:induction false} RowsEmptyExact(space: seq<seq<int>>, n: nat)
    requires Rectangular(space) && n <= SizeY(space)
    ensures Ascending(RowsEmpty(space, n))
    ensures forall i :: 0 <= i < |RowsEmpty(space, n)| ==> 0 <= RowsEmpty(space, n)[i] < n
    ensures forall y :: 0 <= y < n ==> (y in RowsEmpty(space, n) <==> RowEmpty(space, y))
  {
    if n > 0 {
      RowsEmptyExact(space, n - 1);
    }
  }

  /** The column scan of find_shortest_paths (2023/day11/day11.py:102-104). */
  method FindColumnsEmpty(space: seq<seq<int>>) returns (columnsEmpty: seq<int>)
    requires Rectangular(space)
    ensures columnsEmpty == ColumnsEmpty(space, SizeX(space))
  {
    columnsEmpty := [];
    for x := 0 to SizeX(space)
      invariant columnsEmpty == ColumnsEmpty(space, x)
    {
      if ColumnEmpty(space, x) {
        columnsEmpty := columnsEmpty + [x];
      }
    }
  }

  /** The row scan of find_shortest_paths (2023/day11/day11.py:107-109). */
  method FindRowsEmpty(space: seq<seq<int>>) returns (rowsEmpty: seq<int>)
    requires Rectangular(space)
    ensures rowsEmpty == RowsEmpty(space, SizeY(space))
  {
    rowsEmpty := [];
    for y := 0 to SizeY(space)
      invariant rowsEmpty == RowsEmpty(space, y)
    {
      if RowEmpty(space, y) {
        rowsEmpty := rowsEmpty + [y];
      }
    }
  }

  // ---------------------------------------------------------------------------
  // Galaxies and the pair sum

  /** The galaxies of row y in columns below x, left to right. */
  function RowGalaxies(space: seq<seq<int>>, y: int, x: nat): seq<Coord>
    requires Rectangular(space) && 0 <= y < SizeY(space) && x <= SizeX(space)
  {
    if x == 0 then [] else RowGalaxies(space, y, x - 1) + (if space[x - 1][y] == SPACE_GALAXY then [(x - 1, y)] else [])
  }

  /** The galaxies of the rows below y, row by row: the order of the scan. */
  function GalaxiesUpTo(space: seq<seq<int>>, y: nat): seq<Coord>
    requires Rectangular(space) && y <= SizeY(space)
  {
    if y == 0 then [] else GalaxiesUpTo(space, y - 1) + RowGalaxies(space, y - 1, SizeX(space))
  }

  function ExpandAll(cols: seq<int>, rows: seq<int>, cs: seq<Coord>, expansion: int): (r: seq<Coord>)
    ensures |r| == |cs|
    ensures forall i :: 0 <= i < |cs| ==> r[i] == (ExpandAxis(cols, cs[i].0, expansion), ExpandAxis(rows, cs[i].1, expansion))
  {
    if cs == [] then []
    else ExpandAll(cols, rows, cs[..|cs| - 1], expansion) +
         [(ExpandAxis(cols, cs[|cs| - 1].0, expansion), ExpandAxis(rows, cs[|cs| - 1].1, expansion))]
  }

  /** The distances from g to every galaxy of gs. */
  function DistancesTo(gs: seq<Coord>, g: Coord): int {
    if gs == [] then 0 else DistancesTo(gs[..|gs| - 1], g) + ManhattanDistance(gs[|gs| - 1], g)
  }

  /** The sum over combinations(gs, 2) of the Manhattan distances. */
  function SumPairs(gs: seq<Coord>): int {
    if gs == [] then 0 else SumPairs(gs[..|gs| - 1]) + DistancesTo(gs[..|gs| - 1], gs[|gs| - 1])
  }

  lemma {:induction false} DistancesToNonNegative(gs: seq<Coord>, g: Coord)
    ensures DistancesTo(gs, g) >= 0
  {
    if gs != [] {
      DistancesToNonNegative(gs[..|gs| - 1], g);
    }
  }

  /** The pair sum is never negative. */
  lemma {:induction false} SumPairsNonNegative(gs: seq<Coord>)
    ensures SumPairs(gs) >= 0
  {
    if gs != [] {
      SumPairsNonNegative(gs[..|gs| - 1]);
      DistancesToNonNegative(gs[..|gs| - 1], gs[|gs| - 1]);
    }
  }

  /** find_shortest_paths (2023/day11/day11.py:92-122): galaxies in row-major scan order,
      each expanded by expansion - 1 per empty column or row below it, and the sum of
      their pairwise distances. */
  method FindShortestPaths(space: seq<seq<int>>, expansion: int) returns (r: int)
    requires Rectangular(space)
    ensures r == SumPairs(ExpandAll(ColumnsEmpty(space, SizeX(space)), RowsEmpty(space, SizeY(space)),
                                    GalaxiesUpTo(space, SizeY(space)), expansion - 1))
  {
    var columnsEmpty := FindColumnsEmpty(space);
    var rowsEmpty := FindRowsEmpty(space);
    var galaxies: seq<Coord> := [];
    for y := 0 to SizeY(space)
      invariant galaxies == ExpandAll(columnsEmpty, rowsEmpty, GalaxiesUpTo(space, y), expansion - 1)
    {
      galaxies := ScanRow(space, y, columnsEmpty, rowsEmpty, expansion, galaxies);
    }
    r := SumPairs(galaxies);
  }

  /** The inner loop of the galaxy scan (2023/day11/day11.py:113-117) over row y. */
  method ScanRow(space: seq<seq<int>>, y: int, columnsEmpty: seq<int>, rowsEmpty: seq<int>, expansion: int,
                 galaxies0: seq<Coord>) returns (galaxies: seq<Coord>)
    requires Rectangular(space) && 0 <= y < SizeY(space)
    ensures galaxies == galaxies0 + ExpandAll(columnsEmpty, rowsEmpty, RowGalaxies(space, y, SizeX(space)), expansion - 1)
  {
    galaxies := galaxies0;
    for x := 0 to SizeX(space)
      invariant galaxies == galaxies0 + ExpandAll(columnsEmpty, rowsEmpty, RowGalaxies(space, y, x), expansion - 1)
    {
      if space[x][y] == SPACE_GALAXY {
        var g := ExpandCoord(columnsEmpty, rowsEmpty, (x, y), expansion - 1);
        galaxies := galaxies + [g];
      }
    }
  }
}
