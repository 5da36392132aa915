/** The monkey map of day22/day22.py: the tile map, its flat wrap-around jumps,
    the faces of the cube net found from the top-left face, the cube jumps that
    glue their sides, and the next position of the walker. */
module MonkeyMap {
  import opened Wrappers
  import opened Arith
  import opened MonkeyCube
  import opened MonkeyFaces

  // ---------------------------------------------------------------------------
  // find_boundaries

  /** The first index at or after i of a nonzero value, or -1. */
  function FirstNonzero(a: seq<int>, i: nat): (r: int)
    requires i <= |a|
    ensures r == -1 || i <= r < |a|
    decreases |a| - i
  {
    if i == |a| then -1 else if a[i] != 0 then i else FirstNonzero(a, i + 1)
  }

  /** The last index of the stretch of values that goes on from i up to the next
      zero or the end. */
  function RunEnd(a: seq<int>, i: nat): (r: nat)
    requires i < |a|
    ensures i <= r < |a|
    decreases |a| - i
  {
    if i == |a| - 1 || a[i + 1] == 0 then i else RunEnd(a, i + 1)
  }

  /** The first nonzero stretch of a, as its first and last index; (-1, -1) when a
      holds only zeros. */
  function Boundaries(a: seq<int>): (int, int) {
    var l := FirstNonzero(a, 0);
    if l < 0 then (-1, -1) else (l, RunEnd(a, l) as int)
  }

  lemma {:induction false} FirstNonzeroMeaning(a: seq<int>, i: nat)
    requires i <= |a|
    ensures var r := FirstNonzero(a, i);
      (r == -1 <==> forall k :: i <= k < |a| ==> a[k] == 0) &&
      (r != -1 ==> a[r] != 0 && forall k :: i <= k < r ==> a[k] == 0)
    decreases |a| - i
  {
    if i < |a| && a[i] == 0 {
      FirstNonzeroMeaning(a, i + 1);
    }
  }

  lemma {:induction false} RunEndMeaning(a: seq<int>, i: nat)
    requires i < |a| && a[i] != 0
    ensures var r := RunEnd(a, i);
      (forall k :: i <= k <= r ==> a[k] != 0) && (r == |a| - 1 || a[r + 1] == 0)
    decreases |a| - i
  {
    if i < |a| - 1 && a[i + 1] != 0 {
      RunEndMeaning(a, i + 1);
    }
  }

  /** find_boundaries (day22/day22.py:127-145): (-1, -1) exactly when every value is
      zero; otherwise left is the first nonzero index and right the end of the
      nonzero stretch that starts there. */
  lemma BoundariesMeaning(a: seq<int>)
    ensures var (l, r) := Boundaries(a);
      (l == -1 <==> forall k :: 0 <= k < |a| ==> a[k] == 0) &&
      (l == -1 ==> r == -1) &&
      (l != -1 ==> 0 <= l <= r < |a| &&
                   (forall k :: 0 <= k < l ==> a[k] == 0) &&
                   (forall k :: l <= k <= r ==> a[k] != 0) &&
                   (r == |a| - 1 || a[r + 1] == 0))
  {
    FirstNonzeroMeaning(a, 0);
    var l := FirstNonzero(a, 0);
    if l != -1 {
      RunEndMeaning(a, l);
    }
  }

  /** find_boundaries (day22/day22.py:127-145). */
  method FindBoundaries(a: seq<int>) returns (left: int, right: int)
    ensures (left, right) == Boundaries(a)
  {
    left, right := -1, -1;
    for x := 0 to |a|
      invariant left == -1 ==> right == -1 && FirstNonzero(a, 0) == FirstNonzero(a, x)
      invariant left != -1 ==> left == FirstNonzero(a, 0) && 0 <= left < x
      invariant left != -1 && right == -1 ==> x < |a| && a[x] != 0 && RunEnd(a, left) == RunEnd(a, x)
      invariant left != -1 && right != -1 ==> right == RunEnd(a, left)
    {
      if left == -1 && a[x] != 0 {
        left := x;
      }
      if left >= 0 && right == -1 {
        if (x < |a| - 1 && a[x + 1] == 0) || (x == |a| - 1 && a[x] != 0) {
          right := x;
        }
      }
    }
  }

  // ---------------------------------------------------------------------------
  // Direction

  /** The facing after turning by letter: a quarter clockwise for 'R', a quarter
      anticlockwise for 'L' (Python's % on a positive modulus, as Dafny's). */
  function Turned(d: int, letter: char): int {
    if letter == 'R' then (d + 1) % 4
    else if letter == 'L' then (d - 1) % 4
    else d
  }

  /** Direction (day22/day22.py:194-216). */
  class Direction {
    var direction: int

    constructor (d: int)
      ensures direction == d
    {
      direction := d;
    }

    /** Direction.turn (day22/day22.py:208-216): 'R' and 'L' turn; any other letter
        is refused (the TypeError) and changes nothing. */
    method Turn(letter: char) returns (ok: bool)
      modifies this
      ensures ok <==> letter == 'R' || letter == 'L'
      ensures direction == Turned(old(direction), letter)
    {
      if letter == 'R' {
        direction := (direction + 1) % 4;
      } else if letter == 'L' {
        direction := (direction - 1) % 4;
      } else {
        return false;
      }
      return true;
    }
  }

  /** A turn always leaves a facing in 0..3, from any facing. */
  lemma TurnedRange(d: int, letter: char)
    requires letter == 'R' || letter == 'L' || 0 <= d < 4
    ensures 0 <= Turned(d, letter) < 4
  {
  }

  /** 'R' then 'L', or 'L' then 'R', gives back the facing; four turns the same way
      too. */
  lemma TurnBack(d: int)
    requires 0 <= d < 4
    ensures Turned(Turned(d, 'R'), 'L') == d && Turned(Turned(d, 'L'), 'R') == d
    ensures Turned(Turned(Turned(Turned(d, 'R'), 'R'), 'R'), 'R') == d
  {
  }

  // ---------------------------------------------------------------------------
  // Travelling through the faces of the net

  /** The grid positions the traversal looks at from c: right, left, down. */
  function Onward(c: Tile): seq<Tile> {
    [(c.0 + 1, c.1), (c.0 - 1, c.1), (c.0, c.1 + 1)]
  }

  /** The positions of the faces. */
  function Coords(faces: seq<Face>): set<Tile> {
    set f | f in faces :: f.coord
  }

  /** Every face of net that the traversal looks at from p is in S. */
  ghost predicate ClosedIn(p: Tile, S: set<Tile>, net: set<Tile>) {
    forall n :: n in Onward(p) && n in net ==> n in S
  }

  /** A set containing the start and closed at each of its members holds every face
      of the net reachable from the start through the faces the traversal looks at. */
  lemma {:induction false} ClosedHoldsReachable(S: set<Tile>, net: set<Tile>, path: seq<Tile>)
    requires |path| > 0 && path[0] in S
    requires forall s :: s in S ==> ClosedIn(s, S, net)
    requires forall i :: 0 < i < |path| ==> path[i] in Onward(path[i - 1]) && path[i] in net
    ensures path[|path| - 1] in S
    decreases |path|
  {
    if |path| > 1 {
      ClosedHoldsReachable(S, net, path[..|path| - 1]);
      assert path[|path| - 2] in S;
    }
  }

  /** The positions the traversal as written looks at from c in a w by h grid of
      faces (day22/day22.py:540-560): right and left only when 0 < x < w - 1, down
      when y < h - 1. */
  function OnwardAsWritten(c: Tile, w: int, h: int): seq<Tile> {
    (if 0 < c.0 < w - 1 then [(c.0 + 1, c.1), (c.0 - 1, c.1)] else []) +
    (if 0 <= c.1 < h - 1 then [(c.0, c.1 + 1)] else [])
  }

  ghost predicate ClosedAsWritten(p: Tile, S: set<Tile>, net: set<Tile>, w: int, h: int) {
    forall n :: n in OnwardAsWritten(p, w, h) && n in net ==> n in S
  }

  /** The six faces of a two-wide net: three down the left column, then three down
      the right column from the third row. */
  function Staircase(): set<Tile> {
    {(0, 0), (0, 1), (0, 2), (1, 2), (1, 3), (1, 4)}
  }

  /** As written, the traversal from (0, 0) of the two-by-five staircase never looks
      right from column 0: the first three faces are closed under what it looks at,
      so it stops there and face (1, 2) (with the two below it) gets no face. */
  lemma AsWrittenStopsShort()
    ensures var S := {(0, 0), (0, 1), (0, 2)};
      (0, 0) in S && (forall s :: s in S ==> ClosedAsWritten(s, S, Staircase(), 2, 5)) &&
      (1, 2) in Staircase() && (1, 2) !in S
  {
    var S := {(0, 0), (0, 1), (0, 2)};
    assert OnwardAsWritten((0, 0), 2, 5) == [(0, 1)];
    assert OnwardAsWritten((0, 1), 2, 5) == [(0, 2)];
    assert OnwardAsWritten((0, 2), 2, 5) == [(0, 3)];
  }

  /** Looking right whenever there is a column to the right, any set closed under the
      corrected traversal and holding (0, 0) holds the whole staircase. */
  lemma CorrectedReachesStaircase(S: set<Tile>)
    requires (0, 0) in S && forall s :: s in S ==> ClosedIn(s, S, Staircase())
    ensures Staircase() <= S
  {
    var net := Staircase();
    var path := [(0, 0), (0, 1), (0, 2), (1, 2), (1, 3), (1, 4)];
    forall k | 0 < k <= 5 ensures path[k] in S {
      ClosedHoldsReachable(S, net, path[..k + 1]);
    }
  }

  /** Two writes into a union land in its right-hand map. */
  lemma UnionUpdate(j: map<Key, Key>, r: map<Key, Key>, k1: Key, v1: Key, k2: Key, v2: Key)
    ensures (j + r)[k1 := v1][k2 := v2] == j + r[k1 := v1][k2 := v2]
  {
  }

  lemma PrefixTrans(a: seq<Face>, b: seq<Face>, c: seq<Face>)
    requires a <= b && b <= c
    ensures a <= c
  {
    assert forall i :: 0 <= i < |a| ==> a[i] == b[i] == c[i];
  }

  /** A face appended to a and kept by every later extension sits at index |a|. */
  lemma NewFaceKept(a: seq<Face>, f: Face, b: seq<Face>, c: seq<Face>)
    requires b == a + [f] && b <= c
    ensures a <= c && c[|a|] == f
  {
    assert c[|a|] == b[|a|];
    assert forall i :: 0 <= i < |a| ==> a[i] == b[i] == c[i];
  }

  /** The positions of a prefix are positions of the whole. */
  lemma CoordsPrefix(a: seq<Face>, b: seq<Face>)
    requires a <= b
    ensures Coords(a) <= Coords(b)
  {
    forall c | c in Coords(a) ensures c in Coords(b) {
      var f :| f in a && f.coord == c;
      var i :| 0 <= i < |a| && a[i] == f;
      assert b[i] == f;
    }
  }

  /** The faces from position lo on are closed in the positions of all faces. */
  ghost predicate ClosedFrom(faces: seq<Face>, lo: int, net: set<Tile>) {
    forall i :: 0 <= i && lo <= i < |faces| ==> ClosedIn(faces[i].coord, Coords(faces), net)
  }

  /** Closure survives the addition of faces that are closed themselves. */
  lemma ClosedFromGrow(a: seq<Face>, b: seq<Face>, lo: int, net: set<Tile>)
    requires a <= b && 0 <= lo && ClosedFrom(a, lo, net) && ClosedFrom(b, |a|, net)
    ensures ClosedFrom(b, lo, net)
  {
    CoordsPrefix(a, b);
    forall i | lo <= i < |a| ensures ClosedIn(b[i].coord, Coords(b), net) {
      assert b[i] == a[i];
    }
  }

  /** A position is closed once each of the three positions the traversal moves on
      to is found whenever it holds a face. */
  lemma ClosedByLooks(x: int, y: int, net: set<Tile>, s1: set<Tile>, s2: set<Tile>, s3: set<Tile>)
    requires s1 <= s2 <= s3
    requires (x + 1, y) in net ==> (x + 1, y) in s1
    requires (x - 1, y) in net ==> (x - 1, y) in s2
    requires (x, y + 1) in net ==> (x, y + 1) in s3
    ensures ClosedIn((x, y), s3, net)
  {
  }

  /** A face closed in the positions extends closure to it. */
  lemma ClosedFromExtend(faces: seq<Face>, lo: int, net: set<Tile>)
    requires 0 <= lo < |faces| && ClosedFrom(faces, lo + 1, net)
    requires ClosedIn(faces[lo].coord, Coords(faces), net)
    ensures ClosedFrom(faces, lo, net)
  {
  }

  /** Removing a member strictly shrinks a finite set. */
  lemma ShrinkCard(U: set<Tile>, V: set<Tile>, c: Tile)
    requires c in U && V <= U - {c}
    ensures |V| < |U|
  {
    SubsetCard(V, U - {c});
  }

  lemma {:induction false} SubsetCard(V: set<Tile>, U: set<Tile>)
    requires V <= U
    ensures |V| <= |U|
    decreases U
  {
    if V != {} {
      var x :| x in V;
      SubsetCard(V - {x}, U - {x});
    }
  }

  /** The zip loop of set_jumps_as_cube (day22/day22.py:488-509) over side d1 of f1 and
      side d2 of f2, writing into the jump table m; nothing is written when the two
      sides are already continuous. */
  method WritePairs(m: map<Key, Key>, f1: Face, d1: int, f2: Face, d2: int, continuous: bool)
    returns (jumps: map<Key, Key>)
    requires 0 <= d1 < |f1.edges| && 0 <= d2 < |f2.edges|
    ensures jumps == Apply(m, if continuous then [] else PairWrites(f1, d1, f2, d2))
  {
    jumps := m;
    var c1 := GetCoordsFromEdge(f1, d1);
    var c2 := GetCoordsFromEdge(f2, d2);
    var n := if |c1| < |c2| then |c1| else |c2|;
    ghost var ws := PairWrites(f1, d1, f2, d2);
    assert |ws| == 2 * n;
    for i := 0 to n
      invariant continuous ==> jumps == m
      invariant !continuous ==> jumps == Apply(m, ws[..2 * i])
    {
      if !continuous {
        PairWriteForth(f1, d1, f2, d2, i);
        PairWriteBack(f1, d1, f2, d2, i);
        var a := MapTile(f1, c1[i]);
        var b := MapTile(f2, c2[i]);
        jumps := jumps[(a.0, a.1, d1) := (b.0, b.1, (d2 - 2) % 4 - d1)];
        jumps := jumps[(b.0, b.1, d2) := (a.0, a.1, (d1 - 2) % 4 - d2)];
        ApplyTwo(m, ws, i);
      }
    }
    assert ws[..2 * n] == ws;
  }

  // ---------------------------------------------------------------------------
  // The tile map

  /** Tiles (day22/day22.py:383-416): the map (tiles[x, y], 0 for no tile), the
      face size, the faces found so far in the order they were found, the jump
      table, the cube, the facing and the position. */
  class Tiles {
    const tiles: array2<int>
    var faceSize: int
    var faces: seq<Face>
    var jumps: map<Key, Key>
    const cube: Cube
    const facing: Direction
    var position: Option<Tile>

    /** The facing is one of the four directions, the cube keeps its edges, and
        every jump leaves a facing in 0..3. */
    ghost predicate Valid()
      reads this`jumps, facing
    {
      0 <= facing.direction < 4 && cube.Valid() && TurnsSafely(jumps)
    }

    /** Tiles.__init__ (day22/day22.py:406-416), given the map read_tiles reads. */
    constructor (t: array2<int>)
      ensures Valid() && tiles == t && faceSize == 0 && faces == [] && jumps == map[]
      ensures facing.direction == RIGHT && position == None
      ensures fresh(facing) && fresh(cube) && fresh(cube.Repr) && cube.Snapshot() == InitialEdges()
    {
      tiles := t;
      faceSize := 0;
      faces := [];
      jumps := map[];
      cube := new Cube();
      facing := new Direction(RIGHT);
      position := None;
    }

    /** Row y of the map, tiles[:, y]. */
    function Row(y: int): (r: seq<int>)
      reads tiles
      requires 0 <= y < tiles.Length1
      ensures |r| == tiles.Length0 && forall x :: 0 <= x < tiles.Length0 ==> r[x] == tiles[x, y]
    {
      seq(tiles.Length0, x reads tiles requires 0 <= x < tiles.Length0 => tiles[x, y])
    }

    /** Column x of the map, tiles[x, :]. */
    function Column(x: int): (r: seq<int>)
      reads tiles
      requires 0 <= x < tiles.Length0
      ensures |r| == tiles.Length1 && forall y :: 0 <= y < tiles.Length1 ==> r[y] == tiles[x, y]
    {
      seq(tiles.Length1, y reads tiles requires 0 <= y < tiles.Length1 => tiles[x, y])
    }

    // -------------------------------------------------------------------------
    // The flat wrap (part 1)

    /** The jumps set_jumps_as_plane writes for rows 0..n-1, in the order it writes
        them: each row's left end jumps to its right end and back. */
    ghost function RowMap(n: int): (m: map<Key, Key>)
      reads tiles
      requires 0 <= n <= tiles.Length1
      ensures forall k :: k in m ==> (k.2 == LEFT || k.2 == RIGHT) && m[k].2 == 0
      decreases n
    {
      if n == 0 then map[] else
      var b := Boundaries(Row(n - 1));
      RowMap(n - 1)[(b.0, n - 1, LEFT) := (b.1, n - 1, 0)][(b.1, n - 1, RIGHT) := (b.0, n - 1, 0)]
    }

    /** The jumps set_jumps_as_plane writes for columns 0..n-1. */
    ghost function ColumnMap(n: int): (m: map<Key, Key>)
      reads tiles
      requires 0 <= n <= tiles.Length0
      ensures forall k :: k in m ==> (k.2 == UP || k.2 == DOWN) && m[k].2 == 0
      decreases n
    {
      if n == 0 then map[] else
      var b := Boundaries(Column(n - 1));
      ColumnMap(n - 1)[(n - 1, b.0, UP) := (n - 1, b.1, 0)][(n - 1, b.1, DOWN) := (n - 1, b.0, 0)]
    }

    /** Row y wraps around in m: leaving the row's stretch of tiles to the left lands
        on its right end, leaving it to the right lands on its left end, facing
        unchanged. */
    ghost predicate RowWraps(m: map<Key, Key>, y: int)
      reads tiles
      requires 0 <= y < tiles.Length1
    {
      var b := Boundaries(Row(y));
      (b.0, y, LEFT) in m && m[(b.0, y, LEFT)] == (b.1, y, 0) &&
      (b.1, y, RIGHT) in m && m[(b.1, y, RIGHT)] == (b.0, y, 0)
    }

    /** Column x wraps around in m the same way: up to the bottom end and down to the
        top end. */
    ghost predicate ColumnWraps(m: map<Key, Key>, x: int)
      reads tiles
      requires 0 <= x < tiles.Length0
    {
      var b := Boundaries(Column(x));
      (x, b.0, UP) in m && m[(x, b.0, UP)] == (x, b.1, 0) &&
      (x, b.1, DOWN) in m && m[(x, b.1, DOWN)] == (x, b.0, 0)
    }

    ghost predicate RowsWrap(m: map<Key, Key>, n: int)
      reads tiles
    {
      forall y :: 0 <= y < n && y < tiles.Length1 ==> RowWraps(m, y)
    }

    ghost predicate ColumnsWrap(m: map<Key, Key>, n: int)
      reads tiles
    {
      forall x :: 0 <= x < n && x < tiles.Length0 ==> ColumnWraps(m, x)
    }

    /** The row jumps make every row wrap, and hold no other key. */
    lemma {:induction false} RowMapWraps(n: int)
      requires 0 <= n <= tiles.Length1
      ensures RowsWrap(RowMap(n), n)
      ensures forall k :: k in RowMap(n) ==> 0 <= k.1 < n
      decreases n
    {
      if n > 0 {
        RowMapWraps(n - 1);
        RowMapStep(RowMap(n - 1), n - 1, Boundaries(Row(n - 1)));
      }
    }

    /** Writing the jumps of row n keeps rows 0 to n - 1 wrapping, makes row n wrap,
        and adds keys on row n only. */
    lemma RowMapStep(m: map<Key, Key>, n: int, b: (int, int))
      requires 0 <= n < tiles.Length1 && b == Boundaries(Row(n))
      requires RowsWrap(m, n) && forall k :: k in m ==> 0 <= k.1 < n
      ensures var m' := m[(b.0, n, LEFT) := (b.1, n, 0)][(b.1, n, RIGHT) := (b.0, n, 0)];
        RowsWrap(m', n + 1) && forall k :: k in m' ==> 0 <= k.1 < n + 1
    {
      var k1, k2 := (b.0, n, LEFT), (b.1, n, RIGHT);
      var m' := m[k1 := (b.1, n, 0)][k2 := (b.0, n, 0)];
      RowWrapsKept(m, n, k1, (b.1, n, 0), k2, (b.0, n, 0));
      assert RowWraps(m', n);
      RowsWrapExtend(m', n);
    }

    /** Writing keys on rows n and below keeps rows 0 to n - 1 wrapping. */
    lemma RowWrapsKept(m: map<Key, Key>, n: int, k1: Key, v1: Key, k2: Key, v2: Key)
      requires RowsWrap(m, n) && k1.1 >= n && k2.1 >= n
      ensures RowsWrap(m[k1 := v1][k2 := v2], n)
    {
      var m' := m[k1 := v1][k2 := v2];
      forall y | 0 <= y < n && y < tiles.Length1 ensures RowWraps(m', y) {
        assert RowWraps(m, y);
      }
    }

    /** Rows 0 to n - 1 and row n wrapping make rows 0 to n wrap. */
    lemma RowsWrapExtend(m: map<Key, Key>, n: int)
      requires 0 <= n < tiles.Length1 && RowsWrap(m, n) && RowWraps(m, n)
      ensures RowsWrap(m, n + 1)
    {
    }

    /** Writing keys on columns n and beyond keeps columns 0 to n - 1 wrapping. */
    lemma ColumnWrapsKept(m: map<Key, Key>, n: int, k1: Key, v1: Key, k2: Key, v2: Key)
      requires ColumnsWrap(m, n) && k1.0 >= n && k2.0 >= n
      ensures ColumnsWrap(m[k1 := v1][k2 := v2], n)
    {
      var m' := m[k1 := v1][k2 := v2];
      forall x | 0 <= x < n && x < tiles.Length0 ensures ColumnWraps(m', x) {
        assert ColumnWraps(m, x);
      }
    }

    /** Columns 0 to n - 1 and column n wrapping make columns 0 to n wrap. */
    lemma ColumnsWrapExtend(m: map<Key, Key>, n: int)
      requires 0 <= n < tiles.Length0 && ColumnsWrap(m, n) && ColumnWraps(m, n)
      ensures ColumnsWrap(m, n + 1)
    {
    }

    /** The column jumps make every column wrap, and hold no other key. */
    lemma {:induction false} ColumnMapWraps(n: int)
      requires 0 <= n <= tiles.Length0
      ensures ColumnsWrap(ColumnMap(n), n)
      ensures forall k :: k in ColumnMap(n) ==> 0 <= k.0 < n
      decreases n
    {
      if n > 0 {
        ColumnMapWraps(n - 1);
        ColumnMapStep(ColumnMap(n - 1), n - 1, Boundaries(Column(n - 1)));
      }
    }

    /** Writing the jumps of column n keeps columns 0 to n - 1 wrapping, makes column
        n wrap, and adds keys on column n only. */
    lemma ColumnMapStep(m: map<Key, Key>, n: int, b: (int, int))
      requires 0 <= n < tiles.Length0 && b == Boundaries(Column(n))
      requires ColumnsWrap(m, n) && forall k :: k in m ==> 0 <= k.0 < n
      ensures var m' := m[(n, b.0, UP) := (n, b.1, 0)][(n, b.1, DOWN) := (n, b.0, 0)];
        ColumnsWrap(m', n + 1) && forall k :: k in m' ==> 0 <= k.0 < n + 1
    {
      var k1, k2 := (n, b.0, UP), (n, b.1, DOWN);
      var m' := m[k1 := (n, b.1, 0)][k2 := (n, b.0, 0)];
      ColumnWrapsKept(m, n, k1, (n, b.1, 0), k2, (n, b.0, 0));
      assert ColumnWraps(m', n);
      ColumnsWrapExtend(m', n);
    }

    /** The row half of set_jumps_as_plane (day22/day22.py:453-458), which also sets the
        position on the first row. */
    method SetRowJumps()
      requires Valid()
      modifies this
      ensures Valid() && faceSize == old(faceSize) && faces == old(faces)
      ensures position == if tiles.Length1 > 0 then Some((Boundaries(Row(0)).0, 0)) else old(position)
      ensures jumps == old(jumps) + RowMap(tiles.Length1)
    {
      ghost var j0 := jumps;
      for y := 0 to tiles.Length1
        invariant Valid() && faceSize == old(faceSize) && faces == old(faces)
        invariant position == if y > 0 then Some((Boundaries(Row(0)).0, 0)) else old(position)
        invariant jumps == j0 + RowMap(y)
      {
        WriteRow(y, j0);
      }
    }

    /** One row of set_jumps_as_plane (day22/day22.py:454-458). */
    method WriteRow(y: int, ghost j0: map<Key, Key>)
      requires Valid() && 0 <= y < tiles.Length1 && jumps == j0 + RowMap(y)
      modifies this
      ensures Valid() && faceSize == old(faceSize) && faces == old(faces)
      ensures position == if y == 0 then Some((Boundaries(Row(0)).0, 0)) else old(position)
      ensures jumps == j0 + RowMap(y + 1)
    {
      var xStart, xEnd := FindBoundaries(Row(y));
      if y == 0 {
        position := Some((xStart, 0));
      }
      TurnsSafelyUpdate(jumps, (xStart, y, LEFT), (xEnd, y, 0), (xEnd, y, RIGHT), (xStart, y, 0));
      jumps := jumps[(xStart, y, LEFT) := (xEnd, y, 0)][(xEnd, y, RIGHT) := (xStart, y, 0)];
      UnionUpdate(j0, RowMap(y), (xStart, y, LEFT), (xEnd, y, 0), (xEnd, y, RIGHT), (xStart, y, 0));
    }

    /** The column half of set_jumps_as_plane (day22/day22.py:460-465). */
    method SetColumnJumps()
      requires Valid()
      modifies this
      ensures Valid() && faceSize == old(faceSize) && faces == old(faces) && position == old(position)
      ensures jumps == old(jumps) + ColumnMap(tiles.Length0)
    {
      ghost var j0 := jumps;
      for x := 0 to tiles.Length0
        invariant Valid() && faceSize == old(faceSize) && faces == old(faces) && position == old(position)
        invariant jumps == j0 + ColumnMap(x)
      {
        WriteColumn(x, j0);
      }
    }

    /** One column of set_jumps_as_plane (day22/day22.py:461-465). */
    method WriteColumn(x: int, ghost j0: map<Key, Key>)
      requires Valid() && 0 <= x < tiles.Length0 && jumps == j0 + ColumnMap(x)
      modifies this
      ensures Valid() && faceSize == old(faceSize) && faces == old(faces) && position == old(position)
      ensures jumps == j0 + ColumnMap(x + 1)
    {
      var yStart, yEnd := FindBoundaries(Column(x));
      TurnsSafelyUpdate(jumps, (x, yStart, UP), (x, yEnd, 0), (x, yEnd, DOWN), (x, yStart, 0));
      jumps := jumps[(x, yStart, UP) := (x, yEnd, 0)][(x, yEnd, DOWN) := (x, yStart, 0)];
      UnionUpdate(j0, ColumnMap(x), (x, yStart, UP), (x, yEnd, 0), (x, yEnd, DOWN), (x, yStart, 0));
    }

    /** set_jumps_as_plane (day22/day22.py:448-465): every row and every column wraps
        around, the position is the left end of the first row, and every other jump
        is kept. */
    method SetJumpsAsPlane()
      requires Valid()
      modifies this
      ensures Valid() && faceSize == old(faceSize) && faces == old(faces)
      ensures position == if tiles.Length1 > 0 then Some((Boundaries(Row(0)).0, 0)) else old(position)
      ensures jumps == old(jumps) + RowMap(tiles.Length1) + ColumnMap(tiles.Length0)
      ensures RowsWrap(jumps, tiles.Length1) && ColumnsWrap(jumps, tiles.Length0)
    {
      SetRowJumps();
      SetColumnJumps();
      RowMapWraps(tiles.Length1);
      ColumnMapWraps(tiles.Length0);
      PlaneWraps(old(jumps));
    }

    /** Column jumps never overwrite row jumps: both wrap in the combined table. */
    lemma PlaneWraps(j: map<Key, Key>)
      requires RowsWrap(RowMap(tiles.Length1), tiles.Length1)
      requires ColumnsWrap(ColumnMap(tiles.Length0), tiles.Length0)
      ensures RowsWrap(j + RowMap(tiles.Length1) + ColumnMap(tiles.Length0), tiles.Length1)
      ensures ColumnsWrap(j + RowMap(tiles.Length1) + ColumnMap(tiles.Length0), tiles.Length0)
    {
      var R, C := RowMap(tiles.Length1), ColumnMap(tiles.Length0);
      forall y | 0 <= y < tiles.Length1 ensures RowWraps(j + R + C, y) {
        assert RowWraps(R, y);
      }
      forall x | 0 <= x < tiles.Length0 ensures ColumnWraps(j + R + C, x) {
        assert ColumnWraps(C, x);
      }
    }

    // -------------------------------------------------------------------------
    // The faces of the net (part 2)

    /** Grid position c, for faces of size g, holds a face: the top-left tile of its
        square is on the map. */
    predicate CellOccupied(g: int, c: Tile)
      reads tiles
    {
      g > 0 && 0 <= c.0 < tiles.Length0 / g && 0 <= c.1 < tiles.Length1 / g &&
      (CellInRange(c.0, g, tiles.Length0, 0);
       CellInRange(c.1, g, tiles.Length1, 0);
       tiles[c.0 * g, c.1 * g] != 0)
    }

    /** The grid positions holding a face. */
    ghost function Net(g: int): set<Tile>
      reads tiles
      requires g > 0
    {
      set x, y | 0 <= x < tiles.Length0 / g && 0 <= y < tiles.Length1 / g && CellOccupied(g, (x, y)) :: (x, y)
    }

    lemma InNet(g: int, c: Tile)
      requires g > 0
      ensures c in Net(g) <==> CellOccupied(g, c)
    {
    }

    /** The faces found are faces of the current size, at distinct occupied positions. */
    ghost predicate FacesOK()
      reads this`faceSize, this`faces, tiles
    {
      faceSize > 0 && DistinctCoords(faces) && WellSized(faces, faceSize) &&
      forall f :: f in faces ==> CellOccupied(faceSize, f.coord)
    }

    /** travel_through_faces (day22/day22.py:528-562), with the guards that decide
        where to look corrected (right whenever there is a column to the right, left
        whenever there is one to the left): the face at coord, and every face the
        traversal can reach from it, is found, each closed under what the traversal
        looks at; the face at coord carries the top edges of cube c. */
    method TravelThroughFaces(c: Cube, coord: Tile)
      requires FacesOK() && c.Valid() && CellOccupied(faceSize, coord)
      modifies this`faces
      ensures FacesOK()
      ensures old(faces) <= faces && coord in Coords(faces)
      ensures coord !in Coords(old(faces)) ==> faces[|old(faces)|] == Face(faceSize, coord, old(TopEdges(c.Snapshot())))
      ensures ClosedFrom(faces, |old(faces)|, Net(faceSize))
      decreases |Net(faceSize) - Coords(faces)|, 1
    {
      if coord in Coords(faces) {
        return;
      }
      var top := c.FindTopEdges();
      VisitFace(c, coord, top);
    }

    /** The body of travel_through_faces for a face not found yet
        (day22/day22.py:534-560): record it with its top edges, then look around it. */
    method VisitFace(c: Cube, coord: Tile, top: seq<EdgeV>)
      requires FacesOK() && c.Valid() && CellOccupied(faceSize, coord) && coord !in Coords(faces)
      modifies this`faces
      ensures FacesOK()
      ensures old(faces) <= faces && coord in Coords(faces)
      ensures faces[|old(faces)|] == Face(faceSize, coord, top)
      ensures ClosedFrom(faces, |old(faces)|, Net(faceSize))
      decreases |Net(faceSize) - Coords(faces)|, 0
    {
      ghost var u0 := Net(faceSize) - Coords(faces);
      AddFace(coord, top);
      ghost var f0 := faces;
      ShrinkCard(u0, Net(faceSize) - Coords(faces), coord);
      LookAround(c, coord);
      CoordsPrefix(f0, faces);
      NewFaceKept(old(faces), Face(faceSize, coord, top), f0, faces);
      ClosedFromExtend(faces, |old(faces)|, Net(faceSize));
    }

    /** Record a new face at an occupied position not seen yet. */
    method AddFace(coord: Tile, top: seq<EdgeV>)
      requires FacesOK() && CellOccupied(faceSize, coord) && coord !in Coords(faces)
      modifies this`faces
      ensures FacesOK()
      ensures faces == old(faces) + [Face(faceSize, coord, top)]
      ensures Coords(faces) == Coords(old(faces)) + {coord}
    {
      faces := faces + [Face(faceSize, coord, top)];
      assert forall i :: 0 <= i < |old(faces)| ==> faces[i] == old(faces)[i];
    }

    /** The three looks of travel_through_faces (day22/day22.py:540-560) from the face
        at coord: afterwards every position the traversal moves on to that holds a
        face has been found. */
    method LookAround(c: Cube, coord: Tile)
      requires FacesOK() && c.Valid() && coord in Coords(faces)
      modifies this`faces
      ensures FacesOK()
      ensures old(faces) <= faces
      ensures ClosedIn(coord, Coords(faces), Net(faceSize))
      ensures ClosedFrom(faces, |old(faces)|, Net(faceSize))
      decreases |Net(faceSize) - Coords(faces)|, 3
    {
      var (x, y) := coord;
      ghost var f0 := faces;
      ghost var net := Net(faceSize);
      Look(c, (x + 1, y), RIGHT);
      ghost var f1 := faces;
      InNet(faceSize, (x + 1, y));
      assert (x + 1, y) in net ==> (x + 1, y) in Coords(f1);
      SubsetCard(net - Coords(f1), net - Coords(f0));
      Look(c, (x - 1, y), LEFT);
      ghost var f2 := faces;
      InNet(faceSize, (x - 1, y));
      assert (x - 1, y) in net ==> (x - 1, y) in Coords(f2);
      SubsetCard(net - Coords(f2), net - Coords(f1));
      Look(c, (x, y + 1), DOWN);
      InNet(faceSize, (x, y + 1));
      assert (x, y + 1) in net ==> (x, y + 1) in Coords(faces);
      PrefixTrans(f0, f1, f2);
      PrefixTrans(f0, f2, faces);
      ClosedFromGrow(f1, f2, |f0|, net);
      ClosedFromGrow(f2, faces, |f0|, net);
      ClosedByLooks(x, y, net, Coords(f1), Coords(f2), Coords(faces));
    }

    /** One look of travel_through_faces (day22/day22.py:541-560): when position n
        holds a face, travel on from it with a copy of the cube rolled towards d. */
    method Look(c: Cube, n: Tile, d: int)
      requires FacesOK() && c.Valid()
      modifies this`faces
      ensures FacesOK()
      ensures old(faces) <= faces && Coords(old(faces)) <= Coords(faces)
      ensures CellOccupied(faceSize, n) ==> n in Coords(faces)
      ensures CellOccupied(faceSize, n) && n !in Coords(old(faces)) ==>
        faces[|old(faces)|] == Face(faceSize, n, TopEdges(RollAll(c.Snapshot(), d)))
      ensures ClosedFrom(faces, |old(faces)|, Net(faceSize))
      decreases |Net(faceSize) - Coords(faces)|, 2
    {
      if CellOccupied(faceSize, n) {
        var next := c.Copy();
        next.Rotate(d);
        assert next.Snapshot() == RollAll(c.Snapshot(), d);
        TravelThroughFaces(next, n);
        CoordsPrefix(old(faces), faces);
      }
    }

    // -------------------------------------------------------------------------
    // The cube wrap (part 2)

    /** Faces of size g exist somewhere on the map. */
    ghost predicate HasFace(g: int)
      reads tiles
    {
      exists c :: CellOccupied(g, c)
    }

    /** s is the first position holding a face, row by row from the top, each row
        from the left. */
    ghost predicate FirstFace(g: int, s: Tile)
      reads tiles
    {
      CellOccupied(g, s) && forall c :: CellOccupied(g, c) ==> s.1 < c.1 || (s.1 == c.1 && s.0 <= c.0)
    }

    /** analyse_faces (day22/day22.py:511-526): the face size is the greatest common
        divisor of the map's width and height; the first face row by row is found
        with the top edges of the cube as built, travelling from it finds faces
        closed under the traversal, and the position is that face's top-left tile. */
    method AnalyseFaces()
      requires Valid() && faces == [] && HasFace(Gcd(tiles.Length0, tiles.Length1))
      modifies this`faceSize, this`faces, this`position
      ensures Valid() && FacesOK() && faceSize == Gcd(tiles.Length0, tiles.Length1)
      ensures tiles.Length0 % faceSize == 0 && tiles.Length1 % faceSize == 0
      ensures forall g {:trigger CommonDivisor(g, tiles.Length0, tiles.Length1)} ::
                CommonDivisor(g, tiles.Length0, tiles.Length1) ==> faceSize % g == 0
      ensures exists s ::
                FirstFace(faceSize, s) && position == Some((s.0 * faceSize, s.1 * faceSize)) &&
                |faces| > 0 && faces[0] == Face(faceSize, s, TopEdges(cube.Snapshot()))
      ensures ClosedFrom(faces, 0, Net(faceSize))
    {
      faceSize := Gcd(tiles.Length0, tiles.Length1);
      var start: Option<Tile> := None;
      for y := 0 to tiles.Length1 / faceSize
        invariant start.None? ==> forall c :: CellOccupied(faceSize, c) ==> c.1 >= y
        invariant start.Some? ==> FirstFace(faceSize, start.value)
      {
        for x := 0 to tiles.Length0 / faceSize
          invariant start.None? ==> forall c :: CellOccupied(faceSize, c) ==> c.1 > y || (c.1 == y && c.0 >= x)
          invariant start.Some? ==> FirstFace(faceSize, start.value)
        {
          if CellOccupied(faceSize, (x, y)) && start.None? {
            start := Some((x, y));
          }
        }
      }
      assert start.Some?;
      var s := start.value;
      TravelThroughFaces(cube, s);
      position := Some((s.0 * faceSize, s.1 * faceSize));
      assert Gcd(0, 0) == 0;
      GcdDivides(tiles.Length0, tiles.Length1);
      forall g | CommonDivisor(g, tiles.Length0, tiles.Length1) ensures faceSize % g == 0 {
        GcdGreatest(tiles.Length0, tiles.Length1, g);
      }
    }

    /** One edge of set_jumps_as_cube (day22/day22.py:474-509): the faces carrying edge
        id are collected, and when there are exactly two whose sides are not already
        continuous on the map, the jumps between their sides are written both ways. */
    method SetEdgeJumps(id: int)
      requires Valid()
      modifies this`jumps
      ensures Valid()
      ensures jumps == Apply(old(jumps), EdgeWrites(faces, id))
    {
      var hs: seq<(Face, int)> := [];
      for i := 0 to |faces|
        invariant hs + Holders(faces, id, i) == Holders(faces, id, 0)
        invariant jumps == old(jumps)
      {
        var side := EdgeIdDirection(faces[i], id);
        if side != -1 {
          assert hs + [(faces[i], side)] + Holders(faces, id, i + 1) == hs + Holders(faces, id, i);
          hs := hs + [(faces[i], side)];
        }
      }
      assert hs == Holders(faces, id, 0);
      EdgeWritesOf(faces, id);
      if |hs| == 2 {
        var (f1, d1) := hs[0];
        var (f2, d2) := hs[1];
        var v1 := f1.edges[d1].vector;
        var v2 := f2.edges[d2].vector;
        jumps := WritePairs(jumps, f1, d1, f2, d2, v1 == v2 && IsAdjacent(f1, f2));
      }
      EdgeWritesReversible(faces, id);
      ApplyTurnsSafely(old(jumps), EdgeWrites(faces, id));
    }

    /** set_jumps_as_cube (day22/day22.py:467-509): after analysing the faces, the jumps
        of edges 1 to 12 are written in order, and each of them is in the table
        afterwards; every jump keeps the facing in 0..3. */
    method SetJumpsAsCube()
      requires Valid() && faces == [] && HasFace(Gcd(tiles.Length0, tiles.Length1))
      modifies this`faceSize, this`faces, this`position, this`jumps
      ensures Valid() && FacesOK() && faceSize == Gcd(tiles.Length0, tiles.Length1)
      ensures exists s ::
                FirstFace(faceSize, s) && position == Some((s.0 * faceSize, s.1 * faceSize)) &&
                |faces| > 0 && faces[0] == Face(faceSize, s, TopEdges(cube.Snapshot()))
      ensures ClosedFrom(faces, 0, Net(faceSize))
      ensures HoldsEdgeJumps(jumps, faces)
    {
      AnalyseFaces();
      ghost var top := TopEdges(cube.Snapshot());
      ghost var s :| FirstFace(faceSize, s) && position == Some((s.0 * faceSize, s.1 * faceSize)) &&
                     |faces| > 0 && faces[0] == Face(faceSize, s, top);
      SetEdgesJumps();
      assert TopEdges(cube.Snapshot()) == top;
    }

    /** The edge loop of set_jumps_as_cube (day22/day22.py:473-509): edges 1 to 12 in
        order; afterwards every jump written for any of them is in the table. */
    method SetEdgesJumps()
      requires Valid() && FacesOK()
      modifies this`jumps
      ensures Valid()
      ensures jumps == Apply(old(jumps), CubeWrites(faces, 12))
      ensures HoldsEdgeJumps(jumps, faces)
    {
      for id := 1 to 13
        invariant Valid() && jumps == Apply(old(jumps), CubeWrites(faces, id - 1))
      {
        SetEdgeJumps(id);
        ApplyConcat(old(jumps), CubeWrites(faces, id - 1), EdgeWrites(faces, id));
      }
      CubeJumpsKept(old(jumps), faces, faceSize);
    }

    // -------------------------------------------------------------------------
    // Moving

    /** get_next_position (day22/day22.py:564-586): the jump from the position in the
        facing when there is one, with its turn; otherwise the neighbouring tile in the
        facing, with no turn. Either way the new facing stays in 0..3. */
    function GetNextPosition(): (r: (Tile, int))
      reads this, facing
      requires Valid() && position.Some?
      ensures 0 <= facing.direction + r.1 < 4
      ensures var (p, k) := (position.value, (position.value.0, position.value.1, facing.direction));
        (k in jumps ==> r.0 == (jumps[k].0, jumps[k].1) && r.1 == jumps[k].2) &&
        (k !in jumps ==>
           r.1 == 0 && r.0 in Neighbours(p) &&
           (facing.direction == UP ==> r.0.1 < p.1) && (facing.direction == DOWN ==> r.0.1 > p.1) &&
           (facing.direction == LEFT ==> r.0.0 < p.0) && (facing.direction == RIGHT ==> r.0.0 > p.0))
    {
      var k := (position.value.0, position.value.1, facing.direction);
      if k in jumps then
        ((jumps[k].0, jumps[k].1), jumps[k].2)
      else
        var v := [(0, -1), (1, 0), (0, 1), (-1, 0)][facing.direction];
        ((position.value.0 + v.0, position.value.1 + v.1), 0)
    }

    /** One step of travel_tiles (day22/day22.py:604-607): move to the next position and
        turn by its delta; the facing stays one of the four directions. */
    method Advance()
      requires Valid() && position.Some?
      modifies this`position, facing
      ensures Valid()
      ensures position == Some(old(GetNextPosition()).0)
      ensures facing.direction == old(facing.direction) + old(GetNextPosition()).1
    {
      var (next, delta) := GetNextPosition();
      position := Some(next);
      facing.direction := facing.direction + delta;
    }
  }
}
