/** The faces of a folded cube net and the jump table that glues their sides
    together (day22/day22.py:334-380 and 467-509), on values. */
module MonkeyFaces {
  import opened Wrappers
  import opened Arith
  import opened MonkeyCube

  /** A tile of the map (x to the right, y downwards), or of a face. */
  type Tile = (int, int)

  /** A jump key or a jump target: a tile and a facing (or a facing change). */
  type Key = (int, int, int)

  /** A face of the cube net: its size in tiles, its position in the grid of faces
      and its four top edges in up, right, down, left order. */
  datatype Face = Face(size: int, coord: Tile, edges: seq<EdgeV>)

  function Abs(n: int): nat {
    if n < 0 then -n else n
  }

  function Count(n: int): nat {
    if n < 0 then 0 else n
  }

  /** The four grid positions around c: right, left, down, up. */
  function Neighbours(c: Tile): seq<Tile> {
    [(c.0 + 1, c.1), (c.0 - 1, c.1), (c.0, c.1 + 1), (c.0, c.1 - 1)]
  }

  /** Face.is_adjacent (day22/day22.py:353-357): the faces sit side by side in the
      grid of faces. */
  function IsAdjacent(f: Face, g: Face): (r: bool)
    ensures r <==> g.coord in Neighbours(f.coord)
    ensures r <==> f.coord in Neighbours(g.coord)
    ensures r ==> f.coord != g.coord
  {
    var dx, dy := Abs(f.coord.0 - g.coord.0), Abs(f.coord.1 - g.coord.1);
    (dx == 1 && dy == 0) || (dx == 0 && dy == 1)
  }

  // ---------------------------------------------------------------------------
  // Edges of a face

  /** The first position at or after n of an edge labelled id, or -1. */
  function EdgeSide(edges: seq<EdgeV>, id: int, n: nat): int
    requires n <= |edges|
    decreases |edges| - n
  {
    if n == |edges| then -1
    else if edges[n].id == id then n
    else EdgeSide(edges, id, n + 1)
  }

  /** EdgeSide is the first position of the label, or -1 when no edge carries it. */
  lemma {:induction false} EdgeSideMeaning(edges: seq<EdgeV>, id: int, n: nat)
    requires n <= |edges|
    ensures var r := EdgeSide(edges, id, n);
      (r == -1 <==> forall k :: n <= k < |edges| ==> edges[k].id != id) &&
      (r != -1 ==> n <= r < |edges| && edges[r].id == id &&
                   forall k :: n <= k < r ==> edges[k].id != id)
    decreases |edges| - n
  {
    if n < |edges| && edges[n].id != id {
      EdgeSideMeaning(edges, id, n + 1);
    }
  }

  /** Face.edge_id_direction (day22/day22.py:359-364). */
  method EdgeIdDirection(f: Face, id: int) returns (side: int)
    ensures side == EdgeSide(f.edges, id, 0)
  {
    var n := 0;
    while n < |f.edges|
      invariant 0 <= n <= |f.edges|
      invariant EdgeSide(f.edges, id, 0) == EdgeSide(f.edges, id, n)
    {
      if f.edges[n].id == id {
        return n;
      }
      n := n + 1;
    }
    return -1;
  }

  // ---------------------------------------------------------------------------
  // Tiles along a side of a face

  function Reverse<T>(s: seq<T>): (r: seq<T>)
    ensures |r| == |s| && forall i :: 0 <= i < |s| ==> r[i] == s[|s| - 1 - i]
  {
    seq(|s|, i requires 0 <= i < |s| => s[|s| - 1 - i])
  }

  /** Tile t of a face of the given size lies on side d. */
  predicate OnSide(t: Tile, d: int, size: int) {
    0 <= t.0 < size && 0 <= t.1 < size &&
    (d == UP ==> t.1 == 0) && (d == DOWN ==> t.1 == size - 1) &&
    (d == LEFT ==> t.0 == 0) && (d == RIGHT ==> t.0 == size - 1)
  }

  /** The step from one tile of side d to the next, following the edge's vector:
      along x for the up and down sides, along y (which points downwards on the
      map, upwards on the cube) for the left and right sides. */
  function Along(d: int, v: V3): Tile {
    if d == UP || d == DOWN then (if v.x < 0 then -1 else 1, 0)
    else (0, if v.y > 0 then -1 else 1)
  }

  /** r walks side d of a face of the given size: it holds the side's size tiles,
      distinct, each the previous one moved by step. */
  predicate SideWalk(r: seq<Tile>, d: int, size: int, step: Tile) {
    |r| == Count(size) && (forall i :: 0 <= i < |r| ==> OnSide(r[i], d, size)) &&
    (forall i, j :: 0 <= i < j < |r| ==> r[i] != r[j]) &&
    forall i :: 0 <= i < |r| - 1 ==> (r[i + 1].0 - r[i].0, r[i + 1].1 - r[i].1) == step
  }

  /** The size tiles of side d in increasing order: along x for the up and down
      sides, along y for the left and right sides. */
  function SideTiles(d: int, size: int): (cs: seq<Tile>)
    requires 0 <= d < 4
    ensures SideWalk(cs, d, size, if d == UP || d == DOWN then (1, 0) else (0, 1))
  {
    if d == UP || d == DOWN then
      seq(Count(size), x => (x, if d == UP then 0 else size - 1))
    else
      seq(Count(size), y => (if d == LEFT then 0 else size - 1, y))
  }

  /** Reversing a walk of a side walks it the other way. */
  lemma ReverseSteps(cs: seq<Tile>, d: int, size: int, s: Tile)
    requires SideWalk(cs, d, size, s)
    ensures SideWalk(Reverse(cs), d, size, (-s.0, -s.1))
  {
    var r := Reverse(cs);
    forall i | 0 <= i < |cs| - 1
      ensures (r[i + 1].0 - r[i].0, r[i + 1].1 - r[i].1) == (-s.0, -s.1)
    {
      var k := |cs| - 2 - i;
      assert r[i + 1] == cs[k] && r[i] == cs[k + 1];
    }
  }

  /** Face.get_coords_from_edge (day22/day22.py:366-380): the size tiles of side d,
      distinct, in the order of the edge's vector; nothing for a d that is no
      direction. */
  function GetCoordsFromEdge(f: Face, d: int): (r: seq<Tile>)
    requires 0 <= d < 4 ==> d < |f.edges|
    ensures 0 <= d < 4 ==> SideWalk(r, d, f.size, Along(d, f.edges[d].vector))
    ensures !(0 <= d < 4) ==> r == []
  {
    if d == UP || d == DOWN then
      var cs := SideTiles(d, f.size);
      if f.edges[d].vector.x < 0 then ReverseSteps(cs, d, f.size, (1, 0)); Reverse(cs) else cs
    else if d == LEFT || d == RIGHT then
      var cs := SideTiles(d, f.size);
      if f.edges[d].vector.y > 0 then ReverseSteps(cs, d, f.size, (0, 1)); Reverse(cs) else cs
    else
      []
  }

  /** The map tile of tile t of face f. */
  function MapTile(f: Face, t: Tile): Tile {
    (f.coord.0 * f.size + t.0, f.coord.1 * f.size + t.1)
  }

  /** A tile of a face of size p > 0 tells its face position and its own place. */
  lemma MapTileUnique(f: Face, t: Tile)
    requires f.size > 0 && 0 <= t.0 < f.size && 0 <= t.1 < f.size
    ensures MapTile(f, t).0 / f.size == f.coord.0 && MapTile(f, t).0 % f.size == t.0
    ensures MapTile(f, t).1 / f.size == f.coord.1 && MapTile(f, t).1 % f.size == t.1
  {
    DivModUnique(MapTile(f, t).0, f.size, f.coord.0, t.0);
    DivModUnique(MapTile(f, t).1, f.size, f.coord.1, t.1);
  }

  // ---------------------------------------------------------------------------
  // The jump table of a cube

  /** The faces that carry edge id, each with its side, in face order (the list
      built at day22/day22.py:475-481). */
  function Holders(faces: seq<Face>, id: int, n: nat): seq<(Face, int)>
    requires n <= |faces|
    decreases |faces| - n
  {
    if n == |faces| then []
    else
      var d := EdgeSide(faces[n].edges, id, 0);
      (if d != -1 then [(faces[n], d)] else []) + Holders(faces, id, n + 1)
  }

  /** Every holder is a face from faces[n..] carrying the label on its side. */
  lemma {:induction false} HoldersMembers(faces: seq<Face>, id: int, n: nat)
    requires n <= |faces|
    ensures forall h :: h in Holders(faces, id, n) ==>
      h.0 in faces[n..] && h.1 == EdgeSide(h.0.edges, id, 0) && h.1 != -1
    decreases |faces| - n
  {
    if n < |faces| {
      HoldersMembers(faces, id, n + 1);
    }
  }

  /** No two faces share a position in the grid of faces. */
  ghost predicate DistinctCoords(faces: seq<Face>) {
    forall i, j :: 0 <= i < j < |faces| ==> faces[i].coord != faces[j].coord
  }

  ghost predicate DistinctHolders(hs: seq<(Face, int)>) {
    forall i, j :: 0 <= i < j < |hs| ==> hs[i].0.coord != hs[j].0.coord
  }

  /** Holders of one label sit at different positions. */
  lemma {:induction false} HoldersDistinct(faces: seq<Face>, id: int, n: nat)
    requires n <= |faces| && DistinctCoords(faces)
    ensures DistinctHolders(Holders(faces, id, n))
    decreases |faces| - n
  {
    if n < |faces| {
      HoldersDistinct(faces, id, n + 1);
      HoldersMembers(faces, id, n + 1);
      var rest := Holders(faces, id, n + 1);
      forall h | h in rest ensures h.0.coord != faces[n].coord {
        var k :| n + 1 <= k < |faces| && faces[k] == h.0;
      }
      var d := EdgeSide(faces[n].edges, id, 0);
      if d != -1 {
        assert Holders(faces, id, n) == [(faces[n], d)] + rest;
        ConsDistinctHolders((faces[n], d), rest);
      } else {
        assert Holders(faces, id, n) == rest;
      }
    }
  }

  /** A holder placed in front of holders at other positions keeps them distinct. */
  lemma ConsDistinctHolders(h: (Face, int), rest: seq<(Face, int)>)
    requires DistinctHolders(rest)
    requires forall x :: x in rest ==> x.0.coord != h.0.coord
    ensures DistinctHolders([h] + rest)
  {
    var hs := [h] + rest;
    forall i, j | 0 <= i < j < |hs| ensures hs[i].0.coord != hs[j].0.coord {
      assert hs[j] == rest[j - 1];
      if i > 0 {
        assert hs[i] == rest[i - 1];
      } else {
        assert rest[j - 1] in rest;
      }
    }
  }

  /** The jump from tile t1 of f1 facing d1 to tile t2 of f2 (day22/day22.py:497-509):
      the facing changes by (d2 - 2) mod 4 - d1, so that it ends up pointing away
      from side d2, into f2. */
  function Jump(f1: Face, d1: int, t1: Tile, f2: Face, d2: int, t2: Tile): (Key, Key) {
    var a, b := MapTile(f1, t1), MapTile(f2, t2);
    ((a.0, a.1, d1), (b.0, b.1, (d2 - 2) % 4 - d1))
  }

  /** The two faces carrying edge id, when there are exactly two. */
  function EdgeFaces(faces: seq<Face>, id: int): Option<((Face, int), (Face, int))> {
    var hs := Holders(faces, id, 0);
    if |hs| == 2 then Some((hs[0], hs[1])) else None
  }

  /** The side of holder h is one of its edges. */
  predicate HolderSide(h: (Face, int)) {
    0 <= h.1 < |h.0.edges|
  }

  /** Both holders of a glued edge share the edge's vector and sit side by side:
      their tiles already touch on the map. */
  function Continuous(h1: (Face, int), h2: (Face, int)): bool
    requires HolderSide(h1) && HolderSide(h2)
  {
    h1.0.edges[h1.1].vector == h2.0.edges[h2.1].vector && IsAdjacent(h1.0, h2.0)
  }

  /** The jumps between side d1 of f1 and side d2 of f2: their tiles zipped, and
      for each pair the jump one way and the jump back. */
  function PairWrites(f1: Face, d1: int, f2: Face, d2: int): (ws: seq<(Key, Key)>)
    requires 0 <= d1 < |f1.edges| && 0 <= d2 < |f2.edges|
    ensures |ws| % 2 == 0
  {
    var c1, c2 := GetCoordsFromEdge(f1, d1), GetCoordsFromEdge(f2, d2);
    var n := if |c1| < |c2| then |c1| else |c2|;
    seq(2 * n, j requires 0 <= j < 2 * n =>
      if j % 2 == 0 then Jump(f1, d1, c1[j / 2], f2, d2, c2[j / 2])
      else Jump(f2, d2, c2[j / 2], f1, d1, c1[j / 2]))
  }

  /** The jumps written for edge id, in the order set_jumps_as_cube writes them
      (day22/day22.py:473-509). Every holder's side is one of its edges
      (HoldersMembers); the test only spells that out. */
  function EdgeWrites(faces: seq<Face>, id: int): (ws: seq<(Key, Key)>)
    ensures |ws| % 2 == 0
  {
    match EdgeFaces(faces, id)
    case None => []
    case Some((h1, h2)) =>
      if HolderSide(h1) && HolderSide(h2) && !Continuous(h1, h2) then PairWrites(h1.0, h1.1, h2.0, h2.1)
      else []
  }

  /** EdgeWrites read off the list of holders: nothing unless there are exactly two,
      whose sides are then edges of theirs. */
  lemma EdgeWritesOf(faces: seq<Face>, id: int)
    ensures var hs := Holders(faces, id, 0);
      (|hs| != 2 ==> EdgeWrites(faces, id) == []) &&
      (|hs| == 2 ==>
         HolderSide(hs[0]) && HolderSide(hs[1]) &&
         EdgeWrites(faces, id) == if Continuous(hs[0], hs[1]) then [] else PairWrites(hs[0].0, hs[0].1, hs[1].0, hs[1].1))
  {
    var hs := Holders(faces, id, 0);
    if |hs| == 2 {
      HoldersMembers(faces, id, 0);
      assert hs[0] in hs && hs[1] in hs;
      EdgeSideMeaning(hs[0].0.edges, id, 0);
      EdgeSideMeaning(hs[1].0.edges, id, 0);
    }
  }

  /** The jumps written for edges 1 to k, in order. */
  function CubeWrites(faces: seq<Face>, k: int): seq<(Key, Key)>
    decreases k
  {
    if k < 1 then [] else CubeWrites(faces, k - 1) + EdgeWrites(faces, k)
  }

  /** Writing the jumps ws one after the other into m. */
  function Apply(m: map<Key, Key>, ws: seq<(Key, Key)>): map<Key, Key>
    decreases |ws|
  {
    if ws == [] then m else Apply(m, ws[..|ws| - 1])[ws[|ws| - 1].0 := ws[|ws| - 1].1]
  }

  /** Writing the first 2i + 2 jumps is writing the first 2i and then the next two. */
  lemma ApplyTwo(m: map<Key, Key>, ws: seq<(Key, Key)>, i: nat)
    requires 2 * i + 2 <= |ws|
    ensures Apply(m, ws[..2 * i + 2]) == Apply(m, ws[..2 * i])[ws[2 * i].0 := ws[2 * i].1][ws[2 * i + 1].0 := ws[2 * i + 1].1]
  {
    assert ws[..2 * i + 2][..2 * i + 1] == ws[..2 * i + 1];
    assert ws[..2 * i + 1][..2 * i] == ws[..2 * i];
  }

  /** Writing a and then b is writing a + b. */
  lemma {:induction false} ApplyConcat(m: map<Key, Key>, a: seq<(Key, Key)>, b: seq<(Key, Key)>)
    ensures Apply(Apply(m, a), b) == Apply(m, a + b)
    decreases |b|
  {
    if b != [] {
      var b' := b[..|b| - 1];
      ApplyConcat(m, a, b');
      assert (a + b)[..|a + b| - 1] == a + b';
    } else {
      assert a + b == a;
    }
  }

  /** After writes with pairwise distinct keys, every write is still in place. */
  lemma {:induction false} ApplyDistinct(m: map<Key, Key>, ws: seq<(Key, Key)>)
    requires DistinctKeys(ws)
    ensures forall w :: w in ws ==> w.0 in Apply(m, ws) && Apply(m, ws)[w.0] == w.1
    ensures forall k :: k in m ==> k in Apply(m, ws)
    decreases |ws|
  {
    if ws != [] {
      var init := ws[..|ws| - 1];
      ApplyDistinct(m, init);
      forall w | w in ws ensures w.0 in Apply(m, ws) && Apply(m, ws)[w.0] == w.1 {
        var i :| 0 <= i < |ws| && ws[i] == w;
        if i < |ws| - 1 {
          assert init[i] == w;
        }
      }
    }
  }

  /** Following a jump from facing k.2 leaves facing k.2 + v.2 within 0..3. */
  ghost predicate TurnsSafely(m: map<Key, Key>) {
    forall k :: k in m ==> 0 <= k.2 + m[k].2 < 4
  }

  /** Writing two jumps that turn safely keeps a table that turns safely. */
  lemma TurnsSafelyUpdate(m: map<Key, Key>, k1: Key, v1: Key, k2: Key, v2: Key)
    requires TurnsSafely(m) && 0 <= k1.2 + v1.2 < 4 && 0 <= k2.2 + v2.2 < 4
    ensures TurnsSafely(m[k1 := v1][k2 := v2])
  {
  }

  /** Applying writes that turn safely keeps a table that turns safely. */
  lemma {:induction false} ApplyTurnsSafely(m: map<Key, Key>, ws: seq<(Key, Key)>)
    requires TurnsSafely(m)
    requires forall w :: w in ws ==> 0 <= w.0.2 + w.1.2 < 4
    ensures TurnsSafely(Apply(m, ws))
    decreases |ws|
  {
    if ws != [] {
      ApplyTurnsSafely(m, ws[..|ws| - 1]);
    }
  }

  /** A jump a followed by the turn-around lands on the key of jump b: b leads back
      to the tile a started from. */
  ghost predicate Reverses(a: (Key, Key), b: (Key, Key)) {
    (a.1.0, a.1.1) == (b.0.0, b.0.1) && (a.0.2 + a.1.2 + 2) % 4 == b.0.2
  }

  /** The jump from side d1 into side d2 and the jump back reverse each other. */
  lemma JumpReverses(f1: Face, d1: int, t1: Tile, f2: Face, d2: int, t2: Tile)
    requires 0 <= d1 < 4 && 0 <= d2 < 4
    ensures Reverses(Jump(f1, d1, t1, f2, d2, t2), Jump(f2, d2, t2, f1, d1, t1))
  {
    var a := Jump(f1, d1, t1, f2, d2, t2);
    assert a.0.2 + a.1.2 == (d2 - 2) % 4;
    assert ((d2 - 2) % 4 + 2) % 4 == d2 by {
      if d2 < 2 {
        DivModUnique(d2 - 2, 4, -1, d2 + 2);
      } else {
        DivModUnique(d2 - 2, 4, 0, d2 - 2);
      }
    }
  }

  /** Write j between two sides: the jump from the (j / 2)-th tile of one side to
      the (j / 2)-th tile of the other, forth for even j, back for odd j. */
  lemma PairWriteAt(f1: Face, d1: int, f2: Face, d2: int, j: int)
    requires 0 <= d1 < |f1.edges| && 0 <= d2 < |f2.edges|
    requires 0 <= j < |PairWrites(f1, d1, f2, d2)|
    ensures var c1, c2 := GetCoordsFromEdge(f1, d1), GetCoordsFromEdge(f2, d2);
      j / 2 < |c1| && j / 2 < |c2| && 0 <= d1 < 4 && 0 <= d2 < 4 &&
      PairWrites(f1, d1, f2, d2)[j] ==
        if j % 2 == 0 then Jump(f1, d1, c1[j / 2], f2, d2, c2[j / 2])
        else Jump(f2, d2, c2[j / 2], f1, d1, c1[j / 2])
  {
  }

  /** Jump 2i between two sides goes from the i-th tile of the first side to the
      i-th tile of the second. */
  lemma PairWriteForth(f1: Face, d1: int, f2: Face, d2: int, i: nat)
    requires 0 <= d1 < |f1.edges| && 0 <= d2 < |f2.edges|
    requires 2 * i < |PairWrites(f1, d1, f2, d2)|
    ensures var c1, c2 := GetCoordsFromEdge(f1, d1), GetCoordsFromEdge(f2, d2);
      i < |c1| && i < |c2| && PairWrites(f1, d1, f2, d2)[2 * i] == Jump(f1, d1, c1[i], f2, d2, c2[i])
  {
    DivModUnique(2 * i, 2, i, 0);
    PairWriteAt(f1, d1, f2, d2, 2 * i);
  }

  /** Jump 2i + 1 between two sides goes back from the i-th tile of the second side
      to the i-th tile of the first. */
  lemma PairWriteBack(f1: Face, d1: int, f2: Face, d2: int, i: nat)
    requires 0 <= d1 < |f1.edges| && 0 <= d2 < |f2.edges|
    requires 2 * i + 1 < |PairWrites(f1, d1, f2, d2)|
    ensures var c1, c2 := GetCoordsFromEdge(f1, d1), GetCoordsFromEdge(f2, d2);
      i < |c1| && i < |c2| && PairWrites(f1, d1, f2, d2)[2 * i + 1] == Jump(f2, d2, c2[i], f1, d1, c1[i])
  {
    DivModUnique(2 * i + 1, 2, i, 1);
    PairWriteAt(f1, d1, f2, d2, 2 * i + 1);
  }

  /** Every jump between two sides comes with its way back (day22/day22.py:504-509),
      starts from a facing in 0..3 and leaves a facing in 0..3 (day22/day22.py:607). */
  lemma PairWritesReversible(f1: Face, d1: int, f2: Face, d2: int)
    requires 0 <= d1 < |f1.edges| && 0 <= d2 < |f2.edges|
    ensures var ws := PairWrites(f1, d1, f2, d2);
      forall i :: 0 <= i < |ws| / 2 ==> Reverses(ws[2 * i], ws[2 * i + 1]) && Reverses(ws[2 * i + 1], ws[2 * i])
    ensures forall w :: w in PairWrites(f1, d1, f2, d2) ==> 0 <= w.0.2 < 4 && 0 <= w.0.2 + w.1.2 < 4
  {
    var ws := PairWrites(f1, d1, f2, d2);
    var c1, c2 := GetCoordsFromEdge(f1, d1), GetCoordsFromEdge(f2, d2);
    forall i | 0 <= i < |ws| / 2 ensures Reverses(ws[2 * i], ws[2 * i + 1]) && Reverses(ws[2 * i + 1], ws[2 * i]) {
      PairWriteAt(f1, d1, f2, d2, 2 * i);
      PairWriteAt(f1, d1, f2, d2, 2 * i + 1);
      assert (2 * i + 1) / 2 == i && (2 * i) / 2 == i;
      JumpReverses(f1, d1, c1[i], f2, d2, c2[i]);
      JumpReverses(f2, d2, c2[i], f1, d1, c1[i]);
    }
    forall w | w in ws ensures 0 <= w.0.2 < 4 && 0 <= w.0.2 + w.1.2 < 4 {
      var j :| 0 <= j < |ws| && ws[j] == w;
      PairWriteAt(f1, d1, f2, d2, j);
    }
  }

  /** The jumps between two sides of two faces at different positions start from
      pairwise distinct keys. */
  lemma PairWritesDistinct(f1: Face, d1: int, f2: Face, d2: int)
    requires 0 <= d1 < |f1.edges| && 0 <= d2 < |f2.edges|
    requires f1.size > 0 && f2.size == f1.size && f1.coord != f2.coord
    ensures DistinctKeys(PairWrites(f1, d1, f2, d2))
  {
    var ws := PairWrites(f1, d1, f2, d2);
    var c1, c2 := GetCoordsFromEdge(f1, d1), GetCoordsFromEdge(f2, d2);
    forall i, j | 0 <= i < j < |ws| ensures ws[i].0 != ws[j].0 {
      PairWriteAt(f1, d1, f2, d2, i);
      PairWriteAt(f1, d1, f2, d2, j);
      if i % 2 == 0 && j % 2 == 0 {
        KeysDiffer(f1, d1, c1[i / 2], f1, d1, c1[j / 2]);
      } else if i % 2 == 0 {
        KeysDiffer(f1, d1, c1[i / 2], f2, d2, c2[j / 2]);
      } else if j % 2 == 0 {
        KeysDiffer(f2, d2, c2[i / 2], f1, d1, c1[j / 2]);
      } else {
        KeysDiffer(f2, d2, c2[i / 2], f2, d2, c2[j / 2]);
      }
    }
  }

  /** Each jump between two sides starts from a tile of one of the two faces, on
      that face's side. */
  lemma PairWritesOwned(f1: Face, d1: int, f2: Face, d2: int)
    requires 0 <= d1 < |f1.edges| && 0 <= d2 < |f2.edges|
    requires f1.size > 0 && f2.size > 0
    ensures forall w :: w in PairWrites(f1, d1, f2, d2) ==>
      (w.0.2 == d1 && (w.0.0 / f1.size, w.0.1 / f1.size) == f1.coord) ||
      (w.0.2 == d2 && (w.0.0 / f2.size, w.0.1 / f2.size) == f2.coord)
  {
    var ws := PairWrites(f1, d1, f2, d2);
    var c1, c2 := GetCoordsFromEdge(f1, d1), GetCoordsFromEdge(f2, d2);
    forall w | w in ws
      ensures (w.0.2 == d1 && (w.0.0 / f1.size, w.0.1 / f1.size) == f1.coord) ||
              (w.0.2 == d2 && (w.0.0 / f2.size, w.0.1 / f2.size) == f2.coord)
    {
      var j :| 0 <= j < |ws| && ws[j] == w;
      PairWriteAt(f1, d1, f2, d2, j);
      if j % 2 == 0 {
        MapTileUnique(f1, c1[j / 2]);
      } else {
        MapTileUnique(f2, c2[j / 2]);
      }
    }
  }

  /** The two holders of edge id, when they write anything. */
  lemma EdgeWritesHolders(faces: seq<Face>, id: int) returns (h1: (Face, int), h2: (Face, int))
    requires EdgeWrites(faces, id) != []
    ensures HolderSide(h1) && HolderSide(h2)
    ensures EdgeWrites(faces, id) == PairWrites(h1.0, h1.1, h2.0, h2.1)
    ensures h1.0 in faces && h1.0.edges[h1.1].id == id
    ensures h2.0 in faces && h2.0.edges[h2.1].id == id
    ensures DistinctCoords(faces) ==> h1.0.coord != h2.0.coord
  {
    var hs := Holders(faces, id, 0);
    h1, h2 := hs[0], hs[1];
    HoldersMembers(faces, id, 0);
    assert h1 in hs && h2 in hs;
    assert h1.0 in faces[0..] && h2.0 in faces[0..];
    EdgeSideMeaning(h1.0.edges, id, 0);
    EdgeSideMeaning(h2.0.edges, id, 0);
    if DistinctCoords(faces) {
      HoldersDistinct(faces, id, 0);
    }
  }

  /** Every jump written for an edge comes with its way back, and turns safely. */
  lemma EdgeWritesReversible(faces: seq<Face>, id: int)
    ensures var ws := EdgeWrites(faces, id);
      forall i :: 0 <= i < |ws| / 2 ==> Reverses(ws[2 * i], ws[2 * i + 1]) && Reverses(ws[2 * i + 1], ws[2 * i])
    ensures forall w :: w in EdgeWrites(faces, id) ==> 0 <= w.0.2 < 4 && 0 <= w.0.2 + w.1.2 < 4
  {
    if EdgeWrites(faces, id) != [] {
      var h1, h2 := EdgeWritesHolders(faces, id);
      PairWritesReversible(h1.0, h1.1, h2.0, h2.1);
    }
  }

  /** The face at grid position c, looking from position n of faces on. */
  function FaceAt(faces: seq<Face>, c: Tile, n: nat): Option<Face>
    requires n <= |faces|
    decreases |faces| - n
  {
    if n == |faces| then None
    else if faces[n].coord == c then Some(faces[n])
    else FaceAt(faces, c, n + 1)
  }

  /** With distinct positions, a face is found at its own position. */
  lemma {:induction false} FaceAtMember(faces: seq<Face>, f: Face, n: nat)
    requires n <= |faces| && DistinctCoords(faces) && f in faces[n..]
    ensures FaceAt(faces, f.coord, n) == Some(f)
    decreases |faces| - n
  {
    if faces[n] != f {
      var k :| n <= k < |faces| && faces[k] == f;
      assert k > n;
      assert faces[n].coord != f.coord;
      assert f in faces[n + 1..];
      FaceAtMember(faces, f, n + 1);
    }
  }

  /** All faces have the given size. */
  ghost predicate WellSized(faces: seq<Face>, size: int) {
    forall f :: f in faces ==> f.size == size
  }

  /** The label of the edge on side k.2 of the face owning tile (k.0, k.1). */
  function KeyEdge(faces: seq<Face>, size: int, k: Key): int
    requires size > 0
  {
    match FaceAt(faces, (k.0 / size, k.1 / size), 0)
    case None => 0
    case Some(f) => if 0 <= k.2 < |f.edges| then f.edges[k.2].id else 0
  }

  /** A jump written for edge id starts from a side labelled id. */
  lemma EdgeWritesOwned(faces: seq<Face>, size: int, id: int)
    requires size > 0 && DistinctCoords(faces) && WellSized(faces, size)
    ensures forall w :: w in EdgeWrites(faces, id) ==> KeyEdge(faces, size, w.0) == id
  {
    if EdgeWrites(faces, id) != [] {
      var h1, h2 := EdgeWritesHolders(faces, id);
      PairWritesOwned(h1.0, h1.1, h2.0, h2.1);
      FaceAtMember(faces, h1.0, 0);
      FaceAtMember(faces, h2.0, 0);
    }
  }

  /** Tiles of two faces of one size differ on the map when the faces or the tiles
      differ. */
  lemma KeysDiffer(f: Face, d: int, t: Tile, f': Face, d': int, t': Tile)
    requires f.size > 0 && f'.size == f.size
    requires OnSide(t, d, f.size) && OnSide(t', d', f'.size)
    requires f.coord != f'.coord || t != t'
    ensures Jump(f, d, t, f, d, t).0 != Jump(f', d', t', f', d', t').0
  {
    MapTileUnique(f, t);
    MapTileUnique(f', t');
  }

  /** The jumps written for one edge start from pairwise distinct keys. */
  lemma EdgeWritesDistinct(faces: seq<Face>, size: int, id: int)
    requires size > 0 && DistinctCoords(faces) && WellSized(faces, size)
    ensures DistinctKeys(EdgeWrites(faces, id))
  {
    if EdgeWrites(faces, id) != [] {
      var h1, h2 := EdgeWritesHolders(faces, id);
      PairWritesDistinct(h1.0, h1.1, h2.0, h2.1);
    }
  }

  /** The writes start from pairwise distinct keys. */
  ghost predicate DistinctKeys(ws: seq<(Key, Key)>) {
    forall i, j :: 0 <= i < j < |ws| ==> ws[i].0 != ws[j].0
  }

  /** The jumps written for edges 1 to k start from pairwise distinct keys, each on a
      side labelled 1 to k, and all turn safely. */
  lemma {:induction false} CubeWritesDistinct(faces: seq<Face>, size: int, k: int)
    requires size > 0 && DistinctCoords(faces) && WellSized(faces, size)
    ensures DistinctKeys(CubeWrites(faces, k))
    ensures forall w :: w in CubeWrites(faces, k) ==>
      1 <= KeyEdge(faces, size, w.0) <= k && 0 <= w.0.2 + w.1.2 < 4
    decreases k
  {
    if k >= 1 {
      CubeWritesDistinct(faces, size, k - 1);
      EdgeWritesDistinct(faces, size, k);
      EdgeWritesOwned(faces, size, k);
      EdgeWritesReversible(faces, k);
      CubeWritesStep(faces, size, k, CubeWrites(faces, k - 1), EdgeWrites(faces, k));
    }
  }

  /** Appending the writes for edge k to those for edges 1 to k - 1 keeps the keys
      distinct, each on a side labelled 1 to k, and every jump turning safely. */
  lemma CubeWritesStep(faces: seq<Face>, size: int, k: int, a: seq<(Key, Key)>, b: seq<(Key, Key)>)
    requires size > 0 && k >= 1 && DistinctKeys(a) && DistinctKeys(b)
    requires forall w :: w in a ==> 1 <= KeyEdge(faces, size, w.0) <= k - 1 && 0 <= w.0.2 + w.1.2 < 4
    requires forall w :: w in b ==> KeyEdge(faces, size, w.0) == k && 0 <= w.0.2 + w.1.2 < 4
    ensures DistinctKeys(a + b)
    ensures forall w :: w in a + b ==> 1 <= KeyEdge(faces, size, w.0) <= k && 0 <= w.0.2 + w.1.2 < 4
  {
    forall x, y | x in a && y in b ensures x.0 != y.0 {
      assert KeyEdge(faces, size, x.0) < KeyEdge(faces, size, y.0);
    }
    ConcatDistinctKeys(a, b);
    forall w | w in a + b ensures 1 <= KeyEdge(faces, size, w.0) <= k && 0 <= w.0.2 + w.1.2 < 4 {
      if w !in a {
        assert w in b;
      }
    }
  }

  /** Two lists of writes with distinct keys, none shared, concatenate to one. */
  lemma ConcatDistinctKeys(a: seq<(Key, Key)>, b: seq<(Key, Key)>)
    requires DistinctKeys(a) && DistinctKeys(b)
    requires forall x, y :: x in a && y in b ==> x.0 != y.0
    ensures DistinctKeys(a + b)
  {
    var ws := a + b;
    forall i, j | 0 <= i < j < |ws| ensures ws[i].0 != ws[j].0 {
      if j < |a| {
        assert ws[i] == a[i] && ws[j] == a[j];
      } else if i >= |a| {
        assert ws[i] == b[i - |a|] && ws[j] == b[j - |a|];
      } else {
        assert ws[i] == a[i] && ws[j] == b[j - |a|];
        assert a[i] in a && b[j - |a|] in b;
      }
    }
  }

  /** The writes for edges 1 to j come first among the writes for edges 1 to k, for
      j <= k. */
  lemma {:induction false} CubeWritesPrefix(faces: seq<Face>, j: int, k: int)
    requires 0 <= j <= k
    ensures CubeWrites(faces, j) <= CubeWrites(faces, k)
    decreases k - j
  {
    if j < k {
      CubeWritesPrefix(faces, j, k - 1);
      PrefixExtend(CubeWrites(faces, j), CubeWrites(faces, k - 1), EdgeWrites(faces, k), CubeWrites(faces, k));
    }
  }

  lemma PrefixExtend(a: seq<(Key, Key)>, b: seq<(Key, Key)>, e: seq<(Key, Key)>, c: seq<(Key, Key)>)
    requires a <= b && c == b + e
    ensures a <= c
  {
  }

  /** A write for edge id is among the writes for edges 1 to k, for id <= k. */
  lemma CubeWritesContain(faces: seq<Face>, id: int, k: int, w: (Key, Key))
    requires 1 <= id <= k && w in EdgeWrites(faces, id)
    ensures w in CubeWrites(faces, k)
  {
    CubeWritesPrefix(faces, id, k);
    InPrefixed(CubeWrites(faces, id - 1), EdgeWrites(faces, id), CubeWrites(faces, id), CubeWrites(faces, k), w);
  }

  lemma InPrefixed(b: seq<(Key, Key)>, e: seq<(Key, Key)>, a: seq<(Key, Key)>, c: seq<(Key, Key)>, w: (Key, Key))
    requires a == b + e && a <= c && w in e
    ensures w in c
  {
    var i :| 0 <= i < |e| && e[i] == w;
    assert c[|b| + i] == w;
  }

  /** Every jump written for edges 1 to 12 is in the table m. */
  ghost predicate HoldsEdgeJumps(m: map<Key, Key>, faces: seq<Face>) {
    forall id, w :: 1 <= id <= 12 && w in EdgeWrites(faces, id) ==> w.0 in m && m[w.0] == w.1
  }

  /** After set_jumps_as_cube writes all edges, no jump has been overwritten: every
      jump of every edge is in the table, and the table still turns safely. */
  lemma CubeJumpsKept(m: map<Key, Key>, faces: seq<Face>, size: int)
    requires size > 0 && DistinctCoords(faces) && WellSized(faces, size) && TurnsSafely(m)
    ensures TurnsSafely(Apply(m, CubeWrites(faces, 12)))
    ensures HoldsEdgeJumps(Apply(m, CubeWrites(faces, 12)), faces)
  {
    var ws := CubeWrites(faces, 12);
    CubeWritesDistinct(faces, size, 12);
    ApplyDistinct(m, ws);
    ApplyTurnsSafely(m, ws);
    forall id, w | 1 <= id <= 12 && w in EdgeWrites(faces, id) ensures w in ws {
      CubeWritesContain(faces, id, 12, w);
    }
  }
}
