/** The virtual cube of day22/day22.py: a cube of side 2 centred on the origin whose
    12 edges are labelled 1 to 12, each an edge point and a direction vector. Rolling
    the cube towards a neighbouring face of the net is a 90° rotation of every point
    and every vector; the four edges then lying on top, found by their geometry, are
    the edges of the face. Vectors are 3-element integer buffers rotated in place. */
module MonkeyCube {

  /** The facings: 0 up, turning clockwise by one each time. */
  const UP := 0
  const RIGHT := 1
  const DOWN := 2
  const LEFT := 3

  datatype V3 = V3(x: int, y: int, z: int)

  datatype Axis = X | Y | Z

  /** One 90° rotation about an axis, as the products by Vector.x_rotate_matrix,
      y_rotate_matrix and z_rotate_matrix (day22/day22.py:153-155). */
  function Rot(a: Axis, v: V3): V3 {
    match a
    case X => V3(v.x, -v.z, v.y)
    case Y => V3(v.z, v.y, -v.x)
    case Z => V3(-v.y, v.x, v.z)
  }

  /** n successive rotations about a; none when n <= 0. */
  function Rots(a: Axis, v: V3, n: int): V3
    decreases n
  {
    if n <= 0 then v else Rot(a, Rots(a, v, n - 1))
  }

  /** Four quarter turns about one axis restore every vector. */
  lemma FourRotations(a: Axis, v: V3)
    ensures Rots(a, v, 4) == v
  {
    assert Rots(a, v, 4) == Rot(a, Rot(a, Rot(a, Rot(a, v))));
  }

  lemma {:induction false} RotsAdd(a: Axis, v: V3, m: nat, n: nat)
    ensures Rots(a, Rots(a, v, m), n) == Rots(a, v, m + n)
  {
    if n > 0 {
      RotsAdd(a, v, m, n - 1);
    }
  }

  /** Rotating n + 4 times is rotating n times. */
  lemma RotsPeriod(a: Axis, v: V3, n: nat)
    ensures Rots(a, v, n + 4) == Rots(a, v, n)
  {
    RotsAdd(a, v, 4, n);
    FourRotations(a, v);
  }

  /** A 3-element integer vector (or point) updated in place. */
  class Vector {
    var x: int
    var y: int
    var z: int

    function Value(): V3
      reads this
    {
      V3(x, y, z)
    }

    constructor (x: int, y: int, z: int)
      ensures Value() == V3(x, y, z)
    {
      this.x, this.y, this.z := x, y, z;
    }

    /** ndarray.copy */
    method Copy() returns (v: Vector)
      ensures fresh(v) && v.Value() == Value()
    {
      v := new Vector(x, y, z);
    }

    method Turn(a: Axis)
      modifies this
      ensures Value() == Rot(a, old(Value()))
    {
      var r := Rot(a, Value());
      x, y, z := r.x, r.y, r.z;
    }

    /** Vector.rotate (day22/day22.py:172-183): rx quarter turns about x, then ry
        about y, then rz about z; a count that is not positive turns nothing. */
    method Rotate(rx: int, ry: int, rz: int)
      modifies this
      ensures Value() == Rots(Z, Rots(Y, Rots(X, old(Value()), rx), ry), rz)
    {
      ghost var v0 := Value();
      if rx > 0 {
        for i := 0 to rx
          invariant Value() == Rots(X, v0, i)
        {
          Turn(X);
        }
      }
      ghost var v1 := Value();
      if ry > 0 {
        for i := 0 to ry
          invariant Value() == Rots(Y, v1, i)
        {
          Turn(Y);
        }
      }
      ghost var v2 := Value();
      if rz > 0 {
        for i := 0 to rz
          invariant Value() == Rots(Z, v2, i)
        {
          Turn(Z);
        }
      }
    }
  }

  /** Four calls of Vector.rotate(rotate_x_axis=1) in a row leave the vector as it was,
      and so for y and z. */
  method RotateFourTimes(v: Vector, a: Axis)
    modifies v
    ensures v.Value() == old(v.Value())
  {
    ghost var v0 := v.Value();
    for i := 0 to 4
      invariant v.Value() == Rots(a, v0, i)
    {
      if a == X {
        v.Rotate(1, 0, 0);
      } else if a == Y {
        v.Rotate(0, 1, 0);
      } else {
        v.Rotate(0, 0, 1);
      }
    }
    FourRotations(a, v0);
  }

  // ---------------------------------------------------------------------------
  // Edges

  /** An edge as a value: its label, its point and its vector. */
  datatype EdgeV = EdgeV(id: int, point: V3, vector: V3)

  /** Edge.__eq__ (day22/day22.py:231-233): same point and same vector. */
  predicate SameGeometry(a: EdgeV, b: EdgeV) {
    a.point == b.point && a.vector == b.vector
  }

  /** The rotation of a vector when the cube rolls towards direction d (seen from the
      top): a quarter turn about x towards the top, three towards the bottom, three
      about y towards the right, one towards the left; nothing for any other d. */
  function Roll(v: V3, d: int): V3 {
    if d == UP then Rots(X, v, 1)
    else if d == DOWN then Rots(X, v, 3)
    else if d == RIGHT then Rots(Y, v, 3)
    else if d == LEFT then Rots(Y, v, 1)
    else v
  }

  /** Edge.rotate (day22/day22.py:238-252) on an edge value: point and vector roll,
      the label stays. */
  function RollEdge(e: EdgeV, d: int): (r: EdgeV)
    ensures r.id == e.id
  {
    EdgeV(e.id, Roll(e.point, d), Roll(e.vector, d))
  }

  /** The opposite of a facing. */
  function Opposite(d: int): int {
    if d == UP then DOWN else if d == DOWN then UP else if d == RIGHT then LEFT else if d == LEFT then RIGHT else d
  }

  /** Rolling towards d and then back towards the opposite facing restores the
      vector. */
  lemma {:induction false} RollInverse(v: V3, d: int)
    ensures Roll(Roll(v, d), Opposite(d)) == v
  {
    if d == UP || d == LEFT {
      var a := if d == UP then X else Y;
      RotsAdd(a, v, 1, 3);
      FourRotations(a, v);
    } else if d == DOWN || d == RIGHT {
      var a := if d == DOWN then X else Y;
      RotsAdd(a, v, 3, 1);
      FourRotations(a, v);
    }
  }

  /** Edge.rotate UP then DOWN, DOWN then UP, RIGHT then LEFT or LEFT then RIGHT gives
      the edge back, label included. */
  lemma RollEdgeInverse(e: EdgeV, d: int)
    ensures RollEdge(RollEdge(e, d), Opposite(d)) == e
  {
    RollInverse(e.point, d);
    RollInverse(e.vector, d);
  }

  /** An edge of the cube: a label and two vectors of its own. */
  class Edge {
    const id: int
    const point: Vector
    const vector: Vector

    function Value(): EdgeV
      reads point, vector
    {
      EdgeV(id, point.Value(), vector.Value())
    }

    constructor (id: int, point: Vector, vector: Vector)
      ensures this.id == id && this.point == point && this.vector == vector
    {
      this.id, this.point, this.vector := id, point, vector;
    }

    /** Edge.__copy__ (day22/day22.py:235-236): same label, copies of both vectors. */
    method Copy() returns (e: Edge)
      ensures fresh(e) && fresh(e.point) && fresh(e.vector) && e.point != e.vector
      ensures e.Value() == Value()
    {
      var p := point.Copy();
      var v := vector.Copy();
      e := new Edge(id, p, v);
    }

    /** Edge.rotate (day22/day22.py:238-252). */
    method Rotate(d: int)
      requires point != vector
      modifies point, vector
      ensures Value() == RollEdge(old(Value()), d)
    {
      if d == UP {
        point.Rotate(1, 0, 0);
        vector.Rotate(1, 0, 0);
      } else if d == DOWN {
        point.Rotate(3, 0, 0);
        vector.Rotate(3, 0, 0);
      } else if d == RIGHT {
        point.Rotate(0, 3, 0);
        vector.Rotate(0, 3, 0);
      } else if d == LEFT {
        point.Rotate(0, 1, 0);
        vector.Rotate(0, 1, 0);
      }
    }
  }

  /** A new edge with vectors of its own. */
  method NewEdge(id: int, p: V3, v: V3) returns (e: Edge)
    ensures fresh(e) && fresh(e.point) && fresh(e.vector) && e.point != e.vector
    ensures e.Value() == EdgeV(id, p, v)
  {
    var point := new Vector(p.x, p.y, p.z);
    var vector := new Vector(v.x, v.y, v.z);
    e := new Edge(id, point, vector);
  }

  // ---------------------------------------------------------------------------
  // The cube

  /** Cube._init_edges (day22/day22.py:272-293): the four top edges 1-4 running round
      the top face clockwise seen from above, the four side edges 5-8 pointing down,
      and the bottom edges 9-12 under the top ones. */
  function InitialEdges(): seq<EdgeV> {
    [ EdgeV(1, V3(-1, 1, 1), V3(1, 0, 0)),
      EdgeV(2, V3(1, 1, 1), V3(0, -1, 0)),
      EdgeV(3, V3(1, -1, 1), V3(-1, 0, 0)),
      EdgeV(4, V3(-1, -1, 1), V3(0, 1, 0)),
      EdgeV(5, V3(-1, 1, 1), V3(0, 0, -1)),
      EdgeV(6, V3(1, 1, 1), V3(0, 0, -1)),
      EdgeV(7, V3(1, -1, 1), V3(0, 0, -1)),
      EdgeV(8, V3(-1, -1, 1), V3(0, 0, -1)),
      EdgeV(9, V3(-1, 1, -1), V3(1, 0, 0)),
      EdgeV(10, V3(1, 1, -1), V3(0, -1, 0)),
      EdgeV(11, V3(1, -1, -1), V3(-1, 0, 0)),
      EdgeV(12, V3(-1, -1, -1), V3(0, 1, 0)) ]
  }

  /** Every edge rolled towards d. */
  function RollAll(s: seq<EdgeV>, d: int): (r: seq<EdgeV>)
    ensures |r| == |s| && forall i :: 0 <= i < |s| ==> r[i] == RollEdge(s[i], d)
  {
    seq(|s|, i requires 0 <= i < |s| => RollEdge(s[i], d))
  }

  /** Rolling the whole cube towards d and back gives it back. */
  lemma RollAllInverse(s: seq<EdgeV>, d: int)
    ensures RollAll(RollAll(s, d), Opposite(d)) == s
  {
    forall i | 0 <= i < |s| ensures RollAll(RollAll(s, d), Opposite(d))[i] == s[i] {
      RollEdgeInverse(s[i], d);
    }
  }

  /** No two edges share a point and a vector, so Edge.__eq__ picks out at most one
      edge of the cube. */
  predicate DistinctGeometries(s: seq<EdgeV>) {
    forall i, j :: 0 <= i < j < |s| ==> !SameGeometry(s[i], s[j])
  }

  /** The twelve edges of a new cube have twelve different geometries. */
  lemma InitialDistinct()
    ensures DistinctGeometries(InitialEdges())
  {
    var s := InitialEdges();
    forall i, j | 0 <= i < j < |s| ensures !SameGeometry(s[i], s[j]) {
      assert s[i].point != s[j].point || s[i].vector != s[j].vector;
    }
  }

  /** Rolling the cube keeps the geometries apart: rolling is undone by rolling back,
      so two edges that roll onto one geometry had one geometry before. */
  lemma RollAllDistinct(s: seq<EdgeV>, d: int)
    requires DistinctGeometries(s)
    ensures DistinctGeometries(RollAll(s, d))
  {
    var r := RollAll(s, d);
    forall i, j | 0 <= i < j < |r| ensures !SameGeometry(r[i], r[j]) {
      RollInverse(s[i].point, d);
      RollInverse(s[i].vector, d);
      RollInverse(s[j].point, d);
      RollInverse(s[j].vector, d);
    }
  }

  /** The edges from index i on whose geometry is a or b, in order: one search loop
      of Cube.find_top_edges. */
  function Matching(s: seq<EdgeV>, a: EdgeV, b: EdgeV, i: nat): (r: seq<EdgeV>)
    requires i <= |s|
    decreases |s| - i
  {
    if i == |s| then []
    else (if SameGeometry(s[i], a) || SameGeometry(s[i], b) then [s[i]] else []) + Matching(s, a, b, i + 1)
  }

  /** The search keeps exactly the edges of s[i..] with the geometry of a or b. */
  lemma {:induction false} MatchingMembers(s: seq<EdgeV>, a: EdgeV, b: EdgeV, i: nat)
    requires i <= |s|
    ensures |Matching(s, a, b, i)| <= |s| - i
    ensures forall e :: e in Matching(s, a, b, i) <==> e in s[i..] && (SameGeometry(e, a) || SameGeometry(e, b))
    decreases |s| - i
  {
    if i < |s| {
      MatchingMembers(s, a, b, i + 1);
      assert s[i..] == [s[i]] + s[i + 1..];
    }
  }

  /** Cube.find_top_edges (day22/day22.py:300-331): the edges on the top face, the
      top one first (running either way), then the right, the bottom and the left
      one. */
  function TopEdges(s: seq<EdgeV>): seq<EdgeV> {
    Matching(s, EdgeV(0, V3(-1, 1, 1), V3(1, 0, 0)), EdgeV(0, V3(1, 1, 1), V3(-1, 0, 0)), 0) +
    Matching(s, EdgeV(0, V3(1, 1, 1), V3(0, -1, 0)), EdgeV(0, V3(1, -1, 1), V3(0, 1, 0)), 0) +
    Matching(s, EdgeV(0, V3(1, -1, 1), V3(-1, 0, 0)), EdgeV(0, V3(-1, -1, 1), V3(1, 0, 0)), 0) +
    Matching(s, EdgeV(0, V3(-1, -1, 1), V3(0, 1, 0)), EdgeV(0, V3(-1, 1, 1), V3(0, -1, 0)), 0)
  }

  /** On a new cube the top edges are 1, 2, 3 and 4, in the order up, right, down,
      left. */
  lemma InitialTopEdges()
    ensures TopEdges(InitialEdges()) == InitialEdges()[..4]
  {
  }

  /** The cube: twelve edges, with 24 vectors of their own. */
  class Cube {
    const edges: seq<Edge>
    ghost const Repr: set<Vector>

    ghost predicate Valid() {
      |edges| == 12 &&
      (forall i :: 0 <= i < 12 ==> edges[i].point != edges[i].vector &&
                                   edges[i].point in Repr && edges[i].vector in Repr) &&
      (forall i, j :: 0 <= i < j < 12 ==>
         edges[i].point != edges[j].point && edges[i].vector != edges[j].vector &&
         edges[i].point != edges[j].vector && edges[i].vector != edges[j].point)
    }

    /** The edges as values. */
    ghost function Snapshot(): (s: seq<EdgeV>)
      requires Valid()
      reads Repr
      ensures |s| == 12 && forall i :: 0 <= i < 12 ==> s[i] == edges[i].Value()
    {
      seq(12, i requires 0 <= i < 12 reads Repr => edges[i].Value())
    }

    /** Cube() (day22/day22.py:259-263, 272-293): a new cube with the initial edges. */
    constructor ()
      ensures Valid() && fresh(Repr) && Snapshot() == InitialEdges()
    {
      var s := InitialEdges();
      var es: seq<Edge> := [];
      for i := 0 to 12
        invariant |es| == i
        invariant forall k :: 0 <= k < i ==> fresh(es[k].point) && fresh(es[k].vector)
        invariant forall k :: 0 <= k < i ==> es[k].point != es[k].vector && es[k].Value() == s[k]
        invariant forall k, j :: 0 <= k < j < i ==>
          es[k].point != es[j].point && es[k].vector != es[j].vector &&
          es[k].point != es[j].vector && es[k].vector != es[j].point
      {
        var e := NewEdge(s[i].id, s[i].point, s[i].vector);
        es := es + [e];
      }
      edges := es;
      Repr := (set k | 0 <= k < 12 :: es[k].point) + (set k | 0 <= k < 12 :: es[k].vector);
      new;
      assert Snapshot() == s;
    }

    /** Cube(edges) (day22/day22.py:259-261) from edges with vectors of their own. */
    constructor FromEdges(es: seq<Edge>)
      requires |es| == 12
      requires forall i :: 0 <= i < 12 ==> es[i].point != es[i].vector
      requires forall i, j :: 0 <= i < j < 12 ==>
        es[i].point != es[j].point && es[i].vector != es[j].vector &&
        es[i].point != es[j].vector && es[i].vector != es[j].point
      ensures Valid() && edges == es
      ensures Repr == (set k | 0 <= k < 12 :: es[k].point) + (set k | 0 <= k < 12 :: es[k].vector)
    {
      edges := es;
      Repr := (set k | 0 <= k < 12 :: es[k].point) + (set k | 0 <= k < 12 :: es[k].vector);
    }

    /** Cube.__copy__ (day22/day22.py:265-267): a cube of copied edges. */
    method Copy() returns (c: Cube)
      requires Valid()
      ensures fresh(c) && fresh(c.Repr) && c.Valid() && c.Snapshot() == Snapshot()
    {
      var es: seq<Edge> := [];
      for i := 0 to 12
        invariant |es| == i
        invariant forall k :: 0 <= k < i ==> fresh(es[k].point) && fresh(es[k].vector)
        invariant forall k :: 0 <= k < i ==> es[k].point != es[k].vector
        invariant forall k :: 0 <= k < i ==> es[k].Value() == edges[k].Value()
        invariant forall k, j :: 0 <= k < j < i ==>
          es[k].point != es[j].point && es[k].vector != es[j].vector &&
          es[k].point != es[j].vector && es[k].vector != es[j].point
      {
        var e := edges[i].Copy();
        es := es + [e];
      }
      c := new Cube.FromEdges(es);
    }

    /** Cube.rotate (day22/day22.py:295-298): every edge rolls towards d. */
    method Rotate(d: int)
      requires Valid()
      modifies Repr
      ensures Valid() && Snapshot() == RollAll(old(Snapshot()), d)
    {
      ghost var s0 := Snapshot();
      for i := 0 to 12
        invariant forall k :: 0 <= k < 12 ==> edges[k].Value() == if k < i then RollEdge(s0[k], d) else s0[k]
      {
        edges[i].Rotate(d);
      }
    }

    /** One search loop of Cube.find_top_edges (day22/day22.py:307-311). */
    method CollectMatching(a: EdgeV, b: EdgeV) returns (r: seq<EdgeV>)
      requires Valid()
      ensures r == Matching(Snapshot(), a, b, 0)
    {
      ghost var s := Snapshot();
      r := [];
      var i := 12;
      var found: seq<EdgeV> := [];
      while i > 0
        invariant 0 <= i <= 12
        invariant found == Matching(s, a, b, i)
      {
        i := i - 1;
        var e := edges[i].Value();
        if SameGeometry(e, a) || SameGeometry(e, b) {
          found := [e] + found;
        }
      }
      r := found;
    }

    /** Cube.find_top_edges (day22/day22.py:300-331), as edge values. */
    method FindTopEdges() returns (top: seq<EdgeV>)
      requires Valid()
      ensures top == TopEdges(Snapshot())
    {
      var up := CollectMatching(EdgeV(0, V3(-1, 1, 1), V3(1, 0, 0)), EdgeV(0, V3(1, 1, 1), V3(-1, 0, 0)));
      var right := CollectMatching(EdgeV(0, V3(1, 1, 1), V3(0, -1, 0)), EdgeV(0, V3(1, -1, 1), V3(0, 1, 0)));
      var down := CollectMatching(EdgeV(0, V3(1, -1, 1), V3(-1, 0, 0)), EdgeV(0, V3(-1, -1, 1), V3(1, 0, 0)));
      var left := CollectMatching(EdgeV(0, V3(-1, -1, 1), V3(0, 1, 0)), EdgeV(0, V3(-1, 1, 1), V3(0, -1, 0)));
      top := up + right + down + left;
    }
  }
}
