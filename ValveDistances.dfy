/** The tunnel distances of day16/day16.py: the valves are numbered by their position in
    valves_index, graph_to_matrix turns the tunnels into a 0/1 adjacency matrix, and
    floyd_warshall relaxes a distance matrix in place until it holds the shortest
    tunnel distances. */
module ValveDistances {
  import opened Wrappers
  import opened Arrays

  /** valves_index.index(name): the first position of name, or None where Python
      raises ValueError. */
  function IndexOf(names: seq<string>, name: string): (r: Option<nat>)
    ensures r.None? <==> name !in names
    ensures r.Some? ==> r.value < |names| && names[r.value] == name
  {
    if names == [] then None
    else if names[0] == name then Some(0)
    else
      match IndexOf(names[1..], name)
      case None => None
      case Some(k) => Some(k + 1)
  }

  /** Valve i lists a tunnel to valve j. */
  predicate Tunnel(names: seq<string>, targets: seq<seq<string>>, i: int, j: int)
    requires 0 <= i < |targets|
  {
    exists t :: t in targets[i] && IndexOf(names, t) == Some(j)
  }

  /** Some tunnel names no valve. */
  predicate UnknownTarget(names: seq<string>, targets: seq<seq<string>>) {
    exists i, t :: 0 <= i < |targets| && t in targets[i] && t !in names
  }

  /** Some of the first n tunnel names of valve i names valve j. */
  ghost predicate TunnelAmong(names: seq<string>, targets: seq<seq<string>>, i: int, n: int, j: int)
    requires 0 <= i < |targets| && 0 <= n <= |targets[i]|
  {
    exists t :: t in targets[i][..n] && IndexOf(names, t) == Some(j)
  }

  lemma TunnelAmongStep(names: seq<string>, targets: seq<seq<string>>, i: int, n: int, j: int)
    requires 0 <= i < |targets| && 0 <= n < |targets[i]|
    ensures TunnelAmong(names, targets, i, n + 1, j) <==>
      TunnelAmong(names, targets, i, n, j) || IndexOf(names, targets[i][n]) == Some(j)
  {
    assert targets[i][..n + 1] == targets[i][..n] + [targets[i][n]];
  }

  lemma TunnelAmongAll(names: seq<string>, targets: seq<seq<string>>, i: int, j: int)
    requires 0 <= i < |targets|
    ensures TunnelAmong(names, targets, i, |targets[i]|, j) <==> Tunnel(names, targets, i, j)
  {
    assert targets[i][..|targets[i]|] == targets[i];
  }

  /** graph_to_matrix (day16/day16.py:101-111). targets[i] holds the tunnel names of
      valve names[i]. The matrix holds 1 exactly for the listed tunnels and 0
      elsewhere; a tunnel to an unknown valve makes Python raise, which is None. */
  method GraphToMatrix(names: seq<string>, targets: seq<seq<string>>) returns (r: Option<array2<int>>)
    requires |targets| == |names|
    ensures r.None? <==> UnknownTarget(names, targets)
    ensures r.Some? ==> fresh(r.value) && r.value.Length0 == |names| && r.value.Length1 == |names|
    ensures r.Some? ==> forall i, j :: 0 <= i < |names| && 0 <= j < |names| ==>
      r.value[i, j] == if Tunnel(names, targets, i, j) then 1 else 0
  {
    var size := |names|;
    var matrix := new int[size, size]((i, j) => 0);
    for i := 0 to size
      invariant forall i', j :: 0 <= i' < size && 0 <= j < size ==>
        matrix[i', j] == if i' < i && Tunnel(names, targets, i', j) then 1 else 0
      invariant forall i', t :: 0 <= i' < i && t in targets[i'] ==> t in names
    {
      for n := 0 to |targets[i]|
        invariant forall i', j :: 0 <= i' < size && 0 <= j < size ==>
          matrix[i', j] == if (i' < i && Tunnel(names, targets, i', j)) ||
                              (i' == i && TunnelAmong(names, targets, i, n, j)) then 1 else 0
        invariant forall t :: t in targets[i][..n] ==> t in names
      {
        var valveEnd := targets[i][n];
        var index := IndexOf(names, valveEnd);
        if index.None? {
          return None;
        }
        forall j | 0 <= j < size {
          TunnelAmongStep(names, targets, i, n, j);
        }
        assert targets[i][..n + 1] == targets[i][..n] + [valveEnd];
        matrix[i, index.value] := 1;
      }
      forall j | 0 <= j < size {
        TunnelAmongAll(names, targets, i, j);
      }
      assert targets[i][..|targets[i]|] == targets[i];
    }
    return Some(matrix);
  }

  // ---------------------------------------------------------------------------
  // Distance matrices as values

  type Matrix = seq<seq<int>>

  predicate Square(d: Matrix, n: nat) {
    |d| == n && forall i :: 0 <= i < n ==> |d[i]| == n
  }

  /** Zero on the diagonal, at least 1 elsewhere. */
  predicate Distances(d: Matrix, n: nat)
    requires Square(d, n)
  {
    forall i, j :: 0 <= i < n && 0 <= j < n ==> (d[i][j] == 0 <==> i == j) && d[i][j] >= 0
  }

  function Min(a: int, b: int): int {
    if a <= b then a else b
  }

  /** One round of the relaxation through valve k. */
  function Relaxed(d: Matrix, n: nat, k: int): (r: Matrix)
    requires Square(d, n) && 0 <= k < n
    ensures Square(r, n)
    ensures forall i, j :: 0 <= i < n && 0 <= j < n ==> r[i][j] == Min(d[i][j], d[i][k] + d[k][j])
  {
    seq(n, i requires 0 <= i < n => seq(n, j requires 0 <= j < n => Min(d[i][j], d[i][k] + d[k][j])))
  }

  /** Going through any valve below k is never shorter. */
  predicate TriangleBelow(d: Matrix, n: nat, k: int)
    requires Square(d, n)
  {
    forall i, j, m :: 0 <= i < n && 0 <= j < n && 0 <= m < k && m < n ==> d[i][j] <= d[i][m] + d[m][j]
  }

  /** A round through k keeps a distance matrix a distance matrix and extends the
      triangle inequality from the valves below k to k itself. */
  lemma {:induction false} RelaxedKeeps(d: Matrix, n: nat, k: int)
    requires Square(d, n) && 0 <= k < n && Distances(d, n) && TriangleBelow(d, n, k)
    ensures Distances(Relaxed(d, n, k), n) && TriangleBelow(Relaxed(d, n, k), n, k + 1)
  {
    var r := Relaxed(d, n, k);
    forall i, j | 0 <= i < n && 0 <= j < n ensures (r[i][j] == 0 <==> i == j) && r[i][j] >= 0 {
      if i != j {
        assert d[i][k] + d[k][j] >= 1 by {
          if i == k {
            assert d[k][j] >= 1;
          } else {
            assert d[i][k] >= 1;
          }
        }
      }
    }
    forall i, j, m | 0 <= i < n && 0 <= j < n && 0 <= m < k + 1 && m < n
      ensures r[i][j] <= r[i][m] + r[m][j]
    {
      if m == k {
        assert r[i][k] == d[i][k] && r[k][j] == d[k][j];
      } else {
        var dik, dkj := d[i][k], d[k][j];
        var dim, dmj := d[i][m], d[m][j];
        var dkm, dmk := d[k][m], d[m][k];
        assert d[i][j] <= dim + dmj;
        assert dkj <= dkm + dmj;
        assert dik <= dim + dmk;
        assert dmk >= 0 && dkm >= 0;
      }
    }
  }

  /** A round through k never raises a distance. */
  lemma RelaxedLowers(d: Matrix, n: nat, k: int)
    requires Square(d, n) && 0 <= k < n
    ensures forall i, j :: 0 <= i < n && 0 <= j < n ==> Relaxed(d, n, k)[i][j] <= d[i][j]
  {
  }

  /** w is a walk through the tunnels from valve i to valve j, of |w| - 1 steps. */
  ghost predicate IsWalk(names: seq<string>, targets: seq<seq<string>>, n: nat, w: seq<int>, i: int, j: int)
    requires |targets| == n
  {
    |w| >= 1 && w[0] == i && w[|w| - 1] == j &&
    (forall p :: 0 <= p < |w| ==> 0 <= w[p] < n) &&
    (forall p :: 0 <= p < |w| - 1 ==> Tunnel(names, targets, w[p], w[p + 1]))
  }

  /** Every entry below the sentinel inf is the length of some walk. */
  ghost predicate Walks(d: Matrix, n: nat, names: seq<string>, targets: seq<seq<string>>, inf: int)
    requires Square(d, n) && |targets| == n
  {
    forall i, j :: 0 <= i < n && 0 <= j < n && d[i][j] < inf ==>
      exists w :: IsWalk(names, targets, n, w, i, j) && |w| - 1 == d[i][j]
  }

  /** No entry above the sentinel inf. */
  predicate AtMost(d: Matrix, n: nat, inf: int)
    requires Square(d, n)
  {
    forall i, j :: 0 <= i < n && 0 <= j < n ==> d[i][j] <= inf
  }

  /** A walk from i to k followed by a walk from k to j. */
  lemma WalkJoin(names: seq<string>, targets: seq<seq<string>>, n: nat, w1: seq<int>, w2: seq<int>,
                 i: int, k: int, j: int)
    requires |targets| == n
    requires IsWalk(names, targets, n, w1, i, k) && IsWalk(names, targets, n, w2, k, j)
    ensures IsWalk(names, targets, n, w1 + w2[1..], i, j)
    ensures |w1 + w2[1..]| - 1 == (|w1| - 1) + (|w2| - 1)
  {
    var w := w1 + w2[1..];
    forall p | 0 <= p < |w| - 1 ensures Tunnel(names, targets, w[p], w[p + 1]) {
      if p < |w1| - 1 {
        assert w[p] == w1[p] && w[p + 1] == w1[p + 1];
      } else {
        assert w[p] == w2[p - |w1| + 1] && w[p + 1] == w2[p - |w1| + 2];
      }
    }
  }

  /** A round through k keeps every entry below the sentinel the length of a walk:
      a shortened entry joins the walks to k and from k. */
  lemma {:induction false} RelaxedWalks(d: Matrix, n: nat, k: int, names: seq<string>,
                                        targets: seq<seq<string>>, inf: int)
    requires Square(d, n) && 0 <= k < n && |targets| == n
    requires Distances(d, n) && AtMost(d, n, inf) && Walks(d, n, names, targets, inf)
    ensures AtMost(Relaxed(d, n, k), n, inf) && Walks(Relaxed(d, n, k), n, names, targets, inf)
  {
    var r := Relaxed(d, n, k);
    forall i, j | 0 <= i < n && 0 <= j < n && r[i][j] < inf
      ensures exists w :: IsWalk(names, targets, n, w, i, j) && |w| - 1 == r[i][j]
    {
      if d[i][k] + d[k][j] < d[i][j] {
        assert d[i][k] < inf && d[k][j] < inf;
        var w1 :| IsWalk(names, targets, n, w1, i, k) && |w1| - 1 == d[i][k];
        var w2 :| IsWalk(names, targets, n, w2, k, j) && |w2| - 1 == d[k][j];
        WalkJoin(names, targets, n, w1, w2, i, k, j);
      }
    }
  }

  // ---------------------------------------------------------------------------
  // floyd_warshall

  /** The two inner loops of floyd_warshall (day16/day16.py:133-136) for one k. Row k
      and column k do not change during the round because the diagonal is 0, so the
      in-place update computes the round on the matrix as it was. */
  method RelaxThrough(distances: array2<int>, k: int, ghost d: Matrix)
    requires distances.Length0 == distances.Length1 && 0 <= k < distances.Length0
    requires d == Snapshot(distances) && d[k][k] == 0
    modifies distances
    ensures Snapshot(distances) == Relaxed(d, distances.Length0, k)
  {
    var size := distances.Length0;
    for i := 0 to size
      invariant forall i', j :: 0 <= i' < size && 0 <= j < size ==>
        distances[i', j] == if i' < i then Relaxed(d, size, k)[i'][j] else d[i'][j]
    {
      for j := 0 to size
        invariant forall i', j' :: 0 <= i' < size && 0 <= j' < size ==>
          distances[i', j'] == if i' < i || (i' == i && j' < j) then Relaxed(d, size, k)[i'][j'] else d[i'][j']
      {
        assert distances[i, k] == d[i][k] && distances[k, j] == d[k][j];
        if distances[i, k] + distances[k, j] < distances[i, j] {
          distances[i, j] := distances[i, k] + distances[k, j];
        }
      }
    }
    SameEntries(Snapshot(distances), Relaxed(d, size, k));
  }

  /** The result of floyd_warshall: zero exactly on the diagonal, at most 1 along a
      tunnel, never above the sentinel size * size, no detour through any valve is
      shorter, and every entry below the sentinel is the length of a walk. */
  ghost predicate ShortestDistances(d: Matrix, n: nat, names: seq<string>, targets: seq<seq<string>>)
    requires Square(d, n) && |targets| == n
  {
    Distances(d, n) && TriangleBelow(d, n, n) &&
    (forall i, j :: 0 <= i < n && 0 <= j < n && Tunnel(names, targets, i, j) ==> d[i][j] <= 1) &&
    AtMost(d, n, n * n) && Walks(d, n, names, targets, n * n)
  }

  /** No walk is shorter than the entry: with Walks, an entry below the sentinel is
      the length of a shortest walk, and the sentinel means no walk shorter than it. */
  lemma {:induction false} WalkBound(d: Matrix, n: nat, names: seq<string>, targets: seq<seq<string>>,
                                     w: seq<int>, i: int, j: int)
    requires Square(d, n) && |targets| == n && ShortestDistances(d, n, names, targets)
    requires IsWalk(names, targets, n, w, i, j)
    ensures d[i][j] <= |w| - 1
    decreases |w|
  {
    if |w| > 1 {
      var m := w[1];
      assert Tunnel(names, targets, w[0], w[1]);
      assert IsWalk(names, targets, n, w[1..], m, j) by {
        forall p | 0 <= p < |w| - 2 ensures Tunnel(names, targets, w[1..][p], w[1..][p + 1]) {
          assert w[1..][p] == w[p + 1] && w[1..][p + 1] == w[p + 2];
        }
      }
      WalkBound(d, n, names, targets, w[1..], m, j);
      assert d[i][j] <= d[i][m] + d[m][j];
    }
  }

  /** The set-up of floyd_warshall (day16/day16.py:119-127): 0 on the diagonal, the
      adjacency entry where there is a tunnel, and the sentinel elsewhere. */
  method InitDistances(matrix: array2<int>, infinity: int) returns (distances: array2<int>)
    ensures fresh(distances)
    ensures distances.Length0 == matrix.Length0 && distances.Length1 == matrix.Length1
    ensures forall i, j :: 0 <= i < matrix.Length0 && 0 <= j < matrix.Length1 ==>
      distances[i, j] == if i == j then 0 else if matrix[i, j] != 0 then matrix[i, j] else infinity
  {
    distances := new int[matrix.Length0, matrix.Length1]((i, j) => infinity);
    for i := 0 to matrix.Length0
      modifies distances
      invariant forall i', j :: 0 <= i' < matrix.Length0 && 0 <= j < matrix.Length1 ==>
        distances[i', j] == if i' >= i then infinity
                            else if i' == j then 0
                            else if matrix[i', j] != 0 then matrix[i', j]
                            else infinity
    {
      for j := 0 to matrix.Length1
        modifies distances
        invariant forall i', j' :: 0 <= i' < matrix.Length0 && 0 <= j' < matrix.Length1 ==>
          distances[i', j'] == if i' > i || (i' == i && j' >= j) then infinity
                               else if i' == j' then 0
                               else if matrix[i', j'] != 0 then matrix[i', j']
                               else infinity
      {
        if i == j {
          distances[i, j] := 0;
        } else if matrix[i, j] != 0 {
          distances[i, j] := matrix[i, j];
        }
      }
    }
  }

  /** The matrix floyd_warshall starts from: 0 on the diagonal, 1 along a tunnel, the
      sentinel elsewhere. Its entries below the sentinel are walks of no step or one. */
  lemma InitialWalks(d: Matrix, n: nat, names: seq<string>, targets: seq<seq<string>>, inf: int)
    requires Square(d, n) && |targets| == n
    requires forall i, j :: 0 <= i < n && 0 <= j < n ==>
      d[i][j] == if i == j then 0 else if Tunnel(names, targets, i, j) then 1 else inf
    ensures Walks(d, n, names, targets, inf)
  {
    forall i, j | 0 <= i < n && 0 <= j < n && d[i][j] < inf
      ensures exists w :: IsWalk(names, targets, n, w, i, j) && |w| - 1 == d[i][j]
    {
      if i == j {
        assert IsWalk(names, targets, n, [i], i, j);
      } else {
        assert IsWalk(names, targets, n, [i, j], i, j);
      }
    }
  }

  /** Relaxing the initial matrix through every valve gives the shortest distances. */
  lemma FinalShortest(d0: Matrix, d: Matrix, n: nat, names: seq<string>, targets: seq<seq<string>>)
    requires Square(d0, n) && Square(d, n) && |targets| == n
    requires forall i, j :: 0 <= i < n && 0 <= j < n ==>
      d0[i][j] == if i == j then 0 else if Tunnel(names, targets, i, j) then 1 else n * n
    requires Below(d, d0, n) && Distances(d, n) && TriangleBelow(d, n, n)
    requires Walks(d, n, names, targets, n * n)
    ensures ShortestDistances(d, n, names, targets)
  {
    forall i, j | 0 <= i < n && 0 <= j < n
      ensures d[i][j] <= n * n && (Tunnel(names, targets, i, j) ==> d[i][j] <= 1)
    {
      assert d[i][j] <= d0[i][j];
      if i == j {
        assert d[i][j] == 0 && n * n >= 0;
      }
    }
  }

  /** What holds after the rounds through the valves below k. */
  ghost predicate RoundInv(d: Matrix, n: nat, k: int, names: seq<string>, targets: seq<seq<string>>, inf: int)
    requires Square(d, n) && |targets| == n
  {
    Distances(d, n) && TriangleBelow(d, n, k) && AtMost(d, n, inf) && Walks(d, n, names, targets, inf)
  }

  /** No entry of a is above the same entry of b. */
  predicate Below(a: Matrix, b: Matrix, n: nat)
    requires Square(a, n) && Square(b, n)
  {
    forall i, j :: 0 <= i < n && 0 <= j < n ==> a[i][j] <= b[i][j]
  }

  lemma RoundStep(d: Matrix, orig: Matrix, n: nat, k: int, names: seq<string>,
                  targets: seq<seq<string>>, inf: int)
    requires Square(d, n) && Square(orig, n) && 0 <= k < n && |targets| == n
    requires RoundInv(d, n, k, names, targets, inf) && Below(d, orig, n)
    ensures RoundInv(Relaxed(d, n, k), n, k + 1, names, targets, inf) && Below(Relaxed(d, n, k), orig, n)
    ensures d[k][k] == 0
  {
    RelaxedKeeps(d, n, k);
    RelaxedLowers(d, n, k);
    RelaxedWalks(d, n, k, names, targets, inf);
  }

  /** The triple loop of floyd_warshall (day16/day16.py:130-137): afterwards no detour
      through any valve is shorter, no entry has grown, and every entry below the
      sentinel is still the length of a walk. */
  method RelaxAll(distances: array2<int>, ghost names: seq<string>, ghost targets: seq<seq<string>>,
                  ghost inf: int)
    requires distances.Length0 == distances.Length1 && |targets| == distances.Length0
    requires Distances(Snapshot(distances), distances.Length0)
    requires AtMost(Snapshot(distances), distances.Length0, inf)
    requires Walks(Snapshot(distances), distances.Length0, names, targets, inf)
    modifies distances
    ensures Distances(Snapshot(distances), distances.Length0)
    ensures Walks(Snapshot(distances), distances.Length0, names, targets, inf)
    ensures TriangleBelow(Snapshot(distances), distances.Length0, distances.Length0)
    ensures Below(Snapshot(distances), old(Snapshot(distances)), distances.Length0)
  {
    var size := distances.Length0;
    ghost var orig := Snapshot(distances);
    for k := 0 to size
      invariant RoundInv(Snapshot(distances), size, k, names, targets, inf)
      invariant Below(Snapshot(distances), orig, size)
    {
      ghost var d := Snapshot(distances);
      RoundStep(d, orig, size, k, names, targets, inf);
      RelaxThrough(distances, k, d);
    }
  }

  /** floyd_warshall (day16/day16.py:114-139). */
  method FloydWarshall(names: seq<string>, targets: seq<seq<string>>) returns (r: Option<array2<int>>)
    requires |targets| == |names|
    ensures r.None? <==> UnknownTarget(names, targets)
    ensures r.Some? ==> (fresh(r.value) && r.value.Length0 == |names| && r.value.Length1 == |names| &&
                         ShortestDistances(Snapshot(r.value), |names|, names, targets))
  {
    var m := GraphToMatrix(names, targets);
    if m.None? {
      return None;
    }
    var matrix := m.value;
    var size := matrix.Length0;
    var infinity := size * size;
    assert size >= 1 ==> infinity >= 1 by {
      if size >= 1 {
        assert size * size >= size;
      }
    }
    var distances := InitDistances(matrix, infinity);
    ghost var d0 := Snapshot(distances);
    assert forall i, j :: 0 <= i < size && 0 <= j < size ==>
      d0[i][j] == if i == j then 0 else if Tunnel(names, targets, i, j) then 1 else infinity;
    InitialWalks(d0, size, names, targets, infinity);
    RelaxAll(distances, names, targets, infinity);
    FinalShortest(d0, Snapshot(distances), size, names, targets);
    return Some(distances);
  }
}
