/** Two-dimensional arrays seen as values: the numpy grids of the solvers are
    array2 objects updated in place, and their specifications speak about the
    sequence of columns (or rows) they hold. */
module Arrays {

  /** The contents of a, first index outermost. */
  ghost function Snapshot<T>(a: array2<T>): (s: seq<seq<T>>)
    reads a
    ensures |s| == a.Length0
    ensures forall i :: 0 <= i < a.Length0 ==> (|s[i]| == a.Length1 &&
                                                forall j :: 0 <= j < a.Length1 ==> s[i][j] == a[i, j])
  {
    seq(a.Length0, i reads a requires 0 <= i < a.Length0 =>
      seq(a.Length1, j reads a requires 0 <= j < a.Length1 => a[i, j]))
  }

  /** Two nested sequences of the same shape and entries are equal. */
  lemma SameEntries<T>(a: seq<seq<T>>, b: seq<seq<T>>)
    requires |a| == |b|
    requires forall i :: 0 <= i < |a| ==> |a[i]| == |b[i]|
    requires forall i, j :: 0 <= i < |a| && 0 <= j < |a[i]| ==> a[i][j] == b[i][j]
    ensures a == b
  {
    forall i | 0 <= i < |a| ensures a[i] == b[i] {
    }
  }

  /** grid[:, :] = other[:, :]: every cell of dst takes the value of the same cell
      of src. */
  method CopyInto<T>(dst: array2<T>, src: array2<T>)
    requires dst.Length0 == src.Length0 && dst.Length1 == src.Length1 && dst != src
    modifies dst
    ensures Snapshot(dst) == Snapshot(src)
  {
    for i := 0 to dst.Length0
      invariant forall i', j :: 0 <= i' < i && 0 <= j < dst.Length1 ==> dst[i', j] == src[i', j]
    {
      for j := 0 to dst.Length1
        invariant forall i', j' :: (0 <= i' < i || (i' == i && 0 <= j' < j)) && 0 <= j' < dst.Length1 ==>
          dst[i', j'] == src[i', j']
      {
        dst[i, j] := src[i, j];
      }
    }
    SameEntries(Snapshot(dst), Snapshot(src));
  }
}
