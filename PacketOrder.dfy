/** Distress-signal packets of day13/day13.py: a packet is an integer or a list of
    packets, and `compare` orders two packets (-1 in order, 1 out of order, 0 tie). */
module PacketOrder {

  datatype Packet = Int(n: int) | List(items: seq<Packet>)

  function Size(p: Packet): nat {
    match p
    case Int(_) => 1
    case List(xs) => 1 + SizeList(xs)
  }

  function SizeList(xs: seq<Packet>): nat {
    if xs == [] then 0 else Size(xs[0]) + SizeList(xs[1..])
  }

  function Sign(v: int): int {
    if v > 0 then 1 else if v < 0 then -1 else 0
  }

  /** compare (day13/day13.py:11-28). An integer facing a list is wrapped into a
      one-element list. */
  function Compare(a: Packet, b: Packet): (r: int)
    ensures -1 <= r <= 1
    decreases Size(a) + Size(b), 0
  {
    match (a, b)
    case (Int(x), Int(y)) => Sign(x - y)
    case (List(xs), List(ys)) => CompareLists(xs, ys)
    case (Int(x), List(ys)) =>
      assert SizeList([Int(x)]) == 1 by { assert [Int(x)][1..] == []; }
      CompareLists([Int(x)], ys)
    case (List(xs), Int(y)) =>
      assert SizeList([Int(y)]) == 1 by { assert [Int(y)][1..] == []; }
      CompareLists(xs, [Int(y)])
  }

  /** The list-list branch: the first non-zero comparison of paired elements, else
      the order of the lengths. */
  function CompareLists(xs: seq<Packet>, ys: seq<Packet>): (r: int)
    ensures -1 <= r <= 1
    decreases SizeList(xs) + SizeList(ys), 1
  {
    if xs == [] || ys == [] then Sign(|xs| - |ys|)
    else
      var r := Compare(xs[0], ys[0]);
      if r != 0 then r else CompareLists(xs[1..], ys[1..])
  }

  /** Every packet ties with itself. */
  lemma {:induction false} CompareRefl(a: Packet)
    ensures Compare(a, a) == 0
    decreases Size(a), 0
  {
    match a
    case Int(_) =>
    case List(xs) => CompareListsRefl(xs);
  }

  lemma {:induction false} CompareListsRefl(xs: seq<Packet>)
    ensures CompareLists(xs, xs) == 0
    decreases SizeList(xs), 1
  {
    if xs != [] {
      CompareRefl(xs[0]);
      CompareListsRefl(xs[1..]);
    }
  }

  /** Swapping the packets negates the verdict. */
  lemma {:induction false} CompareAntisym(a: Packet, b: Packet)
    ensures Compare(a, b) == -Compare(b, a)
    decreases Size(a) + Size(b), 0
  {
    match (a, b)
    case (Int(x), Int(y)) =>
    case (List(xs), List(ys)) => CompareListsAntisym(xs, ys);
    case (Int(x), List(ys)) =>
      assert SizeList([Int(x)]) == 1 by { assert [Int(x)][1..] == []; }
      CompareListsAntisym([Int(x)], ys);
    case (List(xs), Int(y)) =>
      assert SizeList([Int(y)]) == 1 by { assert [Int(y)][1..] == []; }
      CompareListsAntisym(xs, [Int(y)]);
  }

  lemma {:induction false} CompareListsAntisym(xs: seq<Packet>, ys: seq<Packet>)
    ensures CompareLists(xs, ys) == -CompareLists(ys, xs)
    decreases SizeList(xs) + SizeList(ys), 1
  {
    if xs != [] && ys != [] {
      CompareAntisym(xs[0], ys[0]);
      CompareListsAntisym(xs[1..], ys[1..]);
    }
  }

  /** An integer compared with a list behaves as the one-element list holding it, on
      either side. */
  lemma {:induction false} IntAsSingleton(x: int, b: Packet)
    ensures Compare(Int(x), b) == Compare(List([Int(x)]), b)
    ensures Compare(b, Int(x)) == Compare(b, List([Int(x)]))
  {
    match b
    case Int(y) =>
      assert [Int(x)][1..] == [] && [Int(y)][1..] == [];
      assert CompareLists([Int(x)], [Int(y)]) == Compare(Int(x), Int(y));
    case List(ys) =>
  }

  /** A proper prefix of a list comes before the list. */
  lemma {:induction false} PrefixComesFirst(xs: seq<Packet>, ys: seq<Packet>)
    requires |xs| < |ys| && xs == ys[..|xs|]
    ensures CompareLists(xs, ys) == -1
    decreases |xs|
  {
    if xs != [] {
      CompareRefl(xs[0]);
      assert xs[1..] == ys[1..][..|xs| - 1];
      PrefixComesFirst(xs[1..], ys[1..]);
    }
  }
}
