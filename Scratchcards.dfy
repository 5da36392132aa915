/** Scratchcards of 2023/day4/day4.py. Parsing yields, per card id, the number of
    winning numbers the card holds; a Python dict keeps the cards in input order, and
    here they are a sequence of (id, matches) entries with distinct ids. */
module Scratchcards {

  datatype Card = Card(id: int, matches: nat)

  function Ids(cards: seq<Card>): (ids: seq<int>)
    ensures |ids| == |cards| && forall i :: 0 <= i < |cards| ==> ids[i] == cards[i].id
  {
    if cards == [] then [] else [cards[0].id] + Ids(cards[1..])
  }

  /** `id in cards` and `cards[id]`. */
  function Lookup(cards: seq<Card>, id: int): (r: int)
    ensures r == -1 <==> forall i :: 0 <= i < |cards| ==> cards[i].id != id
    ensures r != -1 ==> exists i :: 0 <= i < |cards| && cards[i].id == id && cards[i].matches == r
  {
    if cards == [] then -1
    else if cards[0].id == id then cards[0].matches
    else
      var r := Lookup(cards[1..], id);
      assert r != -1 ==> exists i :: 0 <= i < |cards| - 1 && cards[1..][i].id == id && cards[1..][i].matches == r;
      r
  }

  // ---------------------------------------------------------------------------
  // Part 1 (find_total_points)

  function Pow2(k: nat): nat {
    if k == 0 then 1 else 2 * Pow2(k - 1)
  }

  /** The points of a card: 1 for the first match, doubled for each further one. */
  function Points(m: nat): nat {
    if m > 0 then Pow2(m - 1) else 0
  }

  function TotalPoints(cards: seq<Card>): nat {
    if cards == [] then 0 else TotalPoints(cards[..|cards| - 1]) + Points(cards[|cards| - 1].matches)
  }

  /** Every match after the first doubles a card's points. */
  lemma {:induction false} PointsDouble(m: nat)
    requires m >= 1
    ensures Points(m + 1) == 2 * Points(m)
  {
  }

  /** A card with no match adds nothing, one with m matches at least m. */
  lemma {:induction false} PointsBounds(m: nat)
    ensures m == 0 <==> Points(m) == 0
    ensures Points(m) >= m
  {
    if m > 1 {
      PointsBounds(m - 1);
      PointsDouble(m - 1);
    }
  }

  /** find_total_points (2023/day4/day4.py:41-52). */
  method FindTotalPoints(cards: seq<Card>) returns (totalPoints: nat)
    ensures totalPoints == TotalPoints(cards)
  {
    totalPoints := 0;
    for j := 0 to |cards|
      invariant totalPoints == TotalPoints(cards[..j])
    {
      assert cards[..j + 1][..j] == cards[..j];
      var nbOfMatches := cards[j].matches;
      if nbOfMatches > 0 {
        totalPoints := totalPoints + Pow2(nbOfMatches - 1);
      }
    }
    assert cards[..|cards|] == cards;
  }

  // ---------------------------------------------------------------------------
  // Part 2 (find_total_scratchcards)

  function MaxId(cards: seq<Card>): (m: int)
    ensures forall i :: 0 <= i < |cards| ==> cards[i].id <= m
  {
    if cards == [] then 0
    else
      var m := MaxId(cards[1..]);
      if cards[0].id > m then cards[0].id else m
  }

  /** The copies won by a card with id c and m matches: one each of c+1, ..., c+m. */
  function Won(c: int, m: nat): (w: seq<int>)
    ensures |w| == m && forall j :: 0 <= j < m ==> w[j] == c + j + 1
  {
    seq(m, j => c + j + 1)
  }

  /** The number of cards one card with id c ends up as: itself and, if it is a known
      card, everything its won copies end up as. */
  function Tree(cards: seq<Card>, c: int): nat
    decreases MaxId(cards) - c, 1, 0
  {
    var m := Lookup(cards, c);
    if m == -1 then 1 else 1 + TreeSum(cards, c, m)
  }

  /** Tree summed over the first n copies card c wins. */
  function TreeSum(cards: seq<Card>, c: int, n: nat): nat
    requires Lookup(cards, c) != -1
    decreases MaxId(cards) - c, 0, n
  {
    if n == 0 then 0 else TreeSum(cards, c, n - 1) + Tree(cards, c + n)
  }

  function SumTree(cards: seq<Card>, pool: seq<int>): nat {
    if pool == [] then 0 else Tree(cards, pool[0]) + SumTree(cards, pool[1..])
  }

  lemma {:induction false} SumTreeAppend(cards: seq<Card>, a: seq<int>, b: seq<int>)
    ensures SumTree(cards, a + b) == SumTree(cards, a) + SumTree(cards, b)
  {
    if a != [] {
      assert (a + b)[1..] == a[1..] + b;
      SumTreeAppend(cards, a[1..], b);
    } else {
      assert a + b == b;
    }
  }

  lemma {:induction false} SumTreeWon(cards: seq<Card>, c: int, n: nat)
    requires Lookup(cards, c) != -1
    ensures SumTree(cards, Won(c, n)) == TreeSum(cards, c, n)
  {
    if n > 0 {
      SumTreeWon(cards, c, n - 1);
      assert Won(c, n) == Won(c, n - 1) + [c + n];
      SumTreeAppend(cards, Won(c, n - 1), [c + n]);
      assert SumTree(cards, [c + n]) == Tree(cards, c + n);
    }
  }

  /** Every card in the pool counts at least as itself. */
  lemma {:induction false} SumTreeAtLeast(cards: seq<Card>, pool: seq<int>)
    ensures SumTree(cards, pool) >= |pool|
  {
    if pool != [] {
      SumTreeAtLeast(cards, pool[1..]);
    }
  }

  /** The inner loop of find_total_scratchcards (2023/day4/day4.py:64-66). */
  method AppendWon(pool: seq<int>, c: int, m: nat) returns (pool': seq<int>)
    ensures pool' == pool + Won(c, m)
  {
    pool' := pool;
    for n := 0 to m
      invariant pool' == pool + Won(c, n)
    {
      assert Won(c, n + 1) == Won(c, n) + [c + n + 1];
      pool' := pool' + [c + n + 1];
    }
  }

  /** find_total_scratchcards (2023/day4/day4.py:55-69): the pool starts with every
      card once and grows by the copies each card in it wins. The total is the Tree
      count of the original cards. */
  method FindTotalScratchcards(cards: seq<Card>) returns (total: nat)
    ensures total == SumTree(cards, Ids(cards))
  {
    var i := 0;
    var cardsPool := Ids(cards);
    while i < |cardsPool|
      invariant 0 <= i <= |cardsPool|
      invariant i + SumTree(cards, cardsPool[i..]) == SumTree(cards, Ids(cards))
      decreases SumTree(cards, cardsPool[i..])
    {
      var c := cardsPool[i];
      var m := Lookup(cards, c);
      assert cardsPool[i..] == [c] + cardsPool[i + 1..];
      ghost var rest := cardsPool[i + 1..];
      if m != -1 {
        cardsPool := AppendWon(cardsPool, c, m);
        assert cardsPool[i + 1..] == rest + Won(c, m);
        SumTreeAppend(cards, rest, Won(c, m));
        SumTreeWon(cards, c, m);
      }
      i := i + 1;
    }
    assert cardsPool[i..] == [];
    total := |cardsPool|;
  }

  /** The total never falls below the number of original cards. */
  lemma {:induction false} AtLeastOriginals(cards: seq<Card>)
    ensures SumTree(cards, Ids(cards)) >= |cards|
  {
    SumTreeAtLeast(cards, Ids(cards));
  }

  /** A card with no match stays a single card. */
  lemma {:induction false} NoMatchIsOne(cards: seq<Card>, c: int)
    requires Lookup(cards, c) == 0
    ensures Tree(cards, c) == 1
  {
  }
}
