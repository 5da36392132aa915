/** Camel Cards hands of 2023/day7/day7.py: a hand is typed by how often its labels
    repeat, its strength is the type followed by the rank of each of its first five
    cards, and the strength is folded into one base-14 number by which the hands are
    sorted. */
module CamelCards {
  import opened Wrappers
  import opened Arith

  predicate NoDup(s: seq<char>) {
    forall i, j :: 0 <= i < j < |s| ==> s[i] != s[j]
  }

  // ---------------------------------------------------------------------------
  // count_cards

  /** The labels of l, each once, in the order of their first appearance (the key
      order of the cards_distribution dictionary). */
  function Distinct(l: seq<char>): (r: seq<char>)
    ensures NoDup(r)
    ensures forall c :: c in r <==> c in l
  {
    if l == [] then []
    else
      var init, last := l[..|l| - 1], l[|l| - 1];
      assert forall c :: c in l <==> c in init || c == last by {
        assert l == init + [last];
      }
      var d := Distinct(init);
      if last in init then d else d + [last]
  }

  /** The labels of ks that occur exactly v times in m, in the order of ks. */
  function WithCount(ks: seq<char>, m: multiset<char>, v: nat): (r: seq<char>)
    ensures forall c :: c in r <==> c in ks && m[c] == v
  {
    if ks == [] then []
    else
      var init, last := ks[..|ks| - 1], ks[|ks| - 1];
      assert forall c :: c in ks <==> c in init || c == last by {
        assert ks == init + [last];
      }
      WithCount(init, m, v) + (if m[last] == v then [last] else [])
  }

  /** The multiplicity in m of every label of ks, in the order of ks. */
  function Mults(ks: seq<char>, m: multiset<char>): (r: seq<nat>)
    ensures |r| == |ks|
    ensures forall i :: 0 <= i < |ks| ==> r[i] == m[ks[i]]
  {
    if ks == [] then [] else Mults(ks[..|ks| - 1], m) + [m[ks[|ks| - 1]]]
  }

  /** What count_cards returns: every multiplicity that occurs, mapped to the labels
      occurring that many times. */
  ghost function CountsOf(l: seq<char>): (r: map<nat, seq<char>>)
    ensures forall v :: v in r <==> exists c :: c in l && multiset(l)[c] == v
    ensures forall v, c :: v in r ==> (c in r[v] <==> c in l && multiset(l)[c] == v)
    ensures forall v :: v in r ==> NoDup(r[v]) && |r[v]| >= 1
  {
    GroupsNonEmpty(Distinct(l), multiset(l));
    GroupsCover(l);
    Groups(Distinct(l), multiset(l))
  }

  /** The labels of ks grouped by their multiplicity in m. */
  ghost function Groups(ks: seq<char>, m: multiset<char>): map<nat, seq<char>> {
    map v | v in Mults(ks, m) :: WithCount(ks, m, v)
  }

  lemma GroupsNonEmpty(ks: seq<char>, m: multiset<char>)
    requires NoDup(ks)
    ensures forall v :: v in Groups(ks, m) ==> NoDup(Groups(ks, m)[v]) && |Groups(ks, m)[v]| >= 1
  {
    var r := Groups(ks, m);
    forall v | v in r ensures NoDup(r[v]) && |r[v]| >= 1 {
      WithCountNoDup(ks, m, v);
      var i :| 0 <= i < |ks| && Mults(ks, m)[i] == v;
      assert ks[i] in r[v];
    }
  }

  lemma GroupsCover(l: seq<char>)
    ensures forall v :: (exists c :: c in l && multiset(l)[c] == v) ==> v in Groups(Distinct(l), multiset(l))
  {
    var d, m := Distinct(l), multiset(l);
    forall v | exists c :: c in l && m[c] == v ensures v in Groups(d, m) {
      var c :| c in l && m[c] == v;
      var i :| 0 <= i < |d| && d[i] == c;
      assert Mults(d, m)[i] == v;
    }
  }

  lemma {:induction false} WithCountNoDup(ks: seq<char>, m: multiset<char>, v: nat)
    requires NoDup(ks)
    ensures NoDup(WithCount(ks, m, v))
  {
    if ks != [] {
      var init := ks[..|ks| - 1];
      assert NoDup(init);
      WithCountNoDup(init, m, v);
    }
  }

  /** One more label: Distinct grows by it exactly when it is new, and its count
      grows by one. */
  lemma DistinctStep(l: seq<char>, i: int)
    requires 0 <= i < |l|
    ensures Distinct(l[..i + 1]) == if l[i] in l[..i] then Distinct(l[..i]) else Distinct(l[..i]) + [l[i]]
    ensures multiset(l[..i + 1]) == multiset(l[..i]) + multiset{l[i]}
  {
    assert l[..i + 1] == l[..i] + [l[i]];
    assert l[..i + 1][..i] == l[..i];
  }

  /** The first loop of count_cards (2023/day7/day7.py:12-17): the dictionary
      cards_distribution, as a map together with its key order. */
  method Distribution(l: seq<char>) returns (keys: seq<char>, distribution: map<char, nat>)
    ensures keys == Distinct(l)
    ensures forall c :: c in distribution <==> c in l
    ensures forall c :: c in distribution ==> distribution[c] == multiset(l)[c]
  {
    keys := [];
    distribution := map[];
    for i := 0 to |l|
      invariant keys == Distinct(l[..i])
      invariant forall c :: c in distribution <==> c in keys
      invariant forall c :: c in distribution ==> distribution[c] == multiset(l[..i])[c]
    {
      var e := l[i];
      DistinctStep(l, i);
      if e !in distribution {
        distribution := distribution[e := 1];
        keys := keys + [e];
      } else {
        distribution := distribution[e := distribution[e] + 1];
      }
    }
    assert l[..|l|] == l;
  }

  /** The second loop of count_cards (2023/day7/day7.py:19-26): the labels grouped by
      multiplicity, in key order. */
  method GroupByCount(keys: seq<char>, distribution: map<char, nat>, ghost m: multiset<char>)
    returns (counts: map<nat, seq<char>>)
    requires forall k :: k in keys ==> k in distribution && distribution[k] == m[k]
    ensures forall v :: v in counts <==> WithCount(keys, m, v) != []
    ensures forall v :: v in counts ==> counts[v] == WithCount(keys, m, v)
  {
    counts := map[];
    for j := 0 to |keys|
      invariant forall v :: v in counts <==> WithCount(keys[..j], m, v) != []
      invariant forall v :: v in counts ==> counts[v] == WithCount(keys[..j], m, v)
    {
      var k := keys[j];
      var v := distribution[k];
      assert keys[..j + 1] == keys[..j] + [k];
      if v !in counts {
        counts := counts[v := [k]];
      } else {
        counts := counts[v := counts[v] + [k]];
      }
    }
    assert keys[..|keys|] == keys;
  }

  /** count_cards (2023/day7/day7.py:11-28). A label alone is Python's str case and
      two or more labels its list case. */
  method CountCards(l: seq<char>) returns (counts: map<nat, seq<char>>)
    ensures counts == CountsOf(l)
  {
    var keys, distribution := Distribution(l);
    counts := GroupByCount(keys, distribution, multiset(l));
    var r := CountsOf(l);
    forall v ensures v in counts <==> v in r {
      var w := WithCount(keys, multiset(l), v);
      if w != [] {
        assert w[0] in w;
      }
      if v in r {
        var c :| c in l && multiset(l)[c] == v;
        assert c in w;
      }
    }
  }

  // ---------------------------------------------------------------------------
  // Hand types

  /** The type_strength chain of _compute_strength (2023/day7/day7.py:46-78); None is
      the "Unknown card hand" branch. */
  function TypeStrength(counts: map<nat, seq<char>>): (r: Option<nat>)
    ensures r.Some? ==> 1 <= r.value <= 7
    ensures r == Some(7) <==> 5 in counts
  {
    if 5 in counts then Some(7)
    else if 4 in counts then Some(6)
    else if 3 in counts && 2 in counts then Some(5)
    else if 3 in counts && 1 in counts then Some(4)
    else if 2 in counts && |counts[2]| >= 2 && 1 in counts then Some(3)
    else if 2 in counts && |counts[2]| == 1 && 1 in counts && |counts[1]| >= 2 then Some(2)
    else if 1 in counts && |counts[1]| >= 2 && |counts[1]| == 5 then Some(1)
    else None
  }

  function Sum(s: seq<nat>): nat {
    if s == [] then 0 else Sum(s[..|s| - 1]) + s[|s| - 1]
  }

  /** Adding one more copy of x to m adds one to the multiplicities of ks exactly when
      x is one of ks. */
  lemma {:induction false} SumMultsAdd(ks: seq<char>, m: multiset<char>, x: char)
    requires NoDup(ks)
    ensures Sum(Mults(ks, m + multiset{x})) == Sum(Mults(ks, m)) + (if x in ks then 1 else 0)
  {
    if ks != [] {
      var init := ks[..|ks| - 1];
      assert NoDup(init);
      assert forall c :: c in ks <==> c in init || c == ks[|ks| - 1] by {
        assert ks == init + [ks[|ks| - 1]];
      }
      SumMultsAdd(init, m, x);
    }
  }

  /** The multiplicities of the distinct labels add up to the number of cards. */
  lemma {:induction false} SumMultsIsLength(l: seq<char>)
    ensures Sum(Mults(Distinct(l), multiset(l))) == |l|
  {
    if l != [] {
      var init, last := l[..|l| - 1], l[|l| - 1];
      assert l == init + [last];
      assert multiset(l) == multiset(init) + multiset{last};
      SumMultsIsLength(init);
      var d := Distinct(init);
      SumMultsAdd(d, multiset(init), last);
      if last !in init {
        assert multiset(init)[last] == 0;
        assert Mults(d + [last], multiset(l)) == Mults(d, multiset(l)) + [multiset(l)[last]];
      }
    }
  }

  /** There are as many labels with multiplicity v as entries v among the
      multiplicities. */
  lemma {:induction false} WithCountSize(ks: seq<char>, m: multiset<char>, v: nat)
    ensures |WithCount(ks, m, v)| == multiset(Mults(ks, m))[v]
  {
    if ks != [] {
      var init := ks[..|ks| - 1];
      WithCountSize(init, m, v);
      assert Mults(ks, m) == Mults(init, m) + [m[ks[|ks| - 1]]];
    }
  }

  /** The entries 1..5 of m, each counted as often as it occurs and weighted by its
      value. */
  function Weighted(m: multiset<nat>): nat {
    m[1] + 2 * m[2] + 3 * m[3] + 4 * m[4] + 5 * m[5]
  }

  lemma WeightedAdd(m: multiset<nat>, x: nat)
    requires 1 <= x <= 5
    ensures Weighted(m + multiset{x}) == Weighted(m) + x
  {
  }

  /** Entries between 1 and 5 add up to their weighted counts. */
  lemma {:induction false} WeightedCounts(s: seq<nat>)
    requires forall i :: 0 <= i < |s| ==> 1 <= s[i] <= 5
    ensures Sum(s) == Weighted(multiset(s))
  {
    if s != [] {
      var init, last := s[..|s| - 1], s[|s| - 1];
      assert s == init + [last];
      assert multiset(s) == multiset(init) + multiset{last};
      WeightedCounts(init);
      WeightedAdd(multiset(init), last);
    }
  }

  /** No entry of a list of naturals exceeds their sum. */
  lemma {:induction false} EntryAtMostSum(s: seq<nat>, i: int)
    requires 0 <= i < |s|
    ensures s[i] <= Sum(s)
  {
    if i < |s| - 1 {
      EntryAtMostSum(s[..|s| - 1], i);
    }
  }

  /** The type chain is defined whenever c1..c5 labels occur once..five times and
      c1 + 2 c2 + 3 c3 + 4 c4 + 5 c5 == 5. */
  lemma ProfileTyped(counts: map<nat, seq<char>>, c1: nat, c2: nat, c3: nat, c4: nat, c5: nat)
    requires c1 + 2 * c2 + 3 * c3 + 4 * c4 + 5 * c5 == 5
    requires (1 in counts <==> c1 > 0) && (1 in counts ==> |counts[1]| == c1)
    requires (2 in counts <==> c2 > 0) && (2 in counts ==> |counts[2]| == c2)
    requires (3 in counts <==> c3 > 0) && (3 in counts ==> |counts[3]| == c3)
    requires (4 in counts <==> c4 > 0)
    requires (5 in counts <==> c5 > 0)
    ensures TypeStrength(counts).Some?
  {
  }

  /** The labels of multiplicity v in count_cards' result are as many as the entries v
      among the multiplicities of the distinct labels. */
  lemma {:induction false} CountsOfSize(cards: seq<char>, v: nat)
    ensures var s := Mults(Distinct(cards), multiset(cards));
      (v in CountsOf(cards) <==> multiset(s)[v] > 0) &&
      (v in CountsOf(cards) ==> |CountsOf(cards)[v]| == multiset(s)[v])
  {
    var d, m := Distinct(cards), multiset(cards);
    var s := Mults(d, m);
    var counts := CountsOf(cards);
    WithCountSize(d, m, v);
    if multiset(s)[v] > 0 {
      var i :| 0 <= i < |s| && s[i] == v;
      assert d[i] in cards && m[d[i]] == v;
    }
    if v in counts {
      assert counts[v] == WithCount(d, m, v);
    }
  }

  /** Every five-card hand falls into one of the seven types: the chain of
      _compute_strength (2023/day7/day7.py:46-78) never reaches "Unknown card hand". */
  lemma {:induction false} HandTypeDefined(cards: seq<char>)
    requires |cards| == 5
    ensures TypeStrength(CountsOf(cards)).Some?
  {
    var ms := multiset(Mults(Distinct(cards), multiset(cards)));
    HandProfile(cards);
    CountsOfSize(cards, 1);
    CountsOfSize(cards, 2);
    CountsOfSize(cards, 3);
    CountsOfSize(cards, 4);
    CountsOfSize(cards, 5);
    ProfileTyped(CountsOf(cards), ms[1], ms[2], ms[3], ms[4], ms[5]);
  }

  /** In a five-card hand the multiplicities are between 1 and 5 and, weighted,
      add up to five. */
  lemma {:induction false} HandProfile(cards: seq<char>)
    requires |cards| == 5
    ensures Weighted(multiset(Mults(Distinct(cards), multiset(cards)))) == 5
  {
    var d, m := Distinct(cards), multiset(cards);
    var s := Mults(d, m);
    SumMultsIsLength(cards);
    forall i | 0 <= i < |s| ensures 1 <= s[i] <= 5 {
      assert d[i] in cards;
      EntryAtMostSum(s, i);
    }
    WeightedCounts(s);
  }

  /** A label occurs |s| times in s exactly when s is made of that label alone. */
  lemma {:induction false} AllSame(s: seq<char>, c: char)
    ensures multiset(s)[c] == |s| <==> forall i :: 0 <= i < |s| ==> s[i] == c
  {
    if s != [] {
      var init := s[..|s| - 1];
      assert s == init + [s[|s| - 1]];
      assert multiset(s) == multiset(init) + multiset{s[|s| - 1]};
      AllSame(init, c);
      assert multiset(init)[c] <= |init|;
      if forall i :: 0 <= i < |s| ==> s[i] == c {
        assert forall i :: 0 <= i < |init| ==> init[i] == c;
      }
    }
  }

  /** A hand is five of a kind exactly when some label makes up all of it. */
  lemma {:induction false} FiveOfAKind(cards: seq<char>)
    requires |cards| == 5
    ensures TypeStrength(CountsOf(cards)) == Some(7) <==> forall i :: 0 <= i < 5 ==> cards[i] == cards[0]
  {
    AllSame(cards, cards[0]);
    if 5 in CountsOf(cards) {
      var c :| c in cards && multiset(cards)[c] == 5;
      AllSame(cards, c);
    } else {
      assert cards[0] in cards;
    }
  }

  // ---------------------------------------------------------------------------
  // Strength and its score

  /** The labels by increasing rank (_card_values). */
  const CARD_VALUES: seq<char> := ['2', '3', '4', '5', '6', '7', '8', '9', 'T', 'J', 'Q', 'K', 'A']

  /** _card_values.index(c): None where Python raises ValueError. */
  function Rank(c: char): (r: Option<nat>)
    ensures r.None? <==> c !in CARD_VALUES
    ensures r.Some? ==> r.value < |CARD_VALUES| && CARD_VALUES[r.value] == c
  {
    match c
    case '2' => Some(0)
    case '3' => Some(1)
    case '4' => Some(2)
    case '5' => Some(3)
    case '6' => Some(4)
    case '7' => Some(5)
    case '8' => Some(6)
    case '9' => Some(7)
    case 'T' => Some(8)
    case 'J' => Some(9)
    case 'Q' => Some(10)
    case 'K' => Some(11)
    case 'A' => Some(12)
    case _ => None
  }

  /** The ranks of a list of cards, or None if one of them is not a card label. */
  function Ranks(cards: seq<char>): (r: Option<seq<nat>>)
    ensures r.None? <==> exists i :: 0 <= i < |cards| && Rank(cards[i]).None?
    ensures r.Some? ==> |r.value| == |cards|
    ensures r.Some? ==> forall i :: 0 <= i < |cards| ==> Rank(cards[i]) == Some(r.value[i])
  {
    if cards == [] then Some([])
    else
      match Rank(cards[0])
      case None => None
      case Some(k) =>
        match Ranks(cards[1..])
        case None =>
          var i :| 0 <= i < |cards| - 1 && Rank(cards[1..][i]).None?;
          assert Rank(cards[i + 1]).None?;
          None
        case Some(ks) =>
          RanksCons(cards, k, ks);
          Some([k] + ks)
  }

  lemma RanksCons(cards: seq<char>, k: nat, ks: seq<nat>)
    requires |cards| > 0 && Rank(cards[0]) == Some(k) && |ks| == |cards| - 1
    requires forall i :: 0 <= i < |ks| ==> Rank(cards[1..][i]) == Some(ks[i])
    ensures forall i :: 0 <= i < |cards| ==> Rank(cards[i]) == Some(([k] + ks)[i])
  {
    assert forall i :: 0 < i < |cards| ==> cards[i] == cards[1..][i - 1] && ([k] + ks)[i] == ks[i - 1];
  }

  /** The strength tuple: the type (None in the "Unknown card hand" case) and the
      ranks of the first five cards. */
  datatype Strength = Strength(kind: Option<nat>, ranks: seq<nat>)

  /** _compute_strength (2023/day7/day7.py:42-87): None where indexing a card raises,
      because the hand has fewer than five cards or a label that is no card. */
  ghost function StrengthOf(cards: seq<char>): (r: Option<Strength>)
    ensures r.None? <==> |cards| < 5 || exists i :: 0 <= i < 5 && cards[i] !in CARD_VALUES
    ensures r.Some? ==> r.value.kind == TypeStrength(CountsOf(cards)) && |r.value.ranks| == 5
  {
    if |cards| < 5 then None
    else
      var first := cards[..5];
      assert forall i :: 0 <= i < 5 ==> first[i] == cards[i];
      match Ranks(first)
      case None => None
      case Some(ks) => Some(Strength(TypeStrength(CountsOf(cards)), ks))
  }

  /** Σ 14^(|t| - n) * t[n] over the first i entries of t. */
  function Partial(t: seq<int>, i: nat): int
    requires i <= |t|
  {
    if i == 0 then 0 else Partial(t, i - 1) + Pow(14, |t| - (i - 1)) * t[i - 1]
  }

  /** The score of a strength tuple t: Σ 14^(|t| - n) * t[n]. */
  function Score(t: seq<int>): int {
    if t == [] then 0 else Pow(14, |t|) * t[0] + Score(t[1..])
  }

  lemma {:induction false} PartialIsScore(t: seq<int>, i: nat)
    requires 1 <= i <= |t|
    ensures Partial(t, i) == Pow(14, |t|) * t[0] + Partial(t[1..], i - 1)
  {
    if i > 1 {
      PartialIsScore(t, i - 1);
      assert t[1..][i - 2] == t[i - 1];
    }
  }

  lemma {:induction false} PartialFull(t: seq<int>)
    ensures Partial(t, |t|) == Score(t)
  {
    if t != [] {
      PartialIsScore(t, |t|);
      PartialFull(t[1..]);
    }
  }

  /** Every entry is below the base. */
  predicate Digits(t: seq<int>) {
    forall i :: 0 <= i < |t| ==> 0 <= t[i] <= 13
  }

  /** Python's tuple order. */
  predicate LexLess(a: seq<int>, b: seq<int>)
    requires |a| == |b|
  {
    a != [] && (a[0] < b[0] || (a[0] == b[0] && LexLess(a[1..], b[1..])))
  }

  lemma {:induction false} ScoreBounds(t: seq<int>)
    requires Digits(t)
    ensures 0 <= Score(t) <= Pow(14, |t| + 1) - 14
  {
    if t != [] {
      ScoreBounds(t[1..]);
      var p := Pow(14, |t|);
      MulBetween(p, t[0], 13);
      assert Pow(14, |t| + 1) == 14 * p;
    }
  }

  /** A smaller first entry makes a smaller score, whatever follows. */
  lemma {:induction false} HeadDecides(a: seq<int>, b: seq<int>)
    requires |a| == |b| && Digits(a) && Digits(b) && a != [] && a[0] < b[0]
    ensures Score(a) < Score(b)
  {
    var p := Pow(14, |a|);
    ScoreBounds(a[1..]);
    ScoreBounds(b[1..]);
    MulAtLeast(b[0] - a[0], p);
    assert p * b[0] - p * a[0] == (b[0] - a[0]) * p;
  }

  /** strength_score orders hands exactly as their strength tuples, because every entry
      is below the base 14 (2023/day7/day7.py:96-107). */
  lemma {:induction false} ScoreOrder(a: seq<int>, b: seq<int>)
    requires |a| == |b| && Digits(a) && Digits(b)
    ensures Score(a) < Score(b) <==> LexLess(a, b)
    ensures Score(a) == Score(b) <==> a == b
  {
    if a != [] {
      if a[0] < b[0] {
        HeadDecides(a, b);
      } else if a[0] > b[0] {
        HeadDecides(b, a);
      } else {
        ScoreOrder(a[1..], b[1..]);
        assert a == [a[0]] + a[1..] && b == [b[0]] + b[1..];
      }
    }
  }

  /** The whole strength tuple of a hand as a list of numbers, when its type is known. */
  function Tuple(s: Strength): seq<int>
    requires s.kind.Some?
  {
    [s.kind.value as int] + s.ranks
  }

  lemma StrengthDigits(cards: seq<char>)
    requires StrengthOf(cards).Some? && StrengthOf(cards).value.kind.Some?
    ensures Digits(Tuple(StrengthOf(cards).value)) && |Tuple(StrengthOf(cards).value)| == 6
  {
    var s := StrengthOf(cards).value;
    var ranks := Ranks(cards[..5]);
    assert ranks.Some? && s.ranks == ranks.value;
    forall i | 0 <= i < 5 ensures s.ranks[i] < |CARD_VALUES| {
      assert Rank(cards[..5][i]) == Some(s.ranks[i]);
    }
    var t := Tuple(s);
    forall i | 0 <= i < |t| ensures 0 <= t[i] <= 13 {
      if i > 0 {
        assert t[i] == s.ranks[i - 1];
      }
    }
  }

  /** A hand of 2023/day7/day7.py:31-107 whose strength tuple is computed at most once
      and kept in the cache. */
  class CardHand {
    const cards: seq<char>
    const bid: int
    var cache: Option<Strength>

    ghost predicate Valid()
      reads this
    {
      cache.Some? ==> cache == StrengthOf(cards)
    }

    /** CardHand.__init__ (2023/day7/day7.py:34-37). */
    constructor(cards: seq<char>, bid: int)
      ensures this.cards == cards && this.bid == bid && cache.None? && Valid()
    {
      this.cards := cards;
      this.bid := bid;
      cache := None;
    }

    /** _compute_strength (2023/day7/day7.py:42-87). When a card lookup raises, the
        cache keeps its old value. */
    method ComputeStrength()
      requires Valid()
      modifies this
      ensures Valid()
      ensures StrengthOf(cards).Some? ==> cache == StrengthOf(cards)
      ensures StrengthOf(cards).None? ==> cache == old(cache)
    {
      var counts := CountCards(cards);
      var typeStrength := TypeStrength(counts);
      if |cards| < 5 {
        return;
      }
      var ranks := Ranks(cards[..5]);
      if ranks.None? {
        return;
      }
      cache := Some(Strength(typeStrength, ranks.value));
    }

    /** The strength property (2023/day7/day7.py:89-94): computed on first use, then
        read from the cache. */
    method GetStrength() returns (s: Option<Strength>)
      requires Valid()
      modifies this
      ensures Valid()
      ensures s == StrengthOf(cards)
      ensures s.Some? ==> cache == s
      ensures old(cache).Some? ==> cache == old(cache)
    {
      if cache.None? {
        ComputeStrength();
      }
      return cache;
    }

    /** The strength_score property (2023/day7/day7.py:96-107): None where Python
        raises, that is where the strength cannot be computed or the type is unknown;
        otherwise the base-14 score of the strength tuple. */
    method StrengthScore() returns (score: Option<int>)
      requires Valid()
      modifies this
      ensures Valid()
      ensures old(cache).Some? ==> cache == old(cache)
      ensures StrengthOf(cards).Some? ==> cache == StrengthOf(cards)
      ensures StrengthOf(cards).None? ==> cache == old(cache)
      ensures score.None? <==> StrengthOf(cards).None? || StrengthOf(cards).value.kind.None?
      ensures score.Some? ==> score.value == Score(Tuple(StrengthOf(cards).value))
    {
      if cache.None? {
        ComputeStrength();
      }
      if cache.None? || cache.value.kind.None? {
        return None;
      }
      var t := Tuple(cache.value);
      var strengthValue := 0;
      var base := |CARD_VALUES| + 1;
      for n := 0 to |t|
        invariant strengthValue == Partial(t, n)
      {
        strengthValue := strengthValue + Pow(base, |t| - n) * t[n];
      }
      PartialFull(t);
      return Some(strengthValue);
    }
  }

  // ---------------------------------------------------------------------------
  // Total winnings

  /** Σ (n + 1) * bids[n]: the bid of each hand times its rank. */
  function RankedSum(bids: seq<int>): int {
    if bids == [] then 0 else RankedSum(bids[..|bids| - 1]) + |bids| * bids[|bids| - 1]
  }

  /** The loop of day7_1 (2023/day7/day7.py:129-133) over the hands' bids, listed in
      ascending order of score. */
  method TotalWinnings(bids: seq<int>) returns (total: int)
    ensures total == RankedSum(bids)
  {
    total := 0;
    for n := 0 to |bids|
      invariant total == RankedSum(bids[..n])
    {
      assert bids[..n + 1][..n] == bids[..n];
      total := total + (n + 1) * bids[n];
    }
    assert bids[..|bids|] == bids;
  }

  /** The number of scores below x. */
  function CountBelow(scores: seq<int>, x: int): (r: nat)
    ensures r <= |scores|
  {
    if scores == [] then 0
    else CountBelow(scores[..|scores| - 1], x) + (if scores[|scores| - 1] < x then 1 else 0)
  }

  /** Σ bids[i] * (1 + number of hands scoring below hand i): the winnings with each
      rank counted rather than read off a position. */
  function WinningsByRank(scores: seq<int>, bids: seq<int>, k: nat): int
    requires |scores| == |bids| && k <= |bids|
  {
    if k == 0 then 0
    else WinningsByRank(scores, bids, k - 1) + (CountBelow(scores, scores[k - 1]) + 1) * bids[k - 1]
  }

  predicate StrictlyAscending(scores: seq<int>) {
    forall i, j :: 0 <= i < j < |scores| ==> scores[i] < scores[j]
  }

  lemma {:induction false} RankIsPosition(scores: seq<int>, i: int)
    requires StrictlyAscending(scores) && 0 <= i < |scores|
    ensures CountBelow(scores, scores[i]) == i
  {
    var n := |scores|;
    var init := scores[..n - 1];
    if i < n - 1 {
      RankIsPosition(init, i);
    } else {
      AllBelow(init, scores[i]);
    }
  }

  lemma {:induction false} AllBelow(scores: seq<int>, x: int)
    requires forall j :: 0 <= j < |scores| ==> scores[j] < x
    ensures CountBelow(scores, x) == |scores|
  {
    if scores != [] {
      AllBelow(scores[..|scores| - 1], x);
    }
  }

  /** With distinct scores sorted ascending, the position-based total of day7_1 is the
      sum of each bid times one more than the number of hands it beats. */
  lemma {:induction false} WinningsAreByRank(scores: seq<int>, bids: seq<int>, k: nat)
    requires |scores| == |bids| && StrictlyAscending(scores) && k <= |bids|
    ensures RankedSum(bids[..k]) == WinningsByRank(scores, bids, k)
  {
    if k > 0 {
      WinningsAreByRank(scores, bids, k - 1);
      RankIsPosition(scores, k - 1);
      assert bids[..k][..k - 1] == bids[..k - 1];
    }
  }
}
