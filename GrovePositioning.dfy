/** The circular list mixing of 2022/day20/day20.py: every number of the file, tagged
    with its original position, moves forwards or backwards by its own value; the grove
    coordinates are read 1000, 2000 and 3000 places after the value 0. */
module GrovePositioning {
  import opened Wrappers
  import opened Arith

  /** One entry of the list built by enumerate: original position and value. */
  datatype Entry = Entry(id: int, value: int)

  const DECRYPTION_KEY: int := 811589153

  /** The number of mixing rounds of day20_2 (a function rather than a constant, so
      that the verifier does not unfold Mixed ten times wherever it is named). */
  function DecryptedRounds(): nat { 10 }

  /** list(enumerate(values)) (2022/day20/day20.py:12). */
  function Enumerate(values: seq<int>): (s: seq<Entry>)
    ensures |s| == |values|
    ensures forall i :: 0 <= i < |s| ==> s[i] == Entry(i, values[i])
  {
    seq(|values|, i requires 0 <= i < |values| => Entry(i, values[i]))
  }

  /** The ids present in the list. */
  function IdSet(s: seq<Entry>): set<int> {
    set e | e in s :: e.id
  }

  /** Every id 0..|s|-1 occurs, as after enumerate. */
  predicate HasIds(s: seq<Entry>) {
    forall i :: 0 <= i < |s| ==> i in IdSet(s)
  }

  lemma EnumerateHasIds(values: seq<int>)
    ensures HasIds(Enumerate(values))
  {
    var s := Enumerate(values);
    forall i | 0 <= i < |s| ensures i in IdSet(s) {
      assert s[i] in s;
    }
  }

  /** A permutation of the list keeps the ids present. */
  lemma {:induction false} PermutationKeepsIds(s: seq<Entry>, t: seq<Entry>)
    requires multiset(s) == multiset(t)
    ensures IdSet(s) == IdSet(t)
  {
    forall e | e in s ensures e in t {
      assert e in multiset(s);
    }
    forall e | e in t ensures e in s {
      assert e in multiset(t);
    }
  }

  /** A permutation of a list holding every id 0..|s|-1 holds them all too. */
  lemma PermutationHasIds(s: seq<Entry>, t: seq<Entry>)
    requires multiset(s) == multiset(t) && HasIds(s)
    ensures HasIds(t)
  {
    PermutationKeepsIds(s, t);
    assert |s| == |multiset(s)| == |t|;
  }

  /** indexes.index(id): the first position holding id, or None where Python raises
      ValueError. */
  function IndexOfId(s: seq<Entry>, id: int): (r: Option<nat>)
    ensures r.None? <==> id !in IdSet(s)
    ensures r.Some? ==> (r.value < |s| && s[r.value].id == id &&
                         forall j :: 0 <= j < r.value ==> s[j].id != id)
  {
    if s == [] then None
    else if s[0].id == id then Some(0)
    else
      match IndexOfId(s[1..], id)
      case None =>
        assert IdSet(s) == {s[0].id} + IdSet(s[1..]) by {
          assert s == [s[0]] + s[1..];
        }
        None
      case Some(k) =>
        assert s[1..][k] in s[1..];
        Some(k + 1)
  }

  /** s without the entry at position i: list.pop(i). */
  function Remove(s: seq<Entry>, i: int): (r: seq<Entry>)
    requires 0 <= i < |s|
    ensures |r| == |s| - 1
  {
    s[..i] + s[i + 1..]
  }

  /** list.insert(i, e) for a position within the list. */
  function Insert(s: seq<Entry>, i: int, e: Entry): (r: seq<Entry>)
    requires 0 <= i <= |s|
    ensures |r| == |s| + 1 && r[i] == e
  {
    s[..i] + [e] + s[i..]
  }

  lemma {:induction false} InsertRemove(s: seq<Entry>, i: int, e: Entry)
    requires 0 <= i <= |s|
    ensures Remove(Insert(s, i, e), i) == s
  {
    assert Insert(s, i, e)[..i] == s[..i];
    assert Insert(s, i, e)[i + 1..] == s[i..];
    assert s[..i] + s[i..] == s;
  }

  lemma {:induction false} MultisetRemove(s: seq<Entry>, i: int)
    requires 0 <= i < |s|
    ensures multiset(s) == multiset(Remove(s, i)) + multiset{s[i]}
  {
    assert s == s[..i] + [s[i]] + s[i + 1..];
  }

  lemma {:induction false} MultisetInsert(s: seq<Entry>, i: int, e: Entry)
    requires 0 <= i <= |s|
    ensures multiset(Insert(s, i, e)) == multiset(s) + multiset{e}
  {
    assert s == s[..i] + s[i..];
  }

  /** The entry at position o of s sits at position p of t: p is in 1..|s|-1 and
      congruent to o plus the entry's value modulo |s| - 1, and the other entries
      keep their relative order. */
  predicate LandsAt(s: seq<Entry>, o: int, t: seq<Entry>, p: int)
    requires 0 <= o < |s| && |t| == |s| && |s| >= 2
  {
    1 <= p < |s| && (p - o - s[o].value) % (|s| - 1) == 0 &&
    t[p] == s[o] && Remove(t, p) == Remove(s, o)
  }

  /** move_in_list (2022/day20/day20.py:17-29) on a list value: the result is the new
      list, or None where Python raises (the id is missing, ValueError; a list of one
      entry, ZeroDivisionError on the modulus 0). The entry lands on a position in
      1..|s|-1 congruent to its old position plus its value modulo |s| - 1, and every
      other entry keeps its relative order; by LandsAtUnique that fixes the list. */
  function Moved(s: seq<Entry>, index: int): (r: Option<seq<Entry>>)
    ensures r.None? <==> index !in IdSet(s) || |s| == 1
    ensures r.Some? ==> |r.value| == |s| && multiset(r.value) == multiset(s)
    ensures r.Some? ==> exists p :: LandsAt(s, IndexOfId(s, index).value, r.value, p)
  {
    match IndexOfId(s, index)
    case None => None
    case Some(o) =>
      if |s| == 1 then None
      else
        var x := o + s[o].value;
        var p := if x % (|s| - 1) == 0 then |s| - 1 else x % (|s| - 1);
        NewIndexCongruent(x, |s| - 1, p);
        MoveLands(s, o, p);
        Some(Insert(Remove(s, o), p, s[o]))
  }

  /** move_in_list itself, computing the new position step by step as the source does. */
  method MoveInList(sequence: seq<Entry>, index: int) returns (r: Option<seq<Entry>>)
    ensures r == Moved(sequence, index)
    ensures r.None? <==> index !in IdSet(sequence) || |sequence| == 1
  {
    var found := IndexOfId(sequence, index);
    if found.None? || |sequence| == 1 {
      return None;
    }
    var oldIndex := found.value;
    var n := |sequence|;
    var newIndex := (oldIndex + sequence[oldIndex].value) % (n - 1);
    if newIndex == 0 {
      newIndex := n - 1;
    }
    var e := sequence[oldIndex];
    var popped := Remove(sequence, oldIndex);
    var moved := Insert(popped, newIndex, e);
    return Some(moved);
  }

  /** Popping the entry at o and inserting it at p rearranges the list and lands the
      entry at p. */
  lemma MoveLands(s: seq<Entry>, o: int, p: int)
    requires |s| >= 2 && 0 <= o < |s| && 1 <= p < |s|
    requires (p - (o + s[o].value)) % (|s| - 1) == 0
    ensures var t := Insert(Remove(s, o), p, s[o]);
      |t| == |s| && multiset(t) == multiset(s) && LandsAt(s, o, t, p)
  {
    var popped := Remove(s, o);
    InsertRemove(popped, p, s[o]);
    MultisetRemove(s, o);
    MultisetInsert(popped, p, s[o]);
    assert p - (o + s[o].value) == p - o - s[o].value;
  }

  /** The position move_in_list picks, x % m with 0 replaced by m, lies in 1..m and
      is congruent to x modulo m. */
  lemma {:induction false} NewIndexCongruent(x: int, m: int, k: int)
    requires m > 0 && k == (if x % m == 0 then m else x % m)
    ensures 1 <= k <= m && (k - x) % m == 0
  {
    if x % m == 0 {
      DivModUnique(m - x, m, 1 - x / m, 0);
    } else {
      DivModUnique(x % m - x, m, -(x / m), 0);
    }
  }

  /** Inserting the entry at p back into the list it was popped from gives the list. */
  lemma {:induction false} RemoveInsert(t: seq<Entry>, p: int)
    requires 0 <= p < |t|
    ensures Insert(Remove(t, p), p, t[p]) == t
  {
    assert Remove(t, p)[..p] == t[..p];
    assert Remove(t, p)[p..] == t[p + 1..];
    assert t == t[..p] + [t[p]] + t[p + 1..];
  }

  /** There is only one list in which the entry at o lands as move_in_list places it:
      the landing position is the only one in 1..|s|-1 of its residue, and the other
      entries keep their order. */
  lemma {:induction false} LandsAtUnique(s: seq<Entry>, o: int, t1: seq<Entry>, p1: int, t2: seq<Entry>, p2: int)
    requires 0 <= o < |s| && |t1| == |s| && |t2| == |s| && |s| >= 2
    requires LandsAt(s, o, t1, p1) && LandsAt(s, o, t2, p2)
    ensures p1 == p2 && t1 == t2
  {
    SameResidue(p1, p2, o + s[o].value, |s| - 1);
    RemoveInsert(t1, p1);
    RemoveInsert(t2, p2);
  }

  /** Moved is the only way of moving the entry with the id as move_in_list describes
      it: any list in which the entry lands so is the one Moved returns. */
  lemma {:induction false} MovedIsOnlyLanding(s: seq<Entry>, index: int, t: seq<Entry>, p: int)
    requires index in IdSet(s) && |s| >= 2 && |t| == |s|
    requires LandsAt(s, IndexOfId(s, index).value, t, p)
    ensures Moved(s, index) == Some(t)
  {
    var o := IndexOfId(s, index).value;
    var m := Moved(s, index).value;
    var q :| LandsAt(s, o, m, q);
    LandsAtUnique(s, o, m, q, t, p);
  }

  /** Two positions in 1..m of the same residue modulo m are equal. */
  lemma {:induction false} SameResidue(p1: int, p2: int, c: int, m: int)
    requires m > 0 && 1 <= p1 <= m && 1 <= p2 <= m
    requires (p1 - c) % m == 0 && (p2 - c) % m == 0
    ensures p1 == p2
  {
    var a := p1 - c;
    var b := p2 - c;
    DivModUnique(a, m, a / m, 0);
    DivModUnique(b, m, b / m, 0);
    var q := a / m - b / m;
    assert p1 - p2 == q * m;
    if q >= 1 {
      MulAtLeast(q, m);
    } else if q <= -1 {
      MulAtLeast(-q, m);
    }
  }

  /** The moves of one round for the original positions index..|s|-1, stopping with
      None at the first move that raises. */
  function RoundFrom(s: seq<Entry>, index: nat): (r: Option<seq<Entry>>)
    ensures r.Some? ==> |r.value| == |s| && multiset(r.value) == multiset(s)
    ensures HasIds(s) && |s| != 1 ==> r.Some?
    ensures index < |s| && |s| == 1 ==> r.None?
    decreases |s| - index
  {
    if index >= |s| then Some(s)
    else
      match Moved(s, index)
      case None => None
      case Some(t) =>
        if HasIds(s) then PermutationHasIds(s, t); RoundFrom(t, index + 1)
        else RoundFrom(t, index + 1)
  }

  /** One step of RoundFrom: the move at `index`, then the rest of the round. */
  lemma RoundFromStep(s: seq<Entry>, index: nat)
    requires index < |s|
    ensures RoundFrom(s, index) ==
            (var t := Moved(s, index); if t.None? then None else RoundFrom(t.value, index + 1))
  {
  }

  /** One round of mixing: move_in_list for every original position in turn. */
  function Round(s: seq<Entry>): (r: Option<seq<Entry>>)
    ensures r.Some? ==> |r.value| == |s| && multiset(r.value) == multiset(s)
    ensures HasIds(s) ==> (r.None? <==> |s| == 1)
  {
    RoundFrom(s, 0)
  }

  /** `rounds` rounds of mixing, stopping with None at the first move that raises. */
  function Mixed(s: seq<Entry>, rounds: nat): (r: Option<seq<Entry>>)
    ensures r.Some? ==> |r.value| == |s| && multiset(r.value) == multiset(s)
    ensures HasIds(s) ==> (r.None? <==> |s| == 1 && rounds > 0)
  {
    if rounds == 0 then Some(s)
    else
      var m := Mixed(s, rounds - 1);
      if m.None? then None
      else if HasIds(s) then PermutationHasIds(s, m.value); Round(m.value)
      else Round(m.value)
  }

  /** Once a round raises, every later round count raises too. */
  lemma {:induction false} MixedStaysNone(s: seq<Entry>, j: nat, k: nat)
    requires j <= k && Mixed(s, j).None?
    ensures Mixed(s, k).None?
    decreases k - j
  {
    if j < k {
      MixedStaysNone(s, j + 1, k);
    }
  }

  /** One round of mixing: move_in_list for every original position in turn
      (2022/day20/day20.py:43-44 and 54-55). */
  method MixRound(s: seq<Entry>) returns (r: Option<seq<Entry>>)
    ensures r == Round(s)
    ensures HasIds(s) ==> (r.None? <==> |s| == 1)
    ensures r.Some? ==> |r.value| == |s| && multiset(r.value) == multiset(s)
  {
    var sequence := s;
    for index := 0 to |s|
      invariant |sequence| == |s|
      invariant RoundFrom(sequence, index) == Round(s)
    {
      RoundFromStep(sequence, index);
      var moved := MoveInList(sequence, index);
      if moved.None? {
        return None;
      }
      sequence := moved.value;
    }
    return Some(sequence);
  }

  /** The mixing of day20_1 (rounds = 1) and day20_2 (rounds = 10). */
  method Mix(s: seq<Entry>, rounds: nat) returns (r: Option<seq<Entry>>)
    ensures r == Mixed(s, rounds)
    ensures HasIds(s) ==> (r.None? <==> |s| == 1 && rounds > 0)
    ensures r.Some? ==> |r.value| == |s| && multiset(r.value) == multiset(s)
  {
    var sequence := s;
    for x := 0 to rounds
      invariant Mixed(s, x) == Some(sequence)
    {
      var mixed := MixRound(sequence);
      if mixed.None? {
        MixedStaysNone(s, x + 1, rounds);
        return None;
      }
      sequence := mixed.value;
    }
    return Some(sequence);
  }

  /** The map of day20_2 (2022/day20/day20.py:51): every value times the decryption
      key, every original position kept. */
  function Decrypt(s: seq<Entry>): (r: seq<Entry>)
    ensures |r| == |s|
    ensures forall i :: 0 <= i < |s| ==> r[i].id == s[i].id && r[i].value == s[i].value * DECRYPTION_KEY
  {
    seq(|s|, i requires 0 <= i < |s| => Entry(s[i].id, s[i].value * DECRYPTION_KEY))
  }

  /** Decryption keeps the zeros and the non-zeros: the key is not 0. */
  lemma {:induction false} DecryptKeepsZeros(s: seq<Entry>)
    ensures (exists j :: 0 <= j < |s| && s[j].value == 0) <==>
            (exists j :: 0 <= j < |s| && Decrypt(s)[j].value == 0)
  {
    forall j | 0 <= j < |s|
      ensures Decrypt(s)[j].value == 0 <==> s[j].value == 0
    {
      if s[j].value > 0 {
        MulAtLeast(s[j].value, DECRYPTION_KEY);
      } else if s[j].value < 0 {
        MulAtLeast(-s[j].value, DECRYPTION_KEY);
      }
    }
  }

  lemma DecryptKeepsIds(s: seq<Entry>)
    ensures IdSet(Decrypt(s)) == IdSet(s)
  {
    var d := Decrypt(s);
    forall id | id in IdSet(s) ensures id in IdSet(d) {
      var e :| e in s && e.id == id;
      var i :| 0 <= i < |s| && s[i] == e;
      assert d[i] in d;
    }
    forall id | id in IdSet(d) ensures id in IdSet(s) {
      var e :| e in d && e.id == id;
      var i :| 0 <= i < |d| && d[i] == e;
      assert s[i] in s;
    }
  }

  // ---------------------------------------------------------------------------
  // Grove coordinates

  /** [x[1] for x in sequence].index(0), or None where Python raises ValueError. */
  function FirstZero(s: seq<Entry>): (r: Option<nat>)
    ensures r.None? <==> forall j :: 0 <= j < |s| ==> s[j].value != 0
    ensures r.Some? ==> (r.value < |s| && s[r.value].value == 0 &&
                         forall j :: 0 <= j < r.value ==> s[j].value != 0)
  {
    if s == [] then None
    else if s[0].value == 0 then Some(0)
    else
      match FirstZero(s[1..])
      case None =>
        assert forall j :: 1 <= j < |s| ==> s[j].value == s[1..][j - 1].value;
        None
      case Some(k) => Some(k + 1)
  }

  /** The value k places after position z in the circular list. */
  function After(s: seq<Entry>, z: int, k: int): int
    requires |s| > 0
  {
    s[(z + k) % |s|].value
  }

  /** The sum get_grove_coordinates reads: the values 1000, 2000 and 3000 places
      after the first 0. */
  function Grove(s: seq<Entry>): Option<int> {
    match FirstZero(s)
    case None => None
    case Some(z) => Some(After(s, z, 1000) + After(s, z, 2000) + After(s, z, 3000))
  }

  /** get_grove_coordinates (2022/day20/day20.py:32-38). */
  method GetGroveCoordinates(sequence: seq<Entry>) returns (r: Option<int>)
    ensures r == Grove(sequence)
    ensures r.None? <==> forall j :: 0 <= j < |sequence| ==> sequence[j].value != 0
  {
    var found := FirstZero(sequence);
    if found.None? {
      return None;
    }
    var indexZero := found.value;
    var result := 0;
    var offsets := [1000, 2000, 3000];
    for i := 0 to 3
      invariant result == if i == 0 then 0
                          else if i == 1 then After(sequence, indexZero, 1000)
                          else if i == 2 then After(sequence, indexZero, 1000) + After(sequence, indexZero, 2000)
                          else Grove(sequence).value
    {
      result := result + sequence[(indexZero + offsets[i]) % |sequence|].value;
    }
    return Some(result);
  }

  /** The list rotated left by k places: the same circle read from another start. */
  function Rotate(s: seq<Entry>, k: int): (r: seq<Entry>)
    requires 0 <= k <= |s|
    ensures |r| == |s|
  {
    s[k..] + s[..k]
  }

  lemma {:induction false} RotateAt(s: seq<Entry>, k: int, j: int)
    requires 0 <= k < |s| && 0 <= j < |s|
    ensures Rotate(s, k)[j] == s[(j + k) % |s|]
  {
    if j + k < |s| {
      DivModUnique(j + k, |s|, 0, j + k);
    } else {
      DivModUnique(j + k, |s|, 1, j + k - |s|);
    }
  }

  lemma {:induction false} ModAddMod(a: int, b: int, n: int)
    requires n > 0
    ensures (a % n + b) % n == (a + b) % n
  {
    DivModUnique(a % n + b, n, (a + b) / n - a / n, (a + b) % n);
  }

  /** With exactly one 0 in the list, the grove coordinates depend only on the circle,
      not on where the list starts. */
  lemma {:induction false} GroveRotation(s: seq<Entry>, k: int, z: int)
    requires 0 <= k < |s| && 0 <= z < |s| && s[z].value == 0
    requires forall j :: 0 <= j < |s| && j != z ==> s[j].value != 0
    ensures Grove(Rotate(s, k)) == Grove(s)
  {
    var t := Rotate(s, k);
    var zt := (z - k) % |s|;
    RotatedZero(s, k, z);
    assert FirstZero(t) == Some(zt) by {
      var f := FirstZero(t);
      assert f.Some? && f.value == zt;
    }
    assert FirstZero(s) == Some(z);
    RotatedAfter(s, k, z, 1000);
    RotatedAfter(s, k, z, 2000);
    RotatedAfter(s, k, z, 3000);
  }

  /** z - k is where the only 0 of s sits after rotating s by k. */
  lemma {:induction false} RotatedZero(s: seq<Entry>, k: int, z: int)
    requires 0 <= k < |s| && 0 <= z < |s| && s[z].value == 0
    requires forall j :: 0 <= j < |s| && j != z ==> s[j].value != 0
    ensures 0 <= (z - k) % |s| < |s| && Rotate(s, k)[(z - k) % |s|].value == 0
    ensures forall j :: 0 <= j < |s| && j != (z - k) % |s| ==> Rotate(s, k)[j].value != 0
  {
    var n := |s|;
    var t := Rotate(s, k);
    var zt := (z - k) % n;
    assert (zt + k) % n == z by {
      ModAddMod(z - k, k, n);
      DivModUnique(z, n, 0, z);
    }
    forall j | 0 <= j < n && j != zt ensures t[j].value != 0 {
      RotateAt(s, k, j);
      if (j + k) % n == z {
        ModAddMod(j + k, -k, n);
        ModAddMod(z, -k, n);
        DivModUnique(j, n, 0, j);
        assert false;
      }
    }
    RotateAt(s, k, zt);
  }

  /** Reading d places on from the 0 gives the same value before and after rotating. */
  lemma {:induction false} RotatedAfter(s: seq<Entry>, k: int, z: int, d: int)
    requires 0 <= k < |s| && 0 <= z < |s|
    ensures After(Rotate(s, k), (z - k) % |s|, d) == After(s, z, d)
  {
    var n := |s|;
    var zt := (z - k) % n;
    assert (zt + k) % n == z by {
      ModAddMod(z - k, k, n);
      DivModUnique(z, n, 0, z);
    }
    RotateAt(s, k, (zt + d) % n);
    ModAddMod(zt + d, k, n);
    ModAddMod(zt + k, d, n);
    assert zt + d + k == zt + k + d;
  }

  /** The grove coordinates after `rounds` rounds of mixing, None where Python raises. */
  function MixedGrove(s: seq<Entry>, rounds: nat): Option<int> {
    var m := Mixed(s, rounds);
    if m.None? then None else Grove(m.value)
  }

  /** After mixing a list that holds every id, there are grove coordinates exactly when
      the list has a 0 and mixing did not divide by zero. */
  lemma {:induction false} MixedGroveExists(s: seq<Entry>, rounds: nat)
    requires HasIds(s)
    ensures MixedGrove(s, rounds).None? <==>
            (|s| == 1 && rounds > 0) || forall j :: 0 <= j < |s| ==> s[j].value != 0
  {
    var m := Mixed(s, rounds);
    if m.Some? {
      ZeroSurvives(s, m.value);
    }
  }

  /** MixedGroveExists for the decrypted list of the file's numbers. */
  lemma {:induction false} DecryptedGroveExists(values: seq<int>, rounds: nat)
    requires rounds > 0
    ensures MixedGrove(Decrypt(Enumerate(values)), rounds).None? <==>
            |values| == 1 || forall j :: 0 <= j < |values| ==> values[j] != 0
  {
    var s := Enumerate(values);
    EnumerateHasIds(values);
    DecryptKeepsIds(s);
    DecryptKeepsZeros(s);
    assert HasIds(Decrypt(s));
    MixedGroveExists(Decrypt(s), rounds);
  }

  /** The part 1 answer on the numbers of the file (2022/day20/day20.py:40-46). */
  method Day20Part1(values: seq<int>) returns (r: Option<int>)
    ensures r == MixedGrove(Enumerate(values), 1)
    ensures r.None? <==> |values| == 1 || forall j :: 0 <= j < |values| ==> values[j] != 0
  {
    EnumerateHasIds(values);
    var sequence := Enumerate(values);
    MixedGroveExists(sequence, 1);
    var mixed := Mix(sequence, 1);
    if mixed.None? {
      return None;
    }
    r := GetGroveCoordinates(mixed.value);
  }

  /** The part 2 answer (2022/day20/day20.py:49-57). */
  method Day20Part2(values: seq<int>) returns (r: Option<int>)
    ensures r == MixedGrove(Decrypt(Enumerate(values)), DecryptedRounds())
    ensures r.None? <==> |values| == 1 || forall j :: 0 <= j < |values| ==> values[j] != 0
  {
    DecryptedGroveExists(values, DecryptedRounds());
    var sequence := Decrypt(Enumerate(values));
    var mixed := Mix(sequence, DecryptedRounds());
    if mixed.None? {
      return None;
    }
    r := GetGroveCoordinates(mixed.value);
  }

  /** A permutation has a 0 exactly when the original has one. */
  lemma {:induction false} ZeroSurvives(s: seq<Entry>, t: seq<Entry>)
    requires multiset(s) == multiset(t)
    ensures (exists j :: 0 <= j < |s| && s[j].value == 0) <==> (exists j :: 0 <= j < |t| && t[j].value == 0)
  {
    if exists j :: 0 <= j < |s| && s[j].value == 0 {
      var j :| 0 <= j < |s| && s[j].value == 0;
      assert s[j] in multiset(t);
      var i :| 0 <= i < |t| && t[i] == s[j];
    }
    if exists j :: 0 <= j < |t| && t[j].value == 0 {
      var j :| 0 <= j < |t| && t[j].value == 0;
      assert t[j] in multiset(s);
      var i :| 0 <= i < |s| && s[i] == t[j];
    }
  }
}
