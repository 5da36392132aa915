/** Start-of-packet and start-of-message markers of 2022/day6/day6.py: the position just
    after the first window of w characters that are all different. */
module TuningTrouble {
  import opened Wrappers

  /** No character occurs twice in x. */
  predicate Distinct(x: string) {
    forall i, j :: 0 <= i < j < |x| ==> x[i] != x[j]
  }

  /** Python's len(set(x)). */
  function DistinctCount(x: string): nat {
    |set c | c in x|
  }

  lemma {:induction false} DistinctCountSnoc(x: string, c: char)
    ensures (set d | d in x + [c]) == (set d | d in x) + {c}
  {
  }

  /** A string has as many different characters as characters exactly when none
      repeats; otherwise it has fewer. */
  lemma {:induction false} DistinctCountMeansDistinct(x: string)
    ensures DistinctCount(x) <= |x|
    ensures DistinctCount(x) == |x| <==> Distinct(x)
  {
    if x != [] {
      var p, c := x[..|x| - 1], x[|x| - 1];
      assert x == p + [c];
      DistinctCountMeansDistinct(p);
      DistinctCountSnoc(p, c);
      if c in p {
        var i :| 0 <= i < |p| && p[i] == c;
        assert x[i] == x[|x| - 1];
        assert (set d | d in p) + {c} == (set d | d in p);
      } else {
        assert Distinct(x) <==> Distinct(p);
      }
    }
  }

  /** The loop position n is one of range(len(s)), the window of w characters at n
      lies inside s and no character repeats in it. */
  predicate MarkerAt(s: string, n: int, w: nat) {
    0 <= n < |s| && n + w <= |s| && Distinct(s[n..n + w])
  }

  /** The loop shared by start_of_packet (2022/day6/day6.py:10-15, w = 4) and
      start_of_message (2022/day6/day6.py:18-23, w = 14). Without a marker the
      function returns the last value of the loop variable, |s| - 1; on an empty
      string that variable is never bound and Python raises, which is None here. */
  method StartOfMarker(s: string, w: nat) returns (r: Option<int>)
    ensures r.None? <==> |s| == 0
    ensures r.Some? && (exists n :: MarkerAt(s, n, w)) ==>
      w <= r.value <= |s| && MarkerAt(s, r.value - w, w) &&
      forall n :: 0 <= n < r.value - w ==> !MarkerAt(s, n, w)
    ensures r.Some? && (forall n :: !MarkerAt(s, n, w)) ==> r.value == |s| - 1
  {
    if |s| == 0 {
      return None;
    }
    for n := 0 to |s|
      invariant forall m :: 0 <= m < n ==> !MarkerAt(s, m, w)
    {
      if n + w <= |s| {
        var window := s[n..n + w];
        DistinctCountMeansDistinct(window);
        if |set c | c in window| == w {
          assert MarkerAt(s, n, w);
          return Some(n + w);
        }
      }
    }
    assert forall n :: !MarkerAt(s, n, w);
    return Some(|s| - 1);
  }

  method StartOfPacket(s: string) returns (r: Option<int>)
    ensures r == None <==> |s| == 0
    ensures r.Some? && (exists n :: MarkerAt(s, n, 4)) ==>
      4 <= r.value && MarkerAt(s, r.value - 4, 4) &&
      forall n :: 0 <= n < r.value - 4 ==> !MarkerAt(s, n, 4)
    ensures r.Some? && (forall n :: !MarkerAt(s, n, 4)) ==> r.value == |s| - 1
  {
    r := StartOfMarker(s, 4);
  }

  method StartOfMessage(s: string) returns (r: Option<int>)
    ensures r == None <==> |s| == 0
    ensures r.Some? && (exists n :: MarkerAt(s, n, 14)) ==>
      14 <= r.value && MarkerAt(s, r.value - 14, 14) &&
      forall n :: 0 <= n < r.value - 14 ==> !MarkerAt(s, n, 14)
    ensures r.Some? && (forall n :: !MarkerAt(s, n, 14)) ==> r.value == |s| - 1
  {
    r := StartOfMarker(s, 14);
  }

  /** A start-of-message window contains start-of-packet windows: the packet marker
      never comes later than the message marker. */
  lemma {:induction false} PacketNotAfterMessage(s: string, n: int)
    requires MarkerAt(s, n, 14)
    ensures MarkerAt(s, n, 4)
  {
    var a, b := s[n..n + 4], s[n..n + 14];
    assert forall i :: 0 <= i < 4 ==> a[i] == b[i];
  }
}
