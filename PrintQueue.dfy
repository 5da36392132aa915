/** The page ordering rules of 2024/day5/day5.py. Every rule "a|b" makes page b a
    successor of page a; a page is an object that the successor lists refer to, so
    here a page is named by its index in the page list, which only ever grows. An
    update is correct when each of its pages is a successor of the one before. */
module PrintQueue {
  import opened Wrappers

  /** A page: its number and its successors, as indices into the page list. */
  datatype Page = Page(number: nat, successors: seq<nat>)

  /** Every successor refers to a page of the list. */
  predicate Linked(pages: seq<Page>) {
    forall i, k :: 0 <= i < |pages| && 0 <= k < |pages[i].successors| ==> pages[i].successors[k] < |pages|
  }

  /** No page number occurs twice. */
  predicate DistinctNumbers(pages: seq<Page>) {
    forall i, j :: 0 <= i < j < |pages| ==> pages[i].number != pages[j].number
  }

  // ---------------------------------------------------------------------------
  // Lookups

  function FindPageFrom(pages: seq<Page>, n: nat, i: nat): (r: Option<nat>)
    requires i <= |pages|
    ensures r.Some? ==> i <= r.value < |pages| && pages[r.value].number == n &&
                        forall j :: i <= j < r.value ==> pages[j].number != n
    ensures r.None? <==> forall j :: i <= j < |pages| ==> pages[j].number != n
    decreases |pages| - i
  {
    if i == |pages| then None
    else if pages[i].number == n then Some(i)
    else FindPageFrom(pages, n, i + 1)
  }

  /** find_page (2024/day5/day5.py:26-29): the first page numbered n, or None. */
  function FindPage(pages: seq<Page>, n: nat): (r: Option<nat>)
    ensures r.Some? ==> r.value < |pages| && pages[r.value].number == n &&
                        forall j :: 0 <= j < r.value ==> pages[j].number != n
    ensures r.None? <==> forall j :: 0 <= j < |pages| ==> pages[j].number != n
  {
    FindPageFrom(pages, n, 0)
  }

  /** Page.find_successor (2024/day5/day5.py:20-23): the first of the successors succ
      numbered n, or None. */
  function FindSuccessor(pages: seq<Page>, succ: seq<nat>, n: nat): (r: Option<nat>)
    requires forall k :: 0 <= k < |succ| ==> succ[k] < |pages|
    ensures r.Some? ==> r.value in succ && r.value < |pages| && pages[r.value].number == n
    ensures r.None? <==> forall k :: 0 <= k < |succ| ==> pages[succ[k]].number != n
  {
    if succ == [] then None
    else if pages[succ[0]].number == n then Some(succ[0])
    else FindSuccessor(pages, succ[1..], n)
  }

  /** There is a rule "x|y": the page found for x has a successor numbered y. */
  predicate HasRule(pages: seq<Page>, x: nat, y: nat)
    requires Linked(pages)
  {
    match FindPage(pages, x)
    case None => false
    case Some(i) => FindSuccessor(pages, pages[i].successors, y).Some?
  }

  /** The rules relate every page of s to the next. */
  predicate Chain(pages: seq<Page>, s: seq<nat>)
    requires Linked(pages)
  {
    forall i :: 0 <= i < |s| - 1 ==> HasRule(pages, s[i], s[i + 1])
  }

  /** Lookups only look at the numbers of the pages they reach. */
  lemma {:induction false} FindSuccessorSameNumbers(pages: seq<Page>, pages': seq<Page>, succ: seq<nat>, n: nat)
    requires |pages| <= |pages'|
    requires forall k :: 0 <= k < |succ| ==> succ[k] < |pages|
    requires forall i :: 0 <= i < |pages| ==> pages'[i].number == pages[i].number
    ensures FindSuccessor(pages', succ, n) == FindSuccessor(pages, succ, n)
  {
    if succ != [] {
      FindSuccessorSameNumbers(pages, pages', succ[1..], n);
    }
  }

  lemma {:induction false} FindSuccessorAppend(pages: seq<Page>, succ: seq<nat>, s: nat, n: nat)
    requires forall k :: 0 <= k < |succ| ==> succ[k] < |pages|
    requires s < |pages|
    ensures FindSuccessor(pages, succ + [s], n) ==
      if FindSuccessor(pages, succ, n).Some? then FindSuccessor(pages, succ, n)
      else if pages[s].number == n then Some(s) else None
  {
    if succ != [] {
      assert (succ + [s])[1..] == succ[1..] + [s];
      FindSuccessorAppend(pages, succ[1..], s, n);
    }
  }

  // ---------------------------------------------------------------------------
  // Updates

  /** Following the successors from page cur along rest never gets stuck. */
  predicate Walk(pages: seq<Page>, cur: nat, rest: seq<nat>)
    requires Linked(pages) && cur < |pages|
    decreases |rest|
  {
    if rest == [] then true
    else match FindSuccessor(pages, pages[cur].successors, rest[0])
      case None => false
      case Some(s) => Walk(pages, s, rest[1..])
  }

  /** What parse_update returns: 0 when the first page is known and the walk along the
      successors gets stuck, the middle page otherwise. */
  function UpdateValue(pages: seq<Page>, steps: seq<nat>): (r: nat)
    requires Linked(pages) && |steps| > 0
    ensures r == 0 || r == steps[|steps| / 2]
  {
    match FindPage(pages, steps[0])
    case None => steps[|steps| / 2]
    case Some(c) => if Walk(pages, c, steps[1..]) then steps[|steps| / 2] else 0
  }

  /** With each number on one page, the walk succeeds exactly when every pair of
      consecutive pages is ordered by a rule. */
  lemma {:induction false} WalkIsChain(pages: seq<Page>, s: seq<nat>, c: nat)
    requires Linked(pages) && DistinctNumbers(pages) && |s| > 0
    requires FindPage(pages, s[0]) == Some(c)
    ensures Walk(pages, c, s[1..]) <==> Chain(pages, s)
  {
    if |s| > 1 {
      var next := FindSuccessor(pages, pages[c].successors, s[1]);
      assert HasRule(pages, s[0], s[1]) <==> next.Some?;
      if next.Some? {
        var t := next.value;
        assert FindPage(pages, s[1]) == Some(t);
        WalkIsChain(pages, s[1..], t);
        assert s[1..][1..] == s[2..];
        assert Chain(pages, s) <==> HasRule(pages, s[0], s[1]) && Chain(pages, s[1..]) by {
          if Chain(pages, s[1..]) && HasRule(pages, s[0], s[1]) {
            forall i | 0 <= i < |s| - 1 ensures HasRule(pages, s[i], s[i + 1]) {
              if i > 0 {
                assert s[1..][i - 1] == s[i] && s[1..][i] == s[i + 1];
              }
            }
          }
          if Chain(pages, s) {
            forall i | 0 <= i < |s[1..]| - 1 ensures HasRule(pages, s[1..][i], s[1..][i + 1]) {
              assert s[1..][i] == s[i + 1] && s[1..][i + 1] == s[i + 2];
            }
          }
        }
      }
    }
  }

  /** parse_update (2024/day5/day5.py:58-78) in terms of the rules: 0 when the first
      page has rules and some consecutive pair of pages has no rule, the middle page
      otherwise. */
  lemma UpdateValueMeaning(pages: seq<Page>, steps: seq<nat>)
    requires Linked(pages) && DistinctNumbers(pages) && |steps| > 0
    ensures UpdateValue(pages, steps) ==
      if FindPage(pages, steps[0]).Some? && !Chain(pages, steps) then 0 else steps[|steps| / 2]
  {
    if FindPage(pages, steps[0]).Some? {
      WalkIsChain(pages, steps, FindPage(pages, steps[0]).value);
    }
  }

  // ---------------------------------------------------------------------------
  // Reordering

  /** The pass of parse_incorrect_update from position i on: each step is swapped with
      the next when the next one has the step as a successor. */
  function PassFrom(pages: seq<Page>, s: seq<nat>, i: nat): (r: seq<nat>)
    requires Linked(pages)
    ensures |r| == |s| && multiset(r) == multiset(s)
    decreases |s| - i
  {
    if i + 1 >= |s| then s
    else
      var s' := if HasRule(pages, s[i + 1], s[i]) then s[i := s[i + 1]][i + 1 := s[i]] else s;
      assert multiset(s') == multiset(s) by {
        if s' != s {
          assert s' == s[..i] + [s[i + 1], s[i]] + s[i + 2..];
          assert s == s[..i] + [s[i], s[i + 1]] + s[i + 2..];
        }
      }
      PassFrom(pages, s', i + 1)
  }

  /** A pass leaves alone an update whose every pair of consecutive pages lacks the
      reverse rule. */
  lemma {:induction false} PassKeepsOrdered(pages: seq<Page>, s: seq<nat>, i: nat)
    requires Linked(pages)
    requires forall k :: i <= k < |s| - 1 ==> !HasRule(pages, s[k + 1], s[k])
    ensures PassFrom(pages, s, i) == s
    decreases |s| - i
  {
    if i + 1 < |s| {
      PassKeepsOrdered(pages, s, i + 1);
    }
  }

  /** Rules "1|3" and the update 1,2: page 2 has no rule at all, so the update is
      wrong and a pass cannot change it; the loop of parse_incorrect_update would run
      forever. */
  lemma StuckUpdate()
    ensures var pages := [Page(1, [1]), Page(3, [])];
      Linked(pages) && UpdateValue(pages, [1, 2]) == 0 && PassFrom(pages, [1, 2], 0) == [1, 2]
  {
    var pages := [Page(1, [1]), Page(3, [])];
    assert FindPage(pages, 2).None?;
    assert FindPage(pages, 1) == Some(0);
    assert FindSuccessor(pages, [1], 2).None?;
  }

  /** The list of pages that the rules read so far, updated in place by
      parse_page_ordering_rule. */
  class PageRules {
    var pages: seq<Page>

    ghost predicate Valid()
      reads this
    {
      Linked(pages)
    }

    constructor ()
      ensures Valid() && pages == []
    {
      pages := [];
    }

    /** parse_page_ordering_rule (2024/day5/day5.py:33-54) for the rule "a|b": pages a
        and b are added at the end when they are missing, both looked up before either
        is added, and b's page becomes a successor of a's. The rules gain exactly
        "a|b"; a page number is created at most once, except by a rule "a|a" on a new
        page, which adds two pages numbered a. */
    method ParsePageOrderingRule(a: nat, b: nat)
      requires Valid()
      modifies this
      ensures Valid()
      ensures |pages| == |old(pages)| + (if FindPage(old(pages), a).None? then 1 else 0)
                                     + (if FindPage(old(pages), b).None? then 1 else 0)
      ensures forall i :: 0 <= i < |old(pages)| ==> pages[i].number == old(pages)[i].number
      ensures forall n :: FindPage(pages, n).Some? <==> FindPage(old(pages), n).Some? || n == a || n == b
      ensures forall x, y :: HasRule(pages, x, y) <==> HasRule(old(pages), x, y) || (x == a && y == b)
      ensures DistinctNumbers(old(pages)) && (a != b || FindPage(old(pages), a).Some?) ==>
        DistinctNumbers(pages)
    {
      ghost var p0 := pages;
      var page := FindPage(pages, a);
      var pageS := FindPage(pages, b);
      var p: nat, ps: nat;
      if page.None? {
        p := |pages|;
        pages := pages + [Page(a, [])];
      } else {
        p := page.value;
      }
      if pageS.None? {
        ps := |pages|;
        pages := pages + [Page(b, [])];
      } else {
        ps := pageS.value;
      }
      pages := pages[p := pages[p].(successors := pages[p].successors + [ps])];
      AddRuleFacts(p0, pages, a, b, p, ps);
    }
  }

  /** The new page list of parse_page_ordering_rule, described by how it was built:
      the old pages, then the missing ones among a and b, then the successor ps
      appended to page p. */
  ghost predicate AddedRule(p0: seq<Page>, pages: seq<Page>, a: nat, b: nat, p: nat, ps: nat) {
    && |pages| == |p0| + (if FindPage(p0, a).None? then 1 else 0) + (if FindPage(p0, b).None? then 1 else 0)
    && p == (if FindPage(p0, a).Some? then FindPage(p0, a).value else |p0|)
    && ps == (if FindPage(p0, b).Some? then FindPage(p0, b).value
              else if FindPage(p0, a).Some? then |p0| else |p0| + 1)
    && (FindPage(p0, a).None? ==> pages[|p0|].number == a)
    && (FindPage(p0, b).None? ==> pages[ps].number == b)
    && (forall i :: 0 <= i < |p0| ==> pages[i].number == p0[i].number)
    && (forall i :: 0 <= i < |pages| && i != p ==>
          pages[i].successors == (if i < |p0| then p0[i].successors else []))
    && pages[p].successors == (if p < |p0| then p0[p].successors else []) + [ps]
  }

  lemma AddRuleFacts(p0: seq<Page>, pages: seq<Page>, a: nat, b: nat, p: nat, ps: nat)
    requires Linked(p0)
    requires AddedRule(p0, pages, a, b, p, ps)
    ensures Linked(pages)
    ensures forall n :: FindPage(pages, n).Some? <==> FindPage(p0, n).Some? || n == a || n == b
    ensures forall x, y :: HasRule(pages, x, y) <==> HasRule(p0, x, y) || (x == a && y == b)
    ensures DistinctNumbers(p0) && (a != b || FindPage(p0, a).Some?) ==> DistinctNumbers(pages)
  {
    AddRuleLinked(p0, pages, a, b, p, ps);
    AddRuleFind(p0, pages, a, b, p, ps);
    AddRuleDistinct(p0, pages, a, b, p, ps);
    forall x, y ensures HasRule(pages, x, y) <==> HasRule(p0, x, y) || (x == a && y == b) {
      RuleAfterAdd(p0, pages, a, b, p, ps, x, y);
    }
  }

  lemma AddRuleLinked(p0: seq<Page>, pages: seq<Page>, a: nat, b: nat, p: nat, ps: nat)
    requires Linked(p0)
    requires AddedRule(p0, pages, a, b, p, ps)
    ensures p < |pages| && ps < |pages| && pages[p].number == a && pages[ps].number == b
    ensures Linked(pages)
  {
  }

  lemma AddRuleFind(p0: seq<Page>, pages: seq<Page>, a: nat, b: nat, p: nat, ps: nat)
    requires Linked(p0)
    requires AddedRule(p0, pages, a, b, p, ps)
    ensures forall n :: FindPage(pages, n).Some? <==> FindPage(p0, n).Some? || n == a || n == b
    ensures FindPage(pages, a) == Some(p)
  {
    AddRuleLinked(p0, pages, a, b, p, ps);
    forall n ensures FindPage(pages, n).Some? <==> FindPage(p0, n).Some? || n == a || n == b {
      if FindPage(p0, n).Some? {
        assert pages[FindPage(p0, n).value].number == n;
      }
      var f := FindPage(pages, n);
      if f.Some? && f.value < |p0| {
        assert p0[f.value].number == n;
      }
    }
    var f := FindPage(pages, a);
    if f.Some? && f.value < |p0| {
      assert p0[f.value].number == a;
    }
  }

  lemma AddRuleDistinct(p0: seq<Page>, pages: seq<Page>, a: nat, b: nat, p: nat, ps: nat)
    requires Linked(p0)
    requires AddedRule(p0, pages, a, b, p, ps)
    ensures DistinctNumbers(p0) && (a != b || FindPage(p0, a).Some?) ==> DistinctNumbers(pages)
  {
  }

  /** The relation step of parse_page_ordering_rule: appending pages leaves the rules
      of the old pages as they were, and the one new successor adds the rule "a|b". */
  lemma RuleAfterAdd(p0: seq<Page>, pages: seq<Page>, a: nat, b: nat, p: nat, ps: nat, x: nat, y: nat)
    requires Linked(p0) && Linked(pages) && |p0| <= |pages|
    requires forall i :: 0 <= i < |p0| ==> pages[i].number == p0[i].number
    requires forall i :: 0 <= i < |p0| && i != p ==> pages[i] == p0[i]
    requires p < |pages| && ps < |pages| && pages[p].number == a && pages[ps].number == b
    requires FindPage(pages, a) == Some(p)
    requires p < |p0| ==> pages[p].successors == p0[p].successors + [ps]
    requires p >= |p0| ==> pages[p].successors == [ps]
    requires forall i :: |p0| <= i < |pages| && i != p ==> pages[i].successors == []
    ensures HasRule(pages, x, y) <==> HasRule(p0, x, y) || (x == a && y == b)
  {
    var f0 := FindPage(p0, x);
    if f0.Some? {
      var i := f0.value;
      assert FindPage(pages, x) == Some(i);
      FindSuccessorSameNumbers(p0, pages, p0[i].successors, y);
      if i == p {
        FindSuccessorAppend(pages, p0[i].successors, ps, y);
      }
    } else {
      var f := FindPage(pages, x);
      if f.Some? {
        assert f.value >= |p0|;
        if f.value != p {
          assert pages[f.value].successors == [];
        } else {
          assert FindSuccessor(pages, [ps], y).Some? <==> y == b;
        }
      }
    }
  }

  /** parse_update (2024/day5/day5.py:58-78): follows the successors from the first
      page, returning 0 as soon as a step is not a successor of the page before, and
      the middle step otherwise. */
  method ParseUpdate(rules: PageRules, steps: seq<nat>) returns (middle: nat)
    requires rules.Valid() && |steps| > 0
    ensures middle == UpdateValue(rules.pages, steps)
  {
    var pages := rules.pages;
    var currentPage := FindPage(pages, steps[0]);
    if currentPage.Some? {
      var cur: nat := currentPage.value;
      for k := 1 to |steps|
        invariant cur < |pages|
        invariant Walk(pages, currentPage.value, steps[1..]) == Walk(pages, cur, steps[k..])
      {
        assert steps[k..][1..] == steps[k + 1..];
        var newPage := FindSuccessor(pages, pages[cur].successors, steps[k]);
        if newPage.Some? {
          cur := newPage.value;
        } else {
          return 0;
        }
      }
    }
    middle := steps[|steps| / 2];
  }

  /** The for-loop of parse_incorrect_update (2024/day5/day5.py:86-92): one pass of
      adjacent swaps over steps, in place. */
  method SwapPass(rules: PageRules, steps: array<nat>)
    requires rules.Valid()
    modifies steps
    ensures steps[..] == PassFrom(rules.pages, old(steps[..]), 0)
  {
    var pages := rules.pages;
    if steps.Length < 2 {
      return;
    }
    for i := 0 to steps.Length - 1
      invariant PassFrom(pages, steps[..], i) == PassFrom(pages, old(steps[..]), 0)
    {
      SwapAt(rules, steps, i);
    }
  }

  /** One turn of that loop (2024/day5/day5.py:89-92): steps i and i + 1 swap when
      the rules make step i a successor of step i + 1. */
  method SwapAt(rules: PageRules, steps: array<nat>, i: nat)
    requires rules.Valid() && i + 1 < steps.Length
    modifies steps
    ensures PassFrom(rules.pages, steps[..], i + 1) == PassFrom(rules.pages, old(steps[..]), i)
  {
    var pages := rules.pages;
    ghost var s := steps[..];
    var page := FindPage(pages, steps[i + 1]);
    if page.Some? {
      if FindSuccessor(pages, pages[page.value].successors, steps[i]).Some? {
        assert HasRule(pages, steps[i + 1], steps[i]);
        steps[i + 1], steps[i] := steps[i], steps[i + 1];
        assert steps[..] == s[i := s[i + 1]][i + 1 := s[i]];
        return;
      }
    }
    assert !HasRule(pages, s[i + 1], s[i]);
  }

  /** The update after k passes of adjacent swaps. */
  function Passes(pages: seq<Page>, s: seq<nat>, k: nat): (r: seq<nat>)
    requires Linked(pages)
    ensures |r| == |s| && multiset(r) == multiset(s)
  {
    if k == 0 then s else PassFrom(pages, Passes(pages, s, k - 1), 0)
  }

  /** parse_incorrect_update (2024/day5/day5.py:82-95): passes of adjacent swaps until
      parse_update accepts the update, which then keeps the same pages and yields its
      middle one. At most maxPasses passes are made; None when they do not suffice. */
  method ParseIncorrectUpdate(rules: PageRules, steps: array<nat>, maxPasses: nat) returns (middle: Option<nat>)
    requires rules.Valid() && steps.Length > 0
    modifies steps
    ensures multiset(steps[..]) == multiset(old(steps[..]))
    ensures exists k: nat :: (k <= maxPasses && steps[..] == Passes(rules.pages, old(steps[..]), k) &&
      forall j :: 0 <= j < k ==> UpdateValue(rules.pages, Passes(rules.pages, old(steps[..]), j)) == 0)
    ensures middle.Some? ==> middle.value == UpdateValue(rules.pages, steps[..]) != 0
    ensures middle.None? ==> (steps[..] == Passes(rules.pages, old(steps[..]), maxPasses) &&
      UpdateValue(rules.pages, steps[..]) == 0)
  {
    ghost var s0 := steps[..];
    var passes := 0;
    var m := ParseUpdate(rules, steps[..]);
    while m == 0
      invariant passes <= maxPasses
      invariant m == UpdateValue(rules.pages, steps[..])
      invariant steps[..] == Passes(rules.pages, s0, passes)
      invariant forall j :: 0 <= j < passes ==> UpdateValue(rules.pages, Passes(rules.pages, s0, j)) == 0
      decreases maxPasses - passes
    {
      if passes == maxPasses {
        return None;
      }
      SwapPass(rules, steps);
      passes := passes + 1;
      m := ParseUpdate(rules, steps[..]);
    }
    middle := Some(steps[steps.Length / 2]);
  }
}
