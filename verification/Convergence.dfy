/** Adding events in any order leads to the same timeline. */
module Convergence {
  import opened EventGraph
  import opened Scuttlesort

  datatype Event = Event(name: Name, after: seq<Name>)

  /** A run of adds: every event once, and none with an empty name. */
  ghost predicate IsRun(xs: seq<Event>) {
    && (forall i :: 0 <= i < |xs| ==> xs[i].name != [])
    && (forall i, j :: 0 <= i < j < |xs| ==> xs[i].name != xs[j].name)
  }

  ghost function AddsOf(xs: seq<Event>): Adds {
    if xs == [] then map[] else AddsOf(xs[..|xs| - 1])[xs[|xs| - 1].name := xs[|xs| - 1].after]
  }

  lemma {:induction false} AddsOfAt(xs: seq<Event>, n: Name, a: seq<Name>)
    requires IsRun(xs)
    ensures n in AddsOf(xs) && AddsOf(xs)[n] == a <==> Event(n, a) in xs
    ensures n in AddsOf(xs) ==> exists i :: 0 <= i < |xs| && xs[i].name == n
  {
    if xs != [] {
      var front, last := xs[..|xs| - 1], xs[|xs| - 1];
      AddsOfAt(front, n, a);
      assert xs == front + [last];
      assert forall e :: e in xs <==> e in front || e == last;
      if n in AddsOf(front) {
        var i :| 0 <= i < |front| && front[i].name == n;
        assert xs[i].name == n;
      }
    }
  }

  /** The set of adds does not remember their order. */
  lemma SameAdds(xs: seq<Event>, ys: seq<Event>)
    requires IsRun(xs) && IsRun(ys) && forall e :: e in xs <==> e in ys
    ensures AddsOf(xs) == AddsOf(ys)
  {
    SubAdds(xs, ys);
    SubAdds(ys, xs);
  }

  lemma SubAdds(xs: seq<Event>, ys: seq<Event>)
    requires IsRun(xs) && IsRun(ys) && forall e :: e in xs ==> e in ys
    ensures forall n :: n in AddsOf(xs) ==> n in AddsOf(ys) && AddsOf(xs)[n] == AddsOf(ys)[n]
  {
    forall n | n in AddsOf(xs) ensures n in AddsOf(ys) && AddsOf(xs)[n] == AddsOf(ys)[n] {
      AddsOfAt(xs, n, AddsOf(xs)[n]);
      AddsOfAt(ys, n, AddsOf(xs)[n]);
    }
  }

  /** An event that names itself closes a cycle of its own. */
  lemma SelfIsCycle(d: Adds, nm: Name, after: seq<Name>)
    requires nm in after
    ensures HasCycle(d[nm := after])
  {
    assert [nm, nm][..1] == [nm];
    assert IsCycle(d[nm := after], [nm, nm]);
  }

  lemma PrefixAcyclic(xs: seq<Event>, i: nat)
    requires IsRun(xs) && !HasCycle(AddsOf(xs)) && i < |xs|
    ensures xs[i].name !in AddsOf(xs[..i]) && xs[i].name !in xs[i].after
    ensures AddsOf(xs[..i + 1]) == AddsOf(xs[..i])[xs[i].name := xs[i].after]
    ensures !HasCycle(AddsOf(xs[..i + 1]))
  {
    hide HasCycle;
    var pre := xs[..i + 1];
    assert pre[..i] == xs[..i];
    AddsOfAt(xs[..i], xs[i].name, []);
    SubAdds(pre, xs);
    SubsetAcyclic(AddsOf(pre), AddsOf(xs));
    if xs[i].name in xs[i].after {
      SelfIsCycle(AddsOf(xs[..i]), xs[i].name, xs[i].after);
    }
  }

  /** A timeline fed with the events of `xs`, none of which is refused. */
  method AddAll(xs: seq<Event>, notify: bool) returns (t: Timeline)
    requires IsRun(xs) && !HasCycle(AddsOf(xs))
    ensures fresh(t) && t.Valid() && t.adds == AddsOf(xs)
    ensures forall n :: n in t.linear ==> fresh(n)
  {
    hide HasCycle, Timeline.Repaired;
    t := new Timeline(notify);
    for i := 0 to |xs|
      invariant fresh(t) && t.Valid() && t.adds == AddsOf(xs[..i])
      invariant forall k :: 0 <= k < |t.linear| ==> fresh(t.linear[k])
    {
      PrefixAcyclic(xs, i);
      assert !SelfAfterKnown(t.adds, xs[i].name, xs[i].after) by {
        assert forall j :: 0 <= j <= |xs[i].after| ==> xs[i].name !in xs[i].after[j..];
      }
      ghost var before := t.linear;
      var r := t.Add(xs[i].name, xs[i].after);
      forall k | 0 <= k < |t.linear| ensures fresh(t.linear[k]) {
        assert t.linear[k] in t.linear;
      }
    }
    assert xs[..|xs|] == xs;
  }

  /** What an observer sees: the names in order, their ranks, and the tips. */
  method Observe(t: Timeline) returns (names: seq<Name>, ranks: seq<nat>, tips: set<Name>)
    requires t.Valid()
    ensures names == Names(t.linear) && tips == t.TipNames()
    ensures |ranks| == |names| && forall i :: 0 <= i < |names| ==> names[i] in t.Ranks() && ranks[i] == t.Ranks()[names[i]]
  {
    hide Timeline.Repaired, Timeline.Ranks;
    names, ranks, tips := Names(t.linear), [], set n | n in t.tips :: n.name;
    for i := 0 to |t.linear|
      invariant |ranks| == i && forall j :: 0 <= j < i ==> ranks[j] == t.linear[j].rank
    {
      ranks := ranks + [t.linear[i].rank];
    }
    forall i | 0 <= i < |names| ensures names[i] in t.Ranks() && ranks[i] == t.Ranks()[names[i]] {
      t.RanksAt(i);
    }
  }

  /** Convergence: the same acyclic events, added in any two orders, are seen in
      the same order, with the same ranks and the same tips. */
  method Converge(xs: seq<Event>, ys: seq<Event>, notify1: bool, notify2: bool)
    returns (names1: seq<Name>, ranks1: seq<nat>, tips1: set<Name>, names2: seq<Name>, ranks2: seq<nat>, tips2: set<Name>)
    requires IsRun(xs) && IsRun(ys) && (forall e :: e in xs <==> e in ys) && !HasCycle(AddsOf(xs))
    ensures names1 == names2 && ranks1 == ranks2 && tips1 == tips2
    ensures IsTimelineOf(AddsOf(xs), names1, ranks1, tips1)
  {
    hide HasCycle, Timeline.Repaired, IsTimeline;
    SameAdds(xs, ys);
    var t1 := AddAll(xs, notify1);
    var t2 := AddAll(ys, notify2);
    t1.ValidIsTimeline();
    t2.ValidIsTimeline();
    TimelineUnique(AddsOf(xs), Names(t1.linear), t1.Ranks(), t1.TipNames(), Names(t2.linear), t2.Ranks(), t2.TipNames());
    names1, ranks1, tips1 := Observe(t1);
    names2, ranks2, tips2 := Observe(t2);
  }

  ghost predicate IsTimelineOf(d: Adds, names: seq<Name>, ranks: seq<nat>, tips: set<Name>) {
    && |ranks| == |names|
    && exists rank :: IsTimeline(d, names, rank, tips) && forall i :: 0 <= i < |names| ==> names[i] in rank && ranks[i] == rank[names[i]]
  }

  /** The smallest such run: 'a', and then 'b' after 'a' and 'b'. */
  method NamesItself() returns (t: Timeline, ghost x: Node, ghost p: Node, ghost K: set<Node>)
    ensures x.name == [98] && p in K && x !in K && Known(p) in x.prev && t.NeverEnds(x, p, K + {x})
  {
    hide Timeline.NeverEnds, Timeline.Repaired, HasCycle;
    t := new Timeline(false);
    NoCauses([97]);
    var r := t.Add([97], []);
    forall k | 0 <= k < |t.linear| ensures fresh(t.linear[k]) {
      assert t.linear[k] in t.linear;
    }
    BehindItself([97], [98]);
    x, p, K := t.AddDiverges([98], [[97], [98]]);
  }

  lemma NoCauses(a: Name)
    ensures !HasCycle(map[a := []]) && !SelfAfterKnown(map[], a, [])
  {
    var adds: Adds := map[a := []];
    assert Increasing(adds, map[a := 0]);
    IncreasingIsAcyclic(adds, map[a := 0]);
  }

  lemma BehindItself(a: Name, b: Name)
    requires a != b
    ensures SelfAfterKnown(map[a := []], b, [a, b])
  {
    assert [a, b][0..][1] == b;
  }
}
