/** The pure side of the event timeline: names, the graph that a set of `add`
    calls describes, and what it means for a list of names to be its timeline.
    Nothing here mentions lists that are repaired in place. */
module EventGraph {
  import opened Basics

  /** JavaScript strings: UTF-16 code units, compared lexicographically. */
  type CodeUnit = x: int | 0 <= x < 0x1_0000
  type Name = seq<CodeUnit>

  /** The order of the timeline: by rank, then by name. */
  predicate KeyLess(r1: int, n1: Name, r2: int, n2: Name) {
    r1 < r2 || (r1 == r2 && Less(n1, n2))
  }

  lemma KeyTransitive(r1: int, n1: Name, r2: int, n2: Name, r3: int, n3: Name)
    requires KeyLess(r1, n1, r2, n2) && KeyLess(r2, n2, r3, n3)
    ensures KeyLess(r1, n1, r3, n3)
  {
    if r1 == r2 == r3 {
      LessTransitive(n1, n2, n3);
    }
  }

  lemma KeyAsymmetric(r1: int, n1: Name, r2: int, n2: Name)
    requires KeyLess(r1, n1, r2, n2)
    ensures !KeyLess(r2, n2, r1, n1)
  {
    if KeyLess(r2, n2, r1, n1) {
      KeyTransitive(r1, n1, r2, n2, r1, n1);
      LessIrreflexive(n1);
    }
  }

  // ---------------------------------------------------------------- graph

  /** What has been added so far: each event with the causes it named. */
  type Adds = map<Name, seq<Name>>

  /** `c` is a known cause of the known event `e`. */
  predicate Edge(d: Adds, c: Name, e: Name) {
    e in d && c in d && c in d[e]
  }

  /** A chain of known events, each a cause of the next. */
  predicate Chain(d: Adds, ch: seq<Name>) {
    ch == [] ||
    var last := ch[|ch| - 1];
    last in d && (|ch| > 1 ==> Edge(d, ch[|ch| - 2], last)) && Chain(d, ch[..|ch| - 1])
  }

  predicate IsCycle(d: Adds, ch: seq<Name>) {
    |ch| >= 2 && Chain(d, ch) && ch[0] == ch[|ch| - 1]
  }

  ghost predicate HasCycle(d: Adds) {
    exists ch :: IsCycle(d, ch)
  }

  /** `r` is the number of edges of a longest chain of known causes ending in `n`. */
  ghost predicate IsLongest(d: Adds, n: Name, r: nat) {
    && (exists ch :: ChainTo(d, ch, n) && |ch| == r + 1)
    && (forall ch :: ChainTo(d, ch, n) ==> |ch| <= r + 1)
  }

  predicate ChainTo(d: Adds, ch: seq<Name>, n: Name) {
    ch != [] && Chain(d, ch) && ch[|ch| - 1] == n
  }

  /** Every effect outranks its causes. */
  ghost predicate Increasing(d: Adds, rank: map<Name, nat>) {
    && rank.Keys == d.Keys
    && (forall c, e :: Edge(d, c, e) ==> rank[c] < rank[e])
  }

  /** No rank is larger than some edge demands. */
  ghost predicate Tight(d: Adds, rank: map<Name, nat>) {
    && rank.Keys == d.Keys
    && (forall e {:trigger TightAt(d, rank, e)} :: e in d ==> TightAt(d, rank, e))
  }

  ghost predicate TightAt(d: Adds, rank: map<Name, nat>, e: Name)
    requires rank.Keys == d.Keys && e in d
  {
    rank[e] == 0 || exists c :: Edge(d, c, e) && rank[e] == rank[c] + 1
  }

  lemma {:induction false} ChainBelowRank(d: Adds, rank: map<Name, nat>, ch: seq<Name>)
    requires Increasing(d, rank) && ch != [] && Chain(d, ch)
    ensures ch[0] in d && rank[ch[|ch| - 1]] >= rank[ch[0]] + |ch| - 1
  {
    if |ch| > 1 {
      ChainBelowRank(d, rank, ch[..|ch| - 1]);
    }
  }

  /** A ranking that grows along every edge rules cycles out. */
  lemma IncreasingIsAcyclic(d: Adds, rank: map<Name, nat>)
    requires Increasing(d, rank)
    ensures !HasCycle(d)
  {
    if HasCycle(d) {
      var ch :| IsCycle(d, ch);
      ChainBelowRank(d, rank, ch);
    }
  }

  lemma {:induction false} TightChain(d: Adds, rank: map<Name, nat>, n: Name) returns (ch: seq<Name>)
    requires Tight(d, rank) && n in d
    ensures ChainTo(d, ch, n) && |ch| == rank[n] + 1
    decreases rank[n]
  {
    assert TightAt(d, rank, n);
    if rank[n] == 0 {
      ch := [n];
    } else {
      var c :| Edge(d, c, n) && rank[n] == rank[c] + 1;
      var front := TightChain(d, rank, c);
      ch := front + [n];
      assert ch[..|ch| - 1] == front;
    }
  }

  /** Increasing and tight ranks are the lengths of the longest causal chains:
      a local property pins down a global one. */
  lemma RankIsLongest(d: Adds, rank: map<Name, nat>, n: Name)
    requires Increasing(d, rank) && Tight(d, rank) && n in d
    ensures IsLongest(d, n, rank[n])
  {
    var ch := TightChain(d, rank, n);
    forall ch | ChainTo(d, ch, n)
      ensures |ch| <= rank[n] + 1
    {
      ChainBelowRank(d, rank, ch);
    }
  }

  /** An event `nm` that names a known cause first, and then itself. */
  predicate SelfAfterKnown(d: Adds, nm: Name, after: seq<Name>) {
    exists j :: 0 <= j < |after| && after[j] in d && nm !in after[..j] && nm in after[j..]
  }

  // ---------------------------------------------------------- the timeline

  predicate StrictlySorted(names: seq<Name>, rank: map<Name, nat>) {
    && (forall i :: 0 <= i < |names| ==> names[i] in rank)
    && (forall i, j :: 0 <= i < j < |names| ==> KeyLess(rank[names[i]], names[i], rank[names[j]], names[j]))
  }

  /** The timeline of `d`: all known events, sorted by (longest chain of known
      causes, name), and as tips the events without a known effect. */
  ghost predicate IsTimeline(d: Adds, names: seq<Name>, rank: map<Name, nat>, tips: set<Name>) {
    && (forall n :: n in names <==> n in d)
    && rank.Keys == d.Keys
    && (forall n {:trigger IsLongest(d, n, rank[n])} :: n in d ==> IsLongest(d, n, rank[n]))
    && StrictlySorted(names, rank)
    && (forall t {:trigger HasEffect(d, t)} {:trigger t in tips} :: t in tips <==> t in d && !HasEffect(d, t))
  }

  ghost predicate HasEffect(d: Adds, c: Name) {
    exists e :: Edge(d, c, e)
  }

  lemma {:induction false} SortedUnique(a: seq<Name>, b: seq<Name>, rank: map<Name, nat>)
    requires StrictlySorted(a, rank) && StrictlySorted(b, rank)
    requires forall n :: n in a <==> n in b
    ensures a == b
  {
    if a == [] || b == [] {
      SameEmptiness(a, b);
    } else {
      SameHead(a, b, rank);
      forall n ensures n in a[1..] <==> n in b[1..] {
        LessIrreflexive(a[0]);
        assert n in a <==> n == a[0] || n in a[1..];
        assert n in b <==> n == b[0] || n in b[1..];
      }
      SortedUnique(a[1..], b[1..], rank);
      assert a == [a[0]] + a[1..] && b == [b[0]] + b[1..];
    }
  }

  lemma SameEmptiness(a: seq<Name>, b: seq<Name>)
    requires forall n :: n in a <==> n in b
    ensures |a| == 0 <==> |b| == 0
  {
    assert |a| > 0 ==> a[0] in b;
    assert |b| > 0 ==> b[0] in a;
  }

  lemma SameHead(a: seq<Name>, b: seq<Name>, rank: map<Name, nat>)
    requires StrictlySorted(a, rank) && StrictlySorted(b, rank) && a != [] && b != []
    requires forall n :: n in a <==> n in b
    ensures a[0] == b[0]
  {
    assert a[0] in a && b[0] in b;
    var i :| 0 <= i < |b| && b[i] == a[0];
    var j :| 0 <= j < |a| && a[j] == b[0];
    if i > 0 && j > 0 {
      KeyAsymmetric(rank[a[0]], a[0], rank[b[0]], b[0]);
    }
  }

  /** The timeline is a function of the set of adds: nothing in it can depend
      on the order in which the adds were made. */
  lemma TimelineUnique(d: Adds, names1: seq<Name>, rank1: map<Name, nat>, tips1: set<Name>,
                       names2: seq<Name>, rank2: map<Name, nat>, tips2: set<Name>)
    requires IsTimeline(d, names1, rank1, tips1) && IsTimeline(d, names2, rank2, tips2)
    ensures names1 == names2 && rank1 == rank2 && tips1 == tips2
  {
    forall n | n in d ensures rank1[n] == rank2[n] {
      LongestUnique(d, n, rank1[n], rank2[n]);
    }
    assert rank1 == rank2;
    SortedUnique(names1, names2, rank1);
    assert tips1 == tips2;
  }

  lemma LongestUnique(d: Adds, n: Name, r1: nat, r2: nat)
    requires IsLongest(d, n, r1) && IsLongest(d, n, r2)
    ensures r1 == r2
  {
    var ch1 :| ChainTo(d, ch1, n) && |ch1| == r1 + 1;
    var ch2 :| ChainTo(d, ch2, n) && |ch2| == r2 + 1;
  }

  /** In a timeline every known cause stands before its effects. */
  lemma CausesPrecede(d: Adds, names: seq<Name>, rank: map<Name, nat>, tips: set<Name>, i: nat, j: nat)
    requires IsTimeline(d, names, rank, tips) && i < |names| && j < |names|
    requires Edge(d, names[i], names[j])
    ensures i < j
  {
    EdgeRaisesLongest(d, names[i], rank[names[i]], names[j], rank[names[j]]);
    if j < i {
      KeyAsymmetric(rank[names[j]], names[j], rank[names[i]], names[i]);
    }
  }

  lemma EdgeRaisesLongest(d: Adds, c: Name, rc: nat, e: Name, re: nat)
    requires IsLongest(d, c, rc) && IsLongest(d, e, re) && Edge(d, c, e)
    ensures rc < re
  {
    var ch :| ChainTo(d, ch, c) && |ch| == rc + 1;
    assert (ch + [e])[..|ch|] == ch;
    assert ChainTo(d, ch + [e], e);
  }

  lemma {:induction false} ChainInSuperset(small: Adds, big: Adds, ch: seq<Name>)
    requires small.Keys <= big.Keys && (forall n :: n in small ==> small[n] == big[n])
    requires Chain(small, ch)
    ensures Chain(big, ch)
  {
    if ch != [] {
      ChainInSuperset(small, big, ch[..|ch| - 1]);
    }
  }

  /** Leaving events out of an acyclic set of adds leaves it acyclic. */
  lemma SubsetAcyclic(small: Adds, big: Adds)
    requires small.Keys <= big.Keys && (forall n :: n in small ==> small[n] == big[n])
    requires !HasCycle(big)
    ensures !HasCycle(small)
  {
    forall ch | IsCycle(small, ch)
      ensures IsCycle(big, ch)
    {
      ChainInSuperset(small, big, ch);
    }
  }
}
