/** A timeline as JSON data, and the timeline built from it again. */
module Persistence {
  import opened Basics
  import opened EventGraph
  import opened Scuttlesort
  import Wave

  datatype NodeJson = NodeJson(name: Name, cycl: bool, indx: int, rank: nat, vstd: bool, prev: seq<Name>, succ: seq<Name>)
  datatype TimelineJson = TimelineJson(cmds: seq<Cmd>, linear: seq<NodeJson>, notify: bool, pending: map<Name, seq<Name>>, tips: set<Name>)

  // ------------------------------------------------- what the data must say

  /** Event `j` of the list is named as a cause by event `k`. */
  predicate Causes(l: seq<NodeJson>, j: nat, k: nat) {
    j < |l| && k < |l| && l[j].name in l[k].prev
  }

  predicate IsName(l: seq<NodeJson>, c: Name) {
    exists j :: 0 <= j < |l| && l[j].name == c
  }

  ghost predicate Waits(l: seq<NodeJson>, k: nat, c: Name) {
    k < |l| && c in l[k].prev && !IsName(l, c)
  }

  /** The list of events is in order, causes first. */
  ghost predicate InOrder(l: seq<NodeJson>) {
    && (forall k :: 0 <= k < |l| ==> l[k].name != [] && l[k].indx == k && !l[k].cycl)
    && (forall j, k :: 0 <= j < k < |l| ==> l[j].name != l[k].name && KeyLess(l[j].rank, l[j].name, l[k].rank, l[k].name))
    && (forall j: nat, k: nat {:trigger Causes(l, j, k)} :: Causes(l, j, k) ==> j < k && l[j].rank < l[k].rank)
    && (forall k {:trigger Tight(l, k)} :: 0 <= k < |l| ==> Tight(l, k))
  }

  ghost predicate Tight(l: seq<NodeJson>, k: nat)
    requires k < |l|
  {
    l[k].rank == 0 || exists j: nat :: Causes(l, j, k) && l[k].rank == l[j].rank + 1
  }

  ghost predicate PendingSays(l: seq<NodeJson>, pending: map<Name, seq<Name>>) {
    && (forall c, n :: c in pending && n in pending[c] ==> exists k :: 0 <= k < |l| && l[k].name == n && Waits(l, k, c))
    && (forall c :: c in pending ==> pending[c] != [])
    && (forall k: nat, c {:trigger Waits(l, k, c)} :: Waits(l, k, c) ==> c in pending && l[k].name in pending[c])
  }

  ghost predicate TipsSay(l: seq<NodeJson>, tips: set<Name>) {
    && (forall n :: n in tips ==> IsName(l, n))
    && (forall j :: 0 <= j < |l| ==> (l[j].name in tips <==> forall k :: 0 <= k < |l| ==> !Causes(l, j, k)))
  }

  ghost predicate Faithful(j: TimelineJson) {
    InOrder(j.linear) && PendingSays(j.linear, j.pending) && TipsSay(j.linear, j.tips)
  }

  /** The adds that the list of events stands for. */
  ghost function AddsIn(l: seq<NodeJson>): Adds
    requires forall j, k :: 0 <= j < k < |l| ==> l[j].name != l[k].name
  {
    map n | n in (set k | 0 <= k < |l| :: l[k].name) :: l[IndexOf(l, n)].prev
  }

  function IndexOf(l: seq<NodeJson>, n: Name): (k: nat)
    requires IsName(l, n)
    ensures k < |l| && l[k].name == n
  {
    if l[0].name == n then 0 else 1 + IndexOf(l[1..], n)
  }

  // ------------------------------------------------------ building the nodes

  /** The first node with a name. */
  function Find(nodes: seq<Node>, n: Name): (r: Option<nat>)
    ensures r.Some? ==> r.value < |nodes| && nodes[r.value].name == n
    ensures r == None ==> forall j :: 0 <= j < |nodes| ==> nodes[j].name != n
  {
    if nodes == [] then None
    else if nodes[0].name == n then Some(0)
    else
      match Find(nodes[1..], n)
      case None => None
      case Some(k) => Some(k + 1)
  }

  function RefTo(nodes: seq<Node>, n: Name): Ref {
    match Find(nodes, n)
    case None => Unknown(n)
    case Some(k) => Known(nodes[k])
  }

  ghost predicate NodeIs(x: Node, r: NodeJson, before: seq<Node>)
    reads x`indx, x`rank, x`cycl, x`vstd, x`prev
  {
    && x.name == r.name && x.indx == r.indx && x.rank == r.rank && x.cycl == r.cycl && x.vstd == r.vstd
    && |x.prev| == |r.prev| && forall i :: 0 <= i < |r.prev| ==> x.prev[i] == RefTo(before, r.prev[i])
  }

  /** The nodes of the events so far, and the edges between them in both directions. */
  ghost predicate Built(nodes: seq<Node>, l: seq<NodeJson>)
    reads nodes
  {
    && |nodes| <= |l| && (forall i, j :: 0 <= i < j < |nodes| ==> nodes[i] != nodes[j])
    && (forall k :: 0 <= k < |nodes| ==> NodeIs(nodes[k], l[k], nodes[..k]))
    && Inverse(nodes, nodes)
  }

  /** The effects of `nodes` are those among `pool` that refer to them, as often as they
      do. */
  ghost predicate Inverse(nodes: seq<Node>, pool: seq<Node>)
    reads nodes`succ, nodes`prev, pool`prev
  {
    && (forall n, s :: n in nodes && s in n.succ ==> s in pool)
    && (forall n, s {:trigger EdgeCount(n, s)} :: n in nodes && s in pool ==> EdgeCount(n, s))
  }

  method BuildNodes(l: seq<NodeJson>) returns (nodes: seq<Node>)
    ensures |nodes| == |l| && Built(nodes, l) && forall n :: n in nodes ==> fresh(n)
  {
    nodes := [];
    for k := 0 to |l|
      invariant |nodes| == k && Built(nodes, l) && forall n :: n in nodes ==> fresh(n)
    {
      var x := AddNode(nodes, l, k);
      nodes := nodes + [x];
    }
  }

  method AddNode(nodes: seq<Node>, l: seq<NodeJson>, k: nat) returns (x: Node)
    requires k < |l| && |nodes| == k && Built(nodes, l)
    modifies set n | n in nodes :: n`succ
    ensures fresh(x) && Built(nodes + [x], l)
  {
    hide NodeIs, Inverse;
    x := CreateSortNode(l[k], nodes);
    LinkBack(x, nodes, l[k]);
    ghost var more := nodes + [x];
    NoForwardRefs(nodes, x, l);
    InverseGrows(nodes, x);
    forall i | 0 <= i < |more| ensures NodeIs(more[i], l[i], more[..i]) {
      assert more[..i] == nodes[..i];
      assert i == k ==> nodes[..i] == nodes;
    }
  }

  lemma InverseGrows(nodes: seq<Node>, x: Node)
    requires Inverse(nodes, nodes + [x]) && x.succ == [] && forall s :: s in nodes || s == x ==> Known(x) !in s.prev
    ensures Inverse(nodes + [x], nodes + [x])
  {
    assert forall n :: n in nodes + [x] <==> n in nodes || n == x;
    forall n, s | n in nodes + [x] && s in nodes + [x] ensures EdgeCount(n, s) {
      if n == x {
        CountsNone(s.prev, x);
      }
    }
  }

  /** A node as the data describes it, with the causes found so far. */
  method CreateSortNode(r: NodeJson, nodes: seq<Node>) returns (x: Node)
    ensures fresh(x) && NodeIs(x, r, nodes) && x.succ == []
  {
    x := new Node(r.name, []);
    x.prev := seq(|r.prev|, i requires 0 <= i < |r.prev| => RefTo(nodes, r.prev[i]));
    x.cycl, x.indx, x.rank, x.vstd := r.cycl, r.indx, r.rank, r.vstd;
  }

  method LinkBack(x: Node, nodes: seq<Node>, ghost r: NodeJson)
    requires x !in nodes && NodeIs(x, r, nodes) && Inverse(nodes, nodes)
    modifies set n | n in nodes :: n`succ
    ensures Inverse(nodes, nodes + [x])
  {
    hide NodeIs, EdgeCount;
    RefsInside(x, r, nodes);
    NoneYet(x, nodes);
    for i := 0 to |x.prev|
      invariant UpTo(x, nodes, i)
    {
      LinkOne(x, nodes, i);
    }
    AllLinked(x, nodes);
  }

  /** The first `i` references of `x` have been answered. */
  ghost predicate UpTo(x: Node, nodes: seq<Node>, i: nat)
    reads nodes`succ, nodes`prev, x`prev
  {
    && i <= |x.prev| && x !in nodes
    && (forall k :: 0 <= k < |x.prev| && x.prev[k].Known? ==> x.prev[k].node in nodes)
    && (forall n, s :: n in nodes && s in n.succ ==> s in nodes || s == x)
    && (forall n, s {:trigger EdgeCount(n, s)} :: n in nodes && s in nodes ==> EdgeCount(n, s))
    && (forall n :: n in nodes ==> multiset(n.succ)[x] == multiset(x.prev[..i])[Known(n)])
  }

  lemma NoneYet(x: Node, nodes: seq<Node>)
    requires x !in nodes && Inverse(nodes, nodes) && forall n :: Known(n) in x.prev ==> n in nodes
    ensures UpTo(x, nodes, 0)
  {
    forall k | 0 <= k < |x.prev| && x.prev[k].Known? ensures x.prev[k].node in nodes {
      assert x.prev[k] in x.prev;
    }
    forall n | n in nodes ensures multiset(n.succ)[x] == 0 {
      assert x in n.succ <==> multiset(n.succ)[x] > 0;
    }
  }

  method LinkOne(x: Node, nodes: seq<Node>, i: nat)
    requires i < |x.prev| && UpTo(x, nodes, i)
    modifies set n | n in nodes :: n`succ
    ensures UpTo(x, nodes, i + 1)
  {
    assert x.prev[..i + 1] == x.prev[..i] + [x.prev[i]];
    if x.prev[i].Known? {
      var p := x.prev[i].node;
      p.succ := p.succ + [x];
      forall n, s | n in nodes && s in nodes ensures EdgeCount(n, s) {
        assert old(EdgeCount(n, s));
      }
    }
  }

  lemma AllLinked(x: Node, nodes: seq<Node>)
    requires UpTo(x, nodes, |x.prev|)
    ensures Inverse(nodes, nodes + [x])
  {
    assert x.prev[..|x.prev|] == x.prev;
  }

  /** References lead to earlier nodes only. */
  lemma NoForwardRefs(nodes: seq<Node>, x: Node, l: seq<NodeJson>)
    requires x !in nodes && |nodes| < |l| && forall k :: 0 <= k < |nodes| ==> NodeIs(nodes[k], l[k], nodes[..k])
    requires NodeIs(x, l[|nodes|], nodes)
    ensures forall s :: s in nodes || s == x ==> Known(x) !in s.prev
  {
    forall s | s in nodes || s == x ensures Known(x) !in s.prev {
      if s == x {
        RefsInside(x, l[|nodes|], nodes);
      } else {
        var k :| 0 <= k < |nodes| && nodes[k] == s;
        RefsInside(s, l[k], nodes[..k]);
      }
    }
  }

  lemma RefsInside(x: Node, r: NodeJson, before: seq<Node>)
    requires NodeIs(x, r, before)
    ensures forall n :: Known(n) in x.prev ==> n in before
  {
  }

  // -------------------------------------------------- the timeline again

  /** The nodes of which names are listed. */
  function FoundAll(nodes: seq<Node>, names: seq<Name>): seq<Node> {
    if names == [] then []
    else
      match Find(nodes, names[0])
      case None => FoundAll(nodes, names[1..])
      case Some(k) => [nodes[k]] + FoundAll(nodes, names[1..])
  }

  lemma {:induction false} FoundAllMembers(nodes: seq<Node>, names: seq<Name>)
    requires forall i, j :: 0 <= i < j < |nodes| ==> nodes[i].name != nodes[j].name
    ensures forall k {:trigger nodes[k]} :: 0 <= k < |nodes| ==> (nodes[k] in FoundAll(nodes, names) <==> nodes[k].name in names)
    ensures forall n :: n in FoundAll(nodes, names) ==> n in nodes
  {
    if names != [] {
      FoundAllMembers(nodes, names[1..]);
      assert forall n :: n in names <==> n == names[0] || n in names[1..];
    }
  }

  predicate Distinct(nodes: seq<Node>) {
    forall i, j :: 0 <= i < j < |nodes| ==> nodes[i].name != nodes[j].name
  }

  lemma FindAt(nodes: seq<Node>, k: nat, j: nat)
    requires Distinct(nodes) && j < k <= |nodes|
    ensures Find(nodes[..k], nodes[j].name) == Some(j)
  {
    assert nodes[..k][j] == nodes[j];
  }

  lemma FindNot(nodes: seq<Node>, k: nat, n: Name)
    requires k <= |nodes| && forall j :: 0 <= j < k ==> nodes[j].name != n
    ensures Find(nodes[..k], n) == None
  {
  }

  /** What the references of the built nodes are. */
  lemma RefsMean(nodes: seq<Node>, l: seq<NodeJson>, k: nat, i: nat)
    requires |nodes| == |l| && Built(nodes, l) && InOrder(l) && k < |l| && i < |l[k].prev|
    ensures |nodes[k].prev| == |l[k].prev|
    ensures var c := l[k].prev[i];
      if IsName(l, c) then IndexOf(l, c) < k && nodes[k].prev[i] == Known(nodes[IndexOf(l, c)]) else nodes[k].prev[i] == Unknown(c)
  {
    var c := l[k].prev[i];
    assert NodeIs(nodes[k], l[k], nodes[..k]);
    NamesAgree(nodes, l);
    if IsName(l, c) {
      assert Causes(l, IndexOf(l, c), k);
      FindAt(nodes, k, IndexOf(l, c));
    } else {
      FindNot(nodes, k, c);
    }
  }

  lemma NamesAgree(nodes: seq<Node>, l: seq<NodeJson>)
    requires |nodes| == |l| && Built(nodes, l) && InOrder(l)
    ensures Distinct(nodes) && forall k {:trigger nodes[k]} {:trigger l[k]} :: 0 <= k < |l| ==>
      nodes[k].name == l[k].name && nodes[k].rank == l[k].rank && nodes[k].indx == k && !nodes[k].cycl && |nodes[k].prev| == |l[k].prev|
  {
    forall k {:trigger nodes[k]} {:trigger l[k]} | 0 <= k < |l| ensures NodeIs(nodes[k], l[k], nodes[..k]) {
    }
  }

  lemma KnownMeans(nodes: seq<Node>, l: seq<NodeJson>, j: nat, k: nat)
    requires |nodes| == |l| && Built(nodes, l) && InOrder(l) && j < |l| && k < |l|
    ensures Known(nodes[j]) in nodes[k].prev <==> Causes(l, j, k)
  {
    NamesAgree(nodes, l);
    if Known(nodes[j]) in nodes[k].prev {
      var i :| 0 <= i < |nodes[k].prev| && nodes[k].prev[i] == Known(nodes[j]);
      RefsMean(nodes, l, k, i);
    }
    if Causes(l, j, k) {
      var i :| 0 <= i < |l[k].prev| && l[k].prev[i] == l[j].name;
      RefsMean(nodes, l, k, i);
      assert IndexOf(l, l[j].name) == j;
    }
  }

  lemma UnknownMeans(nodes: seq<Node>, l: seq<NodeJson>, k: nat, c: Name)
    requires |nodes| == |l| && Built(nodes, l) && InOrder(l) && k < |l|
    ensures Unknown(c) in nodes[k].prev <==> Waits(l, k, c)
  {
    NamesAgree(nodes, l);
    if Unknown(c) in nodes[k].prev {
      var i :| 0 <= i < |nodes[k].prev| && nodes[k].prev[i] == Unknown(c);
      RefsMean(nodes, l, k, i);
    }
    if Waits(l, k, c) {
      var i :| 0 <= i < |l[k].prev| && l[k].prev[i] == c;
      RefsMean(nodes, l, k, i);
    }
  }

  ghost function NodeSet(nodes: seq<Node>): set<Node> {
    set n | n in nodes
  }

  function TipNodes(nodes: seq<Node>, tips: set<Name>): set<Node> {
    set n | n in nodes && n.name in tips
  }

  /** The fields of the new timeline. */
  ghost predicate Filled(u: Timeline, j: TimelineJson, nodes: seq<Node>)
    reads u, nodes
  {
    && |nodes| == |j.linear| && Built(nodes, j.linear) && InOrder(j.linear)
    && u.linear == nodes && u.adds == AddsIn(j.linear)
    && (forall nm :: nm in u.name2p <==> IsName(j.linear, nm))
    && (forall k {:trigger nodes[k]} :: 0 <= k < |nodes| ==> nodes[k].name in u.name2p && u.name2p[nodes[k].name] == nodes[k])
    && u.pending.Keys == j.pending.Keys && (forall c :: c in j.pending ==> u.pending[c] == FoundAll(nodes, j.pending[c]))
    && u.tips == TipNodes(nodes, j.tips)
  }

  lemma NodeAt(nodes: seq<Node>, n: Node) returns (k: nat)
    requires n in nodes
    ensures k < |nodes| && nodes[k] == n
  {
    k :| 0 <= k < |nodes| && nodes[k] == n;
  }

  lemma AddsInAt(l: seq<NodeJson>, k: nat)
    requires InOrder(l) && k < |l|
    ensures l[k].name in AddsIn(l) && AddsIn(l)[l[k].name] == l[k].prev
    ensures forall n :: n in AddsIn(l) <==> IsName(l, n)
  {
    assert IsName(l, l[k].name);
    assert IndexOf(l, l[k].name) == k;
  }

  lemma NamedAgain(u: Timeline, j: TimelineJson, nodes: seq<Node>)
    requires Filled(u, j, nodes)
    ensures u.Named(NodeSet(nodes))
  {
    hide Built, FoundAll, InOrder, IsName, AddsIn;
    NamesAgree(nodes, j.linear);
    KeysAre(j.linear);
    forall nm | nm in u.name2p ensures u.name2p[nm] in NodeSet(nodes) && u.name2p[nm].name == nm {
      var k := IndexOf(j.linear, nm);
      assert nodes[k].name == nm;
    }
    forall n | n in NodeSet(nodes) ensures n.name in u.name2p && u.name2p[n.name] == n && n.name != [] {
      var k := NodeAt(nodes, n);
      NotEmpty(j.linear, k);
    }
  }

  lemma NotEmpty(l: seq<NodeJson>, k: nat)
    requires InOrder(l) && k < |l|
    ensures l[k].name != []
  {
  }

  lemma KeysAre(l: seq<NodeJson>)
    requires InOrder(l)
    ensures forall n {:trigger n in AddsIn(l)} {:trigger IsName(l, n)} :: n in AddsIn(l) <==> IsName(l, n)
  {
    if l != [] {
      AddsInAt(l, 0);
    }
  }

  lemma RefsAgain(u: Timeline, j: TimelineJson, nodes: seq<Node>)
    requires Filled(u, j, nodes)
    ensures u.RefsOk(NodeSet(nodes), None)
  {
    var l := j.linear;
    NamesAgree(nodes, l);
    forall n | n in NodeSet(nodes) ensures n.name in u.adds && |n.prev| == |u.adds[n.name]| {
      var k := NodeAt(nodes, n);
      AddsInAt(l, k);
    }
    forall n, i | n in NodeSet(nodes) && 0 <= i < |n.prev|
      ensures u.RefOk(n, i, NodeSet(nodes), None) && (n.prev[i].Known? ==> n.prev[i].node in NodeSet(nodes)) && (n.prev[i].Unknown? ==> n.prev[i].name !in u.name2p)
    {
      OneRefAgain(u, j, nodes, n, i);
    }
  }

  lemma OneRefAgain(u: Timeline, j: TimelineJson, nodes: seq<Node>, n: Node, i: nat)
    requires Filled(u, j, nodes) && n in nodes && i < |n.prev| && n.name in u.adds && |n.prev| == |u.adds[n.name]|
    ensures u.RefOk(n, i, NodeSet(nodes), None)
    ensures match n.prev[i] case Known(p) => p in nodes case Unknown(c) => c !in u.name2p
  {
    var l := j.linear;
    NamesAgree(nodes, l);
    var k := NodeAt(nodes, n);
    AddsInAt(l, k);
    RefsMean(nodes, l, k, i);
  }

  lemma SuccAgain(u: Timeline, j: TimelineJson, nodes: seq<Node>)
    requires Filled(u, j, nodes)
    ensures u.SuccOk(NodeSet(nodes))
  {
    hide NodeIs, InOrder, FoundAll, AddsIn, Inverse;
    InverseMembers(nodes);
    CountsAgain(u, nodes);
    hide Timeline.EdgeCounts;
  }

  lemma InverseMembers(nodes: seq<Node>)
    requires Inverse(nodes, nodes)
    ensures forall p, s :: p in nodes && s in p.succ ==> s in nodes && Known(p) in s.prev
    ensures forall p, s :: p in nodes && s in nodes && Known(p) in s.prev ==> s in p.succ
  {
    hide EdgeCount;
    forall p, s | p in nodes && s in nodes ensures s in p.succ <==> Known(p) in s.prev {
      EdgeMembers(p, s);
    }
  }

  lemma CountsAgain(u: Timeline, nodes: seq<Node>)
    requires Inverse(nodes, nodes)
    ensures u.EdgeCounts(NodeSet(nodes))
  {
    hide EdgeCount;
  }

  lemma PendingAgain(u: Timeline, j: TimelineJson, nodes: seq<Node>)
    requires Filled(u, j, nodes) && PendingSays(j.linear, j.pending)
    ensures u.PendingOk(NodeSet(nodes), None)
  {
    hide Built, InOrder, FoundAll;
    var l := j.linear;
    NamesAgree(nodes, l);
    forall c, e | c in u.pending && e in u.pending[c] ensures e in NodeSet(nodes) && Awaits(e, c) {
      FoundAllMembers(nodes, j.pending[c]);
      var k := NodeAt(nodes, e);
      var k' :| 0 <= k' < |l| && l[k'].name == e.name && Waits(l, k', c);
      assert nodes[k'] == nodes[k];
      UnknownMeans(nodes, l, k, c);
    }
    forall c | c in u.pending ensures u.pending[c] != [] {
      FoundAllMembers(nodes, j.pending[c]);
      var n := j.pending[c][0];
      assert c in j.pending && n in j.pending[c];
      var k :| 0 <= k < |l| && l[k].name == n && Waits(l, k, c);
      assert nodes[k] in FoundAll(nodes, j.pending[c]);
    }
    forall e, c | e in NodeSet(nodes) && Awaits(e, c) ensures c in u.pending && e in u.pending[c] {
      var k := NodeAt(nodes, e);
      UnknownMeans(nodes, l, k, c);
      FoundAllMembers(nodes, j.pending[c]);
      assert nodes[k] in FoundAll(nodes, j.pending[c]);
    }
  }

  /** The effects of a node are those that the data says. */
  lemma EdgeMeans(nodes: seq<Node>, l: seq<NodeJson>, i: nat, k: nat)
    requires |nodes| == |l| && Built(nodes, l) && InOrder(l) && i < |l| && k < |l|
    ensures nodes[k] in nodes[i].succ <==> Causes(l, i, k)
  {
    hide InOrder, NodeIs, Causes, EdgeCount;
    KnownMeans(nodes, l, i, k);
    assert nodes[k] in nodes && nodes[i] in nodes;
    EdgeMembers(nodes[i], nodes[k]);
  }

  lemma SuccInside(nodes: seq<Node>, l: seq<NodeJson>, i: nat)
    requires Built(nodes, l) && i < |nodes|
    ensures forall s :: s in nodes[i].succ ==> s in nodes
  {
  }

  lemma TipsAgain(u: Timeline, j: TimelineJson, nodes: seq<Node>)
    requires Filled(u, j, nodes) && TipsSay(j.linear, j.tips)
    ensures u.TipsOk(NodeSet(nodes), null)
  {
    hide Built, InOrder, FoundAll, Causes;
    NamesAgree(nodes, j.linear);
    forall n | n in NodeSet(nodes) ensures n in u.tips <==> n.succ == [] {
      var i := NodeAt(nodes, n);
      TipMeans(nodes, j.linear, j.tips, i);
    }
  }

  lemma TipMeans(nodes: seq<Node>, l: seq<NodeJson>, tips: set<Name>, i: nat)
    requires |nodes| == |l| && Built(nodes, l) && InOrder(l) && TipsSay(l, tips) && i < |l|
    ensures l[i].name in tips <==> nodes[i].succ == []
  {
    hide Built, InOrder, Causes;
    if nodes[i].succ == [] {
      forall k | 0 <= k < |l| ensures !Causes(l, i, k) {
        EdgeMeans(nodes, l, i, k);
      }
    } else {
      SuccInside(nodes, l, i);
      var k := NodeAt(nodes, nodes[i].succ[0]);
      EdgeMeans(nodes, l, i, k);
    }
  }

  lemma RanksAgain(u: Timeline, j: TimelineJson, nodes: seq<Node>)
    requires Filled(u, j, nodes)
    ensures Wave.Ranked(SuccMap(NodeSet(nodes)), RankMap(NodeSet(nodes)))
  {
    var g, rank := SuccMap(NodeSet(nodes)), RankMap(NodeSet(nodes));
    hide Built, InOrder, FoundAll, Causes, Wave.TightAt;
    forall n, e | n in g && e in g[n] ensures e in g && rank[n] < rank[e] {
      EdgeClimbs(nodes, j.linear, n, e);
    }
    forall n {:trigger Wave.TightAt(g, rank, n)} | n in g ensures Wave.TightAt(g, rank, n) {
      TightAgain(nodes, j.linear, n);
    }
  }

  lemma EdgeClimbs(nodes: seq<Node>, l: seq<NodeJson>, n: Node, e: Node)
    requires |nodes| == |l| && Built(nodes, l) && InOrder(l) && n in nodes && e in n.succ
    ensures e in nodes && n.rank < e.rank
  {
    hide Built;
    NamesAgree(nodes, l);
    var i := NodeAt(nodes, n);
    SuccInside(nodes, l, i);
    var k := NodeAt(nodes, e);
    EdgeMeans(nodes, l, i, k);
  }

  lemma TightAgain(nodes: seq<Node>, l: seq<NodeJson>, n: Node)
    requires |nodes| == |l| && Built(nodes, l) && InOrder(l) && n in nodes
    ensures Wave.TightAt(SuccMap(NodeSet(nodes)), RankMap(NodeSet(nodes)), n)
  {
    hide Built, Causes;
    NamesAgree(nodes, l);
    var k := NodeAt(nodes, n);
    assert Tight(l, k);
    if l[k].rank != 0 {
      var i: nat :| Causes(l, i, k) && l[k].rank == l[i].rank + 1;
      assert i < |l| by { CausesInside(l, i, k); }
      EdgeMeans(nodes, l, i, k);
      var g, rank := SuccMap(NodeSet(nodes)), RankMap(NodeSet(nodes));
      assert nodes[i] in g && n in g[nodes[i]] && rank[n] == rank[nodes[i]] + 1;
    }
  }

  lemma CausesInside(l: seq<NodeJson>, i: nat, k: nat)
    requires Causes(l, i, k)
    ensures i < |l| && k < |l|
  {
  }

  lemma ListedAgain(u: Timeline, j: TimelineJson, nodes: seq<Node>)
    requires Filled(u, j, nodes)
    ensures u.Listed(NodeSet(nodes)) && u.NoMarks(NodeSet(nodes)) && SortedFrom(nodes, 0)
  {
    hide Built, FoundAll;
    NamesAgree(nodes, j.linear);
    forall n | n in NodeSet(nodes) ensures !n.cycl {
      var k := NodeAt(nodes, n);
    }
    forall p, q | 0 <= p < q < |nodes| ensures Before(nodes[p], nodes[q]) {
      assert KeyLess(j.linear[p].rank, j.linear[p].name, j.linear[q].rank, j.linear[q].name);
    }
  }

  /** The new timeline is a timeline. */
  lemma ValidAgain(u: Timeline, j: TimelineJson, nodes: seq<Node>)
    requires Filled(u, j, nodes) && Faithful(j)
    ensures u.Valid()
  {
    ListedAgain(u, j, nodes);
    NamedAgain(u, j, nodes);
    RefsAgain(u, j, nodes);
    SuccAgain(u, j, nodes);
    PendingAgain(u, j, nodes);
    TipsAgain(u, j, nodes);
    RanksAgain(u, j, nodes);
    hide Built, FoundAll, Timeline.Named, Timeline.RefsOk, Timeline.SuccOk, Timeline.PendingOk, Timeline.TipsOk, Wave.Ranked, Timeline.Listed, Timeline.NoMarks, SortedFrom;
    assert u.Nodes() == NodeSet(nodes);
  }

  method FromJSON(j: TimelineJson) returns (u: Timeline)
    ensures fresh(u) && forall n :: n in u.linear ==> fresh(n)
    ensures u.cmds == j.cmds && u.notify == j.notify
    ensures Faithful(j) ==> u.Valid() && Filled(u, j, u.linear)
  {
    hide Built, InOrder, FoundAll, PendingSays, TipsSay, AddsIn, Filled, Timeline.Valid;
    u := new Timeline(j.notify);
    var nodes := BuildNodes(j.linear);
    var byName := ByNameOf(nodes);
    ghost var adds := u.adds;
    if Faithful(j) {
      InOrderNames(j.linear);
      adds := AddsIn(j.linear);
    }
    Assign(u, nodes, byName, map c | c in j.pending :: FoundAll(nodes, j.pending[c]), j.cmds, TipNodes(nodes, j.tips), adds);
    if Faithful(j) {
      FillsIn(u, j, nodes);
      ValidAgain(u, j, nodes);
    }
  }

  method Assign(u: Timeline, nodes: seq<Node>, byName: map<Name, Node>, pending: map<Name, seq<Node>>, cmds: seq<Cmd>, tips: set<Node>, ghost adds: Adds)
    modifies u
    ensures u.linear == nodes && u.name2p == byName && u.pending == pending && u.cmds == cmds && u.tips == tips && u.adds == adds
    ensures u.notify == old(u.notify)
  {
    u.linear, u.name2p, u.pending, u.cmds, u.tips, u.adds := nodes, byName, pending, cmds, tips, adds;
  }

  lemma FillsIn(u: Timeline, j: TimelineJson, nodes: seq<Node>)
    requires |nodes| == |j.linear| && Built(nodes, j.linear) && InOrder(j.linear)
    requires u.linear == nodes && u.adds == AddsIn(j.linear) && u.name2p == ByName(nodes)
    requires u.pending == (map c | c in j.pending :: FoundAll(nodes, j.pending[c])) && u.tips == TipNodes(nodes, j.tips)
    ensures Filled(u, j, nodes)
  {
    hide Built, InOrder, FoundAll, AddsIn, ByName, IsName, TipNodes;
    ByNameMeans(nodes, j.linear);
  }

  lemma InOrderNames(l: seq<NodeJson>)
    requires InOrder(l)
    ensures forall j, k :: 0 <= j < k < |l| ==> l[j].name != l[k].name
  {
  }

  /** The index by name; a later node replaces an earlier one of the same name. */
  method ByNameOf(nodes: seq<Node>) returns (m: map<Name, Node>)
    ensures m == ByName(nodes)
  {
    m := map[];
    for k := 0 to |nodes|
      invariant m == ByName(nodes[..k])
    {
      assert nodes[..k + 1][..k] == nodes[..k];
      m := m[nodes[k].name := nodes[k]];
    }
    assert nodes[..|nodes|] == nodes;
  }

  function ByName(nodes: seq<Node>): map<Name, Node> {
    if nodes == [] then map[] else ByName(nodes[..|nodes| - 1])[nodes[|nodes| - 1].name := nodes[|nodes| - 1]]
  }

  lemma {:induction false} ByNameAll(nodes: seq<Node>)
    requires Distinct(nodes)
    ensures forall nm :: nm in ByName(nodes) <==> exists k :: 0 <= k < |nodes| && nodes[k].name == nm
    ensures forall k {:trigger nodes[k]} :: 0 <= k < |nodes| ==> nodes[k].name in ByName(nodes) && ByName(nodes)[nodes[k].name] == nodes[k]
  {
    if nodes != [] {
      var front := nodes[..|nodes| - 1];
      ByNameAll(front);
      forall nm | nm in ByName(nodes) ensures exists k :: 0 <= k < |nodes| && nodes[k].name == nm {
        if nm in ByName(front) {
          var k :| 0 <= k < |front| && front[k].name == nm;
          assert nodes[k].name == nm;
        } else {
          assert nodes[|nodes| - 1].name == nm;
        }
      }
      forall k {:trigger nodes[k]} | 0 <= k < |nodes| ensures nodes[k].name in ByName(nodes) && ByName(nodes)[nodes[k].name] == nodes[k] {
        if k < |nodes| - 1 {
          assert front[k] == nodes[k];
        }
      }
    }
  }

  lemma ByNameMeans(nodes: seq<Node>, l: seq<NodeJson>)
    requires |nodes| == |l| && Built(nodes, l) && InOrder(l)
    ensures forall nm {:trigger nm in ByName(nodes)} {:trigger IsName(l, nm)} :: nm in ByName(nodes) <==> IsName(l, nm)
    ensures forall k {:trigger nodes[k]} :: 0 <= k < |nodes| ==> nodes[k].name in ByName(nodes) && ByName(nodes)[nodes[k].name] == nodes[k]
  {
    hide Built, InOrder, ByName;
    NamesAgree(nodes, l);
    ByNameAll(nodes);
    forall nm ensures nm in ByName(nodes) <==> IsName(l, nm) {
      if nm in ByName(nodes) {
        var k :| 0 <= k < |nodes| && nodes[k].name == nm;
        assert l[k].name == nm;
      }
      if IsName(l, nm) {
        assert nodes[IndexOf(l, nm)].name == nm;
      }
    }
  }

  // ------------------------------------------------- the data of a timeline

  function RefName(r: Ref): Name {
    match r
    case Known(p) => p.name
    case Unknown(c) => c
  }

  function RefNames(prev: seq<Ref>): (names: seq<Name>)
    ensures |names| == |prev|
  {
    seq(|prev|, i requires 0 <= i < |prev| => RefName(prev[i]))
  }

  function NodeData(n: Node): NodeJson
    reads n
  {
    NodeJson(n.name, n.cycl, n.indx, n.rank, n.vstd, RefNames(n.prev), Names(n.succ))
  }

  function LinearData(s: seq<Node>): (l: seq<NodeJson>)
    reads s
    ensures |l| == |s|
  {
    seq(|s|, k requires 0 <= k < |s| reads s => NodeData(s[k]))
  }

  function DataOf(t: Timeline): TimelineJson
    reads t, t.linear
  {
    TimelineJson(t.cmds, LinearData(t.linear), t.notify, map c | c in t.pending :: Names(t.pending[c]), set n | n in t.tips :: n.name)
  }

  method ToJSON(t: Timeline) returns (j: TimelineJson)
    ensures j == DataOf(t)
  {
    j := DataOf(t);
  }

  /** The parts of a valid timeline that the data is made from. */
  lemma Parts(t: Timeline)
    requires t.Valid()
    ensures var K := t.Nodes();
      && t.Listed(K) && t.Named(K) && t.RefsOk(K, None) && t.SuccOk(K) && t.PendingOk(K, None) && t.TipsOk(K, null)
      && t.NoMarks(K) && SortedFrom(t.linear, 0) && Wave.Ranked(SuccMap(K), RankMap(K))
  {
  }

  lemma IsNameMeans(t: Timeline, c: Name)
    requires t.Named(t.Nodes())
    ensures IsName(LinearData(t.linear), c) <==> c in t.name2p
  {
    var l := LinearData(t.linear);
    if IsName(l, c) {
      var j :| 0 <= j < |l| && l[j].name == c;
      assert t.linear[j] in t.Nodes();
    }
    if c in t.name2p {
      var k := NodeAt(t.linear, t.name2p[c]);
      assert l[k].name == c;
    }
  }

  /** A cause in the data is a cause in the graph. */
  lemma RefData(t: Timeline, k: nat, i: nat)
    requires t.Named(t.Nodes()) && t.RefsOk(t.Nodes(), None) && k < |t.linear| && i < |t.linear[k].prev|
    ensures var n := t.linear[k];
      n.name in t.adds && |n.prev| == |t.adds[n.name]| && RefName(n.prev[i]) == t.adds[n.name][i]
      && (n.prev[i].Known? <==> RefName(n.prev[i]) in t.name2p)
      && (n.prev[i].Known? ==> n.prev[i].node in t.linear)
  {
    assert t.linear[k] in t.Nodes();
    assert t.RefOk(t.linear[k], i, t.Nodes(), None);
  }

  lemma CausesMeans(t: Timeline, j: nat, k: nat)
    requires t.Named(t.Nodes()) && t.RefsOk(t.Nodes(), None) && t.SuccOk(t.Nodes()) && j < |t.linear| && k < |t.linear|
    ensures Causes(LinearData(t.linear), j, k) <==> t.linear[k] in t.linear[j].succ
  {
    hide Timeline.RefsOk;
    var l, s := LinearData(t.linear), t.linear;
    assert s[j] in t.Nodes() && s[k] in t.Nodes();
    if Causes(l, j, k) {
      var i :| 0 <= i < |l[k].prev| && l[k].prev[i] == l[j].name;
      RefData(t, k, i);
      assert s[k].prev[i] == Known(s[j]);
      assert s[k].prev[i] in s[k].prev;
    }
    if s[k] in s[j].succ {
      var i :| 0 <= i < |s[k].prev| && s[k].prev[i] == Known(s[j]);
      assert l[k].prev[i] == l[j].name;
    }
  }

  lemma WaitsMeans(t: Timeline, k: nat, c: Name)
    requires t.Named(t.Nodes()) && t.RefsOk(t.Nodes(), None) && k < |t.linear|
    ensures Waits(LinearData(t.linear), k, c) <==> Awaits(t.linear[k], c)
  {
    hide Timeline.RefsOk;
    var l, s := LinearData(t.linear), t.linear;
    IsNameMeans(t, c);
    if Waits(l, k, c) {
      var i :| 0 <= i < |l[k].prev| && l[k].prev[i] == c;
      RefData(t, k, i);
      assert s[k].prev[i] == Unknown(c);
    }
    if Awaits(s[k], c) {
      var i :| 0 <= i < |s[k].prev| && s[k].prev[i] == Unknown(c);
      RefData(t, k, i);
      assert l[k].prev[i] == c;
    }
  }

  lemma DataInOrder(t: Timeline)
    requires t.Valid()
    ensures InOrder(LinearData(t.linear))
  {
    hide Timeline.Valid, Timeline.RefsOk, Timeline.SuccOk, Timeline.PendingOk, Timeline.TipsOk, Wave.Ranked, Causes;
    Parts(t);
    var l, s := LinearData(t.linear), t.linear;
    forall k | 0 <= k < |l| ensures l[k].name != [] && l[k].indx == k && !l[k].cycl && Tight(l, k) {
      assert s[k] in t.Nodes();
      DataTight(t, k);
    }
    forall j, k | 0 <= j < k < |l| ensures l[j].name != l[k].name && KeyLess(l[j].rank, l[j].name, l[k].rank, l[k].name) {
      assert Before(s[j], s[k]);
    }
    forall j: nat, k: nat {:trigger Causes(l, j, k)} | Causes(l, j, k) ensures j < k < |l| && l[j].rank < l[k].rank {
      CausesInside(l, j, k);
      DataClimbs(t, j, k);
      assert k < j ==> Before(s[k], s[j]);
    }
  }

  lemma DataClimbs(t: Timeline, j: nat, k: nat)
    requires t.Valid() && j < |t.linear| && k < |t.linear| && Causes(LinearData(t.linear), j, k)
    ensures t.linear[j].rank < t.linear[k].rank
  {
    hide Timeline.Valid, Timeline.RefsOk, Timeline.SuccOk, Timeline.PendingOk, Timeline.TipsOk, Causes, Timeline.Listed;
    Parts(t);
    CausesMeans(t, j, k);
    var K := t.Nodes();
    assert t.linear[j] in K && t.linear[k] in K;
    Wave.RankedEdge(SuccMap(K), RankMap(K), t.linear[j], t.linear[k]);
  }

  lemma DataTight(t: Timeline, k: nat)
    requires t.Valid() && k < |t.linear|
    ensures Tight(LinearData(t.linear), k)
  {
    hide Timeline.Valid, Timeline.RefsOk, Timeline.SuccOk, Timeline.PendingOk, Timeline.TipsOk, Causes, Timeline.Listed;
    Parts(t);
    var K, n := t.Nodes(), t.linear[k];
    assert n in K;
    assert Wave.TightAt(SuccMap(K), RankMap(K), n);
    if n.rank != 0 {
      var p :| p in SuccMap(K) && n in SuccMap(K)[p] && RankMap(K)[n] == RankMap(K)[p] + 1;
      var j := NodeAt(t.linear, p);
      CausesMeans(t, j, k);
    }
  }

  lemma DataPending(t: Timeline)
    requires t.Valid()
    ensures PendingSays(LinearData(t.linear), DataOf(t).pending)
  {
    hide Timeline.Valid, Timeline.RefsOk, Timeline.SuccOk, Timeline.TipsOk, Wave.Ranked, Timeline.Listed, Waits;
    Parts(t);
    var l, p := LinearData(t.linear), DataOf(t).pending;
    forall c, n | c in p && n in p[c] ensures exists k :: 0 <= k < |l| && l[k].name == n && Waits(l, k, c) {
      var i :| 0 <= i < |p[c]| && p[c][i] == n;
      var e := t.pending[c][i];
      assert e in t.pending[c];
      var k := NodeAt(t.linear, e);
      WaitsMeans(t, k, c);
      assert l[k].name == n;
    }
    forall k: nat, c {:trigger Waits(l, k, c)} | Waits(l, k, c) ensures c in p && k < |l| && l[k].name in p[c] {
      WaitsInside(l, k, c);
      WaitsMeans(t, k, c);
      assert t.linear[k] in t.Nodes();
      var i :| 0 <= i < |t.pending[c]| && t.pending[c][i] == t.linear[k];
      assert p[c][i] == l[k].name;
    }
  }

  lemma WaitsInside(l: seq<NodeJson>, k: nat, c: Name)
    requires Waits(l, k, c)
    ensures k < |l|
  {
  }

  lemma DataTips(t: Timeline)
    requires t.Valid()
    ensures TipsSay(LinearData(t.linear), DataOf(t).tips)
  {
    hide Timeline.Valid, Timeline.RefsOk, Timeline.PendingOk, Wave.Ranked, Causes;
    Parts(t);
    var l, tips := LinearData(t.linear), DataOf(t).tips;
    forall n | n in tips ensures IsName(l, n) {
      var x :| x in t.tips && x.name == n;
      var k := NodeAt(t.linear, x);
      assert l[k].name == n;
    }
    forall j | 0 <= j < |l| ensures l[j].name in tips <==> forall k :: 0 <= k < |l| ==> !Causes(l, j, k) {
      var x := t.linear[j];
      assert x in t.Nodes();
      assert l[j].name in tips <==> x in t.tips;
      forall k | 0 <= k < |l| ensures Causes(l, j, k) <==> t.linear[k] in x.succ {
        CausesMeans(t, j, k);
      }
      if x.succ != [] {
        assert x.succ[0] in x.succ;
        var k := NodeAt(t.linear, x.succ[0]);
        assert Causes(l, j, k);
      }
    }
  }

  /** A timeline's data is what it takes to build it again. */
  lemma DataFaithful(t: Timeline)
    requires t.Valid()
    ensures Faithful(DataOf(t)) && AddsIn(DataOf(t).linear) == t.adds
  {
    DataInOrder(t);
    DataPending(t);
    DataTips(t);
    DataAdds(t);
  }

  lemma DataAdds(t: Timeline)
    requires t.Valid() && InOrder(LinearData(t.linear))
    ensures AddsIn(LinearData(t.linear)) == t.adds
  {
    hide Timeline.Valid, Timeline.RefsOk, Timeline.PendingOk, Timeline.SuccOk, Timeline.TipsOk, Wave.Ranked, InOrder, AddsIn;
    Parts(t);
    var l := LinearData(t.linear);
    InOrderNames(l);
    var a := AddsIn(l);
    KeysAre(l);
    forall n ensures n in a <==> n in t.adds {
      IsNameMeans(t, n);
    }
    forall n | n in a ensures a[n] == t.adds[n] {
      var k := IndexOf(l, n);
      AddsInAt(l, k);
      PrevData(t, k);
    }
  }

  lemma PrevData(t: Timeline, k: nat)
    requires t.Named(t.Nodes()) && t.RefsOk(t.Nodes(), None) && k < |t.linear|
    ensures t.linear[k].name in t.adds && RefNames(t.linear[k].prev) == t.adds[t.linear[k].name]
  {
    assert t.linear[k] in t.Nodes();
    forall i | 0 <= i < |t.linear[k].prev| ensures RefNames(t.linear[k].prev)[i] == t.adds[t.linear[k].name][i] {
      RefData(t, k, i);
    }
  }

  lemma {:induction false} FoundAllNames(nodes: seq<Node>, names: seq<Name>)
    requires forall n :: n in names ==> Find(nodes, n).Some?
    ensures Names(FoundAll(nodes, names)) == names
  {
    if names != [] {
      FoundAllNames(nodes, names[1..]);
      assert names == [names[0]] + names[1..];
    }
  }

  lemma PendingKnown(l: seq<NodeJson>, pending: map<Name, seq<Name>>, nodes: seq<Node>, c: Name)
    requires |nodes| == |l| && Built(nodes, l) && InOrder(l) && PendingSays(l, pending) && c in pending
    ensures Names(FoundAll(nodes, pending[c])) == pending[c]
  {
    hide Built, InOrder, FoundAll, Waits;
    NamesAgree(nodes, l);
    forall n | n in pending[c] ensures Find(nodes, n).Some? {
      var k :| 0 <= k < |l| && l[k].name == n && Waits(l, k, c);
      assert nodes[k].name == n;
    }
    FoundAllNames(nodes, pending[c]);
  }

  /** What is built from the data of a timeline is equivalent to it. */
  lemma Equivalent(t: Timeline, u: Timeline)
    requires t.Valid() && u.Valid() && Filled(u, DataOf(t), u.linear)
    ensures u.adds == t.adds
    ensures Names(u.linear) == Names(t.linear) && u.Ranks() == t.Ranks() && u.TipNames() == t.TipNames()
    ensures u.pending.Keys == t.pending.Keys && forall c :: c in t.pending ==> Names(u.pending[c]) == Names(t.pending[c])
    ensures |u.linear| == |t.linear|
    ensures forall j: nat, k: nat {:trigger u.linear[j], t.linear[k]} :: j < |t.linear| && k < |t.linear| ==>
      multiset(u.linear[j].succ)[u.linear[k]] == multiset(t.linear[j].succ)[t.linear[k]]
  {
    hide Timeline.Valid, AddsIn, IsTimeline, Built, InOrder, FoundAll, Causes, PendingSays;
    DataFaithful(t);
    t.ValidIsTimeline();
    u.ValidIsTimeline();
    TimelineUnique(t.adds, Names(u.linear), u.Ranks(), u.TipNames(), Names(t.linear), t.Ranks(), t.TipNames());
    forall c | c in t.pending ensures Names(u.pending[c]) == Names(t.pending[c]) {
      PendingKnown(LinearData(t.linear), DataOf(t).pending, u.linear, c);
    }
    forall j: nat, k: nat {:trigger u.linear[j], t.linear[k]} | j < |t.linear| && k < |t.linear|
      ensures multiset(u.linear[j].succ)[u.linear[k]] == multiset(t.linear[j].succ)[t.linear[k]]
    {
      SameEdge(t, u, j, k);
    }
  }

  lemma {:induction false} CountSame(a: seq<Ref>, b: seq<Ref>, p: Ref, q: Ref)
    requires |a| == |b| && forall i :: 0 <= i < |a| ==> (a[i] == p <==> b[i] == q)
    ensures multiset(a)[p] == multiset(b)[q]
    decreases |a|
  {
    if a != [] {
      var n := |a| - 1;
      CountSame(a[..n], b[..n], p, q);
      assert a == a[..n] + [a[n]] && b == b[..n] + [b[n]];
    }
  }

  /** An edge is there as often as in the original. */
  lemma SameEdge(t: Timeline, u: Timeline, j: nat, k: nat)
    requires t.Valid() && Filled(u, DataOf(t), u.linear) && j < |t.linear| && k < |t.linear|
    ensures |u.linear| == |t.linear| && multiset(u.linear[j].succ)[u.linear[k]] == multiset(t.linear[j].succ)[t.linear[k]]
  {
    hide Timeline.Valid, AddsIn, InOrder, FoundAll, Wave.Ranked, Built, Timeline.RefsOk, Timeline.SuccOk, Timeline.PendingOk, Timeline.TipsOk, Timeline.Listed;
    Parts(t);
    var l := LinearData(t.linear);
    NamesAgree(u.linear, l);
    PrevData(t, k);
    forall i | 0 <= i < |l[k].prev| ensures u.linear[k].prev[i] == Known(u.linear[j]) <==> t.linear[k].prev[i] == Known(t.linear[j]) {
      SameRef(t, u, j, k, i);
    }
    CountSame(u.linear[k].prev, t.linear[k].prev, Known(u.linear[j]), Known(t.linear[j]));
    BuiltCounts(u.linear, l, j, k);
    TimelineCounts(t, j, k);
  }

  lemma BuiltCounts(nodes: seq<Node>, l: seq<NodeJson>, j: nat, k: nat)
    requires Built(nodes, l) && j < |nodes| && k < |nodes|
    ensures EdgeCount(nodes[j], nodes[k])
  {
    hide NodeIs, EdgeCount;
    assert nodes[j] in nodes && nodes[k] in nodes;
  }

  lemma TimelineCounts(t: Timeline, j: nat, k: nat)
    requires t.SuccOk(t.Nodes()) && j < |t.linear| && k < |t.linear|
    ensures EdgeCount(t.linear[j], t.linear[k])
  {
    hide EdgeCount;
    assert t.linear[j] in t.Nodes() && t.linear[k] in t.Nodes();
  }

  lemma SameRef(t: Timeline, u: Timeline, j: nat, k: nat, i: nat)
    requires t.Named(t.Nodes()) && t.RefsOk(t.Nodes(), None) && j < |t.linear| && k < |t.linear| && i < |t.linear[k].prev|
    requires Filled(u, DataOf(t), u.linear)
    ensures |u.linear| == |t.linear| && |u.linear[k].prev| == |t.linear[k].prev|
    ensures u.linear[k].prev[i] == Known(u.linear[j]) <==> t.linear[k].prev[i] == Known(t.linear[j])
  {
    hide Timeline.RefsOk, AddsIn, FoundAll, Built, InOrder;
    var l := LinearData(t.linear);
    NamesAgree(u.linear, l);
    RefsMean(u.linear, l, k, i);
    RefData(t, k, i);
    var c := l[k].prev[i];
    IsNameMeans(t, c);
    assert t.linear[j] in t.Nodes();
    if t.linear[k].prev[i] == Known(t.linear[j]) {
      assert l[j].name == c;
      assert u.linear[IndexOf(l, c)].name == u.linear[j].name;
    }
    if u.linear[k].prev[i] == Known(u.linear[j]) {
      assert l[j].name == c;
    }
  }

  /** What becomes of the data on its way through JSON text: a listener is a function,
      and functions are left out. */
  function ThroughText(j: TimelineJson): TimelineJson {
    j.(notify := false)
  }

  lemma TextKeeps(t: Timeline, u: Timeline)
    ensures Faithful(ThroughText(DataOf(t))) <==> Faithful(DataOf(t))
    ensures Filled(u, ThroughText(DataOf(t)), u.linear) <==> Filled(u, DataOf(t), u.linear)
  {
    hide Built, FoundAll, AddsIn, InOrder;
  }

  /** Saving and loading gives an equivalent timeline, but for the listener: the same
      order, ranks, tips and pending effects, and the same edges. */
  method SaveAndLoad(t: Timeline) returns (u: Timeline)
    requires t.Valid()
    ensures fresh(u) && u.Valid() && u.adds == t.adds && !u.notify && u.cmds == t.cmds
    ensures Names(u.linear) == Names(t.linear) && u.Ranks() == t.Ranks() && u.TipNames() == t.TipNames()
    ensures u.pending.Keys == t.pending.Keys && forall c :: c in t.pending ==> Names(u.pending[c]) == Names(t.pending[c])
    ensures |u.linear| == |t.linear|
    ensures forall j: nat, k: nat {:trigger u.linear[j], t.linear[k]} :: j < |t.linear| && k < |t.linear| ==>
      multiset(u.linear[j].succ)[u.linear[k]] == multiset(t.linear[j].succ)[t.linear[k]]
  {
    hide Timeline.Repaired, Faithful, AddsIn, IsTimeline, LinearData, Filled, Timeline.Ranks;
    DataFaithful(t);
    var j := ToJSON(t);
    TextKeeps(t, t);
    u := FromJSON(ThroughText(j));
    TextKeeps(t, u);
    Equivalent(t, u);
  }
}
