/** The incremental topological sort: event nodes linked through `prev` and
    `succ`, and a timeline whose list `linear` is repaired in place. */
module Scuttlesort {
  import opened Basics
  import opened EventGraph
  import Wave

  /** A cause as a node holds it: still a name, or already replaced by the node. */
  datatype Ref = Unknown(name: Name) | Known(node: Node)

  ghost function SuccMap(R: set<Node>): map<Node, seq<Node>>
    reads R`succ
  {
    map n | n in R :: n.succ
  }

  ghost function RankMap(R: set<Node>): map<Node, nat>
    reads R`rank
  {
    map n | n in R :: n.rank
  }

  lemma RankMapAt(R: set<Node>)
    ensures RankMap(R).Keys == R && forall n :: n in R ==> RankMap(R)[n] == n.rank
  {
  }

  lemma RankBound(R: set<Node>) returns (m: nat)
    ensures forall n :: n in R ==> n.rank <= m
  {
    if R == {} {
      m := 0;
    } else {
      var n :| n in R;
      m := RankBound(R - {n});
      m := if n.rank > m then n.rank else m;
    }
  }

  function Moved<T>(s: seq<T>, from: nat, to: nat): (m: seq<T>)
    requires from <= to < |s|
    ensures |m| == |s|
    ensures forall k :: 0 <= k < |s| ==>
      m[k] == if from <= k < to then s[k + 1] else if k == to then s[from] else s[k]
  {
    var rest := s[..from] + s[from + 1..];
    rest[..to] + [s[from]] + rest[to..]
  }

  function Inserted<T>(s: seq<T>, pos: nat, x: T): (m: seq<T>)
    requires pos <= |s|
    ensures |m| == |s| + 1
    ensures forall k :: 0 <= k <= |s| ==> m[k] == if k < pos then s[k] else if k == pos then x else s[k - 1]
  {
    s[..pos] + [x] + s[pos..]
  }

  /** The field `indx` of every node is its position. */
  ghost predicate Indexed(s: seq<Node>)
    reads s`indx
  {
    forall i :: 0 <= i < |s| ==> s[i].indx == i
  }

  function Names(s: seq<Node>): (names: seq<Name>)
    ensures |names| == |s|
    ensures forall i :: 0 <= i < |s| ==> names[i] == s[i].name
  {
    seq(|s|, i requires 0 <= i < |s| => s[i].name)
  }

  ghost predicate Lists(s: seq<Node>, K: set<Node>) {
    (forall n :: n in s ==> n in K) && (forall n :: n in K ==> n in s)
  }

  ghost predicate DistinctNames(s: seq<Node>) {
    forall i, j :: 0 <= i < j < |s| ==> s[i].name != s[j].name
  }

  ghost predicate Before(a: Node, b: Node)
    reads a`rank, b`rank
  {
    KeyLess(a.rank, a.name, b.rank, b.name)
  }

  ghost predicate SortedFrom(s: seq<Node>, from: int)
    reads s`rank
  {
    forall p, q :: 0 <= from <= p < q < |s| ==> Before(s[p], s[q])
  }

  lemma Beyond(s: seq<Node>, v: Node, pos: nat)
    requires pos + 1 < |s| && SortedFrom(s, pos + 1) && v.name != s[pos + 1].name
    requires v.rank < s[pos + 1].rank || (v.rank == s[pos + 1].rank && !Less(s[pos + 1].name, v.name))
    ensures forall k :: pos < k < |s| ==> Before(v, s[k])
  {
    LessTotal(v.name, s[pos + 1].name);
    forall k | pos + 1 < k < |s| ensures Before(v, s[k]) {
      assert Before(s[pos + 1], s[k]);
      KeyTransitive(v.rank, v.name, s[pos + 1].rank, s[pos + 1].name, s[k].rank, s[k].name);
    }
  }

  /** `a` precedes `b`, where `x` is credited with a rank of at least `bound`. */
  ghost predicate Precedes(a: Node, b: Node, x: Node, bound: nat)
    reads a`rank, b`rank
  {
    KeyLess(a.rank, a.name, if b == x && b.rank < bound then bound else b.rank, b.name)
  }

  /** Only nodes in `U` may stand too far to the left. */
  ghost predicate Ordered(s: seq<Node>, U: set<Node>, x: Node, bound: nat)
    reads s`rank
  {
    forall p, q :: 0 <= p < q < |s| && s[p] !in U ==> Precedes(s[p], s[q], x, bound)
  }

  /** The same order, judged by earlier ranks. */
  ghost predicate OrderedBy(s: seq<Node>, rank: map<Node, nat>, U: set<Node>, x: Node, bound: nat) {
    && (forall n :: n in s ==> n in rank)
    && (forall p, q :: 0 <= p < q < |s| && s[p] !in U ==>
          KeyLess(rank[s[p]], s[p].name, if s[q] == x && rank[x] < bound then bound else rank[s[q]], s[q].name))
  }

  lemma OrderedNow(s: seq<Node>, K: set<Node>, U: set<Node>, x: Node, bound: nat)
    requires Ordered(s, U, x, bound) && Lists(s, K)
    ensures OrderedBy(s, RankMap(K), U, x, bound)
  {
    forall p, q | 0 <= p < q < |s| && s[p] !in U
      ensures KeyLess(s[p].rank, s[p].name, if s[q] == x && x.rank < bound then bound else s[q].rank, s[q].name)
    {
      assert Precedes(s[p], s[q], x, bound);
    }
  }

  /** Raising ranks only makes the raised nodes stand too far to the left. */
  lemma OrderedAfterVisit(s: seq<Node>, rank0: map<Node, nat>, visited: set<Node>, x: Node, bound: nat)
    requires OrderedBy(s, rank0, {x}, x, bound) && x in visited
    requires forall n :: n in s ==> rank0[n] <= n.rank && (n !in visited ==> n.rank == rank0[n])
    ensures Ordered(s, visited, x, bound)
  {
    forall p, q | 0 <= p < q < |s| && s[p] !in visited
      ensures Precedes(s[p], s[q], x, bound)
    {
      assert s[p] in s && s[q] in s;
    }
  }

  /** Moving `v` to the right keeps the order if `v` may pass what it passes, and
      takes `v` off the list of misplaced nodes if it comes to stand right. */
  lemma OrderedAfterMove(s: seq<Node>, from: nat, to: nat, U: set<Node>, W: set<Node>, x: Node, bound: nat)
    requires from <= to < |s| && Ordered(s, U, x, bound) && DistinctNames(s)
    requires W == U || W == U - {s[from]}
    requires forall k :: from < k <= to && s[k] !in U ==> Precedes(s[k], s[from], x, bound)
    requires s[from] !in W ==> forall k :: to < k < |s| ==> Precedes(s[from], s[k], x, bound)
    ensures Ordered(Moved(s, from, to), W, x, bound)
  {
    var m := Moved(s, from, to);
    forall p, q | 0 <= p < q < |m| && m[p] !in W
      ensures Precedes(m[p], m[q], x, bound)
    {
      var p0 := if from <= p < to then p + 1 else if p == to then from else p;
      var q0 := if from <= q < to then q + 1 else if q == to then from else q;
      assert m[p] == s[p0] && m[q] == s[q0];
    }
  }

  lemma IndexedAfterMove(s: seq<Node>, from: nat, to: nat)
    requires from < to < |s| && forall k :: 0 <= k < |s| ==> s[k].indx == if k == from then to else if from < k <= to then k - 1 else k
    ensures Indexed(Moved(s, from, to))
  {
  }

  lemma SameElements(s: seq<Node>, from: nat, to: nat, K: set<Node>)
    requires from <= to < |s|
    ensures Lists(s, K) ==> Lists(Moved(s, from, to), K)
    ensures DistinctNames(s) ==> DistinctNames(Moved(s, from, to))
  {
    var m := Moved(s, from, to);
    forall n | n in s ensures n in m {
      var k :| 0 <= k < |s| && s[k] == n;
      var j := if from < k <= to then k - 1 else if k == from then to else k;
      assert m[j] == n;
    }
    forall i, j | 0 <= i < j < |m| && DistinctNames(s) ensures m[i].name != m[j].name {
      var i0 := if from <= i < to then i + 1 else if i == to then from else i;
      var j0 := if from <= j < to then j + 1 else if j == to then from else j;
      assert m[i] == s[i0] && m[j] == s[j0];
    }
  }

  /** A node put in front of its latest cause stands too far to the left at most. */
  lemma InsertedOrder(s: seq<Node>, pos: nat, x: Node, bound: nat)
    requires pos <= |s| && SortedFrom(s, 0) && x !in s
    requires pos > 0 ==> pos < |s| && s[pos].rank < bound
    ensures Ordered(Inserted(s, pos, x), {x}, x, bound)
  {
    var m := Inserted(s, pos, x);
    forall p, q | 0 <= p < q < |m| && m[p] != x ensures Precedes(m[p], m[q], x, bound) {
      var p0 := if p < pos then p else p - 1;
      var q0 := if q <= pos then q else q - 1;
      assert m[p] == s[p0];
      if q == pos {
        assert Before(s[p0], s[pos]);
      } else {
        assert m[q] == s[q0] && Before(s[p0], s[q0]);
      }
    }
  }

  lemma IndexedAfterInsert(s: seq<Node>, pos: nat, x: Node)
    requires pos <= |s| && x.indx == pos && forall k :: 0 <= k < |s| ==> s[k].indx == if k < pos then k else k + 1
    ensures Indexed(Inserted(s, pos, x))
  {
    var m := Inserted(s, pos, x);
    forall k | 0 <= k < |m| ensures m[k].indx == k {
      assert k < pos ==> m[k] == s[k];
      assert k > pos ==> m[k] == s[k - 1];
    }
  }

  lemma InsertedNames(s: seq<Node>, pos: nat, x: Node, K: set<Node>)
    requires pos <= |s| && DistinctNames(s) && Lists(s, K - {x}) && x in K
    requires forall k :: 0 <= k < |s| ==> s[k].name != x.name
    ensures DistinctNames(Inserted(s, pos, x)) && Lists(Inserted(s, pos, x), K)
  {
    var m := Inserted(s, pos, x);
    assert forall k :: 0 <= k < |s| ==> s[k] in K - {x};
    forall n | n in K ensures n in m {
      if n == x {
        assert m[pos] == n;
      } else {
        assert n in K - {x} && n in s;
        var k :| 0 <= k < |s| && s[k] == n;
        assert m[if k < pos then k else k + 1] == n;
      }
    }
  }

  /** To the right of the last misplaced node the list is sorted. */
  lemma SortedBeyond(s: seq<Node>, from: nat, U: set<Node>, x: Node, bound: nat)
    requires Ordered(s, U, x, bound)
    requires forall k :: from <= k < |s| ==> s[k] !in U && (bound == 0 || s[k] != x)
    ensures SortedFrom(s, from)
  {
    forall p, q | from <= p < q < |s| ensures Before(s[p], s[q]) {
      assert Precedes(s[p], s[q], x, bound);
    }
  }

  lemma WeakerCredit(s: seq<Node>, v: Node, x: Node, bound: nat)
    ensures forall n :: n in s && Before(n, v) ==> Precedes(n, v, x, bound)
    ensures forall n :: n in s && Before(v, n) ==> Precedes(v, n, x, bound)
  {
  }

  /** Everything up to its cause may be passed by an effect. */
  lemma MayPass(s: seq<Node>, from: nat, to: nat, U: set<Node>, e: Node, cause: Node, bound: nat)
    requires from < to < |s| && s[from] == e && s[to] == cause && Ordered(s, U, e, bound) && DistinctNames(s)
    requires cause.rank < e.rank
    ensures forall k :: from < k <= to && s[k] !in U ==> Precedes(s[k], e, e, bound)
  {
    forall k | from < k <= to && s[k] !in U ensures Precedes(s[k], e, e, bound) {
      assert k < to ==> Precedes(s[k], s[to], e, bound);
    }
  }

  lemma SortedIsOrdered(s: seq<Node>, x: Node)
    requires SortedFrom(s, 0)
    ensures Ordered(s, {x}, x, 0)
  {
    forall p, q | 0 <= p < q < |s| ensures Precedes(s[p], s[q], x, 0) {
      assert Before(s[p], s[q]);
    }
  }

  lemma AllowMisplaced(s: seq<Node>, x: Node, bound: nat)
    requires Ordered(s, {}, x, bound)
    ensures Ordered(s, {x}, x, bound)
  {
  }

  lemma OrderedIsSorted(s: seq<Node>, x: Node, bound: nat)
    requires Ordered(s, {}, x, bound) && bound <= x.rank
    ensures SortedFrom(s, 0)
  {
    forall p, q | 0 <= p < q < |s| ensures Before(s[p], s[q]) {
      assert Precedes(s[p], s[q], x, bound);
    }
  }

  /** The library sort: visited nodes by descending position. */
  method SortDescending(visited: set<Node>, ghost s: seq<Node>) returns (a: seq<Node>)
    requires Indexed(s) && forall n :: n in visited ==> n in s
    ensures forall n :: n in a <==> n in visited
    ensures forall i, j :: 0 <= i < j < |a| ==> a[i].indx > a[j].indx
  {
    a := [];
    var rest := visited;
    while rest != {}
      invariant rest <= visited
      invariant forall n :: n in visited <==> n in rest || n in a
      invariant forall i, n :: 0 <= i < |a| && n in rest ==> a[i].indx > n.indx
      invariant forall i, j :: 0 <= i < j < |a| ==> a[i].indx > a[j].indx
      decreases rest
    {
      LastExists(rest);
      var v :| v in rest && forall n :: n in rest ==> n.indx <= v.indx;
      a := a + [v];
      rest := rest - {v};
    }
  }

  lemma LastExists(rest: set<Node>)
    requires rest != {}
    ensures exists v :: v in rest && forall n :: n in rest ==> n.indx <= v.indx
  {
    var v :| v in rest;
    if rest != {v} {
      LastExists(rest - {v});
      var w :| w in rest - {v} && forall n :: n in rest - {v} ==> n.indx <= w.indx;
      var top := if v.indx > w.indx then v else w;
      assert top in rest && forall n :: n in rest ==> n.indx <= top.indx;
    }
  }

  // ------------------------------------------------ update notifications

  datatype Cmd = Ins(name: Name, pos: int) | Mov(from: int, to: int)
  datatype Outcome = Done | KeyError | CycleError

  /** What a listener does to its own copy of the list of names. */
  function Apply(c: Cmd, l: seq<Name>): Option<seq<Name>> {
    match c
    case Ins(nm, pos) =>
      if 0 <= pos <= |l| then Some(l[..pos] + [nm] + l[pos..]) else None
    case Mov(from, to) =>
      if 0 <= from < |l| && 0 <= to < |l| then
        var rest := l[..from] + l[from + 1..];
        Some(rest[..to] + [l[from]] + rest[to..])
      else None
  }

  function Replay(cs: seq<Cmd>, l: seq<Name>): Option<seq<Name>> {
    if cs == [] then Some(l)
    else
      match Replay(cs[..|cs| - 1], l)
      case None => None
      case Some(m) => Apply(cs[|cs| - 1], m)
  }

  class Node {
    const name: Name
    var prev: seq<Ref>
    var succ: seq<Node>
    var cycl: bool
    var vstd: bool
    var rank: nat
    var indx: int

    constructor (name: Name, after: seq<Name>)
      ensures this.name == name && |prev| == |after|
      ensures forall i :: 0 <= i < |after| ==> prev[i] == Unknown(after[i])
      ensures succ == [] && !cycl && rank == 0 && indx == -1
    {
      this.name := name;
      prev := seq(|after|, i requires 0 <= i < |after| => Unknown(after[i]));
      succ, cycl, vstd, rank, indx := [], false, false, 0, -1;
    }

    /** The "affected" wave towards the future, on an explicit stack. `R` is a
        region that the wave cannot leave. */
    method Visit(rnk: nat, ghost cause: Node, ghost R: set<Node>) returns (ok: bool, visited: set<Node>)
      requires this in R && cause.cycl
      requires forall n :: n in R && n.cycl ==> n == cause
      requires this != cause ==> Wave.Climbs(SuccMap(R), RankMap(R))
      modifies R`rank, R`vstd
      ensures ok ==> this in visited && visited <= R && cause !in visited
      ensures ok ==> forall n :: n in R && n !in visited ==> n.rank == old(n.rank)
      ensures ok ==> Wave.Settled(SuccMap(R), this, rnk, old(RankMap(R)), RankMap(R))
      ensures !ok ==> Wave.Reached(SuccMap(R), this, cause)
    {
      hide Wave.Inv, Wave.Settled, Wave.Reached, Wave.Climbs, Wave.View, Wave.Room, Wave.Size;
      visited := {};
      var out: seq<seq<Node>> := [[this]];
      ghost var m := RankBound(R);
      ghost var g := SuccMap(R);
      ghost var c0 := Wave.Setting(g, this, rnk, RankMap(R), rnk + m + 1);
      ghost var t := Wave.State(RankMap(R), out, visited);
      if this != cause {
        Wave.StartState(c0);
      }
      while |out| > 0
        invariant this == cause ==> out == [[this]]
        invariant this != cause ==> Wave.Inv(c0, Wave.View(t))
        invariant t.out == out && t.visited == visited && t.rank.Keys == R
        invariant forall n :: n in R ==> n.rank == t.rank[n]
        invariant cause !in visited && visited <= R
        decreases Wave.Room(t.rank, c0.top), Wave.Size(out)
      {
        if this != cause {
          if Wave.Busy(t) {
            Wave.NextInside(c0, t);
          }
          Wave.TurnKeeps(c0, t);
          t := Wave.Turn(g, rnk, t);
        } else {
          Wave.ReachedSelf(g, this);
        }
        var o := out[|out| - 1];
        if |o| == 0 {
          out := out[..|out| - 1];
          continue;
        }
        var c := o[|o| - 1];
        out := out[..|out| - 1] + [o[..|o| - 1]];
        c.vstd := true;
        visited := visited + {c};
        if c.cycl {
          assert Wave.Reached(g, this, cause);
          ok := false;
          return;
        }
        if c.rank <= rnk + |out| - 1 {
          c.rank := rnk + |out|;
          out := out + [c.succ];
        }
      }
      Wave.Done(c0, t);
      assert t.rank == RankMap(R);
      ok := true;
    }

    /** `this` moves right to `pos`; the nodes it passes move one to the left. */
    method Jump(t: Timeline, pos: nat)
      requires Indexed(t.linear) && t.Recorded()
      requires this in t.linear && this.indx < pos < |t.linear|
      modifies t`linear, t`cmds, t.linear`indx
      ensures t.linear == Moved(old(t.linear), old(indx), pos)
      ensures Indexed(t.linear) && t.Recorded() && indx == pos
    {
      hide Timeline.Recorded;
      var si := this.indx;
      ghost var s := t.linear;
      assert s[si] == this;
      ShiftLeft(t, si, pos);
      t.Move(si, pos);
      this.indx := pos;
      IndexedAfterMove(s, si, pos);
    }

    method ShiftLeft(t: Timeline, si: nat, pos: nat)
      requires Indexed(t.linear) && si < pos < |t.linear|
      modifies t.linear`indx
      ensures forall k :: 0 <= k < |t.linear| ==> t.linear[k].indx == if si < k <= pos then k - 1 else k
    {
      for i := si + 1 to pos + 1
        invariant forall k :: 0 <= k < |t.linear| ==> t.linear[k].indx == if si < k < i then k - 1 else k
      {
        t.linear[i].indx := t.linear[i].indx - 1;
      }
    }

    /** `this` passes every node with a smaller key; if the nodes on its right are
        sorted, it stops exactly where it belongs among them. */
    method Rise(t: Timeline)
      requires Indexed(t.linear) && DistinctNames(t.linear) && t.Recorded() && this in t.linear
      modifies t`linear, t`cmds, t.linear`indx
      ensures |t.linear| == old(|t.linear|) && 0 <= old(indx) <= indx < |t.linear|
      ensures t.linear == Moved(old(t.linear), old(indx), indx)
      ensures Indexed(t.linear) && t.Recorded()
      ensures forall k :: old(indx) < k <= indx ==> Before(old(t.linear)[k], this)
      ensures SortedFrom(old(t.linear), old(indx) + 1) ==>
        forall k :: indx < k < |t.linear| ==> Before(this, old(t.linear)[k])
    {
      hide DistinctNames, Timeline.Recorded, SortedFrom, Before;
      var si := this.indx;
      var pos := Landing(t);
      if si < pos {
        Jump(t, pos);
      }
    }

    /** The last position with a smaller key. */
    method Landing(t: Timeline) returns (pos: nat)
      requires Indexed(t.linear) && DistinctNames(t.linear) && this in t.linear
      ensures indx <= pos < |t.linear|
      ensures forall k :: indx < k <= pos ==> Before(t.linear[k], this)
      ensures SortedFrom(t.linear, indx + 1) ==> forall k :: pos < k < |t.linear| ==> Before(this, t.linear[k])
    {
      var len1 := |t.linear| - 1;
      pos := this.indx;
      while pos < len1 && this.rank > t.linear[pos + 1].rank
        invariant indx <= pos <= len1
        invariant forall k :: indx < k <= pos ==> Before(t.linear[k], this)
      {
        pos := pos + 1;
      }
      while pos < len1 && this.rank == t.linear[pos + 1].rank && Less(t.linear[pos + 1].name, this.name)
        invariant indx <= pos <= len1
        invariant forall k :: indx < k <= pos ==> Before(t.linear[k], this)
        invariant SortedFrom(t.linear, indx + 1) && pos < len1 ==> this.rank <= t.linear[pos + 1].rank
      {
        pos := pos + 1;
      }
      if SortedFrom(t.linear, indx + 1) && pos < len1 {
        Beyond(t.linear, this, pos);
      }
    }
  }

  /** The last misplaced node rises and is misplaced no more. */
  method RiseLast(t: Timeline, v: Node, ghost U: set<Node>, ghost K: set<Node>, ghost x: Node, ghost bound: nat)
    requires Indexed(t.linear) && DistinctNames(t.linear) && t.Recorded() && Lists(t.linear, K)
    requires v in U && U <= K && (forall n :: n in U ==> n.indx <= v.indx)
    requires Ordered(t.linear, U, x, bound) && (bound == 0 || v == x)
    modifies t`linear, t`cmds, K`indx
    ensures Indexed(t.linear) && DistinctNames(t.linear) && t.Recorded() && Lists(t.linear, K)
    ensures forall n :: n in K && old(n.indx) < old(v.indx) ==> n.indx == old(n.indx)
    ensures Ordered(t.linear, U - {v}, x, bound)
  {
    hide Ordered, Precedes, Before, DistinctNames, SortedFrom, Timeline.Recorded, Moved;
    ghost var s := t.linear;
    ghost var si := v.indx;
    assert v in s && s[si] == v;
    SortedBeyond(s, si + 1, U, x, bound);
    v.Rise(t);
    LeftStays(s, si, v.indx);
    forall n | n in K && old(n.indx) < si ensures n.indx == old(n.indx) {
      assert s[old(n.indx)] == n && t.linear[old(n.indx)] == n;
    }
    SameElements(s, si, v.indx, K);
    OrderedAfterRise(s, si, v.indx, U, x, bound);
  }

  lemma LeftStays(s: seq<Node>, from: nat, to: nat)
    requires from <= to < |s|
    ensures |Moved(s, from, to)| == |s| && forall k :: 0 <= k < from ==> Moved(s, from, to)[k] == s[k]
  {
  }

  lemma OrderedAfterRise(s: seq<Node>, from: nat, to: nat, U: set<Node>, x: Node, bound: nat)
    requires from <= to < |s| && Ordered(s, U, x, bound) && DistinctNames(s)
    requires forall k :: from < k <= to ==> Before(s[k], s[from])
    requires forall k :: to < k < |s| ==> Before(s[from], s[k])
    ensures Ordered(Moved(s, from, to), U - {s[from]}, x, bound)
  {
    hide Ordered, Before, Precedes, DistinctNames;
    WeakerCredit(s, s[from], x, bound);
    forall k | from < k < |s| ensures s[k] in s {
    }
    OrderedAfterMove(s, from, to, U, U - {s[from]}, x, bound);
  }

  /** Bubble the visited nodes up towards the future, last one first. */
  method RiseAll(t: Timeline, visited: set<Node>, ghost K: set<Node>, ghost x: Node, ghost bound: nat)
    requires Indexed(t.linear) && DistinctNames(t.linear) && t.Recorded() && Lists(t.linear, K)
    requires visited <= K && Ordered(t.linear, visited, x, bound)
    requires bound == 0 || visited == {x}
    modifies t`linear, t`cmds, K`indx, K`vstd
    ensures Indexed(t.linear) && DistinctNames(t.linear) && t.Recorded() && Lists(t.linear, K)
    ensures Ordered(t.linear, {}, x, bound)
  {
    hide Ordered, DistinctNames, Timeline.Recorded;
    var a := SortDescending(visited, t.linear);
    ghost var U := visited;
    assert a[0..] == a;
    for k := 0 to |a|
      invariant Indexed(t.linear) && DistinctNames(t.linear) && t.Recorded() && Lists(t.linear, K)
      invariant forall i, j :: k <= i < j < |a| ==> a[i].indx > a[j].indx
      invariant U <= visited && forall n :: n in U <==> n in a[k..]
      invariant Ordered(t.linear, U, x, bound)
    {
      assert a[k] == a[k..][0] && a[k + 1..] == a[k..][1..];
      RiseLast(t, a[k], U, K, x, bound);
      a[k].vstd := false;
      U := U - {a[k]};
    }
    assert U == {};
  }

  /** The list is repaired after the ranks of `visited` were raised. */
  method Resettle(t: Timeline, e: Node, cause: Node, visited: set<Node>, ghost K: set<Node>, ghost bound: nat)
    requires Indexed(t.linear) && DistinctNames(t.linear) && t.Recorded() && Lists(t.linear, K)
    requires e in visited && visited <= K && cause in K && cause !in visited && cause.rank < e.rank
    requires Ordered(t.linear, visited, e, bound) && (bound == 0 || visited == {e})
    modifies t`linear, t`cmds, K`indx, K`vstd
    ensures Indexed(t.linear) && DistinctNames(t.linear) && t.Recorded() && Lists(t.linear, K)
    ensures Ordered(t.linear, {}, e, bound)
  {
    hide Ordered, DistinctNames, Timeline.Recorded;
    ghost var s := t.linear;
    var si := e.indx;
    var ci := cause.indx;
    assert s[si] == e && s[ci] == cause;
    if si < ci {
      MayPass(s, si, ci, visited, e, cause, bound);
      e.Jump(t, ci);
    } else {
      e.Rise(t);
      WeakerCredit(s, e, e, bound);
    }
    SameElements(s, si, e.indx, K);
    OrderedAfterMove(s, si, e.indx, visited, visited, e, bound);
    RiseAll(t, visited, K, e, bound);
  }

  /** Insert the edge from `e` to `cause` into the sorted graph. `R` is a region
      around `e` closed under effects; `e` counts as having rank `bound` at least. */
  method AddEdgeToThePast(t: Timeline, e: Node, cause: Node, ghost R: set<Node>, ghost K: set<Node>, ghost bound: nat)
    returns (ok: bool)
    requires Indexed(t.linear) && DistinctNames(t.linear) && t.Recorded() && Lists(t.linear, K)
    requires e in R && R <= K && cause in K
    requires forall n :: n in K ==> !n.cycl
    requires e != cause ==> Wave.Climbs(SuccMap(R), RankMap(R))
    requires Ordered(t.linear, {e}, e, bound) && (bound == 0 || R == {e})
    modifies t`linear, t`cmds, K`indx, K`vstd, R`rank, cause`cycl
    ensures t.Recorded()
    ensures ok ==> Indexed(t.linear) && DistinctNames(t.linear) && Lists(t.linear, K)
    ensures ok ==> e != cause && !cause.cycl && cause.rank == old(cause.rank)
    ensures ok ==> Wave.Settled(SuccMap(R), e, cause.rank, old(RankMap(R)), RankMap(R))
    ensures ok ==> Ordered(t.linear, {}, e, bound)
    ensures !ok ==> Wave.Reached(SuccMap(R), e, cause)
  {
    hide Wave.Settled, Wave.Climbs, Wave.Reached, Ordered, OrderedBy, DistinctNames, Timeline.Recorded;
    hide SuccMap, RankMap, Lists;
    ghost var rank0, rank0R := RankMap(K), RankMap(R);
    OrderedNow(t.linear, K, {e}, e, bound);
    RankMapAt(K);
    RankMapAt(R);
    cause.cycl := true;
    var visited;
    ok, visited := e.Visit(cause.rank, cause, R);
    if ok {
      cause.cycl := false;
      ghost var g, rank1 := SuccMap(R), RankMap(R);
      assert e.rank > cause.rank && forall n :: n in K ==> rank0[n] <= n.rank && (n !in visited ==> n.rank == rank0[n]) by {
        RankMapAt(R);
        Wave.SettledGrows(g, e, cause.rank, rank0R, rank1);
      }
      RestoreOrder(t, e, cause, visited, K, bound, rank0);
    }
  }

  /** The list is repaired after the ranks of `visited` were raised from `rank0`. */
  method RestoreOrder(t: Timeline, e: Node, cause: Node, visited: set<Node>, ghost K: set<Node>, ghost bound: nat, ghost rank0: map<Node, nat>)
    requires Indexed(t.linear) && DistinctNames(t.linear) && t.Recorded() && Lists(t.linear, K)
    requires e in visited && visited <= K && cause in K && cause !in visited && cause.rank < e.rank
    requires OrderedBy(t.linear, rank0, {e}, e, bound) && (bound == 0 || visited == {e})
    requires rank0.Keys == K && forall n :: n in K ==> rank0[n] <= n.rank && (n !in visited ==> n.rank == rank0[n])
    modifies t`linear, t`cmds, K`indx, K`vstd
    ensures Indexed(t.linear) && DistinctNames(t.linear) && t.Recorded() && Lists(t.linear, K)
    ensures Ordered(t.linear, {}, e, bound)
  {
    hide Ordered, OrderedBy, DistinctNames, Timeline.Recorded;
    OrderedAfterVisit(t.linear, rank0, visited, e, bound);
    Resettle(t, e, cause, visited, K, bound);
  }

  lemma FirstIndex<T>(s: seq<T>, v: T) returns (i: nat)
    requires v in s
    ensures i < |s| && s[i] == v && forall j :: 0 <= j < i ==> s[j] != v
  {
    i := 0;
    while s[i] != v
      invariant i < |s| && v in s[i..] && forall j :: 0 <= j < i ==> s[j] != v
      decreases |s| - i
    {
      i := i + 1;
    }
  }

  lemma HeadIn<T>(s: seq<T>)
    ensures s == [] || s[0] in s
  {
  }

  lemma UpdateMember<T>(s: seq<T>, i: nat, r: T)
    requires i < |s|
    ensures r in s[i := r]
    ensures forall q :: q in s && q != s[i] ==> q in s[i := r]
    ensures forall q :: q in s[i := r] ==> q == r || q in s
  {
    assert s[i := r][i] == r;
    forall q | q in s && q != s[i] ensures q in s[i := r] {
      var j :| 0 <= j < |s| && s[j] == q;
      assert s[i := r][j] == q;
    }
  }

  function Target(c: Cmd): int {
    match c
    case Ins(_, pos) => pos
    case Mov(_, to) => to
  }

  function Retarget(c: Cmd, pos: int): Cmd {
    match c
    case Ins(nm, _) => Ins(nm, pos)
    case Mov(from, _) => Mov(from, pos)
  }

  lemma ReplayOne(cs: seq<Cmd>, c: Cmd, l: seq<Name>)
    ensures Replay(cs + [c], l) == match Replay(cs, l) case None => None case Some(m) => Apply(c, m)
  {
    assert (cs + [c])[..|cs|] == cs;
  }

  lemma ReplayNext(cs: seq<Cmd>, i: nat, l: seq<Name>)
    requires i < |cs|
    ensures Replay(cs[..i + 1], l) == match Replay(cs[..i], l) case None => None case Some(m) => Apply(cs[i], m)
  {
    assert cs[..i + 1] == cs[..i] + [cs[i]];
    ReplayOne(cs[..i], cs[i], l);
  }

  lemma {:induction false} ReplayPrefix(cs: seq<Cmd>, i: nat, l: seq<Name>)
    requires i <= |cs| && Replay(cs, l).Some?
    ensures Replay(cs[..i], l).Some?
    decreases |cs|
  {
    if i < |cs| {
      ReplayPrefix(cs[..|cs| - 1], i, l);
      assert cs[..|cs| - 1][..i] == cs[..i];
    } else {
      assert cs[..i] == cs;
    }
  }

  /** Merging a move into the command before it changes nothing for the listener. */
  lemma MergeCorrect(cs: seq<Cmd>, b: Cmd, c: Cmd, l: seq<Name>)
    requires c.Mov? && Target(b) == c.from && Replay(cs + [b] + [c], l).Some?
    ensures Replay(cs + [Retarget(b, c.to)], l) == Replay(cs + [b] + [c], l)
  {
    ReplayOne(cs, b, l);
    ReplayOne(cs + [b], c, l);
    ReplayOne(cs, Retarget(b, c.to), l);
    hide Replay;
    var m := Replay(cs, l).value;
    match b
    case Ins(nm, pos) => MergeIns(m, nm, pos, c.to);
    case Mov(from, to) => MergeMov(m, from, to, c.to);
  }

  lemma MergeIns(m: seq<Name>, nm: Name, pos: int, to: int)
    requires Apply(Ins(nm, pos), m).Some? && Apply(Mov(pos, to), Apply(Ins(nm, pos), m).value).Some?
    ensures Apply(Ins(nm, to), m) == Apply(Mov(pos, to), Apply(Ins(nm, pos), m).value)
  {
    var m1 := m[..pos] + [nm] + m[pos..];
    assert m1[..pos] + m1[pos + 1..] == m;
  }

  lemma MergeMov(m: seq<Name>, from: int, pos: int, to: int)
    requires Apply(Mov(from, pos), m).Some? && Apply(Mov(pos, to), Apply(Mov(from, pos), m).value).Some?
    ensures Apply(Mov(from, to), m) == Apply(Mov(pos, to), Apply(Mov(from, pos), m).value)
  {
    var rest := m[..from] + m[from + 1..];
    var m1 := rest[..pos] + [m[from]] + rest[pos..];
    assert m1[..pos] + m1[pos + 1..] == rest;
  }

  /** `e` still names the cause `c` without knowing its node. */
  predicate Awaits(e: Node, c: Name)
    reads e`prev
  {
    Unknown(c) in e.prev
  }

  ghost predicate EdgeCount(p: Node, s: Node)
    reads p`succ, s`prev
  {
    multiset(p.succ)[s] == multiset(s.prev)[Known(p)]
  }

  lemma EdgeMembers(p: Node, s: Node)
    requires EdgeCount(p, s)
    ensures s in p.succ <==> Known(p) in s.prev
  {
    assert s in p.succ <==> multiset(p.succ)[s] > 0;
    assert Known(p) in s.prev <==> multiset(s.prev)[Known(p)] > 0;
  }

  /** One more edge, on both sides. */
  lemma CountsUpdate(succ: seq<Node>, prev: seq<Ref>, x: Node, i: nat, p: Node)
    requires i < |prev| && prev[i].Unknown?
    ensures forall s :: multiset(succ + [x])[s] == multiset(succ)[s] + (if s == x then 1 else 0)
    ensures forall q :: multiset(prev[i := Known(p)])[Known(q)] == multiset(prev)[Known(q)] + (if q == p then 1 else 0)
  {
  }

  lemma EdgeJoined(succ: seq<Node>, prev: seq<Ref>, x: Node, i: nat, p: Node)
    requires i < |prev| && prev[i].Unknown?
    ensures forall s :: multiset(succ + [x])[s] == multiset(succ)[s] + (if s == x then 1 else 0)
    ensures forall q :: multiset(prev[i := Known(p)])[Known(q)] == multiset(prev)[Known(q)] + (if q == p then 1 else 0)
    ensures forall s :: s in succ + [x] <==> s in succ || s == x
    ensures forall q :: Known(q) in prev[i := Known(p)] <==> Known(q) in prev || q == p
  {
    CountsUpdate(succ, prev, x, i, p);
    UpdateMember(prev, i, Known(p));
  }

  lemma CountsNone(prev: seq<Ref>, p: Node)
    requires Known(p) !in prev
    ensures multiset(prev)[Known(p)] == 0
  {
    if multiset(prev)[Known(p)] > 0 {
      assert Known(p) in multiset(prev);
    }
  }

  class Timeline {
    var linear: seq<Node>
    var name2p: map<Name, Node>
    var pending: map<Name, seq<Node>>
    var notify: bool              // an update callback was given
    var cmds: seq<Cmd>
    var tips: set<Node>
    var notified: seq<Cmd>        // the calls made to the callback so far
    ghost var base: seq<Name>     // the names in `linear` when the current add began
    ghost var adds: Adds          // what was added so far

    // ------------------------------------------------------------ invariant

    ghost predicate Named(K: set<Node>)
      reads this`name2p, this`adds
    {
      && adds.Keys == name2p.Keys
      && (forall nm :: nm in name2p ==> name2p[nm] in K && name2p[nm].name == nm)
      && (forall n :: n in K ==> n.name in name2p && name2p[n.name] == n && n.name != [])
    }

    /** Reference `i` of `n` says what was added, and is resolved if its target is
        known; only references to `open` may still wait for that. */
    ghost predicate RefOk(n: Node, i: nat, K: set<Node>, open: Option<Name>)
      requires n.name in adds && i < |n.prev| == |adds[n.name]|
      reads this`name2p, this`adds, n`prev
    {
      match n.prev[i]
      case Known(p) => p in K && p.name == adds[n.name][i]
      case Unknown(c) => c == adds[n.name][i] && (c in name2p ==> Some(c) == open)
    }

    ghost predicate RefsOk(K: set<Node>, open: Option<Name>)
      reads this`name2p, this`adds, K`prev
    {
      && (forall n :: n in K ==> n.name in adds && |n.prev| == |adds[n.name]|)
      && (forall n, i {:trigger RefOk(n, i, K, open)} :: n in K && 0 <= i < |n.prev| ==> RefOk(n, i, K, open))
      && (forall n, r :: n in K && r in n.prev && r.Known? ==> r.node in K)
      && (forall n, r :: n in K && r in n.prev && r.Unknown? && r.name in name2p ==> Some(r.name) == open)
    }

    /** `succ` is the inverse of the resolved part of `prev`, each edge as often as it
        was named. */
    ghost predicate SuccOk(K: set<Node>)
      reads K`prev, K`succ
    {
      && (forall p, s :: p in K && s in p.succ ==> s in K && Known(p) in s.prev)
      && (forall p, s :: p in K && s in K && Known(p) in s.prev ==> s in p.succ)
      && EdgeCounts(K)
    }

    ghost predicate EdgeCounts(K: set<Node>)
      reads K`prev, K`succ
    {
      forall p, s {:trigger EdgeCount(p, s)} :: p in K && s in K ==> EdgeCount(p, s)
    }

    ghost predicate PendingOk(K: set<Node>, open: Option<Name>)
      reads this`pending, K`prev
    {
      && (forall c, e :: c in pending && e in pending[c] ==> e in K && (Some(c) != open ==> Awaits(e, c)))
      && (forall c :: c in pending ==> pending[c] != [])
      && (forall e, c :: e in K && Awaits(e, c) ==> c in pending && e in pending[c])
    }

    /** The tips are the nodes without effects; `x` is not settled yet. */
    ghost predicate TipsOk(K: set<Node>, x: Node?)
      reads this`tips, K`succ
    {
      && (forall n :: n in tips ==> n in K && n != x && n.succ == [])
      && (forall n :: n in K && n != x && n.succ == [] ==> n in tips)
    }

    ghost predicate NoMarks(K: set<Node>)
      reads K`cycl
    {
      forall n :: n in K ==> !n.cycl
    }

    ghost predicate Linked(K: set<Node>, x: Node?)
      reads this`name2p, this`adds, this`pending, this`tips, K`prev, K`succ
    {
      var open := if x == null then None else Some(x.name);
      Named(K) && RefsOk(K, open) && SuccOk(K) && PendingOk(K, open) && TipsOk(K, x)
    }

    ghost predicate Listed(K: set<Node>)
      reads this`linear, linear`indx
    {
      Indexed(linear) && DistinctNames(linear) && Lists(linear, K)
    }

    ghost function Nodes(): set<Node>
      reads this`linear
    {
      set n | n in linear
    }

    /** Everything is in place, except perhaps the effects that wait for `x`. */
    ghost predicate Repaired(K: set<Node>, x: Node?)
      reads this`linear, this`name2p, this`adds, this`pending, this`tips
      reads linear`indx, linear`rank, K`prev, K`succ, K`cycl, K`rank
    {
      Listed(K) && Linked(K, x) && NoMarks(K) && SortedFrom(linear, 0) && Wave.Ranked(SuccMap(K), RankMap(K))
    }

    ghost predicate Valid()
      reads this`linear, this`name2p, this`adds, this`pending, this`tips, linear
    {
      Repaired(Nodes(), null)
    }

    // ----------------------------------------------------- adding an event

    /** The first `i` causes of `x` are registered, the others are still names. */
    ghost predicate Registering(x: Node, i: nat, K: set<Node>)
      reads this`name2p, this`adds, this`pending, this`tips, K`prev, K`succ
      requires x in K && x.name in adds
    {
      Halfway(x, i, K) && SuccOk(K) && TipsOk(K, x) && Waiting(x, i, K)
    }

    ghost predicate Halfway(x: Node, i: nat, K: set<Node>)
      reads this`name2p, this`adds, x`prev
      requires x in K && x.name in adds
    {
      && |x.prev| == |adds[x.name]| && i <= |x.prev|
      && (forall j :: 0 <= j < i ==> RefOk(x, j, K, None))
      && (forall j :: i <= j < |x.prev| ==> x.prev[j] == Unknown(adds[x.name][j]))
      && (forall r :: r in x.prev && r.Known? ==> r.node in K)
    }

    ghost predicate Waiting(x: Node, i: nat, K: set<Node>)
      reads this`name2p, this`pending, K`prev
      requires x in K
    {
      WaitingIn(pending, x, i, K)
    }

    /** A name among the causes is replaced by its node. */
    method Resolve(x: Node, i: nat, p: Node, ghost K: set<Node>)
      requires Named(K) && x in K && p in K && Halfway(x, i, K) && Waiting(x, i, K)
      requires i < |x.prev| && x.prev[i] == Unknown(p.name)
      modifies x`prev
      ensures Halfway(x, i + 1, K) && Waiting(x, i + 1, K)
      ensures x.prev == old(x.prev)[i := Known(p)]
    {
      UpdateMember(x.prev, i, Known(p));
      x.prev := x.prev[i := Known(p)];
      assert Halfway(x, i + 1, K) by {
        hide Waiting;
        assert forall j {:trigger RefOk(x, j, K, None)} :: 0 <= j < i ==> old(RefOk(x, j, K, None)) && RefOk(x, j, K, None);
      }
      assert Waiting(x, i + 1, K) by {
        hide Halfway;
        assert forall e, c :: e in K && old(Awaits(e, c)) && !(e == x && c == p.name) ==> Awaits(e, c);
      }
    }

    /** Since `g`, effects were only appended, and only the effect `x`. */
    ghost predicate Grown(g: map<Node, seq<Node>>, x: Node, K: set<Node>)
      reads K`succ
    {
      g.Keys == K && forall p :: p in K ==> g[p] <= p.succ && forall s :: s in p.succ ==> s in g[p] || s == x
    }

    method Attach(x: Node, i: nat, p: Node, ghost K: set<Node>, ghost g: map<Node, seq<Node>>)
      requires Named(K) && x in K && p in K && Registering(x, i, K) && Grown(g, x, K)
      requires i < |x.prev| && x.prev[i] == Unknown(p.name)
      modifies this`tips, x`prev, p`succ
      ensures Registering(x, i + 1, K) && |x.prev| == old(|x.prev|) && Grown(g, x, K)
    {
      hide Halfway, Waiting, SuccOk, Named;
      JoinEdge(x, i, p, K);
      hide Grown;
      DropTip(p, x, K);
    }

    /** The edge from `p` to `x`, on both sides. */
    method JoinEdge(x: Node, i: nat, p: Node, ghost K: set<Node>)
      requires Named(K) && x in K && p in K && Halfway(x, i, K) && Waiting(x, i, K) && SuccOk(K)
      requires i < |x.prev| && x.prev[i] == Unknown(p.name)
      modifies x`prev, p`succ
      ensures Halfway(x, i + 1, K) && Waiting(x, i + 1, K) && SuccOk(K)
      ensures p.succ == old(p.succ) + [x] && |x.prev| == old(|x.prev|)
    {
      hide Halfway, Waiting, Named;
      p.succ := p.succ + [x];
      ghost var links := x.prev;
      Resolve(x, i, p, K);
      hide Halfway, Waiting, Named;
      EdgeJoined(old(p.succ), links, x, i, p);
      assert EdgeCounts(K) by {
        forall q, s | q in K && s in K ensures EdgeCount(q, s) {
          assert old(EdgeCount(q, s));
        }
      }
      hide EdgeCounts, EdgeCount;
    }

    /** A node with an effect is no tip. */
    method DropTip(p: Node, x: Node, ghost K: set<Node>)
      requires p in K && p.succ != []
      requires forall n :: n in tips ==> n in K && n != x && (n == p || n.succ == [])
      requires forall n :: n in K && n != x && n.succ == [] ==> n in tips
      modifies this`tips
      ensures TipsOk(K, x)
    {
      tips := tips - {p};
    }

    lemma NextName(x: Node, i: nat, K: set<Node>)
      requires x in K && x.name in adds && Registering(x, i, K) && i < |x.prev|
      ensures x.prev[i] == Unknown(adds[x.name][i])
    {
    }

    lemma StaysName(x: Node, i: nat, K: set<Node>)
      requires x in K && x.name in adds && Halfway(x, i, K) && i < |x.prev| && x.prev[i].name !in name2p
      ensures Halfway(x, i + 1, K)
    {
    }

    /** What `Waiting` says of another map of waiting effects. */
    ghost predicate WaitingIn(pend: map<Name, seq<Node>>, x: Node, i: nat, K: set<Node>)
      reads this`name2p, K`prev
      requires x in K
    {
      && i <= |x.prev|
      && (forall c, e :: c in pend && e in pend[c] ==> e in K && (c != x.name ==> Awaits(e, c)) && (e == x ==> c !in name2p))
      && (forall c :: c in pend ==> pend[c] != [])
      && (forall e, c :: e in K - {x} && Awaits(e, c) ==> c in pend && e in pend[c])
      && (forall j :: 0 <= j < i && x.prev[j].Unknown? ==> x.prev[j].name in pend && x in pend[x.prev[j].name])
    }

    lemma Queued(x: Node, i: nat, K: set<Node>, c: Name, before: map<Name, seq<Node>>, after: map<Name, seq<Node>>)
      requires x in K && WaitingIn(before, x, i, K)
      requires i < |x.prev| && x.prev[i] == Unknown(c) && c !in name2p && x.name in name2p
      requires c in after && after == before[c := after[c]] && x in after[c]
      requires forall e :: e in after[c] ==> e == x || (c in before && e in before[c])
      requires c in before ==> before[c] <= after[c]
      ensures WaitingIn(after, x, i + 1, K)
    {
      assert Awaits(x, c);
    }

    method Wait(x: Node, i: nat, ghost K: set<Node>)
      requires Named(K) && x in K && Registering(x, i, K)
      requires i < |x.prev| && x.prev[i].name !in name2p
      modifies this`pending
      ensures Registering(x, i + 1, K)
    {
      StaysName(x, i, K);
      var c := x.prev[i].name;
      hide SuccOk, TipsOk, Halfway, RefOk, WaitingIn, Named;
      var a := if c in pending then pending[c] else [];
      if x !in a {
        a := a + [x];
      }
      pending := pending[c := a];
      Queued(x, i, K, c, old(pending), pending);
    }

    /** `x` has its name, but no links yet. */
    ghost predicate Ready(x: Node, K: set<Node>)
      reads this`name2p, this`adds, this`pending, this`tips, K`prev, K`succ
    {
      && x in K && Named(K) && x.succ == []
      && |x.prev| == |adds[x.name]| && (forall i :: 0 <= i < |x.prev| ==> x.prev[i] == Unknown(adds[x.name][i]))
      && RefsOk(K - {x}, Some(x.name)) && SuccOk(K - {x}) && PendingOk(K - {x}, Some(x.name)) && TipsOk(K - {x}, x)
    }

    lemma RegisterStarts(x: Node, K: set<Node>)
      requires Ready(x, K)
      ensures Named(K) && |x.prev| == |adds[x.name]| && RefsOk(K - {x}, Some(x.name)) && Registering(x, 0, K)
    {
      var old' := K - {x};
      forall s, p | p in K && s in K && Known(p) in s.prev ensures p in old' && s in old' && s in p.succ {
        assert s in K - {x};
        var r :| r in s.prev && r == Known(p);
        assert r.node in old';
      }
      forall p, s | p in K && s in p.succ ensures s in K && Known(p) in s.prev {
        assert p in K - {x};
        assert s in K - {x} && Known(p) in s.prev;
      }
      forall p, s | p in K && s in K ensures EdgeCount(p, s) {
        if p == x || s == x {
          CountsNone(s.prev, p);
        } else {
          assert p in old' && s in old' && EdgeCount(p, s);
        }
      }
      assert SuccOk(K);
      forall c, e | c in pending && e in pending[c]
        ensures e in K && (c != x.name ==> Awaits(e, c)) && (e == x ==> c !in name2p)
      {
        assert e in K - {x};
      }
    }

    lemma RegisterEnds(x: Node, K: set<Node>)
      requires x in K && Named(K) && RefsOk(K - {x}, Some(x.name)) && Registering(x, |x.prev|, K)
      ensures Linked(K, x) && AllRefs(x, K)
    {
      var open := Some(x.name);
      forall n, i | n in K && 0 <= i < |n.prev| ensures n.name in adds && |n.prev| == |adds[n.name]| && RefOk(n, i, K, open) {
        if n == x {
          assert RefOk(x, i, K, None);
        } else {
          assert n in K - {x};
          assert RefOk(n, i, K - {x}, open);
        }
      }
    }

    /** Replace the names of known causes by their nodes, and wait for the others. */
    method Register(x: Node, ghost K: set<Node>)
      requires x in K && Ready(x, K)
      modifies this`tips, this`pending, x`prev, K`succ
      ensures Linked(K, x) && AllRefs(x, K)
      ensures Grown(old(SuccMap(K)), x, K)
    {
      hide Named, SuccOk, PendingOk, TipsOk, RefsOk, RefOk, Linked, Registering, AllRefs, Ready, Grown, SuccMap;
      ghost var g := SuccMap(K);
      RegisterStarts(x, K);
      NothingGrown(x, K);
      for i := 0 to |x.prev|
        invariant |x.prev| == |adds[x.name]| && Named(K) && Registering(x, i, K)
        invariant RefsOk(K - {x}, Some(x.name))
        invariant Grown(g, x, K)
      {
        NextName(x, i, K);
        var c := x.prev[i].name;
        if c in name2p {
          NamedIn(c, K);
          Attach(x, i, name2p[c], K, g);
        } else {
          Wait(x, i, K);
        }
      }
      RegisterEnds(x, K);
    }

    lemma NothingGrown(x: Node, K: set<Node>)
      ensures Grown(SuccMap(K), x, K)
    {
    }

    lemma NamedIn(c: Name, K: set<Node>)
      requires Named(K) && c in name2p
      ensures name2p[c] in K && name2p[c].name == c
    {
    }

    /** Every reference of `x` to a known name is resolved. */
    ghost predicate AllRefs(x: Node, K: set<Node>)
      reads this`name2p, this`adds, x`prev
    {
      x.name in adds && |x.prev| == |adds[x.name]| && forall i :: 0 <= i < |x.prev| ==> RefOk(x, i, K, None)
    }

    /** The position of the latest known cause, other than the node itself. */
    method LatestCause(x: Node, ghost K: set<Node>) returns (pos: int, ghost bound: nat, ghost a: int)
      requires x in K && RefsOk(K, Some(x.name)) && Listed(K - {x}) && SortedFrom(linear, 0) && x.indx == -1
      ensures 0 <= pos <= |linear| && (pos > 0 ==> pos < |linear| && linear[pos].rank < bound)
      ensures forall j :: 0 <= j < |x.prev| && x.prev[j].Known? && x.prev[j].node != x ==> x.prev[j].node.rank < bound
      ensures bound == 0 || (0 <= a < |x.prev| && x.prev[a].Known? && x.prev[a].node != x && bound == x.prev[a].node.rank + 1)
    {
      pos, bound, a := 0, 0, -1;
      for i := 0 to |x.prev|
        invariant 0 <= pos <= |linear|
        invariant if a == -1 then bound == 0 && pos == 0
                  else pos < |linear| && bound == linear[pos].rank + 1 && 0 <= a < i && x.prev[a] == Known(linear[pos]) && linear[pos] != x
        invariant forall j :: 0 <= j < i && x.prev[j].Known? && x.prev[j].node != x ==> x.prev[j].node.rank < bound
      {
        if x.prev[i].Known? {
          var p := x.prev[i].node;
          assert p in K && (p != x ==> p in K - {x} && p in linear);
          assert p != x && p.indx < pos ==> Before(linear[p.indx], linear[pos]);
          if p != x && p.indx >= pos {
            assert p.indx > pos ==> Before(linear[pos], linear[p.indx]);
            bound, a := p.rank + 1, i;
          }
          if p.indx > pos {
            pos := p.indx;
          }
        }
      }
    }

    /** Insert the new node in front of its latest known cause. */
    method InsertAtAnchor(x: Node, ghost K: set<Node>) returns (ghost bound: nat, ghost a: int)
      requires x in K && Named(K) && RefsOk(K, Some(x.name)) && Listed(K - {x}) && SortedFrom(linear, 0) && Recorded()
      requires x.indx == -1
      modifies this`linear, this`cmds, K`indx
      ensures Listed(K) && Recorded() && Ordered(linear, {x}, x, bound)
      ensures forall i :: 0 <= i < |x.prev| && x.prev[i].Known? && x.prev[i].node != x ==> x.prev[i].node.rank < bound
      ensures bound == 0 || (0 <= a < |x.prev| && x.prev[a].Known? && x.prev[a].node != x && bound == x.prev[a].node.rank + 1)
    {
      var pos: int;
      pos, bound, a := LatestCause(x, K);
      NewName(x, K);
      hide DistinctNames, Recorded, Ordered, RefsOk, SortedFrom, Inserted, Listed, Named;
      PlaceAt(x, pos, K, bound);
    }

    method PlaceAt(x: Node, pos: nat, ghost K: set<Node>, ghost bound: nat)
      requires x in K && Listed(K - {x}) && SortedFrom(linear, 0) && Recorded()
      requires forall k :: 0 <= k < |linear| ==> linear[k].name != x.name && linear[k] in K && linear[k] != x
      requires pos <= |linear| && (pos > 0 ==> pos < |linear| && linear[pos].rank < bound)
      modifies this`linear, this`cmds, K`indx
      ensures Listed(K) && Recorded() && Ordered(linear, {x}, x, bound)
    {
      hide DistinctNames, Recorded, Ordered, SortedFrom, Lists;
      ghost var s := linear;
      InsertedNames(s, pos, x, K);
      InsertedOrder(s, pos, x, bound);
      Members(K - {x});
      MakeRoom(pos, K);
      x.indx := pos;
      Insert(pos, x);
      IndexedAfterInsert(s, pos, x);
    }

    lemma Members(K: set<Node>)
      requires Lists(linear, K)
      ensures forall n :: n in linear ==> n in K
    {
    }

    lemma NewName(x: Node, K: set<Node>)
      requires x in K && Named(K) && Lists(linear, K - {x})
      ensures forall k :: 0 <= k < |linear| ==> linear[k].name != x.name && linear[k] in K && linear[k] != x
    {
      forall k | 0 <= k < |linear| ensures linear[k] in K - {x} && linear[k].name != x.name {
        assert linear[k] in linear;
      }
    }

    /** Everything from `pos` on moves one to the right. */
    method MakeRoom(pos: nat, ghost K: set<Node>)
      requires pos <= |linear| && Indexed(linear) && forall n :: n in linear ==> n in K
      modifies K`indx
      ensures forall k :: 0 <= k < |linear| ==> linear[k].indx == if k < pos then k else k + 1
    {
      for i := pos to |linear|
        invariant forall k :: 0 <= k < |linear| ==> linear[k].indx == if pos <= k < i then k + 1 else k
      {
        assert linear[i] in K;
        linear[i].indx := linear[i].indx + 1;
      }
    }

    /** Insert the edges to the known causes; an event without any rises from
        the start of the list. */
    method AnchorAll(x: Node, ghost K: set<Node>, ghost bound: nat, ghost a: int) returns (ok: bool)
      requires x in K && Listed(K) && Recorded() && Ordered(linear, {x}, x, bound) && NoMarks(K)
      requires x.rank == 0 && (x.succ == [] || LoopsFirst(x))
      requires forall i :: 0 <= i < |x.prev| && x.prev[i].Known? ==> x.prev[i].node in K && (x.prev[i].node != x ==> x.prev[i].node.rank < bound)
      requires bound == 0 || (0 <= a < |x.prev| && x.prev[a].Known? && x.prev[a].node != x && bound == x.prev[a].node.rank + 1)
      modifies this`linear, this`cmds, K`indx, K`vstd, K`cycl, x`rank
      ensures Recorded()
      ensures ok ==> Listed(K) && NoMarks(K) && SortedFrom(linear, 0) && x.rank == bound
      ensures ok ==> Known(x) !in x.prev
      ensures !ok ==> Known(x) in x.prev
    {
      hide Listed, Recorded, Ordered, NoMarks, SortedFrom;
      var noAnchor := true;
      for i := 0 to |x.prev|
        invariant Listed(K) && Recorded() && NoMarks(K)
        invariant Ordered(linear, {x}, x, bound) && (!noAnchor ==> Ordered(linear, {}, x, bound))
        invariant x.rank <= bound && (noAnchor ==> x.rank == 0)
        invariant noAnchor ==> forall j :: 0 <= j < i ==> x.prev[j].Unknown?
        invariant forall j :: 0 <= j < i && x.prev[j].Known? ==> x.prev[j].node != x && x.prev[j].node.rank < x.rank
      {
        if x.prev[i].Known? {
          ok := AnchorAt(x, x.prev[i].node, K, bound);
          if !ok {
            return;
          }
          noAnchor := false;
          AllowMisplaced(linear, x, bound);
        }
      }
      if noAnchor {
        RiseFromStart(x, K, bound);
      }
      OrderedIsSorted(linear, x, bound);
      ok := true;
    }

    /** An event without known causes rises, unless it is alone. */
    method RiseFromStart(x: Node, ghost K: set<Node>, ghost bound: nat)
      requires x in K && Listed(K) && Recorded() && Ordered(linear, {x}, x, bound)
      modifies this`linear, this`cmds, K`indx
      ensures Listed(K) && Recorded() && Ordered(linear, {}, x, bound)
    {
      hide Recorded, DistinctNames;
      if |linear| > 1 {
        RiseLast(this, x, {x}, K, x, bound);
        assert {x} - {x} == {};
      }
    }

    /** The first resolved cause of `x` is `x` itself. */
    ghost predicate LoopsFirst(x: Node)
      reads x`prev
    {
      exists i :: 0 <= i < |x.prev| && x.prev[i] == Known(x) && forall j :: 0 <= j < i ==> x.prev[j].Unknown?
    }

    method AnchorAt(x: Node, p: Node, ghost K: set<Node>, ghost bound: nat) returns (ok: bool)
      requires x in K && p in K && Listed(K) && Recorded() && Ordered(linear, {x}, x, bound) && NoMarks(K)
      requires x == p || (x.succ == [] && p.rank < bound)
      requires x.rank <= bound
      modifies this`linear, this`cmds, K`indx, K`vstd, p`cycl, x`rank
      ensures Recorded()
      ensures ok <==> x != p
      ensures ok ==> Listed(K) && NoMarks(K) && Ordered(linear, {}, x, bound)
      ensures ok ==> x.rank == if old(x.rank) > p.rank then old(x.rank) else p.rank + 1
    {
      hide Ordered, DistinctNames, Recorded;
      assert x != p ==> Wave.Climbs(SuccMap({x}), RankMap({x}));
      ok := AddEdgeToThePast(this, x, p, {x}, K, bound);
      if ok {
        assert SuccMap({x}) == map[x := []];
        Wave.SettledAlone(SuccMap({x}), x, p.rank, old(RankMap({x})), RankMap({x}));
      } else {
        Wave.ReachedInside(SuccMap({x}), x, p);
      }
    }

    // ------------------------------------------------------------- cycles

    /** An edge between nodes is an edge between the names that were added. */
    lemma EdgeOfNodes(p: Node, s: Node, K: set<Node>, open: Option<Name>)
      requires Named(K) && RefsOk(K, open) && SuccOk(K) && p in K && s in p.succ
      ensures s in K && Edge(adds, p.name, s.name)
    {
      assert Known(p) in s.prev;
      var i :| 0 <= i < |s.prev| && s.prev[i] == Known(p);
      assert RefOk(s, i, K, open);
    }

    lemma {:induction false} ChainOfPath(path: seq<Node>, K: set<Node>, open: Option<Name>)
      requires Named(K) && RefsOk(K, open) && SuccOk(K) && Wave.Path(SuccMap(K), path)
      ensures Chain(adds, Names(path))
      decreases |path|
    {
      var names := Names(path);
      assert names[..|names| - 1] == Names(path[..|path| - 1]);
      if |path| > 1 {
        ChainOfPath(path[..|path| - 1], K, open);
        assert path[|path| - 2] in K by {
          assert Wave.Path(SuccMap(K), path[..|path| - 1]);
        }
        EdgeOfNodes(path[|path| - 2], path[|path| - 1], K, open);
      }
    }

    /** If `x` is reached from an event that names it as a cause, the adds are cyclic. */
    lemma CycleFound(e: Node, x: Node, i: nat, K: set<Node>, open: Option<Name>)
      requires Named(K) && RefsOk(K, open) && SuccOk(K) && e in K && x in K
      requires i < |e.prev| && (e.prev[i] == Unknown(x.name) || e.prev[i] == Known(x))
      requires Wave.Reached(SuccMap(K), e, x)
      ensures HasCycle(adds)
    {
      var path :| Wave.Path(SuccMap(K), path) && path[0] == e && path[|path| - 1] == x;
      ChainOfPath(path, K, open);
      assert RefOk(e, i, K, open);
      var cycle := Names(path) + [e.name];
      assert cycle[..|cycle| - 1] == Names(path);
      assert IsCycle(adds, cycle);
    }

    // ---------------------------------------------- effects that came first

    /** The reference of `e` to the awaited cause is resolved. */
    method SetRef(x: Node, e: Node, i: nat, ghost K: set<Node>)
      requires x in K && e in K && Named(K) && RefsOk(K, Some(x.name)) && PendingOk(K, Some(x.name))
      requires i < |e.prev| && e.prev[i] == Unknown(x.name)
      modifies e`prev
      ensures RefsOk(K, Some(x.name)) && PendingOk(K, Some(x.name))
      ensures e.prev == old(e.prev)[i := Known(x)]
    {
      UpdateMember(e.prev, i, Known(x));
      e.prev := e.prev[i := Known(x)];
      assert RefsOk(K, Some(x.name)) by {
        hide PendingOk;
        forall n, j | n in K && 0 <= j < |n.prev| ensures RefOk(n, j, K, Some(x.name)) {
          assert old(RefOk(n, j, K, Some(x.name)));
        }
      }
      hide RefsOk;
      assert PendingOk(K, Some(x.name)) by {
        hide Named, RefOk;
        assert forall n, c :: n in K && old(Awaits(n, c)) && !(n == e && c == x.name) ==> Awaits(n, c);
      }
    }

    /** An awaited cause takes its place among the references of `e`. */
    method Link(x: Node, e: Node, i: nat, ghost K: set<Node>)
      requires x in K && e in K && Linked(K, x) && i < |e.prev| && e.prev[i] == Unknown(x.name)
      modifies this`tips, x`succ, e`prev
      ensures Linked(K, x)
      ensures e.prev == old(e.prev)[i := Known(x)] && x.succ == old(x.succ) + [e]
    {
      hide RefsOk, PendingOk, Named, SuccOk;
      LinkEdge(x, e, i, K);
      tips := tips - {x};
    }

    method LinkEdge(x: Node, e: Node, i: nat, ghost K: set<Node>)
      requires x in K && e in K && i < |e.prev| && e.prev[i] == Unknown(x.name)
      requires Named(K) && RefsOk(K, Some(x.name)) && SuccOk(K) && PendingOk(K, Some(x.name))
      modifies x`succ, e`prev
      ensures RefsOk(K, Some(x.name)) && SuccOk(K) && PendingOk(K, Some(x.name))
      ensures e.prev == old(e.prev)[i := Known(x)] && x.succ == old(x.succ) + [e]
    {
      hide RefsOk, PendingOk, Named;
      ghost var links := e.prev;
      x.succ := x.succ + [e];
      SetRef(x, e, i, K);
      EdgeJoined(old(x.succ), links, e, i, x);
      assert EdgeCounts(K) by {
        forall q, s | q in K && s in K ensures EdgeCount(q, s) {
          assert old(EdgeCount(q, s));
        }
      }
      hide EdgeCounts, EdgeCount;
    }

    /** The list is repaired for the edge from `e` to its awaited cause `x`, which
        is about to join the graph. */
    method RepairFor(x: Node, e: Node, ghost K: set<Node>, ghost g: map<Node, seq<Node>>, ghost rank0: map<Node, nat>)
      returns (ok: bool, ghost rank1: map<Node, nat>)
      requires x in K && e in K && Listed(K) && Recorded() && SortedFrom(linear, 0) && NoMarks(K)
      requires g == SuccMap(K) && rank0 == RankMap(K) && Wave.Ranked(g, rank0)
      modifies this`linear, this`cmds, K`indx, K`vstd, K`rank, x`cycl
      ensures Recorded() && rank1 == RankMap(K)
      ensures ok ==> Listed(K) && SortedFrom(linear, 0) && NoMarks(K)
      ensures ok ==> Wave.Ranked(g[x := g[x] + [e]], rank1)
      ensures !ok ==> Wave.Reached(g, e, x)
    {
      hide Ordered, DistinctNames, Recorded, SortedFrom, Wave.TightAt, Wave.Settled, Wave.Reached;
      SortedIsOrdered(linear, e);
      Wave.RankedClimbs(g, rank0);
      ok := AddEdgeToThePast(this, e, x, K, K, 0);
      rank1 := RankMap(K);
      if ok {
        OrderedIsSorted(linear, e, 0);
        assert SuccMap(K) == g;
        assert rank1[x] == rank0[x];
        Wave.EdgeJoins(g, g[x := g[x] + [e]], rank0, rank1, e, x);
      }
    }

    method ResolveOne(x: Node, e: Node, i: nat, ghost K: set<Node>) returns (ok: bool)
      requires x in K && e in K && Repaired(K, x) && Recorded()
      requires i < |e.prev| && e.prev[i] == Unknown(x.name)
      modifies this`linear, this`cmds, this`tips, K`indx, K`vstd, K`rank, x`cycl, x`succ, e`prev
      ensures Recorded()
      ensures ok ==> Repaired(K, x)
      ensures ok ==> e.prev == old(e.prev)[i := Known(x)]
      ensures !ok ==> HasCycle(adds)
    {
      hide Listed, Recorded, SortedFrom, Named, RefOk, RefsOk, SuccOk, PendingOk, TipsOk, NoMarks, Wave.Reached, HasCycle;
      ghost var g, rank1 := SuccMap(K), RankMap(K);
      ok, rank1 := RepairFor(x, e, K, g, rank1);
      if !ok {
        CycleFound(e, x, i, K, Some(x.name));
        return;
      }
      Link(x, e, i, K);
      assert SuccMap(K) == g[x := g[x] + [e]];
    }

    /** One effect that came before its cause `x` gets its edges. */
    method ResolveEffect(x: Node, e: Node, ghost K: set<Node>) returns (ok: bool)
      requires x in K && e in K && Repaired(K, x) && Recorded()
      modifies this`linear, this`cmds, this`tips, K`indx, K`vstd, K`rank, x`cycl, x`succ, e`prev
      ensures Recorded()
      ensures ok ==> Repaired(K, x) && !Awaits(e, x.name)
      ensures !ok ==> HasCycle(adds)
    {
      hide Repaired, Recorded, HasCycle;
      for i := 0 to |e.prev|
        invariant |e.prev| == old(|e.prev|)
        invariant Repaired(K, x) && Recorded()
        invariant forall j :: 0 <= j < i ==> e.prev[j] != Unknown(x.name)
      {
        if e.prev[i] != Unknown(x.name) {
          continue;
        }
        ok := ResolveOne(x, e, i, K);
        if !ok {
          return;
        }
      }
      ok := true;
    }

    lemma AwaitingListed(x: Node, K: set<Node>)
      requires Repaired(K, x)
      ensures x.name in pending ==> forall e :: e in pending[x.name] ==> e in K
      ensures forall e :: e in K && Awaits(e, x.name) ==> x.name in pending && e in pending[x.name]
    {
      hide Listed, SortedFrom, Wave.Ranked;
    }

    method DropPending(x: Node, ghost K: set<Node>)
      requires x in K && Repaired(K, x) && forall e :: e in K ==> !Awaits(e, x.name)
      modifies this`pending
      ensures Repaired(K, x) && x.name !in pending
    {
      hide Listed, SortedFrom, Wave.Ranked, RefsOk, SuccOk, TipsOk, Named, NoMarks, Awaits;
      pending := pending - {x.name};
    }

    /** Every effect that came before its cause `x` gets its edges. */
    method ResolvePending(x: Node, ghost K: set<Node>) returns (ok: bool)
      requires x in K && Repaired(K, x) && Recorded()
      modifies this`linear, this`cmds, this`tips, this`pending, K`indx, K`vstd, K`rank, K`prev, x`cycl, x`succ
      ensures Recorded()
      ensures ok ==> Repaired(K, x) && x.name !in pending && forall e :: e in K ==> !Awaits(e, x.name)
      ensures !ok ==> HasCycle(adds)
    {
      hide Repaired, Recorded, HasCycle, Awaits;
      AwaitingListed(x, K);
      if x.name in pending {
        var s := pending[x.name];
        for j := 0 to |s|
          invariant pending == old(pending) && Repaired(K, x) && Recorded()
          invariant forall k :: 0 <= k < j ==> !Awaits(s[k], x.name)
        {
          ok := ResolveEffect(x, s[j], K);
          if !ok {
            return;
          }
        }
        AwaitingListed(x, K);
        DropPending(x, K);
      }
      ok := true;
    }

    // -------------------------------------------------- the whole insertion

    lemma OpenName(x: Node, K: set<Node>)
      requires Linked(K, null) && x !in K
      ensures Named(K) && RefsOk(K, None) && SuccOk(K) && PendingOk(K, Some(x.name)) && TipsOk(K, x)
    {
      hide Named, RefsOk, SuccOk;
    }

    /** A node as its constructor leaves it. */
    ghost predicate Blank(x: Node, after: seq<Name>)
      reads x
    {
      && |x.prev| == |after| && (forall i :: 0 <= i < |after| ==> x.prev[i] == Unknown(after[i]))
      && x.succ == [] && !x.cycl && x.rank == 0 && x.indx == -1
    }

    method Enroll(x: Node, after: seq<Name>, ghost K: set<Node>)
      requires Linked(K, null) && x !in K && x.name !in name2p && x.name != [] && Blank(x, after)
      modifies this`name2p, this`adds
      ensures x.name !in old(adds) && adds == old(adds)[x.name := after]
      ensures Ready(x, K + {x})
    {
      hide SuccOk, PendingOk, TipsOk, Linked;
      OpenName(x, K);
      name2p := name2p[x.name := x];
      adds := adds[x.name := after];
      assert K + {x} - {x} == K;
      assert RefsOk(K, Some(x.name)) by {
        hide Named;
        forall n, i | n in K && 0 <= i < |n.prev| ensures RefOk(n, i, K, Some(x.name)) {
          assert old(RefOk(n, i, K, None));
        }
      }
      hide RefsOk, RefOk;
    }

    /** When nothing waits for `x` any more, everything is in place. */
    method Finish(x: Node, ghost K: set<Node>)
      requires x in K && Repaired(K, x) && x.name !in pending && forall e :: e in K ==> !Awaits(e, x.name)
      modifies this`tips
      ensures Repaired(K, null)
    {
      hide Listed, SortedFrom, Wave.Ranked, SuccOk;
      assert RefsOk(K, None) by {
        hide PendingOk, TipsOk;
        forall n, i | n in K && 0 <= i < |n.prev| ensures RefOk(n, i, K, None) {
          assert RefOk(n, i, K, Some(x.name));
          assert n.prev[i] != Unknown(x.name);
        }
      }
      assert PendingOk(K, None) by {
        hide RefsOk, TipsOk;
      }
      hide RefsOk, PendingOk, Named;
      if x.succ == [] {
        tips := tips + {x};
      }
    }

    /** `x` is linked to its known causes and waits for the others. */
    method Graft(x: Node, after: seq<Name>, ghost K: set<Node>)
      requires Linked(K, null) && x !in K && x.name !in name2p && x.name != [] && Blank(x, after)
      requires !SelfAfterKnown(adds, x.name, after)
      modifies this`name2p, this`adds, this`tips, this`pending, x`prev, x`succ, K`succ
      ensures adds == old(adds)[x.name := after]
      ensures Linked(K + {x}, x) && Grown(old(SuccMap(K))[x := []], x, K + {x})
      ensures x.succ == [] || LoopsFirst(x)
    {
      hide Linked, AllRefs, Grown, LoopsFirst, SelfAfterKnown, Blank;
      ghost var g := SuccMap(K)[x := []];
      GraftAny(x, after, K);
      FirstSelf(x, after, K + {x}, old(adds), g);
    }

    method GraftAny(x: Node, after: seq<Name>, ghost K: set<Node>)
      requires Linked(K, null) && x !in K && x.name !in name2p && x.name != [] && Blank(x, after)
      modifies this`name2p, this`adds, this`tips, this`pending, x`prev, x`succ, K`succ
      ensures adds == old(adds)[x.name := after] && x.name !in old(adds) && AllRefs(x, K + {x})
      ensures Linked(K + {x}, x) && Grown(old(SuccMap(K))[x := []], x, K + {x})
    {
      hide Linked, Ready, AllRefs, Grown;
      ghost var K1 := K + {x};
      ghost var g := SuccMap(K)[x := []];
      assert g == SuccMap(K1);
      Enroll(x, after, K);
      Register(x, K1);
    }

    /** After any number of turns the wave from `x` has not ended, nor come to `p`. */
    ghost predicate NeverEnds(x: Node, p: Node, K: set<Node>)
      reads p, K
    {
      forall k: nat {:trigger Wave.Run(SuccMap(K), p.rank, Wave.State(RankMap(K), [[x]], {}), k)} ::
        var u := Wave.Run(SuccMap(K), p.rank, Wave.State(RankMap(K), [[x]], {}), k);
        u.out != [] && Wave.Busy(u) && Wave.Next(u) == x
    }

    /** What `Add` excludes: the first edge of such an event leads to a cause `p` other
        than itself, and the wave along it never comes to an end, nor to `p`. */
    method GraftDiverges(x: Node, after: seq<Name>, ghost K: set<Node>) returns (ghost p: Node, ghost i: nat)
      requires Linked(K, null) && x !in K && x.name !in name2p && x.name != [] && Blank(x, after)
      requires SelfAfterKnown(adds, x.name, after)
      modifies this`name2p, this`adds, this`tips, this`pending, x`prev, x`succ, K`succ
      ensures p in K && i < |x.prev| && x.prev[i] == Known(p) && forall j :: 0 <= j < i ==> x.prev[j].Unknown?
      ensures NeverEnds(x, p, K + {x})
    {
      hide Linked, AllRefs, Grown, SelfAfterKnown;
      ghost var g := SuccMap(K)[x := []];
      GraftAny(x, after, K);
      p, i := FirstKnown(x, after, K + {x}, old(adds), g);
      LoopStands(x, after, K + {x}, old(adds), g);
      hide Blank;
      forall k: nat {:trigger Wave.Run(SuccMap(K + {x}), p.rank, Wave.State(RankMap(K + {x}), [[x]], {}), k)}
        ensures var u := Wave.Run(SuccMap(K + {x}), p.rank, Wave.State(RankMap(K + {x}), [[x]], {}), k);
          u.out != [] && Wave.Busy(u) && Wave.Next(u) == x
      {
        Wave.SelfLoopRunsForever(SuccMap(K + {x}), x, p.rank, RankMap(K + {x}), k);
      }
    }

    lemma FirstKnown(x: Node, after: seq<Name>, K: set<Node>, before: Adds, g: map<Node, seq<Node>>) returns (p: Node, i: nat)
      requires x in K && Linked(K, x) && AllRefs(x, K) && adds == before[x.name := after] && x.name !in before
      requires SelfAfterKnown(before, x.name, after)
      ensures p in K && p != x && i < |x.prev| && x.prev[i] == Known(p) && forall j :: 0 <= j < i ==> x.prev[j].Unknown?
    {
      var j :| 0 <= j < |after| && after[j] in before && x.name !in after[..j] && x.name in after[j..];
      i := 0;
      while i < j && x.prev[i].Unknown?
        invariant i <= j < |x.prev| && forall k :: 0 <= k < i ==> x.prev[k].Unknown?
      {
        i := i + 1;
      }
      assert RefOk(x, i, K, None) && RefOk(x, j, K, None);
      assert x.prev[i] in x.prev;
      assert i < j ==> after[i] in after[..j];
      p := x.prev[i].node;
    }

    lemma LoopStands(x: Node, after: seq<Name>, K: set<Node>, before: Adds, g: map<Node, seq<Node>>)
      requires x in K && Linked(K, x) && AllRefs(x, K) && adds == before[x.name := after] && x.name !in before
      requires x in g && g[x] == [] && Grown(g, x, K) && SelfAfterKnown(before, x.name, after)
      ensures x.succ != [] && forall s :: s in x.succ ==> s == x
    {
      var j :| 0 <= j < |after| && after[j] in before && x.name !in after[..j] && x.name in after[j..];
      var m :| 0 <= m < |after[j..]| && after[j..][m] == x.name;
      assert after[j + m] == x.name;
      assert RefOk(x, j + m, K, None);
      assert x.prev[j + m] in x.prev;
      assert x in x.succ;
    }

    /** If `x` names itself, it does so before it names any known cause. */
    lemma FirstSelf(x: Node, after: seq<Name>, K: set<Node>, before: Adds, g: map<Node, seq<Node>>)
      requires x in K && Linked(K, x) && AllRefs(x, K) && adds == before[x.name := after] && x.name !in before
      requires x in g && g[x] == [] && Grown(g, x, K) && !SelfAfterKnown(before, x.name, after)
      ensures x.succ == [] || LoopsFirst(x)
    {
      HeadIn(x.succ);
      assert x.succ != [] ==> Known(x) in x.prev;
      if Known(x) in x.prev {
        assert Named(K) && forall r :: r in x.prev && r.Known? ==> r.node in K;
        hide Grown, Linked;
        var i := FirstIndex(x.prev, Known(x));
        NamesItself(x, after, K, before, i);
      }
    }

    lemma NamesItself(x: Node, after: seq<Name>, K: set<Node>, before: Adds, i: nat)
      requires x in K && Named(K) && (forall r :: r in x.prev && r.Known? ==> r.node in K)
      requires AllRefs(x, K) && adds == before[x.name := after] && x.name !in before
      requires i < |x.prev| && x.prev[i] == Known(x) && forall j :: 0 <= j < i ==> x.prev[j] != Known(x)
      requires !SelfAfterKnown(before, x.name, after)
      ensures LoopsFirst(x)
    {
      assert RefOk(x, i, K, None);
      forall j | 0 <= j < i ensures after[j] != x.name && (x.prev[j].Known? ==> after[j] in before) {
        assert RefOk(x, j, K, None) && x.prev[j] in x.prev;
      }
      forall j | 0 <= j < i ensures after[j] !in before {
        assert after[j..][i - j] == x.name && x.name !in after[..j];
      }
    }

    /** `x` gets the rank and the place that its known causes demand. */
    method Place(x: Node, ghost K: set<Node>, ghost g0: map<Node, seq<Node>>, ghost rank0: map<Node, nat>) returns (ok: bool)
      requires x in K && Linked(K, x) && NoMarks(K) && Listed(K - {x}) && SortedFrom(linear, 0) && Recorded()
      requires g0.Keys == rank0.Keys == K - {x} && Wave.Ranked(g0, rank0) && Grown(g0[x := []], x, K)
      requires forall n :: n in K - {x} ==> n.rank == rank0[n]
      requires x.rank == 0 && x.indx == -1 && (x.succ == [] || LoopsFirst(x))
      modifies this`linear, this`cmds, x`rank, K`indx, K`vstd, K`cycl
      ensures Recorded()
      ensures ok ==> Repaired(K, x)
      ensures !ok ==> HasCycle(adds)
    {
      hide Recorded, DistinctNames, Indexed, Ordered, SortedFrom, NoMarks, Named, RefOk, SuccOk, PendingOk, TipsOk, Grown, LoopsFirst, Wave.Ranked, SuccMap, RankMap, HasCycle;
      ghost var bound, a := InsertAtAnchor(x, K);
      ok := AnchorAll(x, K, bound, a);
      if ok {
        RankNewest(x, K, g0, rank0, bound, a);
      } else {
        SelfCause(x, K);
      }
    }

    lemma RankNewest(x: Node, K: set<Node>, g0: map<Node, seq<Node>>, rank0: map<Node, nat>, bound: nat, a: int)
      requires x in K && SuccOk(K) && Known(x) !in x.prev && x.rank == bound
      requires g0.Keys == rank0.Keys == K - {x} && Wave.Ranked(g0, rank0) && Grown(g0[x := []], x, K)
      requires forall n :: n in K - {x} ==> n.rank == rank0[n]
      requires forall i :: 0 <= i < |x.prev| && x.prev[i].Known? && x.prev[i].node != x ==> x.prev[i].node in K && x.prev[i].node.rank < bound
      requires bound == 0 || (0 <= a < |x.prev| && x.prev[a].Known? && x.prev[a].node != x && bound == x.prev[a].node.rank + 1)
      ensures Wave.Ranked(SuccMap(K), RankMap(K))
    {
      hide EdgeCounts, Wave.Ranked;
      var g := SuccMap(K);
      HeadIn(x.succ);
      assert Wave.Extends(g0, g, x);
      forall p | p in g0 && x in g[p] ensures rank0[p] < bound {
        assert Known(p) in x.prev;
      }
      if bound != 0 {
        var p := x.prev[a].node;
        assert Known(p) in x.prev && p in g0 && x in g[p];
      }
      Wave.NewestJoins(g0, rank0, g, x, bound);
      assert RankMap(K) == rank0[x := bound];
    }

    /** `x` joins its known causes. */
    method Anchor(x: Node, after: seq<Name>, ghost K: set<Node>) returns (ok: bool)
      requires Repaired(K, null) && Recorded() && x !in K && x.name !in name2p && x.name != [] && Blank(x, after)
      requires !SelfAfterKnown(adds, x.name, after)
      modifies this`linear, this`cmds, this`name2p, this`adds, this`tips, this`pending, K, x
      ensures Recorded() && adds == old(adds)[x.name := after]
      ensures ok ==> Repaired(K + {x}, x)
      ensures !ok ==> HasCycle(adds)
    {
      hide Linked, Recorded, HasCycle, SortedFrom, Indexed, DistinctNames, Wave.Climbs, Wave.TightAt, SelfAfterKnown, LoopsFirst, Grown;
      assert K + {x} - {x} == K;
      ghost var g0, rank0 := SuccMap(K), RankMap(K);
      Graft(x, after, K);
      ok := Place(x, K + {x}, g0, rank0);
    }

    /** The node `x`, just created, takes its place in the graph and in the list. */
    method Enter(x: Node, after: seq<Name>, ghost K: set<Node>) returns (ok: bool)
      requires Repaired(K, null) && Recorded() && x !in K && x.name !in name2p && x.name != [] && Blank(x, after)
      requires !SelfAfterKnown(adds, x.name, after)
      modifies this`linear, this`cmds, this`name2p, this`adds, this`tips, this`pending, K, x
      ensures Recorded() && adds == old(adds)[x.name := after]
      ensures ok ==> Repaired(K + {x}, null)
      ensures !ok ==> HasCycle(adds)
    {
      hide Repaired, Recorded, HasCycle, Awaits, Blank, SelfAfterKnown;
      ok := Anchor(x, after, K);
      if ok {
        ok := ResolvePending(x, K + {x});
      }
      if ok {
        Finish(x, K + {x});
      }
    }

    lemma SelfCause(x: Node, K: set<Node>)
      requires x in K && Named(K) && RefsOk(K, Some(x.name)) && Known(x) in x.prev
      ensures HasCycle(adds)
    {
      var i :| 0 <= i < |x.prev| && x.prev[i] == Known(x);
      assert RefOk(x, i, K, Some(x.name));
      assert Chain(adds, [x.name, x.name]) by {
        assert [x.name, x.name][..1] == [x.name];
      }
      assert IsCycle(adds, [x.name, x.name]);
    }

    /** The compressed stream of update commands: a move that picks an event up
        where the last command put it down is merged into that command. */
    method Notify()
      requires notify && Recorded()
      modifies this`notified
      ensures old(notified) <= notified
      ensures Replay(notified[|old(notified)|..], base) == Some(Names(linear))
    {
      hide Names, Replay, Apply;
      var pend: Option<Cmd> := None;
      ghost var sent: seq<Cmd> := [];
      assert cmds[..|cmds|] == cmds;
      for i := 0 to |cmds|
        invariant notified == old(notified) + sent
        invariant pend == None ==> sent == [] && i == 0
        invariant Replay(cmds[..i], base) == Replay(if pend == None then sent else sent + [pend.value], base)
      {
        var c := cmds[i];
        ReplayNext(cmds, i, base);
        if pend.Some? {
          ReplayPrefix(cmds, i + 1, base);
          ReplayOne(sent + [pend.value], c, base);
          if c.Mov? && Target(pend.value) == c.from {
            MergeCorrect(sent, pend.value, c, base);
            pend := Some(Retarget(pend.value, c.to));
            continue;
          }
          notified := notified + [pend.value];
          sent := sent + [pend.value];
        }
        ReplayOne(sent, c, base);
        pend := Some(c);
      }
      if pend.Some? {
        notified := notified + [pend.value];
        sent := sent + [pend.value];
      }
      assert notified[|old(notified)|..] == sent;
    }

    // --------------------------------------------- what the timeline means

    ghost function Ranks(): map<Name, nat>
      reads this`name2p, name2p.Values`rank
    {
      map nm | nm in name2p :: name2p[nm].rank
    }

    lemma RanksAt(i: nat)
      requires Valid() && i < |linear|
      ensures linear[i].name in Ranks() && Ranks()[linear[i].name] == linear[i].rank
    {
      hide Wave.Ranked, NoMarks, SortedFrom;
      assert linear[i] in Nodes();
    }

    ghost function TipNames(): set<Name>
      reads this`tips
    {
      set t | t in tips :: t.name
    }

    /** An edge between known names is an edge between their nodes. */
    lemma NodesOfEdge(c: Name, e: Name, K: set<Node>)
      requires Linked(K, null) && Edge(adds, c, e)
      ensures c in name2p && e in name2p && name2p[c] in K && name2p[e] in K && name2p[e] in name2p[c].succ
    {
      var n := name2p[e];
      var i :| 0 <= i < |adds[e]| && adds[e][i] == c;
      assert RefOk(n, i, K, None);
      assert n.prev[i] in n.prev;
    }

    lemma EffectsOutrank(p: Node, n: Node, K: set<Node>)
      requires Wave.Ranked(SuccMap(K), RankMap(K)) && p in K && n in p.succ
      ensures p.rank < n.rank
    {
      Wave.RankedEdge(SuccMap(K), RankMap(K), p, n);
    }

    lemma RanksIncrease(K: set<Node>)
      requires Repaired(K, null)
      ensures Increasing(adds, Ranks())
    {
      hide Named, SuccOk, PendingOk, TipsOk, RefsOk, SortedFrom, DistinctNames, Indexed, Lists, Wave.Ranked, NoMarks;
      NameKeys(K);
      forall c, e | Edge(adds, c, e) ensures Ranks()[c] < Ranks()[e] {
        NodesOfEdge(c, e, K);
        EffectsOutrank(name2p[c], name2p[e], K);
      }
    }

    lemma NameKeys(K: set<Node>)
      requires Named(K)
      ensures adds.Keys == name2p.Keys == Ranks().Keys
    {
    }

    lemma RanksTight(K: set<Node>)
      requires Repaired(K, null)
      ensures Tight(adds, Ranks())
    {
      forall e | e in adds ensures TightAt(adds, Ranks(), e) {
        var n := name2p[e];
        assert Wave.TightAt(SuccMap(K), RankMap(K), n);
        if n.rank != 0 {
          var p :| p in K && n in p.succ && n.rank == p.rank + 1;
          EdgeOfNodes(p, n, K, None);
        }
      }
    }

    lemma TipsAreLast(K: set<Node>)
      requires Linked(K, null)
      ensures forall t :: t in TipNames() <==> t in adds && !HasEffect(adds, t)
    {
      forall t | t in adds ensures name2p[t] in tips <==> !HasEffect(adds, t) {
        var n := name2p[t];
        HeadIn(n.succ);
        if n.succ != [] {
          EdgeOfNodes(n, n.succ[0], K, None);
        }
        if HasEffect(adds, t) {
          var e :| Edge(adds, t, e);
          NodesOfEdge(t, e, K);
        }
      }
      forall t | t in TipNames() ensures t in adds && name2p[t] in tips {
        var n :| n in tips && n.name == t;
      }
    }

    lemma NamesSorted(K: set<Node>)
      requires Named(K) && Lists(linear, K) && SortedFrom(linear, 0)
      ensures StrictlySorted(Names(linear), Ranks())
      ensures forall n :: n in Names(linear) <==> n in adds
    {
      var names := Names(linear);
      assert forall i :: 0 <= i < |linear| ==> linear[i] in linear;
      forall i, j | 0 <= i < j < |names| ensures KeyLess(Ranks()[names[i]], names[i], Ranks()[names[j]], names[j]) {
        assert Before(linear[i], linear[j]);
      }
      forall n | n in adds ensures n in names {
        var i :| 0 <= i < |linear| && linear[i] == name2p[n];
        assert names[i] == n;
      }
    }

    /** A repaired timeline is the timeline of what was added, and that is acyclic. */
    lemma ValidIsTimeline()
      requires Valid()
      ensures IsTimeline(adds, Names(linear), Ranks(), TipNames()) && !HasCycle(adds)
    {
      var K := Nodes();
      hide RefsOk, SuccOk, PendingOk, TipsOk, Wave.Ranked, Increasing, Tight, HasCycle, IsLongest, HasEffect;
      RanksIncrease(K);
      RanksTight(K);
      IncreasingIsAcyclic(adds, Ranks());
      forall n | n in adds ensures IsLongest(adds, n, Ranks()[n]) {
        RankIsLongest(adds, Ranks(), n);
      }
      TipsAreLast(K);
      NamesSorted(K);
    }

    lemma ValidAcyclic()
      requires Valid()
      ensures !HasCycle(adds)
    {
      hide IsTimeline;
      ValidIsTimeline();
    }

    lemma NowValid(K: set<Node>)
      requires Repaired(K, null)
      ensures Valid() && Nodes() == K
    {
      assert Nodes() == K;
    }

    // ------------------------------------------------------------------ add

    /** `add`: an event `nm` with the names of its causes. An empty name is ignored. */
    method Add(nm: Name, after: seq<Name>) returns (r: Outcome)
      requires Valid()
      requires nm != [] && nm !in adds ==> !SelfAfterKnown(adds, nm, after)
      modifies this, linear
      ensures r == KeyError <==> nm != [] && nm in old(adds)
      ensures r == CycleError <==> nm != [] && nm !in old(adds) && HasCycle(old(adds)[nm := after])
      ensures r != CycleError ==> Valid()
      ensures r != CycleError ==> adds == if nm == [] || nm in old(adds) then old(adds) else old(adds)[nm := after]
      ensures r != CycleError ==> forall n :: n in linear ==> n in old(linear) || fresh(n)
      ensures notify == old(notify) && old(notified) <= notified
      ensures r == Done && notify ==> Replay(notified[|old(notified)|..], Names(old(linear))) == Some(Names(linear))
    {
      hide Repaired, HasCycle, SelfAfterKnown, Names;
      cmds := [];
      base := Names(linear);
      NamedKeys();
      if nm == [] {
        r := Done;
      } else if nm in name2p {
        return KeyError;
      } else {
        r := AddNew(nm, after);
        if r == CycleError {
          return;
        }
      }
      if notify {
        Notify();
      }
    }

    lemma NamedKeys()
      requires Valid()
      ensures adds.Keys == name2p.Keys
    {
    }

    /** The events that `Add` excludes. */
    method AddDiverges(nm: Name, after: seq<Name>) returns (ghost x: Node, ghost p: Node, ghost K: set<Node>)
      requires Valid() && nm != [] && nm !in adds && SelfAfterKnown(adds, nm, after)
      modifies this, linear
      ensures p in K && K == set n | n in linear
      ensures x !in K && x.name == nm && Known(p) in x.prev && NeverEnds(x, p, K + {x})
    {
      hide NeverEnds, SelfAfterKnown, Linked;
      K := Nodes();
      NamedKeys();
      var y := new Node(nm, after);
      ghost var i;
      p, i := GraftDiverges(y, after, K);
      x := y;
    }

    /** The constructor of a node, from the second line on. */
    method AddNew(nm: Name, after: seq<Name>) returns (r: Outcome)
      requires Valid() && Recorded() && nm != [] && nm !in name2p && nm !in adds && !SelfAfterKnown(adds, nm, after)
      modifies this`linear, this`cmds, this`name2p, this`adds, this`tips, this`pending, linear
      ensures r != KeyError && Recorded()
      ensures r == CycleError <==> HasCycle(old(adds)[nm := after])
      ensures r == Done ==> Valid() && adds == old(adds)[nm := after]
      ensures r == Done ==> forall n :: n in linear ==> n in old(linear) || fresh(n)
    {
      hide Repaired, Recorded, HasCycle, SelfAfterKnown;
      ghost var K := Nodes();
      var x := new Node(nm, after);
      var ok := Enter(x, after, K);
      if ok {
        NowValid(K + {x});
        ValidAcyclic();
        forall n | n in linear ensures n in old(linear) || fresh(n) {
          assert n in Nodes();
        }
        r := Done;
      } else {
        r := CycleError;
      }
    }

    constructor (notify: bool)
      ensures Valid() && adds == map[] && linear == [] && notified == [] && this.notify == notify
    {
      linear, name2p, pending, tips := [], map[], map[], {};
      this.notify, cmds, notified := notify, [], [];
      base, adds := [], map[];
    }

    /** The commands noted down during this add lead from the old list to the new. */
    ghost predicate Recorded()
      reads this`linear, this`cmds, this`notify, this`base
    {
      notify ==> Replay(cmds, base) == Some(Names(linear))
    }

    method Insert(pos: nat, h: Node)
      requires pos <= |linear| && Recorded()
      modifies this`linear, this`cmds
      ensures linear == Inserted(old(linear), pos, h)
      ensures Recorded()
    {
      linear := linear[..pos] + [h] + linear[pos..];
      if notify {
        cmds := cmds + [Ins(h.name, pos)];
        assert cmds[..|cmds| - 1] == old(cmds);
        assert Names(linear) == Names(old(linear))[..pos] + [h.name] + Names(old(linear))[pos..];
      }
    }

    method Move(from: nat, to: nat)
      requires from < to < |linear| && Recorded()
      modifies this`linear, this`cmds
      ensures linear == Moved(old(linear), from, to)
      ensures Recorded()
    {
      var h := linear[from];
      linear := linear[..from] + linear[from + 1..];
      linear := linear[..to] + [h] + linear[to..];
      if notify {
        cmds := cmds + [Mov(from, to)];
        assert cmds[..|cmds| - 1] == old(cmds);
        ghost var l := Names(old(linear));
        assert Names(linear) == (l[..from] + l[from + 1..])[..to] + [l[from]] + (l[..from] + l[from + 1..])[to..];
      }
    }
  }
}
