/** The search that pushes ranks along the event graph, on values: `g` maps each
    node of a region to its effects. The explicit stack of lists is seen as the
    set of its entries, each with the level it waits on. */
module Wave {

  datatype Item<V> = At(v: V, level: nat)

  datatype Search<V> = Search(rank: map<V, nat>, todo: set<Item<V>>, visited: set<V>)

  /** What the invariant is relative to: the region, where the wave starts, the
      rank it must exceed, the ranks before the search, and a ceiling. */
  datatype Setting<V> = Setting(g: map<V, seq<V>>, start: V, rnk: nat, rank0: map<V, nat>, top: nat)

  /** Ranks grow along every edge, and edges stay inside the region. */
  ghost predicate Climbs<V>(g: map<V, seq<V>>, rank: map<V, nat>) {
    && rank.Keys == g.Keys
    && forall n, e :: n in g && e in g[n] ==> e in g && rank[n] < rank[e]
  }

  ghost predicate Reached<V>(g: map<V, seq<V>>, start: V, v: V) {
    exists path :: Path(g, path) && path[0] == start && path[|path| - 1] == v
  }

  ghost predicate Path<V>(g: map<V, seq<V>>, older path: seq<V>) {
    && path != [] && path[|path| - 1] in g
    && (|path| > 1 ==> Path(g, path[..|path| - 1]) && path[|path| - 1] in g[path[|path| - 2]])
  }

  lemma ReachedSelf<V>(g: map<V, seq<V>>, v: V)
    requires v in g
    ensures Reached(g, v, v)
  {
    assert Path(g, [v]);
  }

  lemma ReachedNext<V>(g: map<V, seq<V>>, start: V, v: V, e: V)
    requires Reached(g, start, v) && v in g && e in g[v] && e in g
    ensures Reached(g, start, e)
  {
    var path :| Path(g, path) && path[0] == start && path[|path| - 1] == v;
    var longer := path + [e];
    assert longer[..|longer| - 1] == path;
    assert Path(g, longer);
  }

  // ------------------------------------------------------------ invariant

  ghost predicate Framed<V>(c: Setting<V>, s: Search<V>) {
    && Climbs(c.g, c.rank0) && c.start in c.g
    && s.rank.Keys == c.g.Keys && s.visited <= c.g.Keys
    && (forall n :: n in c.g ==> c.rnk + c.rank0[n] < c.top)
    && (forall n :: n in c.g ==> c.rank0[n] <= s.rank[n] <= c.top)
    && (forall n :: n in c.g && n !in s.visited ==> s.rank[n] == c.rank0[n])
  }

  /** An entry is reached from the start, by a cause whose rank it must exceed. */
  ghost predicate ItemOk<V>(c: Setting<V>, rank: map<V, nat>, it: Item<V>)
    requires c.rank0.Keys == c.g.Keys == rank.Keys
  {
    && it.v in c.g && Reached(c.g, c.start, it.v)
    && 1 <= it.level <= c.rank0[it.v] + 1
    && ((it.v == c.start && it.level == 1) || Owed(c.g, rank, it.v, c.rnk + it.level))
  }

  /** Some cause of `n` already has rank `r - 1` or more. */
  ghost predicate Owed<V>(g: map<V, seq<V>>, rank: map<V, nat>, n: V, r: int)
    requires rank.Keys == g.Keys
  {
    exists p :: p in g && n in g[p] && r <= rank[p] + 1
  }

  ghost predicate ItemInv<V>(c: Setting<V>, s: Search<V>)
    requires Framed(c, s)
  {
    forall it {:trigger ItemOk(c, s.rank, it)} :: it in s.todo ==> ItemOk(c, s.rank, it)
  }

  /** `e` will still be lifted above rank `r`. */
  ghost predicate Waiting<V>(rnk: nat, todo: set<Item<V>>, e: V, r: nat) {
    exists it :: it in todo && it.v == e && r < rnk + it.level
  }

  ghost predicate EdgeOk<V>(c: Setting<V>, s: Search<V>, n: V, e: V)
    requires Framed(c, s) && n in c.g && e in c.g[n]
  {
    s.rank[n] < s.rank[e] || Waiting(c.rnk, s.todo, e, s.rank[n])
  }

  /** Every edge is climbed by the ranks, or its effect still waits. */
  ghost predicate EdgeInv<V>(c: Setting<V>, s: Search<V>)
    requires Framed(c, s)
  {
    && (forall n, e {:trigger EdgeOk(c, s, n, e)} :: n in c.g && e in c.g[n] ==> EdgeOk(c, s, n, e))
    && (s.rank[c.start] > c.rnk || At(c.start, 1) in s.todo)
    && (c.start in s.visited || At(c.start, 1) in s.todo)
  }

  /** A rank that moved is at most one above some cause's rank. */
  ghost predicate PushInv<V>(c: Setting<V>, s: Search<V>)
    requires Framed(c, s)
  {
    forall n {:trigger PushOk(c, s, n)} :: n in c.g ==> PushOk(c, s, n)
  }

  ghost predicate PushOk<V>(c: Setting<V>, s: Search<V>, n: V)
    requires Framed(c, s) && n in c.g
  {
    || s.rank[n] == c.rank0[n]
    || (n == c.start && s.rank[n] <= c.rnk + 1)
    || Owed(c.g, s.rank, n, s.rank[n])
  }

  ghost predicate Inv<V>(c: Setting<V>, s: Search<V>) {
    Framed(c, s) && ItemInv(c, s) && EdgeInv(c, s) && PushInv(c, s)
  }

  lemma Initially<V>(c: Setting<V>)
    requires Climbs(c.g, c.rank0) && c.start in c.g
    requires forall n :: n in c.g ==> c.rnk + c.rank0[n] < c.top
    ensures Inv(c, Search(c.rank0, {At(c.start, 1)}, {}))
  {
    ReachedSelf(c.g, c.start);
  }

  // ------------------------------------------------------------- one step

  /** An entry whose node already has the rank it asks for is dropped; some other
      occurrence of the same entry may remain on the stack. */
  ghost predicate Skips<V>(c: Setting<V>, s: Search<V>, it: Item<V>, t: Search<V>)
    requires Framed(c, s)
  {
    && it in s.todo && it.v in c.g && s.rank[it.v] >= c.rnk + it.level
    && t == s.(todo := t.todo, visited := s.visited + {it.v})
    && s.todo - {it} <= t.todo <= s.todo
  }

  /** The node of an entry is lifted, and its effects are pushed. */
  ghost predicate Lifts<V>(c: Setting<V>, s: Search<V>, it: Item<V>, t: Search<V>)
    requires Framed(c, s)
  {
    && it in s.todo && it.v in c.g && s.rank[it.v] < c.rnk + it.level
    && t.rank == s.rank[it.v := c.rnk + it.level] && t.visited == s.visited + {it.v}
    && s.todo - {it} <= t.todo
    && (forall e :: e in c.g[it.v] ==> At(e, it.level + 1) in t.todo)
    && (forall x :: x in t.todo ==> x in s.todo || (x.v in c.g[it.v] && x.level == it.level + 1))
  }

  lemma SkipKeeps<V>(c: Setting<V>, s: Search<V>, it: Item<V>, t: Search<V>)
    requires Inv(c, s) && Skips(c, s, it, t)
    ensures Inv(c, t)
  {
    forall x | x in t.todo ensures ItemOk(c, t.rank, x) {
      assert ItemOk(c, s.rank, x);
    }
    forall n, e | n in c.g && e in c.g[n] ensures EdgeOk(c, t, n, e) {
      assert EdgeOk(c, s, n, e);
      if Waiting(c.rnk, s.todo, e, s.rank[n]) && s.rank[n] >= s.rank[e] {
        var x :| x in s.todo && x.v == e && s.rank[n] < c.rnk + x.level;
        assert x in t.todo;
      }
    }
    forall n | n in c.g ensures PushOk(c, t, n) {
      assert PushOk(c, s, n);
    }
  }

  lemma OwedGrows<V>(g: map<V, seq<V>>, rank: map<V, nat>, more: map<V, nat>, n: V, r: int)
    requires rank.Keys == g.Keys == more.Keys && (forall p :: p in g ==> rank[p] <= more[p])
    requires Owed(g, rank, n, r)
    ensures Owed(g, more, n, r)
  {
    var p :| p in g && n in g[p] && r <= rank[p] + 1;
    assert r <= more[p] + 1;
  }

  lemma LiftKeepsFrame<V>(c: Setting<V>, s: Search<V>, it: Item<V>, t: Search<V>)
    requires Inv(c, s) && Lifts(c, s, it, t)
    ensures Framed(c, t)
  {
    assert ItemOk(c, s.rank, it);
  }

  lemma LiftKeepsItems<V>(c: Setting<V>, s: Search<V>, it: Item<V>, t: Search<V>)
    requires Inv(c, s) && Lifts(c, s, it, t) && Framed(c, t)
    ensures ItemInv(c, t)
  {
    forall x | x in t.todo
      ensures ItemOk(c, t.rank, x)
    {
      if x in s.todo {
        assert ItemOk(c, s.rank, x);
        if Owed(c.g, s.rank, x.v, c.rnk + x.level) {
          OwedGrows(c.g, s.rank, t.rank, x.v, c.rnk + x.level);
        }
      } else {
        assert ItemOk(c, s.rank, it);
        ReachedNext(c.g, c.start, it.v, x.v);
        assert c.rnk + x.level <= t.rank[it.v] + 1;
      }
    }
  }

  lemma LiftKeepsEdges<V>(c: Setting<V>, s: Search<V>, it: Item<V>, t: Search<V>)
    requires Inv(c, s) && Lifts(c, s, it, t) && Framed(c, t)
    ensures EdgeInv(c, t)
  {
    forall n, e | n in c.g && e in c.g[n] ensures EdgeOk(c, t, n, e) {
      assert EdgeOk(c, s, n, e);
      if n == it.v {
        assert At(e, it.level + 1) in t.todo;
      } else if s.rank[n] >= s.rank[e] {
        var x :| x in s.todo && x.v == e && s.rank[n] < c.rnk + x.level;
        assert x in t.todo || x == it;
      }
    }
  }

  lemma LiftKeepsPushes<V>(c: Setting<V>, s: Search<V>, it: Item<V>, t: Search<V>)
    requires Inv(c, s) && Lifts(c, s, it, t) && Framed(c, t)
    ensures PushInv(c, t)
  {
    forall n | n in c.g ensures PushOk(c, t, n) {
      assert PushOk(c, s, n);
      assert n == it.v ==> ItemOk(c, s.rank, it);
      if Owed(c.g, s.rank, n, t.rank[n]) {
        OwedGrows(c.g, s.rank, t.rank, n, t.rank[n]);
      }
    }
  }

  lemma LiftKeeps<V>(c: Setting<V>, s: Search<V>, it: Item<V>, t: Search<V>)
    requires Inv(c, s) && Lifts(c, s, it, t)
    ensures Inv(c, t)
  {
    LiftKeepsFrame(c, s, it, t);
    LiftKeepsItems(c, s, it, t);
    LiftKeepsEdges(c, s, it, t);
    LiftKeepsPushes(c, s, it, t);
  }

  /** The rank of `n` did not move, or it is exactly what one cause demands. */
  ghost predicate Demanded<V>(g: map<V, seq<V>>, start: V, rnk: nat, rank0: map<V, nat>, rank: map<V, nat>, n: V)
    requires rank0.Keys == g.Keys == rank.Keys && n in g
  {
    || rank[n] == rank0[n]
    || (n == start && rank[n] == rnk + 1)
    || exists p :: p in g && n in g[p] && rank[n] == rank[p] + 1
  }

  /** The ranks climb every edge, the start has left its cause of rank `rnk`
      behind, and no rank is larger than demanded. */
  ghost predicate Settled<V>(g: map<V, seq<V>>, start: V, rnk: nat, rank0: map<V, nat>, rank: map<V, nat>) {
    && rank0.Keys == g.Keys && Climbs(g, rank) && start in g && rank[start] > rnk
    && (forall n :: n in g ==> rank0[n] <= rank[n])
    && (forall n {:trigger Demanded(g, start, rnk, rank0, rank, n)} :: n in g ==> Demanded(g, start, rnk, rank0, rank, n))
  }

  lemma SettledGrows<V>(g: map<V, seq<V>>, start: V, rnk: nat, rank0: map<V, nat>, rank: map<V, nat>)
    requires Settled(g, start, rnk, rank0, rank)
    ensures rank0.Keys == rank.Keys == g.Keys && start in g && rank[start] > rnk
    ensures forall n :: n in g ==> rank0[n] <= rank[n]
  {
  }

  /** A node without effects only catches up with its cause. */
  lemma SettledAlone<V>(g: map<V, seq<V>>, start: V, rnk: nat, rank0: map<V, nat>, rank: map<V, nat>)
    requires g == map[start := []] && Settled(g, start, rnk, rank0, rank)
    ensures start in rank0 && start in rank && rank[start] == if rank0[start] > rnk then rank0[start] else rnk + 1
  {
    assert Demanded(g, start, rnk, rank0, rank, start);
  }

  lemma ReachedInside<V>(g: map<V, seq<V>>, start: V, v: V)
    requires Reached(g, start, v)
    ensures v in g
  {
    var path :| Path(g, path) && path[0] == start && path[|path| - 1] == v;
  }

  lemma Finally<V>(c: Setting<V>, s: Search<V>)
    requires Inv(c, s) && s.todo == {}
    ensures Settled(c.g, c.start, c.rnk, c.rank0, s.rank) && c.start in s.visited
    ensures forall n :: n in c.g && n !in s.visited ==> s.rank[n] == c.rank0[n]
  {
    forall n, e | n in c.g && e in c.g[n] ensures s.rank[n] < s.rank[e] {
      assert EdgeOk(c, s, n, e);
    }
    assert Climbs(c.g, s.rank);
    forall n | n in c.g ensures Demanded(c.g, c.start, c.rnk, c.rank0, s.rank, n) {
      assert PushOk(c, s, n);
      if Owed(c.g, s.rank, n, s.rank[n]) {
        var p :| p in c.g && n in c.g[p] && s.rank[n] <= s.rank[p] + 1;
        assert s.rank[p] < s.rank[n];
      }
    }
  }

  // ----------------------------------------------------- ranks of a graph

  /** The rank of `n` is exactly what one of its causes demands, or zero. */
  ghost predicate TightAt<V>(g: map<V, seq<V>>, rank: map<V, nat>, n: V)
    requires g.Keys == rank.Keys && n in g
  {
    rank[n] == 0 || exists p :: p in g && n in g[p] && rank[n] == rank[p] + 1
  }

  /** Ranks climb along every edge, and none is larger than it has to be. */
  ghost predicate Ranked<V>(g: map<V, seq<V>>, rank: map<V, nat>) {
    && Climbs(g, rank)
    && (forall n {:trigger TightAt(g, rank, n)} :: n in g ==> TightAt(g, rank, n))
  }

  lemma RankedClimbs<V>(g: map<V, seq<V>>, rank: map<V, nat>)
    requires Ranked(g, rank)
    ensures Climbs(g, rank)
  {
  }

  lemma RankedEdge<V>(g: map<V, seq<V>>, rank: map<V, nat>, n: V, e: V)
    requires Ranked(g, rank) && n in g && e in g[n]
    ensures e in g && rank[n] < rank[e]
  {
  }

  /** Once a settled wave has left its cause untouched, the edge that started it
      can join the graph. */
  lemma EdgeJoins<V>(g: map<V, seq<V>>, more: map<V, seq<V>>, rank0: map<V, nat>, rank: map<V, nat>, start: V, cause: V)
    requires Ranked(g, rank0) && cause in g && Settled(g, start, rank0[cause], rank0, rank)
    requires rank[cause] == rank0[cause] && more == g[cause := g[cause] + [start]]
    ensures Ranked(more, rank)
  {
    assert Climbs(more, rank);
    forall n | n in more ensures TightAt(more, rank, n) {
      assert TightAt(g, rank0, n) && Demanded(g, start, rank0[cause], rank0, rank, n);
      if rank[n] != 0 {
        if n == start && rank[n] == rank[cause] + 1 {
          assert n in more[cause];
        } else {
          var p :| p in g && n in g[p] && (rank[n] == rank[p] + 1 || (rank[n] == rank0[n] && rank0[n] == rank0[p] + 1));
          assert rank0[p] <= rank[p] < rank[n];
          assert n in more[p];
        }
      }
    }
  }

  /** `g` is `g0` with the newest node `x`, which has no effects yet. */
  ghost predicate Extends<V>(g0: map<V, seq<V>>, g: map<V, seq<V>>, x: V) {
    && x !in g0 && g.Keys == g0.Keys + {x} && g[x] == []
    && (forall p, s :: p in g0 && s in g0[p] ==> s in g[p])
    && (forall p, s :: p in g0 && s in g[p] ==> s in g0[p] || s == x)
  }

  lemma NewestClimbs<V>(g0: map<V, seq<V>>, rank0: map<V, nat>, g: map<V, seq<V>>, x: V, r: nat)
    requires Climbs(g0, rank0) && Extends(g0, g, x)
    requires forall p :: p in g0 && x in g[p] ==> rank0[p] < r
    ensures Climbs(g, rank0[x := r])
  {
  }

  /** A newest node with edges from its causes joins a ranked graph. */
  lemma NewestJoins<V>(g0: map<V, seq<V>>, rank0: map<V, nat>, g: map<V, seq<V>>, x: V, r: nat)
    requires Ranked(g0, rank0) && Extends(g0, g, x)
    requires forall p :: p in g0 && x in g[p] ==> rank0[p] < r
    requires r == 0 || exists p :: p in g0 && x in g[p] && r == rank0[p] + 1
    ensures Ranked(g, rank0[x := r])
  {
    var rank := rank0[x := r];
    NewestClimbs(g0, rank0, g, x, r);
    forall n | n in g ensures TightAt(g, rank, n) {
      hide Climbs;
      if n == x {
        if r != 0 {
          var p :| p in g0 && x in g[p] && r == rank0[p] + 1;
          assert p in g && n in g[p] && rank[n] == rank[p] + 1;
        }
      } else {
        assert TightAt(g0, rank0, n);
        if rank0[n] != 0 {
          var p :| p in g0 && n in g0[p] && rank0[n] == rank0[p] + 1;
          assert p in g && n in g[p] && rank[n] == rank[p] + 1;
        }
      }
    }
  }

  // ------------------------------------------------------ the explicit stack

  /** The entries of a stack of lists; those of list `j` are on level `j + 1`. */
  ghost function Todo<V>(out: seq<seq<V>>): set<Item<V>> {
    set j, v | 0 <= j < |out| && v in out[j] :: At(v, j + 1)
  }

  ghost function Size<V>(out: seq<seq<V>>): nat {
    if out == [] then 0 else Size(out[..|out| - 1]) + |out[|out| - 1]| + 1
  }

  /** How far the ranks may still grow below `top`. */
  ghost function Room<V>(rank: map<V, nat>, top: nat): set<(V, int)> {
    set n, k | n in rank && rank[n] < k <= top :: (n, k)
  }

  function Popped<V>(out: seq<seq<V>>): seq<seq<V>>
    requires out != [] && out[|out| - 1] != []
  {
    var o := out[|out| - 1];
    out[..|out| - 1] + [o[..|o| - 1]]
  }

  lemma TodoAfterDrop<V>(out: seq<seq<V>>)
    requires out != [] && out[|out| - 1] == []
    ensures Todo(out[..|out| - 1]) == Todo(out)
    ensures Size(out[..|out| - 1]) < Size(out)
  {
    forall it | it in Todo(out) ensures it in Todo(out[..|out| - 1]) {
      var j, v :| 0 <= j < |out| && v in out[j] && it == At(v, j + 1);
      assert out[..|out| - 1][j] == out[j];
    }
  }

  lemma TodoAfterPop<V>(out: seq<seq<V>>)
    requires out != [] && out[|out| - 1] != []
    ensures var o := out[|out| - 1];
      var it := At(o[|o| - 1], |out|);
      it in Todo(out) && Todo(out) - {it} <= Todo(Popped(out)) <= Todo(out)
    ensures Size(Popped(out)) < Size(out)
  {
    var rest, o := Popped(out), out[|out| - 1];
    assert o[|o| - 1] in o && rest[..|rest| - 1] == out[..|out| - 1];
    assert forall j :: 0 <= j < |out| - 1 ==> rest[j] == out[j];
    assert forall v :: v in o ==> v == o[|o| - 1] || v in o[..|o| - 1];
    forall it | it in Todo(out) && it != At(o[|o| - 1], |out|) ensures it in Todo(rest) {
      var j, v :| 0 <= j < |out| && v in out[j] && it == At(v, j + 1);
      assert v in rest[j];
    }
    forall it | it in Todo(rest) ensures it in Todo(out) {
      var j, v :| 0 <= j < |rest| && v in rest[j] && it == At(v, j + 1);
      assert v in out[j];
    }
  }

  lemma TodoAfterPush<V>(out: seq<seq<V>>, level: seq<V>)
    ensures Todo(out) <= Todo(out + [level])
    ensures forall e :: e in level ==> At(e, |out| + 1) in Todo(out + [level])
    ensures forall x :: x in Todo(out + [level]) ==> x in Todo(out) || (x.v in level && x.level == |out| + 1)
  {
    var more := out + [level];
    assert more[|out|] == level && forall j :: 0 <= j < |out| ==> more[j] == out[j];
    forall x | x in Todo(out) ensures x in Todo(more) {
      var j, v :| 0 <= j < |out| && v in out[j] && x == At(v, j + 1);
      assert v in more[j];
    }
  }

  // ------------------------------------------------------------ the loop

  /** The variables of the loop. */
  datatype State<V> = State(rank: map<V, nat>, out: seq<seq<V>>, visited: set<V>)

  ghost function View<V>(t: State<V>): Search<V> {
    Search(t.rank, Todo(t.out), t.visited)
  }

  lemma StartState<V>(c: Setting<V>)
    requires Climbs(c.g, c.rank0) && c.start in c.g
    requires forall n :: n in c.g ==> c.rnk + c.rank0[n] < c.top
    ensures Inv(c, View(State(c.rank0, [[c.start]], {})))
  {
    Initially(c);
    assert forall it :: it in Todo([[c.start]]) <==> it == At(c.start, 1) by {
      assert c.start in [[c.start]][0];
    }
    assert Todo([[c.start]]) == {At(c.start, 1)};
  }

  predicate Busy<V>(t: State<V>) {
    t.out != [] && t.out[|t.out| - 1] != []
  }

  /** The node that the next turn takes from the stack. */
  function Next<V>(t: State<V>): V
    requires Busy(t)
  {
    var o := t.out[|t.out| - 1];
    o[|o| - 1]
  }

  /** One turn of the loop, unless it takes the node whose `cycl` is set. */
  function Turn<V>(g: map<V, seq<V>>, rnk: nat, t: State<V>): State<V>
    requires t.out != []
    requires Busy(t) ==> Next(t) in g && Next(t) in t.rank
  {
    if !Busy(t) then
      t.(out := t.out[..|t.out| - 1])
    else
      var c, rest := Next(t), Popped(t.out);
      if t.rank[c] <= rnk + |rest| - 1 then
        State(t.rank[c := rnk + |rest|], rest + [g[c]], t.visited + {c})
      else
        State(t.rank, rest, t.visited + {c})
  }

  lemma NextInside<V>(c: Setting<V>, t: State<V>)
    requires Inv(c, View(t)) && Busy(t)
    ensures Next(t) in c.g && Reached(c.g, c.start, Next(t))
  {
    TodoAfterPop(t.out);
    assert ItemOk(c, t.rank, At(Next(t), |t.out|));
  }

  lemma TurnSkips<V>(c: Setting<V>, t: State<V>)
    requires Inv(c, View(t)) && Busy(t) && Next(t) in c.g && t.rank[Next(t)] >= c.rnk + |t.out|
    ensures var u := Turn(c.g, c.rnk, t);
      Inv(c, View(u)) && u.rank == t.rank && Size(u.out) < Size(t.out)
  {
    TodoAfterPop(t.out);
    SkipKeeps(c, View(t), At(Next(t), |t.out|), View(Turn(c.g, c.rnk, t)));
  }

  lemma TurnLifts<V>(c: Setting<V>, t: State<V>)
    requires Inv(c, View(t)) && Busy(t) && Next(t) in c.g && t.rank[Next(t)] < c.rnk + |t.out|
    ensures var u := Turn(c.g, c.rnk, t);
      Inv(c, View(u)) && Room(u.rank, c.top) < Room(t.rank, c.top)
  {
    var u, it := Turn(c.g, c.rnk, t), At(Next(t), |t.out|);
    assert Lifts(c, View(t), it, View(u)) by {
      TodoAfterPop(t.out);
      TodoAfterPush(Popped(t.out), c.g[Next(t)]);
    }
    LiftKeeps(c, View(t), it, View(u));
    assert u.rank[Next(t)] <= c.top;
    RoomShrinks(c.top, t.rank, u.rank, Next(t), c.rnk + |t.out|);
  }

  /** A turn keeps the invariant, and either uses up room for the ranks to grow
      or shrinks the stack. */
  lemma TurnKeeps<V>(c: Setting<V>, t: State<V>)
    requires Inv(c, View(t)) && t.out != []
    requires Busy(t) ==> Next(t) in c.g
    ensures var u := Turn(c.g, c.rnk, t);
      && Inv(c, View(u))
      && (Room(u.rank, c.top) < Room(t.rank, c.top) || (u.rank == t.rank && Size(u.out) < Size(t.out)))
  {
    if !Busy(t) {
      TodoAfterDrop(t.out);
    } else if t.rank[Next(t)] >= c.rnk + |t.out| {
      TurnSkips(c, t);
    } else {
      TurnLifts(c, t);
    }
  }

  lemma Done<V>(c: Setting<V>, t: State<V>)
    requires Inv(c, View(t)) && t.out == []
    ensures Settled(c.g, c.start, c.rnk, c.rank0, t.rank) && c.start in t.visited
    ensures forall n :: n in c.g && n !in t.visited ==> t.rank[n] == c.rank0[n]
  {
    assert Todo(t.out) == {};
    Finally(c, View(t));
  }

  lemma RoomShrinks<V>(top: nat, rank: map<V, nat>, more: map<V, nat>, v: V, r: nat)
    requires v in rank && rank[v] < r <= top && more == rank[v := r]
    ensures Room(more, top) < Room(rank, top)
  {
    assert (v, r) in Room(rank, top) && (v, r) !in Room(more, top);
  }

  // --------------------------------------------------------- a self-loop

  /** `k` turns of the loop; it stops when the stack is empty. */
  ghost function Run<V>(g: map<V, seq<V>>, rnk: nat, t: State<V>, k: nat): State<V> {
    if k == 0 then t
    else
      var u := Run(g, rnk, t, k - 1);
      if u.out == [] || (Busy(u) && (Next(u) !in g || Next(u) !in u.rank)) then u else Turn(g, rnk, u)
  }

  /** A node that is its own effect, but not the marked cause: the wave climbs
      around the loop without end, one rank a turn. */
  lemma {:induction false} SelfLoopRunsForever<V>(g: map<V, seq<V>>, v: V, rnk: nat, rank: map<V, nat>, k: nat)
    requires v in g && v in rank && rank[v] <= rnk
    requires g[v] != [] && forall s :: s in g[v] ==> s == v
    ensures var u := Run(g, rnk, State(rank, [[v]], {}), k);
      && |u.out| == k + 1 && Busy(u) && Next(u) == v && v in u.rank
      && u.rank[v] == if k == 0 then rank[v] else rnk + k
  {
    if k > 0 {
      SelfLoopRunsForever(g, v, rnk, rank, k - 1);
      assert g[v][|g[v]| - 1] in g[v];
    }
  }
}
