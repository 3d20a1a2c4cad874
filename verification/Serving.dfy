/** How a node answers requests for entries and chunks: round robin over what was
    asked for, three packets at most. */
module Serving {
  import opened Basics
  import opened LogFormat
  import opened Frontier
  import opened Replica
  import opened KeySets
  import opened RoundRobin
  import Bipf

  type Replicas = map<Key, Replica>

  ghost function Objects(reps: Replicas): set<object> {
    set f | f in reps :: reps[f]
  }

  const CREDIT := 3

  /** The answer, or the exception that ends the handling of the packet. */
  datatype Reply = Packets(pkts: seq<Bytes>) | Failed

  /** True and False are numbers in Python. */
  function AsInt(v: Bipf.Value): Option<int> {
    match v
    case Int(i) => Some(i)
    case Bool(b) => Some(if b then 1 else 0)
    case _ => None
  }

  /** What the replicas hold, feed by feed. */
  datatype Held = Held(recs: seq<Rec>, pend: map<nat, Pend>)
  type Shelf = map<Key, Held>

  ghost predicate Holds(reps: Replicas, shelf: Shelf)
    reads Objects(reps)
  {
    && shelf.Keys == reps.Keys
    && forall f {:trigger reps[f]} :: f in reps ==> reps[f].Valid() && shelf[f] == Held(reps[f].recs, reps[f].state.pendSc)
  }

  // -------------------------------------------------------------- entries

  /** The `n`-th next entry that place `i` of the request asks for, if it is here. */
  ghost function EntryFor(keys: seq<Key>, shelf: Shelf, offs: int, want: seq<Bipf.Value>, i: nat, n: nat): Option<Bytes>
    requires i + 1 < |want|
  {
    if keys == [] then None
    else
      var f := keys[(offs + i) % |keys|];
      match AsInt(want[i + 1])
      case None => None
      case Some(s) => if f in shelf && 1 <= s + n <= |shelf[f].recs| then Some(shelf[f].recs[s + n - 1].entry) else None
  }

  method TryEntry(keys: seq<Key>, reps: Replicas, ghost shelf: Shelf, offs: int, want: seq<Bipf.Value>, i: nat, n: nat) returns (r: Option<Bytes>)
    requires Holds(reps, shelf) && i + 1 < |want|
    ensures r == EntryFor(keys, shelf, offs, want, i, n)
  {
    hide Consistent;
    r := None;
    if keys != [] {
      var f := keys[(offs + i) % |keys|];
      var s := AsInt(want[i + 1]);
      if f in reps && s.Some? {
        r := reps[f].GetEntry(s.value + n);
      }
    }
  }

  ghost function EntriesAsked(keys: seq<Key>, shelf: Shelf, offs: int, want: seq<Bipf.Value>): Asked {
    (i: nat, n: nat) => if i + 1 < |want| then EntryFor(keys, shelf, offs, want, i, n) else None
  }

  /** What is sent: going round the places of the request, to each the next entry that it
      asks for, as long as it is here, and three in all. */
  ghost predicate EntriesServed(keys: seq<Key>, shelf: Shelf, offs: int, want: seq<Bipf.Value>, lst: seq<Bytes>)
    requires want != []
  {
    var ask := EntriesAsked(keys, shelf, offs, want);
    exists turns {:trigger Served(ask, |want| - 1, CREDIT, lst, turns)} :: Served(ask, |want| - 1, CREDIT, lst, turns)
  }

  method ServeEntries(keys: seq<Key>, reps: Replicas, ghost shelf: Shelf, offs: int, want: seq<Bipf.Value>) returns (lst: seq<Bytes>)
    requires Holds(reps, shelf) && |want| >= 1
    ensures EntriesServed(keys, shelf, offs, want, lst) && |lst| <= CREDIT
  {
    hide EntryFor, Replica.Valid, Until, Levels, Served, Due;
    ghost var ask := EntriesAsked(keys, shelf, offs, want);
    ghost var turns: seq<Turn>, round := [], 0;
    lst := [];
    var cnt: seq<nat> := seq(|want| - 1, i => 0);
    Starts(ask, |cnt|, cnt);
    var credit := CREDIT;
    var found := true;
    while found
      invariant Holds(reps, shelf) && |cnt| == |want| - 1 && |lst| == CREDIT - credit
      invariant found ==> 0 < credit && Until(ask, |cnt|, lst, turns, Turn(round, 0)) && Levels(ask, cnt, Turn(round, 0))
      invariant !found ==> 0 <= credit && Served(ask, |cnt|, CREDIT, lst, turns)
      decreases credit, found
    {
      found := false;
      ghost var before := credit;
      var i := 0;
      while i < |cnt|
        invariant Holds(reps, shelf) && 0 <= i <= |cnt| == |want| - 1 && |lst| == CREDIT - credit && 0 < credit <= before
        invariant found <==> credit < before
        invariant Until(ask, |cnt|, lst, turns, Turn(round, i)) && Levels(ask, cnt, Turn(round, i))
        invariant !found ==> forall k: nat {:trigger Turn(round, k)} :: k < i ==> !Due(ask, |cnt|, Turn(round, k))
      {
        var pkt := TryEntry(keys, reps, shelf, offs, want, i, cnt[i]);
        if pkt.Some? {
          Found(ask, lst, turns, cnt, Turn(round, i), pkt.value);
          turns := turns + [Turn(round, i)];
          lst := lst + [pkt.value];
          cnt := cnt[i := cnt[i] + 1];
          credit := credit - 1;
          if credit <= 0 {
            NoCredit(ask, |cnt|, lst, turns, Turn(round, i), Turn(round, i + 1));
            found := false;
            break;
          }
          found := true;
        } else {
          Missing(ask, lst, turns, cnt, Turn(round, i));
        }
        i := i + 1;
      }
      if credit > 0 {
        NextRound(ask, lst, turns, cnt, round);
        if !found {
          NothingLeft(ask, |cnt|, CREDIT, lst, turns, round);
        }
        round := round + 1;
      }
    }
    ServedBounded(ask, |cnt|, lst, turns);
  }

  lemma ServedBounded(ask: Asked, places: nat, lst: seq<Bytes>, turns: seq<Turn>)
    requires Served(ask, places, CREDIT, lst, turns)
    ensures |lst| <= CREDIT
  {
  }

  /** Floating-point numbers are compared and counted with, as if they were whole
      numbers. What comes of that is left open. */
  predicate NoFloats(vs: seq<Bipf.Value>) {
    forall i :: 0 <= i < |vs| ==> !vs[i].Double?
  }

  /** A request for entries: an offset into the list of feeds, and for each feed from
      there on the next sequence number. */
  method IncomingWantMsg(keys: seq<Key>, reps: Replicas, ghost shelf: Shelf, want: Bipf.Value) returns (r: Reply)
    requires Holds(reps, shelf)
    ensures !(want.List? && want.items != [] && want.items[0].Int?) ==> r == Packets([])
    ensures want.List? && want.items != [] && want.items[0].Int? ==>
      (r == Failed <==> keys == [] && |want.items| > 1)
      && (r.Packets? ==> |r.pkts| <= CREDIT && (NoFloats(want.items) ==> EntriesServed(keys, shelf, want.items[0].i, want.items, r.pkts)))
  {
    hide Holds, EntriesServed;
    if !want.List? || want.items == [] || !want.items[0].Int? {
      return Packets([]);
    }
    var lst := ServeEntries(keys, reps, shelf, want.items[0].i, want.items);
    if keys == [] && |want.items| > 1 {
      return Failed;
    }
    r := Packets(lst);
  }

  // --------------------------------------------------------------- chunks

  /** Feed, sequence number and chunk number, however they are packed. */
  function Parts(v: Bipf.Value): Option<(Bipf.Value, Bipf.Value, Bipf.Value)> {
    match v
    case List(items) => if |items| == 3 then Some((items[0], items[1], items[2])) else None
    case Raw(data) => if |data| == 3 then Some((Bipf.Int(data[0]), Bipf.Int(data[1]), Bipf.Int(data[2]))) else None
    case Dict(entries) => if |entries| == 3 then Some((entries[0].0, entries[1].0, entries[2].0)) else None
    case _ => None
  }

  /** All three are numbers. */
  function Triple(v: Bipf.Value): Option<(int, int, int)> {
    match Parts(v)
    case None => None
    case Some((a, b, c)) =>
      if AsInt(a).Some? && AsInt(b).Some? && AsInt(c).Some? then Some((AsInt(a).value, AsInt(b).value, AsInt(c).value)) else None
  }

  /** Negative indices count from the end. */
  function KeyAt(keys: seq<Key>, i: int): Option<Key> {
    if 0 <= i < |keys| then Some(keys[i]) else if -|keys| <= i < 0 then Some(keys[|keys| + i]) else None
  }

  /** Chunk `cnr` of an event, if it has arrived. */
  ghost function ChunkOf(keys: seq<Key>, shelf: Shelf, t: (int, int, int), n: nat): Option<Bytes>
  {
    match KeyAt(keys, t.0)
    case None => None
    case Some(f) =>
      if f !in shelf || t.2 < 0 || !(1 <= t.1 <= |shelf[f].recs|) then None
      else
        var r, cnr := shelf[f].recs[t.1 - 1], t.2 + n;
        if cnr < Arrived(shelf[f].recs, shelf[f].pend, t.1 - 1) && cnr < |r.side| then Some(r.side[cnr]) else None
  }

  /** A request that makes sense: no floating-point sequence number, and no negative
      chunk number. */
  predicate Sensible(v: Bipf.Value) {
    Parts(v).Some? ==> !Parts(v).value.1.Double? && (Triple(v).Some? ==> Triple(v).value.2 >= 0)
  }

  method TryChunk(keys: seq<Key>, reps: Replicas, ghost shelf: Shelf, v: Bipf.Value, n: nat) returns (r: Option<Bytes>)
    requires Holds(reps, shelf)
    ensures Sensible(v) ==> r == if Triple(v).Some? then ChunkOf(keys, shelf, Triple(v).value, n) else None
  {
    hide Consistent, AsInt, Parts;
    r := None;
    if Triple(v).Some? {
      var (ndx, seqn, cnr) := Triple(v).value;
      var f := KeyAt(keys, ndx);
      if f.Some? && f.value in reps {
        r := reps[f.value].GetChunk(seqn, cnr + n);
      }
    }
  }

  ghost function ChunkAsked(keys: seq<Key>, shelf: Shelf, vect: seq<Bipf.Value>, i: nat, n: nat): Option<Bytes>
    requires i < |vect|
  {
    if Triple(vect[i]).Some? then ChunkOf(keys, shelf, Triple(vect[i]).value, n) else None
  }

  ghost function ChunksAsked(keys: seq<Key>, shelf: Shelf, vect: seq<Bipf.Value>): Asked {
    (i: nat, n: nat) => if i < |vect| then ChunkAsked(keys, shelf, vect, i, n) else None
  }

  /** What is sent: going round the chains asked for, of each the next chunk, as long as
      it has arrived here, and three in all. */
  ghost predicate ChunksServed(keys: seq<Key>, shelf: Shelf, vect: seq<Bipf.Value>, lst: seq<Bytes>) {
    var ask := ChunksAsked(keys, shelf, vect);
    exists turns {:trigger Served(ask, |vect|, CREDIT, lst, turns)} :: Served(ask, |vect|, CREDIT, lst, turns)
  }

  predicate AllSensible(vect: seq<Bipf.Value>) {
    forall i :: 0 <= i < |vect| ==> Sensible(vect[i])
  }

  /** The request has three parts, the first of which is the place of a feed. Whatever
      else is wrong with it, only this ends in an exception. */
  predicate Addressed(keys: seq<Key>, v: Bipf.Value) {
    Parts(v).Some? && AsInt(Parts(v).value.0).Some? && KeyAt(keys, AsInt(Parts(v).value.0).value).Some?
  }

  predicate AllAddressed(keys: seq<Key>, vect: seq<Bipf.Value>) {
    forall i :: 0 <= i < |vect| ==> Addressed(keys, vect[i])
  }

  /** A request for chunks. Requests with negative chunk numbers are answered, too, but
      with bytes from elsewhere in the log. */
  method IncomingChnkMsg(keys: seq<Key>, reps: Replicas, ghost shelf: Shelf, vect: Bipf.Value) returns (r: Reply)
    requires Holds(reps, shelf)
    ensures !vect.List? ==> r == Packets([])
    ensures vect.List? ==> (r.Packets? <==> AllAddressed(keys, vect.items))
    ensures r.Packets? ==> |r.pkts| <= CREDIT
    ensures vect.List? && r.Packets? && AllSensible(vect.items) ==> ChunksServed(keys, shelf, vect.items, r.pkts)
  {
    hide ChunkOf, Holds, Addressed, ChunksServed, Sensible;
    if !vect.List? {
      return Packets([]);
    }
    var lst := ServeChunks(keys, reps, shelf, vect.items);
    for i := 0 to |vect.items|
      invariant forall k :: 0 <= k < i ==> Addressed(keys, vect.items[k])
    {
      if !Addressed(keys, vect.items[i]) {
        return Failed;
      }
    }
    r := Packets(lst);
  }

  method ServeChunks(keys: seq<Key>, reps: Replicas, ghost shelf: Shelf, vect: seq<Bipf.Value>) returns (lst: seq<Bytes>)
    requires Holds(reps, shelf)
    ensures |lst| <= CREDIT
    ensures AllSensible(vect) ==> ChunksServed(keys, shelf, vect, lst)
  {
    hide ChunkAsked, Replica.Valid, Until, Levels, Served, Due, Sensible;
    ghost var sensible, ask := AllSensible(vect), ChunksAsked(keys, shelf, vect);
    ghost var turns: seq<Turn>, round := [], 0;
    lst := [];
    var cnt: seq<nat> := seq(|vect|, i => 0);
    Starts(ask, |cnt|, cnt);
    var credit := CREDIT;
    var found := true;
    while found
      invariant Holds(reps, shelf) && |cnt| == |vect| && |lst| == CREDIT - credit && 0 <= credit && (found ==> 0 < credit)
      invariant sensible && found ==> Until(ask, |cnt|, lst, turns, Turn(round, 0)) && Levels(ask, cnt, Turn(round, 0))
      invariant sensible && !found ==> Served(ask, |cnt|, CREDIT, lst, turns)
      decreases credit, found
    {
      found := false;
      ghost var before := credit;
      var i := 0;
      while i < |vect|
        invariant Holds(reps, shelf) && 0 <= i <= |cnt| == |vect| && |lst| == CREDIT - credit && 0 < credit <= before
        invariant found <==> credit < before
        invariant sensible ==> Until(ask, |cnt|, lst, turns, Turn(round, i)) && Levels(ask, cnt, Turn(round, i))
        invariant sensible && !found ==> forall k: nat {:trigger Turn(round, k)} :: k < i ==> !Due(ask, |cnt|, Turn(round, k))
      {
        var chunk := TryChunk(keys, reps, shelf, vect[i], cnt[i]);
        assert sensible ==> chunk == ask(i, cnt[i]) by {
          AskedIs(keys, shelf, vect, i, cnt[i]);
        }
        if chunk.Some? {
          if sensible {
            Found(ask, lst, turns, cnt, Turn(round, i), chunk.value);
          }
          turns := turns + [Turn(round, i)];
          lst := lst + [chunk.value];
          cnt := cnt[i := cnt[i] + 1];
          credit := credit - 1;
          if credit <= 0 {
            if sensible {
              NoCredit(ask, |cnt|, lst, turns, Turn(round, i), Turn(round, i + 1));
            }
            found := false;
            break;
          }
          found := true;
        } else if sensible {
          Missing(ask, lst, turns, cnt, Turn(round, i));
        }
        i := i + 1;
      }
      if sensible && credit > 0 {
        NextRound(ask, lst, turns, cnt, round);
        if !found {
          NothingLeft(ask, |cnt|, CREDIT, lst, turns, round);
        }
      }
      round := round + 1;
    }
  }

  lemma AskedIs(keys: seq<Key>, shelf: Shelf, vect: seq<Bipf.Value>, i: nat, n: nat)
    requires i < |vect|
    ensures ChunksAsked(keys, shelf, vect)(i, n) == if Triple(vect[i]).Some? then ChunkOf(keys, shelf, Triple(vect[i]).value, n) else None
  {
  }
}
