/** Requests and their answers make progress: a node that lacks entries of a feed gets
    the next one from a node that has it, and in the end it has them all. */
module Exchange {
  import opened Basics
  import opened LogFormat
  import opened Frontier
  import opened Filters
  import opened Replica
  import opened Replication
  import opened KeySets
  import opened Node
  import opened Network
  import opened Congruence
  import G = GOset
  import Reconciliation
  import Bipf
  import S = Serving
  import R = RoundRobin

  /** What authors write is what a replica that has come so far takes, and their logs do
      not outgrow what back pointers hold. */
  ghost predicate WellSigned(c: Crypto, authors: Feeds)
    requires AreFeeds(c, authors)
  {
    forall f, k {:trigger NextOfAuthor(c, f, authors[f], k)} :: f in authors && 0 <= k < |authors[f]| ==>
      NextOfAuthor(c, f, authors[f], k) && Start(authors[f], k) < MAX32
  }

  ghost predicate NextOfAuthor(c: Crypto, f: Key, author: seq<Rec>, k: nat)
    requires Sound(c) && AreRecs(author) && k < |author|
  {
    var e, nam := author[k].entry, NameOf(c, f, author, k);
    e[..7] == Dmx(c, nam) && c.verify(f, e[56..], nam + e[..56]) && ChunkCount(e) == Some(|author[k].side|)
  }

  /** Entries determine how long their records are. */
  lemma {:induction false} SameLength(recs: seq<Rec>, author: seq<Rec>)
    requires AreRecs(recs) && AreRecs(author) && Follows(recs, author)
    requires forall k {:trigger recs[k]} :: 0 <= k < |recs| ==> |recs[k].side| == |author[k].side|
    ensures |LogOf(recs)| == Start(author, |recs|)
  {
    hide LogOf;
    if recs == [] {
      assert author[..0] == recs;
    } else {
      var n := |recs| - 1;
      SameLength(recs[..n], author);
      RecordAt(recs, n);
      RecordAt(author, n);
      assert recs[..n + 1] == recs && |recs[n].side| == |author[n].side|;
    }
  }

  /** How far the log of a replica has come. */
  lemma PositionFits(n: PubNode, c: Crypto, authors: Feeds, reserved: set<Bytes>, f: Key)
    requires Good(n, c, authors, reserved) && WellSigned(c, authors) && f in n.reps
    requires f in authors && |n.reps[f].recs| < |authors[f]|
    ensures n.reps[f].state.maxPos < MAX32
  {
    hide Apart, FiltersOk, Dmx, ChunkCount, LogOf, Nam, PubNode.RequestsOk, PubNode.GosetOk, PrevOf;
    var r := n.reps[f];
    assert RepOk(c, f, r, authors);
    assert NextOfAuthor(c, f, authors[f], |r.recs|);
    forall k {:trigger r.recs[k]} | 0 <= k < |r.recs| ensures |r.recs[k].side| == |authors[f][k].side| {
      assert NextOfAuthor(c, f, authors[f], k);
      assert SideOk(c, r.recs, r.state.pendSc, k);
    }
    SameLength(r.recs, authors[f]);
  }

  lemma TakesNext(n: PubNode, c: Crypto, authors: Feeds, reserved: set<Bytes>, f: Key)
    requires Good(n, c, authors, reserved) && WellSigned(c, authors) && f in n.reps
    requires f in authors && |n.reps[f].recs| < |authors[f]|
    ensures f in n.Takers(authors[f][|n.reps[f].recs|].entry)
  {
    hide Apart, FiltersOk, Dmx, ChunkCount, SideOk, LogOf, Nam, PubNode.RequestsOk;
    var r, k := n.reps[f], |n.reps[f].recs|;
    assert RepOk(c, f, r, authors);
    assert NextOfAuthor(c, f, authors[f], k);
    PrevOfEntries(c, f, r.recs, authors[f][..k]);
    CountBelow(r);
    PositionFits(n, c, authors, reserved, f);
  }

  /** The first feed on the list comes first in the answer. */
  lemma FirstServed(keys: seq<Key>, shelf: S.Shelf, offs: nat, items: seq<Bipf.Value>, counts: map<Bytes, nat>, out: seq<Bytes>)
    requires keys != [] && Listed(items, offs, keys, counts) && items != [] && S.EntriesServed(keys, shelf, offs, items, out)
    requires var f := keys[offs % |keys|];
      f in shelf && f in counts && counts[f] < |shelf[f].recs|
    ensures var f := keys[offs % |keys|];
      out != [] && out[0] == shelf[f].recs[counts[f]].entry
  {
    var f := keys[offs % |keys|];
    assert NextAt(items, 1, offs, keys, counts);
    assert S.EntryFor(keys, shelf, offs, items, 0, 0) == Some(shelf[f].recs[counts[f]].entry);
    var ask := S.EntriesAsked(keys, shelf, offs, items);
    var turns: seq<R.Turn> :| R.Served(ask, |items| - 1, S.CREDIT, out, turns);
    R.FirstInTurn(ask, |items| - 1, S.CREDIT, out, turns, 0);
  }

  lemma PrefixRead(d: Bytes, payload: Bytes)
    requires |d| == 7
    ensures Slice(d + payload, 0, 7) == d && PayloadOf(d + payload) == payload
  {
    assert (d + payload)[0..7] == d && (d + payload)[7..] == payload;
  }

  lemma RequestRead(d: Bytes, items: seq<Bipf.Value>)
    requires |d| == 7 && Bipf.WellFormed(Bipf.List(items))
    ensures var pkt := d + Bipf.Encoded(Bipf.List(items));
      Slice(pkt, 0, 7) == d && Bipf.Decoded(PayloadOf(pkt), 0) == Some((Bipf.List(items), |Bipf.Encoded(Bipf.List(items))|))
  {
    hide Bipf.Encoded, Bipf.Decoded;
    var s := Bipf.Encoded(Bipf.List(items));
    PrefixRead(d, s);
    assert At(s, 0, s);
    Bipf.RoundTrip(Bipf.List(items), s, 0);
  }

  lemma RequestOfNumbers(items: seq<Bipf.Value>, offs: nat, keys: seq<Key>, counts: map<Bytes, nat>)
    requires Listing(items, offs, keys, counts)
    ensures S.NoFloats(items)
  {
    forall i | 0 <= i < |items| ensures !items[i].Double? {
      assert i > 0 ==> NextAt(items, i, offs, keys, counts);
    }
  }

  lemma AnswerFirst(keys: seq<Key>, shelf: S.Shelf, offs: nat, items: seq<Bipf.Value>, counts: map<Bytes, nat>, pkt: Bytes, n: nat, out: seq<Bytes>)
    requires keys != [] && Listed(items, offs, keys, counts) && WantAnswered(keys, shelf, pkt, out)
    requires Bipf.Decoded(PayloadOf(pkt), 0) == Some((Bipf.List(items), n))
    requires var f := keys[offs % |keys|];
      f in shelf && f in counts && counts[f] < |shelf[f].recs|
    ensures var f := keys[offs % |keys|];
      out != [] && out[0] == shelf[f].recs[counts[f]].entry
  {
    hide Bipf.Decoded, S.EntriesServed, S.NoFloats;
    RequestOfNumbers(items, offs, keys, counts);
    FirstServed(keys, shelf, offs, items, counts, out);
  }

  /** All that is sent in answer are whole entries. */
  lemma AnswerWhole(keys: seq<Key>, shelf: S.Shelf, offs: nat, items: seq<Bipf.Value>, counts: map<Bytes, nat>, pkt: Bytes, n: nat, out: seq<Bytes>)
    requires keys != [] && Listed(items, offs, keys, counts) && WantAnswered(keys, shelf, pkt, out)
    requires Bipf.Decoded(PayloadOf(pkt), 0) == Some((Bipf.List(items), n))
    requires forall f {:trigger shelf[f]} :: f in shelf ==> AreRecs(shelf[f].recs)
    ensures Whole(out)
  {
    hide Bipf.Decoded, S.NoFloats;
    RequestOfNumbers(items, offs, keys, counts);
    if out != [] {
      var ask := S.EntriesAsked(keys, shelf, offs, items);
      var turns: seq<R.Turn> :| R.Served(ask, |items| - 1, S.CREDIT, out, turns);
      forall m | 0 <= m < |out| ensures |out[m]| == 120 {
        assert ask(turns[m].place, turns[m].round) == Some(out[m]);
      }
    }
  }

  lemma ShelfOfRecs(n: PubNode, c: Crypto, authors: Feeds, reserved: set<Bytes>)
    requires Good(n, c, authors, reserved)
    ensures forall f {:trigger ShelfOf(n.reps)[f]} :: f in ShelfOf(n.reps) ==> AreRecs(ShelfOf(n.reps)[f].recs)
  {
    hide Apart, FiltersOk, SideOk, PrevOf, LogOf;
    forall f {:trigger ShelfOf(n.reps)[f]} | f in ShelfOf(n.reps) ensures AreRecs(ShelfOf(n.reps)[f].recs) {
      assert RepOk(c, f, n.reps[f], authors);
    }
  }

  /** What a node has on its shelf is what the author wrote. */
  lemma ShelfIsAuthors(n: PubNode, c: Crypto, authors: Feeds, reserved: set<Bytes>, f: Key)
    requires Good(n, c, authors, reserved) && f in n.reps
    ensures f in authors && f in ShelfOf(n.reps) && f in CountsOf(n.reps) && CountsOf(n.reps)[f] == |n.reps[f].recs|
    ensures ShelfOf(n.reps)[f].recs == n.reps[f].recs && Follows(n.reps[f].recs, authors[f])
  {
    hide Apart, FiltersOk, Replica.Valid;
    assert RepOk(c, f, n.reps[f], authors);
  }

  /** The request of a node, and what a reader of it finds. */
  method Ask(b: PubNode, ghost c: Crypto, ghost authors: Feeds, ghost reserved: set<Bytes>) returns (pkt: Bytes, ghost items: seq<Bipf.Value>, ghost n: nat)
    requires Good(b, c, authors, reserved) && b.goset.keys != []
    modifies b`logOffs
    ensures Good(b, c, authors, reserved) && b.logOffs == (old(b.logOffs) + 1) % |b.goset.keys|
    ensures Listed(items, old(b.logOffs), b.goset.keys, old(CountsOf(b.reps)))
    ensures Slice(pkt, 0, 7) == WantPrefix(c, b.goset.state) && Bipf.Decoded(PayloadOf(pkt), 0) == Some((Bipf.List(items), n))
  {
    hide PubNode.Valid, PubNode.GosetOk, Bipf.Encoded, Bipf.Decoded, Listed, Listens;
    var lst;
    b.Outside();
    lst, items := b.GetEntryAdv(authors, reserved);
    assert CountsOf(b.reps) == old(CountsOf(b.reps));
    RequestRead(b.wantDmx.value, items);
    pkt := lst[0];
    n := |Bipf.Encoded(Bipf.List(items))|;
  }

  /** Feed `f` of the node lacks just this packet. */
  ghost predicate Lacks(b: PubNode, authors: Feeds, f: Key, pkt: Bytes)
    reads b, S.Objects(b.reps)
  {
    f in b.reps && f in authors && |b.reps[f].recs| < |authors[f]| && pkt == authors[f][|b.reps[f].recs|].entry
  }

  /** No feed has fewer entries than before. */
  ghost predicate AtLeast(before: map<Bytes, nat>, after: map<Bytes, nat>) {
    forall f {:trigger before[f]} {:trigger after[f]} :: f in before ==> f in after && after[f] >= before[f]
  }

  lemma AtLeastThen(x: map<Bytes, nat>, y: map<Bytes, nat>, z: map<Bytes, nat>)
    requires AtLeast(x, y) && AtLeast(y, z)
    ensures AtLeast(x, z)
  {
    forall f {:trigger x[f]} | f in x ensures f in z && z[f] >= x[f] {
      assert y[f] >= x[f];
    }
  }

  ghost predicate More(before: map<Bytes, nat>, after: map<Bytes, nat>, f: Key) {
    f in before && f in after && after[f] > before[f]
  }

  lemma StillMore(x: map<Bytes, nat>, y: map<Bytes, nat>, z: map<Bytes, nat>, f: Key)
    requires AtLeast(y, z)
    ensures More(x, y, f) ==> More(x, z, f)
    ensures x == y ==> (More(x, z, f) <==> More(y, z, f))
  {
  }

  lemma LacksCounted(b: PubNode, authors: Feeds, f: Key, pkt: Bytes)
    requires Lacks(b, authors, f, pkt)
    ensures f in CountsOf(b.reps)
  {
  }

  lemma TellsNothing(pkt: Bytes, authors: Feeds)
    requires |pkt| == 120
    ensures !Tells(pkt) && GosetTrusted(authors, pkt)
  {
  }

  /** A node hears a packet of 120 bytes. */
  method Take(b: PubNode, pkt: Bytes, ghost c: Crypto, ghost authors: Feeds, ghost reserved: set<Bytes>, ghost f: Key)
    requires Good(b, c, authors, reserved) && WellSigned(c, authors) && Trusted(c, authors, pkt) && |pkt| == 120
    modifies Footprint(b)
    ensures Good(b, c, authors, reserved) && b.logOffs == old(b.logOffs)
    ensures b.goset.keys == old(b.goset.keys) && b.goset.state == old(b.goset.state)
    ensures forall o :: o in Footprint(b) ==> o in old(Footprint(b)) || fresh(o)
    ensures AtLeast(old(CountsOf(b.reps)), CountsOf(b.reps))
    ensures old(Lacks(b, authors, f, pkt)) ==> More(old(CountsOf(b.reps)), CountsOf(b.reps), f)
  {
    hide PubNode.Valid, PubNode.GosetOk, PubNode.RequestsOk, Trusted, GosetTrusted, WellSigned, PubNode.Takers, Tells;
    TellsNothing(pkt, authors);
    if Lacks(b, authors, f, pkt) {
      TakesNext(b, c, authors, reserved, f);
      assert f in CountsOf(b.reps);
    }
    var _ := b.Rx(pkt, authors, reserved);
  }

  ghost predicate Whole(pkts: seq<Bytes>) {
    forall m :: 0 <= m < |pkts| ==> |pkts[m]| == 120
  }

  /** A node hears all packets of an answer. */
  method TakeAll(b: PubNode, pkts: seq<Bytes>, ghost c: Crypto, ghost authors: Feeds, ghost reserved: set<Bytes>, ghost f: Key)
    requires Good(b, c, authors, reserved) && WellSigned(c, authors) && Whole(pkts)
    requires forall pkt {:trigger Trusted(c, authors, pkt)} :: Trusted(c, authors, pkt)
    modifies Footprint(b)
    ensures Good(b, c, authors, reserved) && b.logOffs == old(b.logOffs)
    ensures b.goset.keys == old(b.goset.keys) && b.goset.state == old(b.goset.state)
    ensures forall o :: o in Footprint(b) ==> o in old(Footprint(b)) || fresh(o)
    ensures AtLeast(old(CountsOf(b.reps)), CountsOf(b.reps))
    ensures pkts != [] && old(Lacks(b, authors, f, pkts[0])) ==> More(old(CountsOf(b.reps)), CountsOf(b.reps), f)
  {
    ghost var before, more := CountsOf(b.reps), pkts != [] && Lacks(b, authors, f, pkts[0]);
    for k := 0 to |pkts|
      invariant Good(b, c, authors, reserved) && b.logOffs == old(b.logOffs)
      invariant b.goset.keys == old(b.goset.keys) && b.goset.state == old(b.goset.state)
      invariant forall o :: o in Footprint(b) ==> o in old(Footprint(b)) || fresh(o)
      invariant AtLeast(before, CountsOf(b.reps))
      invariant k == 0 ==> CountsOf(b.reps) == before && (more ==> Lacks(b, authors, f, pkts[0]))
      invariant k > 0 && more ==> More(before, CountsOf(b.reps), f)
    {
      hide Good, WellSigned, Trusted, Footprint, Apart, Lacks, CountsOf, AtLeast;
      ghost var counts := CountsOf(b.reps);
      if more && k == 0 {
        LacksCounted(b, authors, f, pkts[0]);
      }
      Take(b, pkts[k], c, authors, reserved, f);
      AtLeastThen(before, counts, CountsOf(b.reps));
      StillMore(before, counts, CountsOf(b.reps), f);
    }
  }

  /** Two nodes with the same keys, the first of which answers requests. */
  ghost predicate Pair(a: PubNode, b: PubNode, c: Crypto, authors: Feeds, reserved: set<Bytes>)
    reads Footprint(a), Footprint(b)
  {
    && Good(a, c, authors, reserved) && Good(b, c, authors, reserved) && Footprint(a) !! Footprint(b)
    && a.role == InOut && a.goset.keys == b.goset.keys && a.goset.state == b.goset.state
  }

  /** `a` has more of feed `f` than `b`. */
  ghost predicate Ahead(a: PubNode, b: PubNode, f: Key)
    reads a, b, S.Objects(a.reps), S.Objects(b.reps)
  {
    f in a.reps && f in b.reps && |a.reps[f].recs| > |b.reps[f].recs|
  }

  lemma ListensToWants(a: PubNode, c: Crypto, authors: Feeds, reserved: set<Bytes>)
    requires Good(a, c, authors, reserved) && a.role == InOut
    ensures a.HandlerOf(WantPrefix(c, a.goset.state)) == Some(WantMsg)
  {
    hide PubNode.Valid, PubNode.GosetOk, WantPrefix, BlobPrefix, GosetPrefix;
  }

  /** The answer of a node to a request. */
  method Answer(a: PubNode, pkt: Bytes, ghost c: Crypto, ghost authors: Feeds, ghost reserved: set<Bytes>) returns (out: seq<Bytes>)
    requires Good(a, c, authors, reserved) && a.role == InOut && Trusted(c, authors, pkt) && Slice(pkt, 0, 7) == WantPrefix(c, a.goset.state)
    modifies Footprint(a)
    ensures Good(a, c, authors, reserved) && a.goset.keys == old(a.goset.keys) && a.goset.state == old(a.goset.state)
    ensures forall o :: o in Footprint(a) ==> o in old(Footprint(a)) || fresh(o)
    ensures AtLeast(old(CountsOf(a.reps)), CountsOf(a.reps))
    ensures WantAnswered(old(a.goset.keys), old(ShelfOf(a.reps)), pkt, out)
  {
    hide PubNode.Valid, PubNode.GosetOk, PubNode.RequestsOk, Trusted, GosetTrusted, WantAnswered, CountsOf, ShelfOf, PubNode.Takers, WantPrefix;
    ListensToWants(a, c, authors, reserved);
    out := a.Rx(pkt, authors, reserved);
  }

  /** `b` asks, `a` answers: if `a` is ahead in the feed that `b` asks for first, the
      answer begins with the entry that `b` lacks. */
  method AskAndAnswer(a: PubNode, b: PubNode, ghost c: Crypto, ghost authors: Feeds, ghost reserved: set<Bytes>, ghost f: Key) returns (out: seq<Bytes>)
    requires Pair(a, b, c, authors, reserved)
    requires forall pkt {:trigger Trusted(c, authors, pkt)} :: Trusted(c, authors, pkt)
    requires b.goset.keys != [] && f == b.goset.keys[b.logOffs % |b.goset.keys|]
    modifies Footprint(a), b`logOffs
    ensures Pair(a, b, c, authors, reserved) && Footprint(b) == old(Footprint(b))
    ensures forall o :: o in Footprint(a) ==> o in old(Footprint(a)) || fresh(o)
    ensures a.goset.keys == old(a.goset.keys) && a.goset.state == old(a.goset.state) && b.logOffs == (old(b.logOffs) + 1) % |b.goset.keys|
    ensures AtLeast(old(CountsOf(a.reps)), CountsOf(a.reps)) && CountsOf(b.reps) == old(CountsOf(b.reps))
    ensures Whole(out) && (old(Ahead(a, b, f)) ==> out != [] && Lacks(b, authors, f, out[0]))
  {
    hide Good, Trusted, Bipf.Decoded, WantAnswered, Listed, CountsOf, ShelfOf, WantPrefix, AtLeast, Whole;
    ghost var shelf, counts := ShelfOf(a.reps), CountsOf(b.reps);
    ghost var behind := Ahead(a, b, f);
    ShelfOfRecs(a, c, authors, reserved);
    if behind {
      ShelfIsAuthors(a, c, authors, reserved, f);
      ShelfIsAuthors(b, c, authors, reserved, f);
    }
    ghost var offs, keys := b.logOffs, b.goset.keys;
    var asked, items, n := Ask(b, c, authors, reserved);
    assert Footprint(a) !! Footprint(b);
    assert Good(b, c, authors, reserved);
    label Asked:
    out := Answer(a, asked, c, authors, reserved);
    assert unchanged@Asked(b, b.goset, S.Objects(b.reps));
    AnswerWhole(keys, shelf, offs, items, counts, asked, n, out);
    if behind {
      AnswerFirst(keys, shelf, offs, items, counts, asked, n, out);
    }
  }

  /** One exchange: `b` asks, `a` answers, `b` takes the answer. No node loses anything,
      and of the feed asked for first `b` has more than before, unless it has all that
      `a` has. */
  method Exchange(a: PubNode, b: PubNode, ghost c: Crypto, ghost authors: Feeds, ghost reserved: set<Bytes>)
    requires Pair(a, b, c, authors, reserved) && WellSigned(c, authors)
    requires forall pkt {:trigger Trusted(c, authors, pkt)} :: Trusted(c, authors, pkt)
    requires b.goset.keys != []
    modifies Footprint(a), Footprint(b)
    ensures Pair(a, b, c, authors, reserved)
    ensures forall o :: o in Footprint(a) ==> o in old(Footprint(a)) || fresh(o)
    ensures forall o :: o in Footprint(b) ==> o in old(Footprint(b)) || fresh(o)
    ensures b.goset.keys == old(b.goset.keys) && b.logOffs == (old(b.logOffs) + 1) % |b.goset.keys|
    ensures AtLeast(old(CountsOf(a.reps)), CountsOf(a.reps)) && AtLeast(old(CountsOf(b.reps)), CountsOf(b.reps))
    ensures var f := old(b.goset.keys[b.logOffs % |b.goset.keys|]);
      old(Ahead(a, b, f)) ==> More(old(CountsOf(b.reps)), CountsOf(b.reps), f)
  {
    hide Good, Trusted, WellSigned, CountsOf, Apart;
    ghost var f := b.goset.keys[b.logOffs % |b.goset.keys|];
    var out := AskAndAnswer(a, b, c, authors, reserved, f);
    TakeAll(b, out, c, authors, reserved, f);
  }

  // ------------------------------------------------------------ catching up

  /** Of each feed there are `n` entries more than before, or as many as wanted. */
  ghost predicate Gained(goal: map<Bytes, nat>, before: map<Bytes, nat>, now: map<Bytes, nat>, f: Key, n: nat) {
    f in goal ==> f in before && f in now && (now[f] >= goal[f] || now[f] >= before[f] + n)
  }

  lemma GainedStill(goal: map<Bytes, nat>, before: map<Bytes, nat>, x: map<Bytes, nat>, y: map<Bytes, nat>, f: Key, n: nat)
    requires Gained(goal, before, x, f, n) && AtLeast(x, y)
    ensures Gained(goal, before, y, f, n)
  {
  }

  lemma GainedMore(goal: map<Bytes, nat>, x: map<Bytes, nat>, y: map<Bytes, nat>, z: map<Bytes, nat>, f: Key, n: nat)
    requires Gained(goal, x, y, f, n) && Gained(goal, y, z, f, 1) && AtLeast(y, z)
    ensures Gained(goal, x, z, f, n + 1)
  {
  }

  /** Position `offs + j`, round the end. */
  function Wrapped(n: nat, offs: nat, j: nat): nat
    requires offs < n && j <= n
  {
    if offs + j < n then offs + j else offs + j - n
  }

  /** Position `x` is among the `j` positions from `offs` on, round the end. */
  predicate HadTurn(n: nat, offs: nat, j: nat, x: nat)
    requires offs < n && x < n
  {
    (if x >= offs then x - offs else x + n - offs) < j
  }

  lemma NextOffset(l: nat, n: nat, offs: nat, j: nat)
    requires offs < n && j < n && l % n == Wrapped(n, offs, j)
    ensures (l + 1) % n % n == Wrapped(n, offs, j + 1)
  {
    OneFurther(l, n);
    UniqueRemainder(n, (l + 1) % n, 0, (l + 1) % n);
  }

  lemma OneFurther(l: nat, n: nat)
    requires n > 0
    ensures (l + 1) % n == if l % n + 1 == n then 0 else l % n + 1
  {
    var q, p := l / n, l % n;
    assert l == n * q + p;
    if p + 1 == n {
      assert l + 1 == n * (q + 1);
      UniqueRemainder(n, l + 1, q + 1, 0);
    } else {
      UniqueRemainder(n, l + 1, q, p + 1);
    }
  }

  lemma KeysCounted(n: PubNode, c: Crypto, authors: Feeds, reserved: set<Bytes>, f: Key)
    requires Good(n, c, authors, reserved) && f in n.goset.keys
    ensures f in n.reps && f in CountsOf(n.reps) && CountsOf(n.reps)[f] == |n.reps[f].recs|
  {
    hide PubNode.Valid, PubNode.RequestsOk, G.GOset.Within;
    assert f in SetOf(n.goset.keys);
  }

  /** The feed asked for first has gained an entry, or has as many as wanted. */
  lemma TurnGains(goal: map<Bytes, nat>, hers: map<Bytes, nat>, before: map<Bytes, nat>, x: map<Bytes, nat>, y: map<Bytes, nat>, f: Key)
    requires AtLeast(goal, hers) && AtLeast(before, x) && AtLeast(x, y) && f in hers && f in before
    requires f in x && (hers[f] > x[f] ==> More(x, y, f))
    ensures Gained(goal, before, y, f, 1)
  {
    assert y[f] >= x[f] >= before[f];
  }

  /** An exchange, seen from a goal that `a` has reached. */
  method Turn(a: PubNode, b: PubNode, ghost c: Crypto, ghost authors: Feeds, ghost reserved: set<Bytes>, ghost goal: map<Bytes, nat>, ghost before: map<Bytes, nat>, ghost p: nat)
    requires Pair(a, b, c, authors, reserved) && WellSigned(c, authors)
    requires forall pkt {:trigger Trusted(c, authors, pkt)} :: Trusted(c, authors, pkt)
    requires AtLeast(goal, CountsOf(a.reps)) && AtLeast(before, CountsOf(b.reps))
    requires b.goset.keys != [] && p == b.logOffs % |b.goset.keys| && b.goset.keys[p] in before
    modifies Footprint(a), Footprint(b)
    ensures Pair(a, b, c, authors, reserved)
    ensures forall o :: o in Footprint(a) ==> o in old(Footprint(a)) || fresh(o)
    ensures forall o :: o in Footprint(b) ==> o in old(Footprint(b)) || fresh(o)
    ensures b.goset.keys == old(b.goset.keys) && b.logOffs == (old(b.logOffs) + 1) % |b.goset.keys|
    ensures AtLeast(goal, CountsOf(a.reps)) && AtLeast(before, CountsOf(b.reps)) && AtLeast(old(CountsOf(b.reps)), CountsOf(b.reps))
    ensures Gained(goal, before, CountsOf(b.reps), b.goset.keys[p], 1)
  {
    hide Good, Trusted, WellSigned, CountsOf, Apart, Footprint, AtLeast, Gained, More;
    ghost var f, hers, mine := b.goset.keys[p], CountsOf(a.reps), CountsOf(b.reps);
    KeysCounted(a, c, authors, reserved, f);
    KeysCounted(b, c, authors, reserved, f);
    Exchange(a, b, c, authors, reserved);
    AtLeastThen(goal, hers, CountsOf(a.reps));
    AtLeastThen(before, mine, CountsOf(b.reps));
    TurnGains(goal, hers, before, mine, CountsOf(b.reps), f);
  }

  /** As many exchanges as there are feeds: each feed has its turn. */
  method TurnAround(a: PubNode, b: PubNode, ghost c: Crypto, ghost authors: Feeds, ghost reserved: set<Bytes>, ghost goal: map<Bytes, nat>) returns (exchanges: nat)
    requires Pair(a, b, c, authors, reserved) && WellSigned(c, authors) && AtLeast(goal, CountsOf(a.reps))
    requires forall pkt {:trigger Trusted(c, authors, pkt)} :: Trusted(c, authors, pkt)
    modifies Footprint(a), Footprint(b)
    ensures Pair(a, b, c, authors, reserved) && b.goset.keys == old(b.goset.keys) && exchanges == |b.goset.keys|
    ensures forall o :: o in Footprint(a) ==> o in old(Footprint(a)) || fresh(o)
    ensures forall o :: o in Footprint(b) ==> o in old(Footprint(b)) || fresh(o)
    ensures AtLeast(goal, CountsOf(a.reps)) && AtLeast(old(CountsOf(b.reps)), CountsOf(b.reps))
    ensures AllGained(goal, old(CountsOf(b.reps)), CountsOf(b.reps), b.goset.keys, 1)
  {
    hide Good, Trusted, WellSigned, CountsOf, Apart, Footprint, Gained, More;
    var n := |b.goset.keys|;
    ghost var keys, before := b.goset.keys, CountsOf(b.reps);
    ghost var offs := if n == 0 then 0 else b.logOffs % n;
    forall x | 0 <= x < n ensures keys[x] in before {
      KeysCounted(b, c, authors, reserved, keys[x]);
    }
    exchanges := 0;
    for j := 0 to n
      invariant Pair(a, b, c, authors, reserved) && b.goset.keys == keys && exchanges == j
      invariant forall o :: o in Footprint(a) ==> o in old(Footprint(a)) || fresh(o)
      invariant forall o :: o in Footprint(b) ==> o in old(Footprint(b)) || fresh(o)
      invariant AtLeast(goal, CountsOf(a.reps)) && AtLeast(before, CountsOf(b.reps))
      invariant n > 0 ==> b.logOffs % n == Wrapped(n, offs, j)
      invariant forall x :: 0 <= x < n && HadTurn(n, offs, j, x) ==> Gained(goal, before, CountsOf(b.reps), keys[x], 1)
    {
      hide Pair, AtLeast;
      ghost var p, mine := b.logOffs % n, CountsOf(b.reps);
      NextOffset(b.logOffs, n, offs, j);
      Turn(a, b, c, authors, reserved, goal, before, p);
      exchanges := exchanges + 1;
      forall x | 0 <= x < n && HadTurn(n, offs, j + 1, x) ensures Gained(goal, before, CountsOf(b.reps), keys[x], 1) {
        if x != p {
          GainedStill(goal, before, mine, CountsOf(b.reps), keys[x], 1);
        }
      }
    }
  }

  ghost predicate AllGained(goal: map<Bytes, nat>, before: map<Bytes, nat>, now: map<Bytes, nat>, keys: seq<Key>, n: nat) {
    forall x :: 0 <= x < |keys| ==> Gained(goal, before, now, keys[x], n)
  }

  lemma AllGainedMore(goal: map<Bytes, nat>, x: map<Bytes, nat>, y: map<Bytes, nat>, z: map<Bytes, nat>, keys: seq<Key>, n: nat)
    requires AllGained(goal, x, y, keys, n) && AllGained(goal, y, z, keys, 1) && AtLeast(y, z)
    ensures AllGained(goal, x, z, keys, n + 1)
  {
    hide Gained, AtLeast;
    forall i | 0 <= i < |keys| ensures Gained(goal, x, z, keys[i], n + 1) {
      GainedMore(goal, x, y, z, keys[i], n);
    }
  }

  /** After `rounds` times as many exchanges as there are feeds, `b` has all the entries
      that `a` had, if it lacked at most `rounds` of each feed. */
  method CatchUp(a: PubNode, b: PubNode, ghost c: Crypto, ghost authors: Feeds, ghost reserved: set<Bytes>, rounds: nat) returns (exchanges: nat)
    requires Pair(a, b, c, authors, reserved) && WellSigned(c, authors)
    requires forall pkt {:trigger Trusted(c, authors, pkt)} :: Trusted(c, authors, pkt)
    requires forall f {:trigger f in b.goset.keys} :: f in b.goset.keys && f in a.reps && f in b.reps ==> |a.reps[f].recs| <= |b.reps[f].recs| + rounds
    modifies Footprint(a), Footprint(b)
    ensures Pair(a, b, c, authors, reserved) && b.goset.keys == old(b.goset.keys) && exchanges == rounds * |b.goset.keys|
    ensures forall o :: o in Footprint(a) ==> o in old(Footprint(a)) || fresh(o)
    ensures forall o :: o in Footprint(b) ==> o in old(Footprint(b)) || fresh(o)
    ensures forall f {:trigger f in b.goset.keys} :: f in b.goset.keys ==>
      f in old(a.reps) && f in b.reps && Follows(old(a.reps[f].recs), b.reps[f].recs)
  {
    hide Good, Trusted, WellSigned, CountsOf, Apart, Footprint, AtLeast, AllGained;
    ghost var keys, goal, start, had := b.goset.keys, CountsOf(a.reps), CountsOf(b.reps), RecsOf(a.reps);
    HaveToCatchUp(a, b, c, authors, reserved, rounds);
    NothingGained(authors, keys, goal, start, had, rounds);
    exchanges := 0;
    for r := 0 to rounds
      invariant Pair(a, b, c, authors, reserved) && b.goset.keys == keys && exchanges == r * |keys|
      invariant forall o :: o in Footprint(a) ==> o in old(Footprint(a)) || fresh(o)
      invariant forall o :: o in Footprint(b) ==> o in old(Footprint(b)) || fresh(o)
      invariant AtLeast(goal, CountsOf(a.reps)) && AllGained(goal, start, CountsOf(b.reps), keys, r)
    {
      hide Pair;
      ghost var mine := CountsOf(b.reps);
      var more := TurnAround(a, b, c, authors, reserved, goal);
      exchanges := exchanges + more;
      assert (r + 1) * |keys| == r * |keys| + |keys|;
      AllGainedMore(goal, start, mine, CountsOf(b.reps), keys, r);
    }
    HaveCaughtUp(b, c, authors, reserved, keys, goal, start, had, rounds);
  }

  /** The first node had at most `rounds` entries more of each feed. */
  ghost predicate CanCatchUp(authors: Feeds, keys: seq<Key>, goal: map<Bytes, nat>, start: map<Bytes, nat>, had: map<Bytes, seq<Rec>>, rounds: nat) {
    forall f {:trigger f in keys} :: f in keys ==>
      && f in goal && f in start && f in had && f in authors
      && goal[f] <= start[f] + rounds && |had[f]| == goal[f] && Follows(had[f], authors[f])
  }

  lemma HaveToCatchUp(a: PubNode, b: PubNode, c: Crypto, authors: Feeds, reserved: set<Bytes>, rounds: nat)
    requires Pair(a, b, c, authors, reserved)
    requires forall f {:trigger f in b.goset.keys} :: f in b.goset.keys && f in a.reps && f in b.reps ==> |a.reps[f].recs| <= |b.reps[f].recs| + rounds
    ensures CanCatchUp(authors, b.goset.keys, CountsOf(a.reps), CountsOf(b.reps), RecsOf(a.reps), rounds)
  {
    hide Good, Apart;
    forall f: Key {:trigger f in b.goset.keys} | f in b.goset.keys
      ensures f in CountsOf(a.reps) && f in CountsOf(b.reps) && f in RecsOf(a.reps) && f in authors
        && CountsOf(a.reps)[f] <= CountsOf(b.reps)[f] + rounds && |RecsOf(a.reps)[f]| == CountsOf(a.reps)[f] && Follows(RecsOf(a.reps)[f], authors[f])
    {
      KeysCounted(a, c, authors, reserved, f);
      KeysCounted(b, c, authors, reserved, f);
      ShelfIsAuthors(a, c, authors, reserved, f);
    }
  }

  lemma NothingGained(authors: Feeds, keys: seq<Key>, goal: map<Bytes, nat>, start: map<Bytes, nat>, had: map<Bytes, seq<Rec>>, rounds: nat)
    requires CanCatchUp(authors, keys, goal, start, had, rounds)
    ensures AtLeast(goal, goal) && AllGained(goal, start, start, keys, 0)
  {
    forall x | 0 <= x < |keys| ensures Gained(goal, start, start, keys[x], 0) {
      assert keys[x] in keys;
    }
  }

  lemma HaveCaughtUp(b: PubNode, c: Crypto, authors: Feeds, reserved: set<Bytes>, keys: seq<Key>, goal: map<Bytes, nat>, start: map<Bytes, nat>, had: map<Bytes, seq<Rec>>, rounds: nat)
    requires Good(b, c, authors, reserved) && b.goset.keys == keys && CanCatchUp(authors, keys, goal, start, had, rounds)
    requires AllGained(goal, start, CountsOf(b.reps), keys, rounds)
    ensures forall f {:trigger f in keys} :: f in keys ==> f in had && f in b.reps && Follows(had[f], b.reps[f].recs)
  {
    hide Good, Apart;
    forall f: Key {:trigger f in keys} | f in keys ensures f in had && f in b.reps && Follows(had[f], b.reps[f].recs) {
      var x :| 0 <= x < |keys| && keys[x] == f;
      assert Gained(goal, start, CountsOf(b.reps), keys[x], rounds);
      KeysCounted(b, c, authors, reserved, f);
      ShelfIsAuthors(b, c, authors, reserved, f);
    }
  }

  /** Two nodes with the same keys advertise them, and then one asks the other as often as
      there are feeds, times the most that it lacks of one: it has all that the other
      had. */
  method Synchronize(a: PubNode, b: PubNode, ghost c: Crypto, ghost authors: Feeds, ghost reserved: set<Bytes>, rounds: nat) returns (exchanges: nat)
    requires Good(a, c, authors, reserved) && Good(b, c, authors, reserved) && Footprint(a) !! Footprint(b)
    requires a.role == InOut && a.goset.keys == b.goset.keys && 1 <= |a.goset.keys| < 256
    requires AreFeeds(c, authors) && StatesApart(c, authors, reserved) && WellSigned(c, authors)
    requires forall pkt {:trigger Trusted(c, authors, pkt)} :: Trusted(c, authors, pkt)
    requires forall f {:trigger f in b.goset.keys} :: f in b.goset.keys && f in a.reps && f in b.reps ==> |a.reps[f].recs| <= |b.reps[f].recs| + rounds
    modifies Footprint(a), Footprint(b)
    ensures Pair(a, b, c, authors, reserved) && b.goset.keys == old(b.goset.keys) && exchanges == rounds * |b.goset.keys|
    ensures forall f {:trigger f in b.goset.keys} :: f in b.goset.keys ==>
      f in old(a.reps) && f in b.reps && Follows(old(a.reps[f].recs), b.reps[f].recs)
  {
    hide PubNode.Valid, PubNode.GosetOk, PubNode.RequestsOk, Trusted, WellSigned, StatesApart, AreFeeds, XorOf, MakeClaim, Reconciliation.Round, Reconciliation.AllHonest, G.BySize, G.HasNews;
    var _ := a.GetGOsetAdv(authors, reserved);
    var _ := b.GetGOsetAdv(authors, reserved);
    exchanges := CatchUp(a, b, c, authors, reserved, rounds);
  }
}
