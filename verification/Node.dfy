/** A node: replicas of many feeds, and filter banks that say which packet goes to
    which replica. */
module Node {
  import opened Basics
  import opened LogFormat
  import opened Frontier
  import opened Filters
  import opened Replica
  import opened Replication
  import opened KeySets
  import opened Reconciliation
  import G = GOset
  import S = Serving
  import Bipf
  import BipfCodec

  datatype Role = In | Out | InOut

  type Feeds = map<Key, seq<Rec>>

  /** What the authors have written. */
  ghost predicate AreFeeds(c: Crypto, authors: Feeds) {
    Sound(c) && forall f :: f in authors ==> AreRecs(authors[f]) && |authors[f]| < MAX32
  }

  /** The name from which the prefix of the entry after the first `k` is computed. */
  ghost function NameOf(c: Crypto, fid: Bytes, author: seq<Rec>, k: nat): Bytes
    requires Sound(c) && |fid| == 32 && k <= |author|
  {
    Nam(fid, k + 1, PrevOf(c, fid, author[..k]))
  }

  /** b'want', b'blob' */
  const WANT: Bytes := [119, 97, 110, 116]
  const BLOB: Bytes := [98, 108, 111, 98]

  /** b'tinySSB-0.1 GOset 1' */
  const GOSET_DMX_STR: Bytes := [116, 105, 110, 121, 83, 83, 66, 45, 48, 46, 49, 32, 71, 79, 115, 101, 116, 32, 49]

  function GosetPrefix(c: Crypto): Bytes
    requires Sound(c)
  {
    Dmx(c, GOSET_DMX_STR)
  }

  /** The prefix of requests for entries among nodes whose key sets have this state. */
  function WantPrefix(c: Crypto, state: Key): Bytes
    requires Sound(c)
  {
    Dmx(c, PFX + WANT + state)
  }

  function BlobPrefix(c: Crypto, state: Key): Bytes
    requires Sound(c)
  {
    Dmx(c, PFX + BLOB + state)
  }

  /** What a reserved prefix stands for, in a node whose key set has this state. */
  function Listening(c: Crypto, role: Role, state: Key, d: Bytes): Option<Handler>
    requires Sound(c)
  {
    if d == GosetPrefix(c) then Some(GOsetMsg)
    else if role == In then None
    else if d == WantPrefix(c, state) then Some(WantMsg)
    else if d == BlobPrefix(c, state) then Some(ChunkMsg)
    else None
  }

  function HandlerIn(dmxt: map<Bytes, Handler>, d: Bytes): Option<Handler> {
    if d in dmxt then Some(dmxt[d]) else None
  }

  /** Of the reserved prefixes exactly the right ones are armed. */
  ghost predicate Listens(c: Crypto, role: Role, reserved: set<Bytes>, dmxt: map<Bytes, Handler>, state: Key)
    requires Sound(c)
  {
    forall d {:trigger HandlerIn(dmxt, d)} :: d in reserved ==> HandlerIn(dmxt, d) == Listening(c, role, state, d)
  }

  ghost predicate ListensBesides(c: Crypto, role: Role, reserved: set<Bytes>, dmxt: map<Bytes, Handler>, want: Option<Bytes>, chnk: Option<Bytes>)
    requires Sound(c)
  {
    forall d {:trigger HandlerIn(dmxt, d)} :: d in reserved && (role == In || (Some(d) != want && Some(d) != chnk)) ==>
      HandlerIn(dmxt, d) == if d == GosetPrefix(c) then Some(GOsetMsg) else None
  }

  lemma ListensAgain(c: Crypto, role: Role, reserved: set<Bytes>, dmxt: map<Bytes, Handler>, want: Option<Bytes>, chnk: Option<Bytes>, state: Key)
    requires Sound(c) && ListensBesides(c, role, reserved, dmxt, want, chnk) && PrefixesApart(c, reserved, state)
    requires want != Some(GosetPrefix(c)) && chnk != Some(GosetPrefix(c))
    ensures Listens(c, role, reserved,
                    if role == In then dmxt else Without(Without(dmxt, want), chnk)[WantPrefix(c, state) := WantMsg][BlobPrefix(c, state) := ChunkMsg],
                    state)
  {
    hide GosetPrefix, WantPrefix, BlobPrefix;
    var g, w, b := GosetPrefix(c), WantPrefix(c, state), BlobPrefix(c, state);
    var m := if role == In then dmxt else Without(Without(dmxt, want), chnk)[w := WantMsg][b := ChunkMsg];
    forall d | d in reserved ensures HandlerIn(m, d) == Listening(c, role, state, d) {
      assert role == In || (Some(d) != want && Some(d) != chnk) ==> HandlerIn(dmxt, d) == if d == g then Some(GOsetMsg) else None;
    }
  }

  lemma ListensStill(c: Crypto, role: Role, reserved: set<Bytes>, a: map<Bytes, Handler>, b: map<Bytes, Handler>, state: Key)
    requires Sound(c) && Listens(c, role, reserved, a, state) && SameOn(reserved, a, b)
    ensures Listens(c, role, reserved, b, state)
  {
    hide Listening;
    forall d | d in reserved ensures HandlerIn(b, d) == Listening(c, role, state, d) {
      assert HandlerIn(a, d) == HandlerIn(b, d);
    }
  }

  /** The three prefixes do not collide, and no feed uses them. */
  ghost predicate PrefixesApart(c: Crypto, reserved: set<Bytes>, state: Key)
    requires Sound(c)
  {
    var g, w, b := GosetPrefix(c), WantPrefix(c, state), BlobPrefix(c, state);
    g in reserved && w in reserved && b in reserved && g != w && g != b && w != b
  }

  /** Neither do they in any state that a set of keys of authors can have. */
  ghost predicate StatesApart(c: Crypto, authors: Feeds, reserved: set<Bytes>)
    requires Sound(c)
  {
    forall keys {:trigger XorOf(keys)} :: Sorted(keys) && SetOf(keys) <= authors.Keys ==> PrefixesApart(c, reserved, XorOf(keys))
  }

  /** No two of the prefixes that are ever used collide. */
  ghost predicate Apart(c: Crypto, authors: Feeds, reserved: set<Bytes>)
    requires AreFeeds(c, authors)
  {
    && (forall f, g, j, k {:trigger NameOf(c, f, authors[f], j), NameOf(c, g, authors[g], k)} ::
          f in authors && g in authors && 0 <= j <= |authors[f]| && 0 <= k <= |authors[g]| &&
          Dmx(c, NameOf(c, f, authors[f], j)) == Dmx(c, NameOf(c, g, authors[g], k)) ==>
            f == g && j == k)
    && (forall f, k {:trigger NameOf(c, f, authors[f], k)} ::
          f in authors && 0 <= k <= |authors[f]| ==> Dmx(c, NameOf(c, f, authors[f], k)) !in reserved)
  }

  /** The signature check accepts, in this packet, only what authors have signed. */
  ghost predicate Trusted(c: Crypto, authors: Feeds, pkt: Bytes)
    requires AreFeeds(c, authors)
  {
    forall f {:trigger authors[f]} :: f in authors ==> Genuine(c, f, authors[f], pkt)
  }

  lemma FrontName(c: Crypto, fid: Bytes, author: seq<Rec>, recs: seq<Rec>, f: State, log: Bytes)
    requires Consistent(c, fid, recs, f, log) && Follows(recs, author) && AreRecs(author)
    ensures DmxOf(c, fid, f) == Dmx(c, NameOf(c, fid, author, |recs|))
  {
    hide LogOf, Dmx;
    PrevOfEntries(c, fid, recs, author[..|recs|]);
  }

  /** A new front for one feed is free to be armed. */
  lemma FrontFree(c: Crypto, authors: Feeds, reserved: set<Bytes>, fronts: Fronts, counts: map<Bytes, nat>,
                  dmxt: map<Bytes, Handler>, fid: Bytes, d: Bytes, k: nat)
    requires AreFeeds(c, authors) && Apart(c, authors, reserved) && fid in authors && k <= |authors[fid]|
    requires fronts.Keys == counts.Keys <= authors.Keys
    requires forall g {:trigger fronts[g]} :: g in fronts ==>
               counts[g] <= |authors[g]| && DmxOf(c, g, fronts[g]) == Dmx(c, NameOf(c, g, authors[g], counts[g]))
    requires forall e {:trigger dmxt[e]} :: e in dmxt && !dmxt[e].Entry? ==> e in reserved
    requires d == Dmx(c, NameOf(c, fid, authors[fid], k))
    ensures Free(c, fronts, dmxt, fid, d)
  {
    hide DmxOf, Dmx, NameOf;
  }

  type Replicas = S.Replicas

  /** The replica of a feed follows the author. */
  ghost predicate RepOk(c: Crypto, f: Key, r: Replica, authors: Feeds)
    reads r
  {
    r.Valid() && r.fid == f && r.crypto == c && f in authors && Follows(r.recs, authors[f])
  }

  ghost predicate RepsOk(c: Crypto, reps: Replicas, authors: Feeds)
    reads S.Objects(reps)
  {
    && (forall f {:trigger reps[f]} :: f in reps ==> RepOk(c, f, reps[f], authors))
    && (forall f, g {:trigger reps[f], reps[g]} :: f in reps && g in reps && f != g ==> reps[f] != reps[g])
  }

  lemma FeedsOfAuthors(c: Crypto, reps: Replicas, authors: Feeds)
    requires RepsOk(c, reps, authors)
    ensures reps.Keys <= authors.Keys
  {
    hide Replica.Valid, Follows;
    forall f | f in reps ensures f in authors {
      assert RepOk(c, f, reps[f], authors);
    }
  }

  ghost predicate Extends(a: Replicas, b: Replicas) {
    forall f {:trigger a[f]} {:trigger b[f]} :: f in a ==> f in b && b[f] == a[f]
  }

  ghost function FrontsOf(reps: Replicas): Fronts
    reads S.Objects(reps)
  {
    map f | f in reps :: reps[f].state
  }

  ghost function RecsOf(reps: Replicas): map<Bytes, seq<Rec>>
    reads S.Objects(reps)
  {
    map f | f in reps :: reps[f].recs
  }

  ghost function CountsOf(reps: Replicas): map<Bytes, nat>
    reads S.Objects(reps)
  {
    map f | f in reps :: |reps[f].recs|
  }

  /** The filter banks are exact, unless the node only sends. */
  ghost predicate FiltersOk(c: Crypto, role: Role, fronts: Fronts, dmxt: map<Bytes, Handler>, chkt: map<Bytes, set<Aux>>, reserved: set<Bytes>)
    requires Sound(c)
  {
    && (role != Out ==> EntryFilters(c, fronts, dmxt) && ChunkFilters(fronts, chkt))
    && (forall d {:trigger dmxt[d]} :: d in dmxt && !dmxt[d].Entry? ==> d in reserved)
  }

  /** What lets a feed move to front `f` after `k` entries. */
  lemma MoveIsFree(c: Crypto, reps: Replicas, authors: Feeds, reserved: set<Bytes>, dmxt: map<Bytes, Handler>, fid: Key, d: Bytes, k: nat)
    requires AreFeeds(c, authors) && Apart(c, authors, reserved) && RepsOk(c, reps, authors)
    requires forall e {:trigger dmxt[e]} :: e in dmxt && !dmxt[e].Entry? ==> e in reserved
    requires fid in authors && k <= |authors[fid]| && d == Dmx(c, NameOf(c, fid, authors[fid], k))
    ensures Free(c, FrontsOf(reps), dmxt, fid, d)
  {
    hide DmxOf, Dmx, NameOf, Consistent;
    var fronts, counts := FrontsOf(reps), CountsOf(reps);
    forall g {:trigger fronts[g]} | g in fronts
      ensures counts[g] <= |authors[g]| && DmxOf(c, g, fronts[g]) == Dmx(c, NameOf(c, g, authors[g], counts[g]))
    {
      assert RepOk(c, g, reps[g], authors);
      FrontName(c, g, authors[g], reps[g].recs, reps[g].state, reps[g].log);
    }
    FrontFree(c, authors, reserved, fronts, counts, dmxt, fid, d, k);
  }

  lemma EntryFilterAt(c: Crypto, role: Role, fronts: Fronts, dmxt: map<Bytes, Handler>, chkt: map<Bytes, set<Aux>>, reserved: set<Bytes>, d: Bytes)
    requires Sound(c) && FiltersOk(c, role, fronts, dmxt, chkt, reserved) && role != Out
    ensures forall e {:trigger dmxt[e]} :: e in dmxt && !dmxt[e].Entry? ==> e in reserved
    ensures d in dmxt && dmxt[d].Entry? ==>
      && dmxt[d].fid in fronts && d == DmxOf(c, dmxt[d].fid, fronts[dmxt[d].fid])
      && dmxt[d].seqn == fronts[dmxt[d].fid].maxSeq + 1
  {
    hide DmxOf, ChunkFilters;
  }

  lemma FreeElsewhere(c: Crypto, fronts: Fronts, f: State, dmxt: map<Bytes, Handler>, fid: Bytes, d: Bytes)
    requires Sound(c) && fid in fronts && Free(c, fronts[fid := f], dmxt, fid, d)
    ensures Free(c, fronts, dmxt, fid, d)
  {
    hide DmxOf;
    forall g {:trigger fronts[g]} | g in fronts && g != fid ensures DmxOf(c, g, fronts[g]) != d {
      assert fronts[fid := f][g] == fronts[g];
    }
  }

  /** The filter banks after an entry was taken. */
  lemma FiltersAfterEntry(c: Crypto, role: Role, fronts: Fronts, dmxt: map<Bytes, Handler>, chkt: map<Bytes, set<Aux>>, reserved: set<Bytes>,
                          fid: Bytes, f: State, pkt: Bytes, n: nat)
    requires Sound(c) && FiltersOk(c, role, fronts, dmxt, chkt, reserved) && role != Out && |pkt| == 120
    requires fid in fronts && fronts[fid].maxSeq + 1 !in fronts[fid].pendSc && f == AfterEntry(c, fid, fronts[fid], pkt, n)
    requires Free(c, fronts[fid := f], dmxt, fid, DmxOf(c, fid, f))
    ensures var s := f.maxSeq;
      FiltersOk(c, role, fronts[fid := f],
                (dmxt - {DmxOf(c, fid, fronts[fid])})[DmxOf(c, fid, f) := Entry(fid, s + 1)],
                if s in f.pendSc then Armed(chkt, f.pendSc[s].hptr, Aux(fid, s, f.pendSc[s].cnr)) else chkt,
                reserved)
  {
    hide DmxOf, EntryFilters, ChunkFilters, Hash20, Armed;
    FreeElsewhere(c, fronts, f, dmxt, fid, DmxOf(c, fid, f));
    EntryMoves(c, fronts, dmxt, fid, f);
    ChainOpens(fronts, chkt, fid, f, f.maxSeq);
  }

  class PubNode {
    const crypto: Crypto
    const role: Role
    const goset: G.GOset
    var reps: Replicas
    var dmxt: map<Bytes, Handler>
    var chkt: map<Bytes, set<Aux>>
    var wantDmx: Option<Bytes>
    var chnkDmx: Option<Bytes>
    var logOffs: nat

    /** Replicas follow their authors, filters are exact. */
    ghost predicate Valid(authors: Feeds, reserved: set<Bytes>)
      reads this, S.Objects(reps)
    {
      && AreFeeds(crypto, authors) && Apart(crypto, authors, reserved) && RepsOk(crypto, reps, authors)
      && FiltersOk(crypto, role, FrontsOf(reps), dmxt, chkt, reserved)
    }

    /** Every known key is that of an active feed. */
    ghost predicate GosetOk(authors: Feeds)
      reads this, goset
    {
      goset.Within(authors.Keys) && SetOf(goset.keys) <= reps.Keys
    }

    /** Requests have the prefixes that go with the state of the key set. Besides the
        feeds, the node listens to messages about the key set and, unless it only
        receives, to such requests; and to nothing else. */
    ghost predicate RequestsOk(reserved: set<Bytes>)
      reads this, goset
    {
      && Sound(crypto) && PrefixesApart(crypto, reserved, goset.state)
      && wantDmx == Some(WantPrefix(crypto, goset.state)) && chnkDmx == Some(BlobPrefix(crypto, goset.state))
      && Listens(crypto, role, reserved, dmxt, goset.state)
      && logOffs < 0x8000_0000 && |goset.keys| < 0x8000_0000
    }

    /** The same, but for the prefixes of requests that are about to be replaced. */
    ghost predicate RequestsStale(reserved: set<Bytes>)
      reads this
    {
      && Sound(crypto) && wantDmx != Some(GosetPrefix(crypto)) && chnkDmx != Some(GosetPrefix(crypto))
      && (wantDmx.Some? ==> wantDmx.value in reserved) && (chnkDmx.Some? ==> chnkDmx.value in reserved)
      && ListensBesides(crypto, role, reserved, dmxt, wantDmx, chnkDmx)
    }

    /** A node opens its replicas; the key set is that of its feeds. */
    constructor (crypto: Crypto, role: Role, reps: Replicas, random: byte, ghost authors: Feeds, ghost reserved: set<Bytes>)
      requires AreFeeds(crypto, authors) && Apart(crypto, authors, reserved) && RepsOk(crypto, reps, authors)
      requires StatesApart(crypto, authors, reserved)
      ensures Valid(authors, reserved) && GosetOk(authors) && (|goset.keys| < 0x8000_0000 ==> RequestsOk(reserved))
      ensures this.role == role && this.crypto == crypto && this.reps == reps && SetOf(goset.keys) == reps.Keys
      ensures logOffs == if |reps| == 0 then 0 else random % |reps|
    {
      hide Apart, FiltersOk, PrefixesApart, StatesApart, FrontsOf, RepOk, XorOf, Listens, RequestsOk, Sorted, G.GOset.Within, Valid, SetOf;
      this.crypto, this.role, this.reps := crypto, role, reps;
      dmxt, chkt, wantDmx, chnkDmx := map[], map[], None, None;
      logOffs := StartOffset(random, |reps|);
      FeedsOfAuthors(crypto, reps, authors);
      goset := new G.GOset(reps.Keys, authors.Keys);
      new;
      KeysOfAuthors(authors, reserved);
      ArmAll(authors, reserved);
    }

    lemma KeysOfAuthors(authors: Feeds, reserved: set<Bytes>)
      requires AreFeeds(crypto, authors) && RepsOk(crypto, reps, authors) && StatesApart(crypto, authors, reserved)
      requires goset.Within(authors.Keys) && goset.state == XorOf(goset.keys)
      ensures PrefixesApart(crypto, reserved, goset.state)
    {
      hide PrefixesApart, XorOf;
    }

    /** The filters of a node that starts. */
    method ArmAll(ghost authors: Feeds, ghost reserved: set<Bytes>)
      requires AreFeeds(crypto, authors) && Apart(crypto, authors, reserved) && RepsOk(crypto, reps, authors)
      requires SetOf(goset.keys) == reps.Keys && Sorted(goset.keys) && chkt == map[] && dmxt == map[] && wantDmx == None && chnkDmx == None
      requires PrefixesApart(crypto, reserved, goset.state)
      modifies this`dmxt, this`chkt, this`wantDmx, this`chnkDmx
      ensures Valid(authors, reserved)
      ensures logOffs < 0x8000_0000 && |goset.keys| < 0x8000_0000 ==> RequestsOk(reserved)
    {
      hide Apart, FiltersOk, RepsOk, FrontsOf, SetOf, Sorted, Dmx;
      Outside();
      ArmDmx(GosetPrefix(crypto), Some(GOsetMsg));
      ArmFeeds(authors, reserved);
      SetWantDmx(authors, reserved);
    }

    /** The filters of one feed, as it was found at the start. */
    method ArmFeed(fid: Key, ghost done: Fronts, ghost authors: Feeds, ghost reserved: set<Bytes>)
      requires AreFeeds(crypto, authors) && Apart(crypto, authors, reserved) && RepsOk(crypto, reps, authors) && role != Out
      requires FiltersOk(crypto, role, done, dmxt, chkt, reserved) && fid in reps && fid !in done
      requires forall f {:trigger done[f]} :: f in done ==> f in reps && done[f] == reps[f].state
      modifies this`dmxt, this`chkt
      ensures FiltersOk(crypto, role, done[fid := reps[fid].state], dmxt, chkt, reserved)
      ensures dmxt == old(dmxt)[NextDmx(fid) := Entry(fid, reps[fid].state.maxSeq + 1)]
    {
      hide Apart, RepsOk, EntryFilters, ChunkFilters, DmxOf, Armed;
      ghost var f := reps[fid].state;
      FeedIsFree(fid, done, authors, reserved);
      DmxOfFront(crypto, fid, f, map[]);
      EntryMoves(crypto, done, dmxt, fid, f.(pendSc := map[]));
      ChainOpens(done, chkt, fid, f.(pendSc := map[]), 0);
      ArmDmx(NextDmx(fid), Some(Entry(fid, reps[fid].state.maxSeq + 1)));
      ghost var armed := dmxt;
      var pend := reps[fid].state.pendSc;
      var todo := pend.Keys;
      ghost var part: map<nat, Pend> := map[];
      while todo != {}
        invariant todo <= pend.Keys && part.Keys == pend.Keys - todo && forall s :: s in part ==> part[s] == pend[s]
        invariant FiltersOk(crypto, role, done[fid := f.(pendSc := part)], dmxt, chkt, reserved)
        invariant dmxt == armed
        decreases todo
      {
        var s :| s in todo;
        ghost var f' := f.(pendSc := part[s := pend[s]]);
        ghost var fronts := done[fid := f.(pendSc := part)];
        ChainOpens(fronts, chkt, fid, f', s);
        SameEntryFilters(crypto, fronts, dmxt, fid, f');
        assert fronts[fid := f'] == done[fid := f'];
        ArmChk(pend[s].hptr, Aux(fid, s, pend[s].cnr), true);
        part := part[s := pend[s]];
        todo := todo - {s};
      }
      assert part == pend;
    }

    function NextDmx(fid: Key): Bytes
      reads this, reps[fid]
      requires Sound(crypto) && fid in reps
    {
      Dmx(crypto, Nam(fid, reps[fid].state.maxSeq + 1, reps[fid].state.prev))
    }

    lemma FeedIsFree(fid: Key, done: Fronts, authors: Feeds, reserved: set<Bytes>)
      requires AreFeeds(crypto, authors) && Apart(crypto, authors, reserved) && RepsOk(crypto, reps, authors)
      requires FiltersOk(crypto, role, done, dmxt, chkt, reserved) && fid in reps
      requires forall f {:trigger done[f]} :: f in done ==> f in reps && done[f] == reps[f].state
      ensures Free(crypto, done, dmxt, fid, DmxOf(crypto, fid, reps[fid].state))
      ensures NextDmx(fid) == DmxOf(crypto, fid, reps[fid].state)
    {
      hide Apart, Dmx, EntryFilters, ChunkFilters, Consistent;
      assert RepOk(crypto, fid, reps[fid], authors);
      FrontName(crypto, fid, authors[fid], reps[fid].recs, reps[fid].state, reps[fid].log);
      MoveIsFree(crypto, reps, authors, reserved, dmxt, fid, DmxOf(crypto, fid, reps[fid].state), |reps[fid].recs|);
      forall g {:trigger done[g]} | g in done && g != fid ensures DmxOf(crypto, g, done[g]) != DmxOf(crypto, fid, reps[fid].state) {
        assert FrontsOf(reps)[g] == done[g];
      }
    }

    lemma NotReserved(fid: Key, authors: Feeds, reserved: set<Bytes>)
      requires AreFeeds(crypto, authors) && Apart(crypto, authors, reserved) && RepsOk(crypto, reps, authors) && fid in reps
      ensures NextDmx(fid) !in reserved
    {
      hide Apart, Dmx, Replica.Valid, Follows;
      assert FrontsOf(reps)[fid] == reps[fid].state;
      if NextDmx(fid) in reserved {
        ReservedApart(crypto, reps, authors, reserved, NextDmx(fid));
      }
    }

    lemma NextNotReserved(fid: Key, authors: Feeds, reserved: set<Bytes>)
      requires AreFeeds(crypto, authors) && Apart(crypto, authors, reserved) && RepsOk(crypto, reps, authors) && fid in reps
      ensures DmxOf(crypto, fid, reps[fid].state) !in reserved
    {
      hide Apart, RepsOk, Dmx;
      NotReserved(fid, authors, reserved);
    }

    lemma NoFilters(c: Crypto)
      requires Sound(c) && chkt == map[] && forall d {:trigger dmxt[d]} :: d in dmxt ==> !dmxt[d].Entry?
      ensures EntryFilters(c, map[], dmxt) && ChunkFilters(map[], chkt)
    {
    }

    method ArmFeeds(ghost authors: Feeds, ghost reserved: set<Bytes>)
      requires AreFeeds(crypto, authors) && Apart(crypto, authors, reserved) && RepsOk(crypto, reps, authors)
      requires SetOf(goset.keys) == reps.Keys && Sorted(goset.keys) && chkt == map[]
      requires forall d {:trigger dmxt[d]} :: d in dmxt ==> !dmxt[d].Entry? && d in reserved
      modifies this`dmxt, this`chkt
      ensures Valid(authors, reserved)
      ensures SameOn(reserved, old(dmxt), dmxt)
    {
      hide Apart, RepsOk, DmxOf, EntryFilters, ChunkFilters, Dmx;
      Outside();
      NoFilters(crypto);
      if role != Out {
        ghost var done: Fronts := map[];
        for ndx := 0 to |goset.keys|
          invariant FiltersOk(crypto, role, done, dmxt, chkt, reserved)
          invariant forall f {:trigger f in done} :: f in done <==> f in goset.keys[..ndx]
          invariant forall f {:trigger done[f]} :: f in done ==> f in reps && done[f] == reps[f].state
          invariant SameOn(reserved, old(dmxt), dmxt)
        {
          var fid := goset.keys[ndx];
          KeyIsNew(goset.keys, ndx);
          NotReserved(fid, authors, reserved);
          ArmFeed(fid, done, authors, reserved);
          done := done[fid := reps[fid].state];
        }
        assert done == FrontsOf(reps);
      }
    }

    method ArmDmx(d: Bytes, h: Option<Handler>)
      modifies this`dmxt
      ensures dmxt == if h == None then old(dmxt) - {d} else old(dmxt)[d := h.value]
    {
      if h == None {
        if d in dmxt {
          dmxt := dmxt - {d};
        }
      } else {
        dmxt := dmxt[d := h.value];
      }
    }

    method ArmChk(h: Bytes, a: Aux, on: bool)
      modifies this`chkt
      ensures chkt == if on then Armed(old(chkt), h, a) else Disarmed(old(chkt), h, a)
    {
      if !on {
        if h in chkt {
          ghost var was := chkt;
          if a in chkt[h] {
            chkt := chkt[h := chkt[h] - {a}];
          }
          assert a !in was[h] ==> was[h] - {a} == was[h];
          assert chkt == was[h := was[h] - {a}];
          if chkt[h] == {} {
            chkt := chkt - {h};
            assert chkt == was - {h};
          }
        }
      } else {
        ghost var was := chkt;
        if h !in chkt {
          chkt := chkt[h := {}];
        }
        chkt := chkt[h := chkt[h] + {a}];
        assert chkt == Armed(was, h, a) by {
          assert h !in was ==> chkt[h] == {a};
        }
      }
    }

    // -------------------------------------------------------------- entries

    lemma Outside()
      ensures this !in S.Objects(reps) && goset !in S.Objects(reps)
    {
      forall f | f in reps ensures (reps[f] as object) != (this as object) && (reps[f] as object) != (goset as object) {
      }
    }

    /** One replica is given an entry. */
    method IngestFor(fid: Key, seqn: nat, buf: Bytes, ghost authors: Feeds) returns (r: Ingest)
      requires AreFeeds(crypto, authors) && RepsOk(crypto, reps, authors) && fid in reps && Trusted(crypto, authors, buf)
      modifies reps[fid]
      ensures RepsOk(crypto, reps, authors) && fid in authors && FrontsOf(reps) == old(FrontsOf(reps))[fid := reps[fid].state]
      ensures r == Stored <==> old(reps[fid].Acceptable(buf, seqn))
      ensures r == Stored ==>
        && ChunkCount(buf).Some? && reps[fid].recs == old(reps[fid].recs) + [Fresh(buf, ChunkCount(buf).value)]
        && reps[fid].state == AfterEntry(crypto, fid, old(reps[fid].state), buf, ChunkCount(buf).value)
        && seqn == reps[fid].state.maxSeq && seqn !in old(reps[fid].state.pendSc) && seqn + 1 < MAX32
        && |reps[fid].recs| <= |authors[fid]| && DmxOf(crypto, fid, reps[fid].state) == Dmx(crypto, NameOf(crypto, fid, authors[fid], |reps[fid].recs|))
      ensures r != Stored ==> reps[fid].recs == old(reps[fid].recs) && reps[fid].state == old(reps[fid].state)
      ensures r == Raised <==> old(reps[fid].Raises(buf, seqn))
    {
      hide Consistent, Dmx, NameOf, ChunkCount, Nam, Hash20;
      assert RepOk(crypto, fid, reps[fid], authors);
      reps[fid].EntryNeeds();
      PendingBelow(reps[fid]);
      ghost var recs := reps[fid].recs;
      if reps[fid].Acceptable(buf, seqn) {
        AcceptableIsNext(reps[fid], authors[fid], buf);
      }
      r := reps[fid].IngestEntry(buf, seqn);
      if r == Stored {
        FollowsNext(recs, authors[fid], Fresh(buf, ChunkCount(buf).value));
        FrontName(crypto, fid, authors[fid], reps[fid].recs, reps[fid].state, reps[fid].log);
      }
      assert RepOk(crypto, fid, reps[fid], authors);
      forall g | g in reps && g != fid ensures RepOk(crypto, g, reps[g], authors) {
        assert old(RepOk(crypto, g, reps[g], authors));
      }
      assert FrontsOf(reps) == old(FrontsOf(reps))[fid := reps[fid].state];
    }

    /** The filters for what follows an entry. */
    method ArmNext(dmx: Bytes, fid: Key, seqn: nat)
      requires Sound(crypto) && fid in reps && seqn == reps[fid].state.maxSeq
      modifies this`dmxt, this`chkt
      ensures dmxt == (old(dmxt) - {dmx})[DmxOf(crypto, fid, reps[fid].state) := Entry(fid, seqn + 1)]
      ensures var f := reps[fid].state;
        chkt == if seqn in f.pendSc then Armed(old(chkt), f.pendSc[seqn].hptr, Aux(fid, seqn, f.pendSc[seqn].cnr)) else old(chkt)
    {
      hide Armed, Dmx;
      ArmDmx(dmx, None);
      var next := Dmx(crypto, Nam(fid, seqn + 1, reps[fid].state.prev));
      ArmDmx(next, Some(Entry(fid, seqn + 1)));
      if seqn in reps[fid].state.pendSc {
        var p := reps[fid].state.pendSc[seqn];
        ArmChk(p.hptr, Aux(fid, seqn, p.cnr), true);
      }
    }

    /** A packet came in with the armed prefix of a feed. */
    method IncomingEntry(dmx: Bytes, buf: Bytes, ghost authors: Feeds, ghost reserved: set<Bytes>) returns (r: Ingest)
      requires Valid(authors, reserved) && role != Out && Trusted(crypto, authors, buf)
      requires dmx in dmxt && dmxt[dmx].Entry? && dmxt[dmx].fid in reps
      modifies this`dmxt, this`chkt, reps[dmxt[dmx].fid]
      ensures Valid(authors, reserved)
      ensures r == Stored <==> old(reps[dmxt[dmx].fid].Acceptable(buf, dmxt[dmx].seqn))
      ensures r == Stored ==> |buf| == 120 && ChunkCount(buf).Some?
      ensures r == Stored ==> reps[old(dmxt)[dmx].fid].recs == old(reps[dmxt[dmx].fid].recs) + [Fresh(buf, ChunkCount(buf).value)]
      ensures r == Stored ==> reps[old(dmxt)[dmx].fid].state == AfterEntry(crypto, old(dmxt)[dmx].fid, old(reps[dmxt[dmx].fid].state), buf, ChunkCount(buf).value)
      ensures r != Stored ==> reps[old(dmxt)[dmx].fid].recs == old(reps[dmxt[dmx].fid].recs) && reps[old(dmxt)[dmx].fid].state == old(reps[dmxt[dmx].fid].state)
      ensures r == Raised <==> old(reps[dmxt[dmx].fid].Raises(buf, dmxt[dmx].seqn))
      ensures SameOn(reserved, old(dmxt), dmxt)
    {
      hide RepsOk, Trusted, Apart, DmxOf, NameOf, ChunkCount, FrontsOf, Armed, FiltersOk;
      var fid, seqn := dmxt[dmx].fid, dmxt[dmx].seqn;
      ghost var fronts := FrontsOf(reps);
      FrontsHave(reps, fid);
      EntryFilterAt(crypto, role, fronts, dmxt, chkt, reserved, dmx);
      NextNotReserved(fid, authors, reserved);
      r := IngestFor(fid, seqn, buf, authors);
      if r == Stored {
        MoveIsFree(crypto, reps, authors, reserved, dmxt, fid, DmxOf(crypto, fid, reps[fid].state), |reps[fid].recs|);
        FiltersAfterEntry(crypto, role, fronts, dmxt, chkt, reserved, fid, reps[fid].state, buf, ChunkCount(buf).value);
        Outside();
        NextNotReserved(fid, authors, reserved);
        ArmNext(dmx, fid, seqn);
        assert FrontsOf(reps) == fronts[fid := reps[fid].state];
      } else {
        assert FrontsOf(reps) == fronts;
        assert FiltersOk(crypto, role, FrontsOf(reps), dmxt, chkt, reserved);
      }
    }

    // --------------------------------------------------------------- chunks

    /** One replica is given a chunk. */
    method IngestChunkFor(a: Aux, buf: Bytes, ghost authors: Feeds) returns (r: Ingest)
      requires AreFeeds(crypto, authors) && RepsOk(crypto, reps, authors) && a.fid in reps && Pending(FrontsOf(reps), Hash20(crypto, buf), a)
      modifies reps[a.fid]
      ensures RepsOk(crypto, reps, authors) && CountsOf(reps) == old(CountsOf(reps))
      ensures r == if |buf| == 120 then Stored else Raised
      ensures r == Stored ==> MovedBy(old(FrontsOf(reps)), FrontsOf(reps), a, buf) && PutChunk(old(RecsOf(reps)), RecsOf(reps), a, buf)
      ensures r != Stored ==> FrontsOf(reps) == old(FrontsOf(reps)) && RecsOf(reps) == old(RecsOf(reps))
    {
      hide RepOk, Hash20, AfterChunk, WithChunk;
      ghost var fronts, recs := FrontsOf(reps), RecsOf(reps);
      r := ChunkInto(reps[a.fid], a.fid, a.seqn, buf, authors);
      forall g | g in reps && g != a.fid ensures RepOk(crypto, g, reps[g], authors) {
        assert old(RepOk(crypto, g, reps[g], authors));
      }
      assert FrontsOf(reps) == fronts[a.fid := reps[a.fid].state];
      assert RecsOf(reps) == recs[a.fid := reps[a.fid].recs];
    }

    method ChunkInto(rep: Replica, fid: Key, seqn: nat, buf: Bytes, ghost authors: Feeds) returns (r: Ingest)
      requires RepOk(crypto, fid, rep, authors) && Sound(crypto)
      requires seqn in rep.state.pendSc && rep.state.pendSc[seqn].hptr == Hash20(crypto, buf)
      modifies rep
      ensures RepOk(crypto, fid, rep, authors) && |rep.recs| == |old(rep.recs)|
      ensures r == if |buf| == 120 then Stored else Raised
      ensures r == Stored ==> rep.state == AfterChunk(old(rep.state), seqn, buf)
      ensures r != Stored ==> rep.state == old(rep.state) && rep.recs == old(rep.recs)
      ensures r == Stored ==>
        var k, j, recs := seqn - 1, old(rep.state.pendSc[seqn].cnr), old(rep.recs);
        0 <= k < |recs| && j < |recs[k].side| && rep.recs == WithChunk(recs, k, j, buf)
    {
      hide Consistent, Hash20, AfterChunk;
      r := rep.IngestChunk(buf, seqn);
    }

    method ArmNextChunk(hptr: Bytes, a: Aux)
      requires a.fid in reps
      modifies this`chkt
      ensures var rest, f := Disarmed(old(chkt), hptr, a), reps[a.fid].state;
        chkt == if a.seqn in f.pendSc then Armed(rest, f.pendSc[a.seqn].hptr, Aux(a.fid, a.seqn, a.cnr + 1)) else rest
    {
      hide Armed, Disarmed;
      ArmChk(hptr, a, false);
      if a.seqn in reps[a.fid].state.pendSc {
        ArmChk(reps[a.fid].state.pendSc[a.seqn].hptr, Aux(a.fid, a.seqn, a.cnr + 1), true);
      }
    }

    /** A packet came in whose hash a side chain waits for. */
    method IncomingChunk(hptr: Bytes, a: Aux, buf: Bytes, ghost authors: Feeds, ghost reserved: set<Bytes>) returns (r: Ingest)
      requires Valid(authors, reserved) && role != Out && Has(chkt, hptr, a) && hptr == Hash20(crypto, buf) && a.fid in reps
      modifies this`chkt, reps[a.fid]
      ensures Valid(authors, reserved) && CountsOf(reps) == old(CountsOf(reps))
      ensures r == if |buf| == 120 then Stored else Raised
      ensures r == Stored ==> MovedBy(old(FrontsOf(reps)), FrontsOf(reps), a, buf) && PutChunk(old(RecsOf(reps)), RecsOf(reps), a, buf)
      ensures r != Stored ==> FrontsOf(reps) == old(FrontsOf(reps)) && RecsOf(reps) == old(RecsOf(reps))
      ensures forall b {:trigger Has(chkt, hptr, b)} :: b != a && Has(old(chkt), hptr, b) ==> Has(chkt, hptr, b)
    {
      hide RepsOk, Apart, Hash20, AfterChunk, FrontsOf, CountsOf, RecsOf, PutChunk, Armed, Disarmed, Has, FiltersOk;
      ghost var fronts := FrontsOf(reps);
      ChunkFilterAt(crypto, role, fronts, dmxt, chkt, reserved, hptr, a);
      r := IngestChunkFor(a, buf, authors);
      if r == Stored {
        FiltersAfterChunk(crypto, role, fronts, dmxt, chkt, reserved, a.fid, a.seqn, buf);
        FrontsHave(reps, a.fid);
        ghost var f := reps[a.fid].state;
        HasDisarmed(chkt, hptr, a);
        HasArmed(Disarmed(chkt, hptr, a), if a.seqn in f.pendSc then f.pendSc[a.seqn].hptr else hptr, Aux(a.fid, a.seqn, a.cnr + 1));
        Outside();
        ArmNextChunk(hptr, a);
      }
    }

    /** Every side chain that waits for this hash is given the chunk, and no other
        one moves. A packet of another length raises an exception. */
    method DeliverChunk(hptr: Bytes, buf: Bytes, ghost authors: Feeds, ghost reserved: set<Bytes>) returns (ok: bool)
      requires Valid(authors, reserved) && role != Out && hptr == Hash20(crypto, buf)
      modifies this`chkt, S.Objects(reps)
      ensures Valid(authors, reserved) && CountsOf(reps) == old(CountsOf(reps))
      ensures |buf| == 120 ==> ok && Moved(old(FrontsOf(reps)), FrontsOf(reps), hptr, buf, {})
      ensures |buf| == 120 ==> Filled(old(FrontsOf(reps)), old(RecsOf(reps)), RecsOf(reps), hptr, buf, {})
      ensures |buf| != 120 ==> FrontsOf(reps) == old(FrontsOf(reps)) && RecsOf(reps) == old(RecsOf(reps))
    {
      hide RepsOk, Apart, Hash20, FiltersOk, AfterChunk, Consistent, Moved, Filled, PutChunk, Pending, FrontsOf, CountsOf, RecsOf;
      ok := true;
      ghost var fronts, recs := FrontsOf(reps), RecsOf(reps);
      var todo := if hptr in chkt then chkt[hptr] else {};
      ghost var all := todo;
      Waiting(crypto, role, fronts, dmxt, chkt, reserved, hptr);
      if |buf| == 120 {
        MovedNothing(crypto, role, fronts, dmxt, chkt, reserved, hptr, buf);
        KeysOfFeeds(reps);
        FilledNothing(crypto, role, fronts, recs, dmxt, chkt, reserved, hptr, buf);
      }
      while todo != {}
        invariant Valid(authors, reserved) && CountsOf(reps) == old(CountsOf(reps)) && todo <= all
        invariant forall b {:trigger Has(chkt, hptr, b)} :: b in todo ==> Has(chkt, hptr, b)
        invariant |buf| == 120 ==> Moved(fronts, FrontsOf(reps), hptr, buf, todo) && Filled(fronts, recs, RecsOf(reps), hptr, buf, todo)
        invariant |buf| != 120 ==> FrontsOf(reps) == fronts && RecsOf(reps) == recs
        decreases todo
      {
        var a :| a in todo;
        assert Has(chkt, hptr, a);
        ghost var before, were := FrontsOf(reps), RecsOf(reps);
        ChunkFilterAt(crypto, role, before, dmxt, chkt, reserved, hptr, a);
        FrontsHave(reps, a.fid);
        var r := IncomingChunk(hptr, a, buf, authors, reserved);
        if r == Raised {
          return false;
        }
        MovedOne(fronts, before, FrontsOf(reps), hptr, buf, todo, a);
        FilledOne(fronts, recs, were, RecsOf(reps), hptr, buf, todo, a);
        todo := todo - {a};
      }
    }

    /** The same, seen from the records: each chain that waits for the hash has one chunk
        more, and nothing else has changed. */
    method Deliver(buf: Bytes, ghost authors: Feeds, ghost reserved: set<Bytes>)
      requires Valid(authors, reserved) && role != Out
      modifies this`chkt, S.Objects(reps)
      ensures Valid(authors, reserved) && CountsOf(reps) == old(CountsOf(reps))
      ensures AllAdvanced(old(ShelfOf(reps)), ShelfOf(reps), |buf| == 120, Hash20(crypto, buf), buf)
      ensures old(RequestsOk(reserved)) ==> RequestsOk(reserved)
    {
      hide RepsOk, Apart, Hash20, FiltersOk, AfterChunk, Consistent, Moved, Filled, FrontsOf, CountsOf, RecsOf, ShelfOf, Advanced, Listens, PrefixesApart;
      Outside();
      ghost var fronts, recs := FrontsOf(reps), RecsOf(reps);
      ghost var shelf := ShelfOf(reps);
      AllTold(authors, reserved);
      ShelfParts(reps);
      var _ := DeliverChunk(Hash20(crypto, buf), buf, authors, reserved);
      ShelfParts(reps);
      if |buf| == 120 {
        MovedAdvances(crypto, fronts, recs, FrontsOf(reps), RecsOf(reps), shelf, ShelfOf(reps), Hash20(crypto, buf), buf);
      } else {
        SameShelf(fronts, recs, shelf, ShelfOf(reps));
        NothingAdvances(shelf, ShelfOf(reps), Hash20(crypto, buf), buf);
      }
    }

    lemma AllTold(authors: Feeds, reserved: set<Bytes>)
      requires Valid(authors, reserved)
      ensures Told(crypto, FrontsOf(reps), RecsOf(reps))
    {
      hide Apart, FiltersOk, PrevOf, LogOf, SideOk;
      forall f {:trigger FrontsOf(reps)[f]} | f in FrontsOf(reps) ensures ToldAt(crypto, RecsOf(reps)[f], FrontsOf(reps)[f].pendSc) {
        assert RepOk(crypto, f, reps[f], authors);
      }
    }

    // ------------------------------------------------------------- new feeds

    method ActivateFeed(fid: Key, ghost authors: Feeds, ghost reserved: set<Bytes>)
      requires Valid(authors, reserved) && fid in authors && role != Out
      modifies this`reps, this`dmxt
      ensures Valid(authors, reserved)
      ensures reps.Keys == old(reps).Keys + {fid} && (fid !in old(reps) ==> reps[fid].recs == [])
      ensures Extends(old(reps), reps) && SameOn(reserved, old(dmxt), dmxt)
      ensures forall f {:trigger reps[f]} :: f in reps && f !in old(reps) ==> fresh(reps[f])
    {
      hide RepsOk, Apart, FiltersOk, FrontsOf, Dmx, Consistent;
      if fid !in reps {
        var r := NewReplica(fid, authors);
        FeedJoins(r, fid, authors, reserved);
        reps := reps[fid := r];
        Outside();
        NotReserved(fid, authors, reserved);
        var dmx := Dmx(crypto, Nam(fid, r.state.maxSeq + 1, r.state.prev));
        ArmDmx(dmx, Some(Entry(fid, r.state.maxSeq + 1)));
      }
    }

    method NewReplica(fid: Key, ghost authors: Feeds) returns (r: Replica)
      requires Sound(crypto) && RepsOk(crypto, reps, authors)
      ensures fresh(r) && r !in S.Objects(reps)
      ensures r.Valid() && r.fid == fid && r.crypto == crypto && r.recs == [] && r.state == State(0, 0, fid[..20], map[])
      ensures FrontsOf(reps) == old(FrontsOf(reps)) && RepsOk(crypto, reps, authors)
    {
      hide Consistent;
      r := new Replica(crypto, fid, false);
      forall f | f in reps ensures RepOk(crypto, f, reps[f], authors) {
        assert old(RepOk(crypto, f, reps[f], authors));
      }
    }

    lemma FeedJoins(r: Replica, fid: Key, authors: Feeds, reserved: set<Bytes>)
      requires Valid(authors, reserved) && fid in authors && role != Out && fid !in reps
      requires r.Valid() && r.fid == fid && r.crypto == crypto && r.recs == [] && r.state == State(0, 0, fid[..20], map[])
      requires r !in S.Objects(reps)
      ensures RepsOk(crypto, reps[fid := r], authors) && FrontsOf(reps[fid := r]) == FrontsOf(reps)[fid := r.state]
      ensures FiltersOk(crypto, role, FrontsOf(reps)[fid := r.state], dmxt[DmxOf(crypto, fid, r.state) := Entry(fid, r.state.maxSeq + 1)], chkt, reserved)
    {
      hide Apart, DmxOf, Consistent, EntryFilters, ChunkFilters;
      FrontName(crypto, fid, authors[fid], r.recs, r.state, r.log);
      MoveIsFree(crypto, reps, authors, reserved, dmxt, fid, DmxOf(crypto, fid, r.state), 0);
      EntryMoves(crypto, FrontsOf(reps), dmxt, fid, r.state);
      ChainOpens(FrontsOf(reps), chkt, fid, r.state, 1);
      var reps' := reps[fid := r];
      forall f | f in reps' ensures RepOk(crypto, f, reps'[f], authors) {
        assert f != fid ==> RepOk(crypto, f, reps[f], authors);
      }
    }

    // ------------------------------------------------------- request prefixes

    /** When the key set has changed, other prefixes stand for requests. */
    method SetWantDmx(ghost authors: Feeds, ghost reserved: set<Bytes>)
      requires Valid(authors, reserved) && RequestsStale(reserved) && PrefixesApart(crypto, reserved, goset.state)
      modifies this`dmxt, this`wantDmx, this`chnkDmx
      ensures Valid(authors, reserved)
      ensures logOffs < 0x8000_0000 && |goset.keys| < 0x8000_0000 ==> RequestsOk(reserved)
      ensures dmxt == if role == In then old(dmxt)
                      else Without(Without(old(dmxt), old(wantDmx)), old(chnkDmx))[WantPrefix(crypto, goset.state) := WantMsg][BlobPrefix(crypto, goset.state) := ChunkMsg]
    {
      hide RepsOk, Apart, FiltersOk, FrontsOf, GosetPrefix, WantPrefix, BlobPrefix, Listens, ListensBesides;
      Outside();
      ListensAgain(crypto, role, reserved, dmxt, wantDmx, chnkDmx, goset.state);
      if role != In {
        Disarm(wantDmx, authors, reserved);
        Disarm(chnkDmx, authors, reserved);
      }
      wantDmx := Some(WantPrefix(crypto, goset.state));
      chnkDmx := Some(BlobPrefix(crypto, goset.state));
      if role != In {
        Arm(wantDmx.value, WantMsg, authors, reserved);
        Arm(chnkDmx.value, ChunkMsg, authors, reserved);
      }
    }

    /** The claim over all keys and the answers to claims are made up, to be sent by
        all; if that shows that the key set has changed, other prefixes stand for
        requests from now on. */
    method GetGOsetAdv(ghost authors: Feeds, ghost reserved: set<Bytes>) returns (out: Option<seq<Msg>>)
      requires Valid(authors, reserved) && GosetOk(authors) && RequestsOk(reserved) && StatesApart(crypto, authors, reserved)
      modifies this`dmxt, this`wantDmx, this`chnkDmx, goset`state, goset`pending
      ensures Valid(authors, reserved) && GosetOk(authors) && RequestsOk(reserved)
      ensures goset.state == if 1 <= |goset.keys| < 256 then XorOf(goset.keys) else old(goset.state)
      ensures out.Some? ==> AllHonest(authors.Keys, out.value)
      ensures !(1 <= |goset.keys| < 256) ==> out == (if goset.keys == [] then Some([]) else None) && goset.pending == old(goset.pending)
      ensures 1 <= |goset.keys| < 256 ==>
        var claims := G.BySize(old(goset.pending));
        var r := Round(goset.keys, claims, 1, 3);
        if G.HasNews(r.0) || |r.1| >= 15 then out == None && goset.pending == claims
        else out == Some([Range(MakeClaim(goset.keys, 0, |goset.keys| - 1))] + r.0) && goset.pending == r.1
    {
      hide RepsOk, Apart, FiltersOk, FrontsOf, Round, G.BySize, G.HasNews, XorOf, PrefixesApart, AllHonest, SetOf, HonestClaims;
      var changed;
      Stale(reserved);
      Outside();
      out, changed := goset.Advertise(authors.Keys);
      if changed {
        KeysOfAuthors(authors, reserved);
        SetWantDmx(authors, reserved);
      }
    }

    lemma Stale(reserved: set<Bytes>)
      requires RequestsOk(reserved)
      ensures RequestsStale(reserved)
    {
      hide Dmx;
    }

    method Disarm(d: Option<Bytes>, ghost authors: Feeds, ghost reserved: set<Bytes>)
      requires Valid(authors, reserved) && (d.Some? ==> d.value in reserved)
      modifies this`dmxt
      ensures Valid(authors, reserved) && dmxt == Without(old(dmxt), d)
    {
      hide RepsOk, Apart, DmxOf, FrontsOf, Dmx, ChunkFilters, EntryFilters;
      Outside();
      if d.Some? {
        ReservedApart(crypto, reps, authors, reserved, d.value);
        if role != Out {
          OthersComeAndGo(crypto, FrontsOf(reps), dmxt, d.value, WantMsg);
        }
        ArmDmx(d.value, None);
      }
    }

    method Arm(d: Bytes, h: Handler, ghost authors: Feeds, ghost reserved: set<Bytes>)
      requires Valid(authors, reserved) && d in reserved && !h.Entry?
      modifies this`dmxt
      ensures Valid(authors, reserved) && dmxt == old(dmxt)[d := h]
    {
      hide RepsOk, Apart, DmxOf, FrontsOf, Dmx, ChunkFilters, EntryFilters;
      Outside();
      ReservedApart(crypto, reps, authors, reserved, d);
      if role != Out {
        OthersComeAndGo(crypto, FrontsOf(reps), dmxt, d, h);
      }
      ArmDmx(d, Some(h));
    }

    // ------------------------------------------------------------- reception

    /** A message about the key set; feeds of new keys become active. */
    method IncomingGoset(pkt: Bytes, ghost authors: Feeds, ghost reserved: set<Bytes>)
      requires Valid(authors, reserved) && GosetOk(authors) && role != Out && GosetTrusted(authors, pkt)
      modifies goset`keys, goset`pending, goset`largestClaimSpan, this`reps, this`dmxt
      ensures Valid(authors, reserved) && GosetOk(authors)
      ensures Extends(old(reps), reps) && SameOn(reserved, old(dmxt), dmxt)
      ensures forall f {:trigger reps[f]} :: f in reps && f !in old(reps) ==> fresh(reps[f])
      ensures unchanged(S.Objects(old(reps)))
      ensures goset.keys == (if Tells(pkt) then old(goset.KeysAfter(Parsed(pkt[7..]).value)) else old(goset.keys))
      ensures goset.keys == old(goset.keys) || |goset.keys| <= MAX_KEYS
    {
      hide G.Learned, G.Remembered, Apart, FiltersOk, RepsOk, FrontsOf, SetOf, G.GOset.KeysAfter, G.GOset.PendingAfter, G.GOset.SpanAfter, Parsed;
      Outside();
      var activated := goset.IncomingGosetMsg(pkt, authors.Keys);
      ActivateAll(activated, authors, reserved);
    }

    method ActivateAll(fids: seq<Key>, ghost authors: Feeds, ghost reserved: set<Bytes>)
      requires Valid(authors, reserved) && role != Out && forall x :: x in fids ==> x in authors
      modifies this`reps, this`dmxt
      ensures Valid(authors, reserved) && Extends(old(reps), reps) && forall x :: x in fids ==> x in reps
      ensures SameOn(reserved, old(dmxt), dmxt)
      ensures forall f {:trigger reps[f]} :: f in reps && f !in old(reps) ==> fresh(reps[f])
      ensures unchanged(S.Objects(old(reps)))
    {
      hide Apart, FiltersOk, RepsOk, FrontsOf;
      for k := 0 to |fids|
        invariant Valid(authors, reserved) && Extends(old(reps), reps) && forall i :: 0 <= i < k ==> fids[i] in reps
        invariant forall f {:trigger reps[f]} :: f in reps && f !in old(reps) ==> fresh(reps[f])
        invariant unchanged(S.Objects(old(reps))) && SameOn(reserved, old(dmxt), dmxt)
      {
        ActivateFeed(fids[k], authors, reserved);
      }
    }

    lemma ShelfHolds(authors: Feeds, reserved: set<Bytes>)
      requires Valid(authors, reserved)
      ensures S.Holds(reps, ShelfOf(reps))
    {
      hide Apart, FiltersOk, Replica.Valid;
      forall f {:trigger reps[f]} | f in reps ensures reps[f].Valid() {
        assert RepOk(crypto, f, reps[f], authors);
      }
    }

    /** A request is answered from the replicas. */
    method Answer(h: Handler, pkt: Bytes, ghost authors: Feeds, ghost reserved: set<Bytes>) returns (r: S.Reply)
      requires Valid(authors, reserved) && h in {WantMsg, ChunkMsg}
      ensures Replied(Some(h), old(goset.keys), old(ShelfOf(reps)), pkt, if r.Packets? then r.pkts else [])
      ensures r == S.Failed <==> if h == WantMsg then WantRaises(goset.keys, pkt) else ChunkRaises(goset.keys, pkt)
    {
      hide Apart, FiltersOk, RepsOk, FrontsOf, ShelfOf, S.EntriesServed, S.ChunksServed, S.AllSensible, S.AllAddressed, S.NoFloats;
      ShelfHolds(authors, reserved);
      ghost var shelf := ShelfOf(reps);
      var v := BipfCodec.Decode(PayloadOf(pkt), 0);
      if v == None {
        return S.Failed;
      }
      if h == WantMsg {
        r := S.IncomingWantMsg(goset.keys, reps, shelf, v.value.0);
      } else {
        r := S.IncomingChnkMsg(goset.keys, reps, shelf, v.value.0);
      }
    }

    /** The feeds that take this packet as their next entry. */
    ghost function Takers(pkt: Bytes): set<Key>
      reads this, S.Objects(reps)
      requires Sound(crypto)
    {
      set f | f in reps && reps[f].crypto == crypto && reps[f].Acceptable(pkt, reps[f].state.maxSeq + 1)
    }

    /** A packet reaches the replica that takes it: its prefix is armed. */
    lemma TakerIsArmed(pkt: Bytes, authors: Feeds, reserved: set<Bytes>, f: Key)
      requires Valid(authors, reserved) && role != Out && f in Takers(pkt)
      ensures Slice(pkt, 0, 7) in dmxt && dmxt[Slice(pkt, 0, 7)] == Entry(f, reps[f].state.maxSeq + 1)
    {
      hide Apart, ChunkFilters, Dmx, Consistent;
      assert RepOk(crypto, f, reps[f], authors);
      assert FrontsOf(reps)[f] == reps[f].state;
    }

    /** When the handler of a packet ends in an exception. */
    ghost predicate Raises(pkt: Bytes)
      reads this, goset, S.Objects(reps)
      requires Sound(crypto)
    {
      match HandlerOf(Slice(pkt, 0, 7))
      case Some(Entry(fid, seqn)) => fid in reps && reps[fid].crypto == crypto && reps[fid].Raises(pkt, seqn)
      case Some(WantMsg) => WantRaises(goset.keys, pkt)
      case Some(ChunkMsg) => ChunkRaises(goset.keys, pkt)
      case _ => false
    }

    /** Each feed that takes the packet has one entry more. */
    ghost predicate Counted(before: map<Bytes, nat>, takers: set<Key>)
      reads this, S.Objects(reps)
    {
      forall f {:trigger before[f]} :: f in before ==> f in CountsOf(reps) && CountsOf(reps)[f] == before[f] + (if f in takers then 1 else 0)
    }

    lemma TakersAre(pkt: Bytes, authors: Feeds, reserved: set<Bytes>)
      requires Valid(authors, reserved) && role != Out
      ensures var d := Slice(pkt, 0, 7);
        if d in dmxt && dmxt[d].Entry? then
          dmxt[d].fid in reps && reps[dmxt[d].fid].crypto == crypto
          && Takers(pkt) == if reps[dmxt[d].fid].Acceptable(pkt, dmxt[d].seqn) then {dmxt[d].fid} else {}
        else Takers(pkt) == {}
    {
      hide Apart, EntryFilters, ChunkFilters, Consistent, Replica.Acceptable;
      var d := Slice(pkt, 0, 7);
      forall f | f in Takers(pkt) ensures d in dmxt && dmxt[d] == Entry(f, reps[f].state.maxSeq + 1) {
        TakerIsArmed(pkt, authors, reserved, f);
      }
      if d in dmxt && dmxt[d].Entry? {
        EntryFilterAt(crypto, role, FrontsOf(reps), dmxt, chkt, reserved, d);
        assert RepOk(crypto, dmxt[d].fid, reps[dmxt[d].fid], authors);
      }
    }

    method DispatchEntry(dmx: Bytes, pkt: Bytes, ghost authors: Feeds, ghost reserved: set<Bytes>) returns (ok: bool)
      requires Valid(authors, reserved) && GosetOk(authors) && role != Out && dmx == Slice(pkt, 0, 7)
      requires Trusted(crypto, authors, pkt) && dmx in dmxt && dmxt[dmx].Entry?
      modifies this`dmxt, this`chkt, S.Objects(reps)
      ensures Valid(authors, reserved) && GosetOk(authors)
      ensures Counted(old(CountsOf(reps)), old(Takers(pkt))) && SameOn(reserved, old(dmxt), dmxt)
      ensures AllLonger(old(ShelfOf(reps)), ShelfOf(reps)) && (ok <==> !old(Raises(pkt)))
    {
      hide Apart, FiltersOk, RepOk, FrontsOf, ShelfOf, AllLonger, Trusted, Takers, Replica.Acceptable, Replica.Raises;
      TakersAre(pkt, authors, reserved);
      var r := TakeEntry(dmx, pkt, authors, reserved);
      ok := r != Raised;
    }

    method TakeEntry(dmx: Bytes, pkt: Bytes, ghost authors: Feeds, ghost reserved: set<Bytes>) returns (r: Ingest)
      requires Valid(authors, reserved) && role != Out && Trusted(crypto, authors, pkt)
      requires dmx in dmxt && dmxt[dmx].Entry? && dmxt[dmx].fid in reps
      modifies this`dmxt, this`chkt, reps[dmxt[dmx].fid]
      ensures Valid(authors, reserved) && SameOn(reserved, old(dmxt), dmxt)
      ensures r == Stored <==> old(reps[dmxt[dmx].fid].Acceptable(pkt, dmxt[dmx].seqn))
      ensures r == Raised <==> old(reps[dmxt[dmx].fid].Raises(pkt, dmxt[dmx].seqn))
      ensures |reps[old(dmxt)[dmx].fid].recs| == old(|reps[dmxt[dmx].fid].recs|) + if r == Stored then 1 else 0
      ensures AllLonger(old(ShelfOf(reps)), ShelfOf(reps))
    {
      hide Apart, FiltersOk, RepOk, FrontsOf, Trusted, AllLonger, Replica.Acceptable, Replica.Raises, ChunkCount, AfterEntry;
      ghost var fid, shelf := dmxt[dmx].fid, ShelfOf(reps);
      ghost var f := reps[fid].state;
      CountsAre(reps[fid], fid, authors, reserved);
      r := IncomingEntry(dmx, pkt, authors, reserved);
      ShelfLonger(crypto, fid, f, pkt, shelf, ShelfOf(reps), r == Stored);
    }

    lemma CountsAre(r: Replica, fid: Key, authors: Feeds, reserved: set<Bytes>)
      requires Valid(authors, reserved) && fid in reps && reps[fid] == r
      ensures r.state.maxSeq == |r.recs|
    {
      hide Apart, FiltersOk, SideOk, PrevOf, LogOf;
      assert RepOk(crypto, fid, reps[fid], authors);
    }

    method DispatchGoset(pkt: Bytes, ghost authors: Feeds, ghost reserved: set<Bytes>)
      requires Valid(authors, reserved) && GosetOk(authors) && role != Out && GosetTrusted(authors, pkt)
      modifies goset`keys, goset`pending, goset`largestClaimSpan, this`reps, this`dmxt
      ensures Valid(authors, reserved) && GosetOk(authors) && Extends(old(reps), reps)
      ensures forall f {:trigger reps[f]} :: f in reps && f !in old(reps) ==> fresh(reps[f])
      ensures Counted(old(CountsOf(reps)), {}) && SameOn(reserved, old(dmxt), dmxt) && AllLonger(old(ShelfOf(reps)), ShelfOf(reps))
      ensures goset.keys == (if Tells(pkt) then old(goset.KeysAfter(Parsed(pkt[7..]).value)) else old(goset.keys))
      ensures goset.keys == old(goset.keys) || |goset.keys| <= MAX_KEYS
    {
      hide Valid, GosetOk, GosetTrusted, G.GOset.KeysAfter, Parsed;
      IncomingGoset(pkt, authors, reserved);
    }

    method Dispatch(dmx: Bytes, pkt: Bytes, ghost authors: Feeds, ghost reserved: set<Bytes>) returns (out: seq<Bytes>, ok: bool)
      requires Valid(authors, reserved) && GosetOk(authors) && role != Out && dmx == Slice(pkt, 0, 7)
      requires Trusted(crypto, authors, pkt) && (dmx in dmxt && dmxt[dmx] == GOsetMsg ==> GosetTrusted(authors, pkt))
      modifies this`reps, this`dmxt, this`chkt, goset`keys, goset`pending, goset`largestClaimSpan, S.Objects(reps)
      ensures Valid(authors, reserved) && GosetOk(authors) && Extends(old(reps), reps)
      ensures forall f {:trigger reps[f]} :: f in reps && f !in old(reps) ==> fresh(reps[f])
      ensures Counted(old(CountsOf(reps)), old(Takers(pkt)))
      ensures Replied(old(HandlerOf(dmx)), old(goset.keys), old(ShelfOf(reps)), pkt, out)
      ensures SameOn(reserved, old(dmxt), dmxt) && goset.keys == old(KeysHeard(pkt))
      ensures goset.keys == old(goset.keys) || |goset.keys| <= MAX_KEYS
      ensures AllLonger(old(ShelfOf(reps)), ShelfOf(reps)) && (ok <==> !old(Raises(pkt)))
      ensures old(HandlerOf(dmx)) == None ==> dmxt == old(dmxt)
    {
      hide Apart, FiltersOk, RepsOk, FrontsOf, Trusted, GosetTrusted, Takers, Counted, CountsOf, Replica.Acceptable, Replica.Raises, WantAnswered, ChunkAnswered, WantRaises, ChunkRaises, ShelfOf, AllLonger;
      AllSame(ShelfOf(reps));
      out, ok := [], true;
      TakersAre(pkt, authors, reserved);
      Unchanged();
      if dmx in dmxt {
        match dmxt[dmx] {
          case GOsetMsg =>
            DispatchGoset(pkt, authors, reserved);
          case Entry(fid, seqn) =>
            ok := DispatchEntry(dmx, pkt, authors, reserved);
          case _ =>
            out, ok := DispatchRequest(dmxt[dmx], pkt, authors, reserved);
        }
      }
    }

    lemma AllSame(shelf: S.Shelf)
      ensures AllLonger(shelf, shelf)
    {
    }

    lemma Unchanged()
      ensures Counted(CountsOf(reps), {})
    {
    }

    method DispatchRequest(h: Handler, pkt: Bytes, ghost authors: Feeds, ghost reserved: set<Bytes>) returns (out: seq<Bytes>, ok: bool)
      requires Valid(authors, reserved) && GosetOk(authors) && h in {WantMsg, ChunkMsg}
      ensures Valid(authors, reserved) && GosetOk(authors)
      ensures Counted(old(CountsOf(reps)), {})
      ensures Replied(Some(h), old(goset.keys), old(ShelfOf(reps)), pkt, out)
      ensures ok <==> !if h == WantMsg then WantRaises(goset.keys, pkt) else ChunkRaises(goset.keys, pkt)
    {
      hide Apart, FiltersOk, Replica.Valid, Replied, ShelfOf, WantRaises, ChunkRaises;
      var r := Answer(h, pkt, authors, reserved);
      forall f | f in reps ensures RepOk(crypto, f, reps[f], authors) {
        assert old(RepOk(crypto, f, reps[f], authors));
      }
      assert FrontsOf(reps) == old(FrontsOf(reps));
      ok := r.Packets?;
      out := if ok then r.pkts else [];
    }

    /** The keys after a packet. */
    function KeysHeard(pkt: Bytes): seq<Key>
      reads this, goset
    {
      if HandlerOf(Slice(pkt, 0, 7)) == Some(GOsetMsg) && Tells(pkt) then goset.KeysAfter(Parsed(pkt[7..]).value) else goset.keys
    }

    /** What a prefix is armed for. */
    function HandlerOf(d: Bytes): Option<Handler>
      reads this
    {
      HandlerIn(dmxt, d)
    }

    // --------------------------------------------------------------- requests

    /** The request for what comes next in the feeds, from `logOffs` on, until the
        numbers take more than 100 bytes. */
    method GetEntryAdv(ghost authors: Feeds, ghost reserved: set<Bytes>) returns (lst: seq<Bytes>, ghost items: seq<Bipf.Value>)
      requires Valid(authors, reserved) && GosetOk(authors) && RequestsOk(reserved)
      modifies this`logOffs
      ensures Valid(authors, reserved) && GosetOk(authors) && RequestsOk(reserved)
      ensures role == Out ==> lst == [] && logOffs == old(logOffs)
      ensures role != Out ==>
        && Listed(items, old(logOffs), goset.keys, CountsOf(reps))
        && Bipf.WellFormed(Bipf.List(items)) && lst == [wantDmx.value + Bipf.Encoded(Bipf.List(items))]
        && logOffs == if goset.keys == [] then old(logOffs) else (old(logOffs) + 1) % |goset.keys|
    {
      hide Apart, FiltersOk, RepsOk, Bipf.Encoded, Bipf.WellFormed, CountsOf, Listing, Listens, PrefixesApart;
      items := [];
      if role == Out {
        return [], [];
      }
      var want := WantList(authors, reserved);
      items := want;
      ListingWellFormed(want, logOffs, goset.keys, CountsOf(reps));
      var wire := BipfCodec.Dumps(Bipf.List(want));
      lst := [wantDmx.value + wire];
      Outside();
      if |goset.keys| > 0 {
        logOffs := (logOffs + 1) % |goset.keys|;
      }
    }

    method WantList(ghost authors: Feeds, ghost reserved: set<Bytes>) returns (want: seq<Bipf.Value>)
      requires Valid(authors, reserved) && GosetOk(authors) && logOffs < 0x8000_0000
      ensures Listed(want, logOffs, goset.keys, CountsOf(reps))
    {
      hide Valid, GosetOk, Bipf.EncodingLength, CountsOf, Listing;
      want := [Bipf.Int(logOffs)];
      var encLen, i := 0, 0;
      ghost var counts := CountsOf(reps);
      ListingStarts(logOffs, goset.keys, counts);
      while i < |goset.keys| && encLen <= 100
        invariant 0 <= i <= |goset.keys| && |want| == i + 1 && encLen == Bipf.ItemsLength(want[1..])
        invariant i > 0 ==> Bipf.ItemsLength(want[1..i]) <= 100
        invariant Valid(authors, reserved) && GosetOk(authors) && CountsOf(reps) == counts
        invariant Listing(want, logOffs, goset.keys, counts)
      {
        var fid := goset.keys[(logOffs + i) % |goset.keys|];
        NextIsCount(fid, authors, reserved);
        var seqn := reps[fid].state.maxSeq + 1;
        encLen := encLen + Bipf.EncodingLength(Bipf.Int(seqn));
        assert NextAt(want + [Bipf.Int(seqn)], |want|, logOffs, goset.keys, counts);
        ListingGrows(want, logOffs, goset.keys, counts, Bipf.Int(seqn));
        ItemsLengthAppend(want[1..], Bipf.Int(seqn));
        assert (want + [Bipf.Int(seqn)])[1..] == want[1..] + [Bipf.Int(seqn)];
        assert (want + [Bipf.Int(seqn)])[1..i + 1] == want[1..];
        want := want + [Bipf.Int(seqn)];
        i := i + 1;
      }
    }

    lemma NextIsCount(fid: Key, authors: Feeds, reserved: set<Bytes>)
      requires Valid(authors, reserved) && GosetOk(authors) && fid in goset.keys
      ensures fid in reps && fid in CountsOf(reps) && reps[fid].state.maxSeq == CountsOf(reps)[fid] < 0x8000_0000
    {
      hide Apart, FiltersOk, Replica.Valid, G.GOset.Within;
      assert fid in SetOf(goset.keys);
      assert RepOk(crypto, fid, reps[fid], authors);
      CountBelow(reps[fid]);
    }

    method Handle(pkt: Bytes, ghost authors: Feeds, ghost reserved: set<Bytes>) returns (out: seq<Bytes>, ok: bool)
      requires Valid(authors, reserved) && GosetOk(authors) && role != Out
      requires Trusted(crypto, authors, pkt)
      requires HandlerOf(Slice(pkt, 0, 7)) == Some(GOsetMsg) ==> GosetTrusted(authors, pkt)
      modifies this`reps, this`dmxt, this`chkt, goset`keys, goset`pending, goset`largestClaimSpan, S.Objects(reps)
      ensures Valid(authors, reserved) && GosetOk(authors) && Extends(old(reps), reps)
      ensures forall f {:trigger reps[f]} :: f in reps && f !in old(reps) ==> fresh(reps[f])
      ensures Counted(old(CountsOf(reps)), old(Takers(pkt)))
      ensures Replied(old(HandlerOf(Slice(pkt, 0, 7))), old(goset.keys), old(ShelfOf(reps)), pkt, out)
      ensures goset.keys == old(KeysHeard(pkt)) && (old(RequestsOk(reserved)) ==> RequestsOk(reserved))
      ensures AllLonger(old(ShelfOf(reps)), ShelfOf(reps)) && (ok <==> !old(Raises(pkt)))
      ensures old(HandlerOf(Slice(pkt, 0, 7))) == None ==> dmxt == old(dmxt)
    {
      hide Apart, FiltersOk, RepsOk, FrontsOf, CountsOf, Trusted, GosetTrusted, Replied, ShelfOf, Listens, PrefixesApart, G.GOset.KeysAfter, AllLonger, Raises, Takers;
      Outside();
      out, ok := Dispatch(Slice(pkt, 0, 7), pkt, authors, reserved);
      if old(RequestsOk(reserved)) {
        ListensStill(crypto, role, reserved, old(dmxt), dmxt, goset.state);
      }
    }

    /** A packet from the network, whatever it is. Its handler comes first; unless that
        ends in an exception, the chains that wait for it are given the packet. */
    method Rx(pkt: Bytes, ghost authors: Feeds, ghost reserved: set<Bytes>) returns (out: seq<Bytes>)
      requires Valid(authors, reserved) && GosetOk(authors) && role != Out
      requires Trusted(crypto, authors, pkt)
      requires HandlerOf(Slice(pkt, 0, 7)) == Some(GOsetMsg) ==> GosetTrusted(authors, pkt)
      modifies this`reps, this`dmxt, this`chkt, goset`keys, goset`pending, goset`largestClaimSpan, S.Objects(reps)
      ensures Valid(authors, reserved) && GosetOk(authors) && Extends(old(reps), reps)
      ensures forall f {:trigger reps[f]} :: f in reps && f !in old(reps) ==> fresh(reps[f])
      ensures Counted(old(CountsOf(reps)), old(Takers(pkt)))
      ensures Replied(old(HandlerOf(Slice(pkt, 0, 7))), old(goset.keys), old(ShelfOf(reps)), pkt, out)
      ensures goset.keys == old(KeysHeard(pkt)) && (old(RequestsOk(reserved)) ==> RequestsOk(reserved))
      ensures AllAdvanced(old(ShelfOf(reps)), ShelfOf(reps), |pkt| == 120 && !old(Raises(pkt)), Hash20(crypto, pkt), pkt)
      ensures old(HandlerOf(Slice(pkt, 0, 7))) == None ==> dmxt == old(dmxt)
    {
      hide Apart, FiltersOk, RepsOk, FrontsOf, CountsOf, Trusted, GosetTrusted, Hash20, Replied, ShelfOf, RequestsOk, KeysHeard, AllLonger, AllAdvanced, Raises, Takers, HandlerOf;
      ghost var shelf := ShelfOf(reps);
      var ok;
      out, ok := Handle(pkt, authors, reserved);
      ghost var handled := ShelfOf(reps);
      Outside();
      if ok {
        Deliver(pkt, authors, reserved);
        AllAdvancedFrom(shelf, handled, ShelfOf(reps), |pkt| == 120, Hash20(crypto, pkt), pkt);
      } else {
        LongerNot(shelf, handled, Hash20(crypto, pkt), pkt);
      }
    }
  }

  /** The packet, if it is about the key set, is well-formed. */
  predicate Tells(pkt: Bytes) {
    |pkt| > 7 && Parsed(pkt[7..]).Some?
  }

  /** Messages about the key set name only keys of authors. */
  ghost predicate GosetTrusted(authors: Feeds, pkt: Bytes) {
    Tells(pkt) ==> HonestMsg(authors.Keys, Parsed(pkt[7..]).value)
  }

  lemma DmxOfFront(c: Crypto, fid: Bytes, f: State, pend: map<nat, Pend>)
    requires Sound(c)
    ensures DmxOf(c, fid, f.(pendSc := pend)) == DmxOf(c, fid, f)
  {
  }

  lemma KeyIsNew(keys: seq<Key>, n: nat)
    requires Sorted(keys) && n < |keys|
    ensures keys[n] !in keys[..n] && keys[n] in SetOf(keys)
    ensures keys[..n + 1] == keys[..n] + [keys[n]]
  {
    forall i | 0 <= i < n ensures keys[i] != keys[n] {
      if keys[i] == keys[n] {
        SortedDistinct(keys, i, n);
      }
    }
  }

  ghost function ShelfOf(reps: Replicas): S.Shelf
    reads S.Objects(reps)
  {
    map f | f in reps :: S.Held(reps[f].recs, reps[f].state.pendSc)
  }

  /** An offset, and the next sequence numbers of the feeds from there on. */
  ghost predicate Listing(items: seq<Bipf.Value>, offs: nat, keys: seq<Key>, counts: map<Bytes, nat>) {
    && items != [] && items[0] == Bipf.Int(offs) && |items| <= |keys| + 1
    && forall j {:trigger NextAt(items, j, offs, keys, counts)} :: 1 <= j < |items| ==> NextAt(items, j, offs, keys, counts)
  }

  ghost predicate NextAt(items: seq<Bipf.Value>, j: nat, offs: nat, keys: seq<Key>, counts: map<Bytes, nat>)
    requires 1 <= j < |items| <= |keys| + 1
  {
    var f := keys[(offs + j - 1) % |keys|];
    f in counts && counts[f] < 0x8000_0000 && items[j] == Bipf.Int(counts[f] + 1)
  }

  lemma ListingStarts(offs: nat, keys: seq<Key>, counts: map<Bytes, nat>)
    ensures Listing([Bipf.Int(offs)], offs, keys, counts)
  {
  }

  lemma ListingGrows(items: seq<Bipf.Value>, offs: nat, keys: seq<Key>, counts: map<Bytes, nat>, v: Bipf.Value)
    requires Listing(items, offs, keys, counts) && |items| <= |keys|
    requires NextAt(items + [v], |items|, offs, keys, counts)
    ensures Listing(items + [v], offs, keys, counts)
  {
    forall j | 1 <= j < |items| + 1 ensures NextAt(items + [v], j, offs, keys, counts) {
      if j < |items| {
        assert NextAt(items, j, offs, keys, counts);
      }
    }
  }

  /** The list stops behind the number that brings it over 100 bytes. */
  ghost predicate Listed(items: seq<Bipf.Value>, offs: nat, keys: seq<Key>, counts: map<Bytes, nat>) {
    && Listing(items, offs, keys, counts)
    && (|items| <= |keys| ==> Bipf.ItemsLength(items[1..]) > 100)
    && (|items| > 1 ==> Bipf.ItemsLength(items[1..|items| - 1]) <= 100)
  }

  lemma {:induction false} ItemsLengthAppend(items: seq<Bipf.Value>, v: Bipf.Value)
    ensures Bipf.ItemsLength(items + [v]) == Bipf.ItemsLength(items) + Bipf.EncodingLength(v)
  {
    if items != [] {
      assert (items + [v])[1..] == items[1..] + [v];
      ItemsLengthAppend(items[1..], v);
    }
  }

  lemma ListingWellFormed(items: seq<Bipf.Value>, offs: nat, keys: seq<Key>, counts: map<Bytes, nat>)
    requires Listing(items, offs, keys, counts) && offs < 0x8000_0000
    ensures Bipf.WellFormed(Bipf.List(items))
  {
    forall v | v in items ensures Bipf.WellFormed(v) {
      var j :| 0 <= j < |items| && items[j] == v;
      if j > 0 {
        assert NextAt(items, j, offs, keys, counts);
      }
    }
  }

  function Without(dmxt: map<Bytes, Handler>, d: Option<Bytes>): map<Bytes, Handler> {
    if d == None then dmxt else dmxt - {d.value}
  }

  ghost predicate SameOn(ds: set<Bytes>, a: map<Bytes, Handler>, b: map<Bytes, Handler>) {
    forall d {:trigger d in a} {:trigger d in b} :: d in ds ==> (d in a <==> d in b) && (d in a ==> a[d] == b[d])
  }

  function StartOffset(random: nat, feeds: nat): nat {
    if feeds == 0 then 0 else random % feeds
  }

  /** What follows the prefix. */
  function PayloadOf(pkt: Bytes): Bytes {
    if |pkt| >= 7 then pkt[7..] else []
  }

  /** What is sent back: requests are answered from what was on the shelf, other packets
      and ill-formed requests are not answered. */
  ghost predicate Replied(h: Option<Handler>, keys: seq<Key>, shelf: S.Shelf, pkt: Bytes, out: seq<Bytes>) {
    match h
    case Some(WantMsg) => WantAnswered(keys, shelf, pkt, out)
    case Some(ChunkMsg) => ChunkAnswered(keys, shelf, pkt, out)
    case _ => out == []
  }

  /** A request that cannot be read, or any when no feeds are known. */
  predicate WantRaises(keys: seq<Key>, pkt: Bytes) {
    match Bipf.Decoded(PayloadOf(pkt), 0)
    case None => true
    case Some((v, _)) => v.List? && v.items != [] && v.items[0].Int? && keys == [] && |v.items| > 1
  }

  predicate ChunkRaises(keys: seq<Key>, pkt: Bytes) {
    match Bipf.Decoded(PayloadOf(pkt), 0)
    case None => true
    case Some((v, _)) => v.List? && !S.AllAddressed(keys, v.items)
  }

  ghost predicate WantAnswered(keys: seq<Key>, shelf: S.Shelf, pkt: Bytes, out: seq<Bytes>) {
    match Bipf.Decoded(PayloadOf(pkt), 0)
    case None => out == []
    case Some((v, _)) =>
      if !v.List? || v.items == [] || !v.items[0].Int? || (keys == [] && |v.items| > 1) then out == []
      else |out| <= S.CREDIT && (S.NoFloats(v.items) ==> S.EntriesServed(keys, shelf, v.items[0].i, v.items, out))
  }

  ghost predicate ChunkAnswered(keys: seq<Key>, shelf: S.Shelf, pkt: Bytes, out: seq<Bytes>) {
    match Bipf.Decoded(PayloadOf(pkt), 0)
    case None => out == []
    case Some((v, _)) =>
      if !v.List? || !S.AllAddressed(keys, v.items) then out == []
      else |out| <= S.CREDIT && (S.AllSensible(v.items) ==> S.ChunksServed(keys, shelf, v.items, out))
  }

  lemma ReservedApart(c: Crypto, reps: Replicas, authors: Feeds, reserved: set<Bytes>, d: Bytes)
    requires AreFeeds(c, authors) && Apart(c, authors, reserved) && RepsOk(c, reps, authors) && d in reserved
    ensures forall g {:trigger FrontsOf(reps)[g]} :: g in FrontsOf(reps) ==> DmxOf(c, g, FrontsOf(reps)[g]) != d
  {
    hide DmxOf, Dmx, NameOf, Consistent;
    forall g {:trigger FrontsOf(reps)[g]} | g in FrontsOf(reps) ensures DmxOf(c, g, FrontsOf(reps)[g]) != d {
      assert RepOk(c, g, reps[g], authors);
      FrontName(c, g, authors[g], reps[g].recs, reps[g].state, reps[g].log);
    }
  }

  /** The fronts after a chunk went to all that wait for it, but for `todo`. */
  ghost predicate Moved(before: Fronts, after: Fronts, h: Bytes, pkt: Bytes, todo: set<Aux>)
    requires |pkt| == 120
  {
    before.Keys == after.Keys && forall f {:trigger before[f]} {:trigger after[f]} :: f in before ==> after[f] == AllAfterChunk(f, before[f], h, pkt, todo)
  }

  lemma Waiting(c: Crypto, role: Role, fronts: Fronts, dmxt: map<Bytes, Handler>, chkt: map<Bytes, set<Aux>>, reserved: set<Bytes>, h: Bytes)
    requires Sound(c) && FiltersOk(c, role, fronts, dmxt, chkt, reserved) && role != Out
    ensures h in chkt ==> forall a {:trigger Pending(fronts, h, a)} :: a in chkt[h] ==> Pending(fronts, h, a)
  {
    forall a | Has(chkt, h, a) ensures Pending(fronts, h, a) {
    }
  }

  lemma MovedNothing(c: Crypto, role: Role, fronts: Fronts, dmxt: map<Bytes, Handler>, chkt: map<Bytes, set<Aux>>, reserved: set<Bytes>, h: Bytes, pkt: Bytes)
    requires Sound(c) && FiltersOk(c, role, fronts, dmxt, chkt, reserved) && role != Out && |pkt| == 120
    ensures Moved(fronts, fronts, h, pkt, if h in chkt then chkt[h] else {})
  {
    var todo := if h in chkt then chkt[h] else {};
    forall f, s | f in fronts && s in fronts[f].pendSc ensures !Reached(f, fronts[f], h, todo, s) {
      if fronts[f].pendSc[s].hptr == h {
        assert Pending(fronts, h, Aux(f, s, fronts[f].pendSc[s].cnr));
      }
    }
    forall f {:trigger fronts[f]} | f in fronts ensures fronts[f] == AllAfterChunk(f, fronts[f], h, pkt, todo) {
      assert fronts[f].pendSc == AllAfterChunk(f, fronts[f], h, pkt, todo).pendSc;
    }
  }

  lemma MovedOne(first: Fronts, before: Fronts, after: Fronts, h: Bytes, pkt: Bytes, todo: set<Aux>, a: Aux)
    requires |pkt| == 120 && Moved(first, before, h, pkt, todo) && a in todo && Pending(first, h, a)
    requires a.seqn in before[a.fid].pendSc ==> after == before[a.fid := AfterChunk(before[a.fid], a.seqn, pkt)]
    ensures Moved(first, after, h, pkt, todo - {a})
  {
    hide AfterChunk, AllAfterChunk;
    OneReached(a.fid, first[a.fid], h, pkt, todo, a);
    forall f {:trigger first[f]} {:trigger after[f]} | f in first ensures after[f] == AllAfterChunk(f, first[f], h, pkt, todo - {a}) {
      if f != a.fid {
        OtherUntouched(f, first[f], h, pkt, todo, a);
      }
    }
  }

  /** One chain has moved by this chunk. */
  ghost predicate MovedBy(before: Fronts, after: Fronts, a: Aux, pkt: Bytes)
    requires |pkt| == 120
  {
    a.fid in before && a.seqn in before[a.fid].pendSc && after == before[a.fid := AfterChunk(before[a.fid], a.seqn, pkt)]
  }

  /** The chunk has been put into one record. */
  ghost predicate PutChunk(before: map<Bytes, seq<Rec>>, after: map<Bytes, seq<Rec>>, a: Aux, pkt: Bytes) {
    && a.fid in before && 1 <= a.seqn <= |before[a.fid]| && a.cnr < |before[a.fid][a.seqn - 1].side|
    && after == before[a.fid := WithChunk(before[a.fid], a.seqn - 1, a.cnr, pkt)]
  }

  ghost predicate Filled(fronts: Fronts, before: map<Bytes, seq<Rec>>, after: map<Bytes, seq<Rec>>, h: Bytes, pkt: Bytes, todo: set<Aux>) {
    && fronts.Keys == before.Keys == after.Keys
    && forall f {:trigger before[f]} {:trigger after[f]} :: f in before ==> after[f] == AllRecs(f, fronts[f], before[f], h, pkt, todo)
  }

  lemma KeysOfFeeds(reps: Replicas)
    ensures FrontsOf(reps).Keys == RecsOf(reps).Keys
  {
  }

  lemma FilledNothing(c: Crypto, role: Role, fronts: Fronts, recs: map<Bytes, seq<Rec>>, dmxt: map<Bytes, Handler>, chkt: map<Bytes, set<Aux>>, reserved: set<Bytes>, h: Bytes, pkt: Bytes)
    requires Sound(c) && FiltersOk(c, role, fronts, dmxt, chkt, reserved) && role != Out && fronts.Keys == recs.Keys
    ensures Filled(fronts, recs, recs, h, pkt, if h in chkt then chkt[h] else {})
  {
    var todo := if h in chkt then chkt[h] else {};
    forall f, s | f in fronts && s in fronts[f].pendSc ensures !Reached(f, fronts[f], h, todo, s) {
      if fronts[f].pendSc[s].hptr == h {
        assert Pending(fronts, h, Aux(f, s, fronts[f].pendSc[s].cnr));
      }
    }
  }

  lemma FilledOne(fronts: Fronts, first: map<Bytes, seq<Rec>>, before: map<Bytes, seq<Rec>>, after: map<Bytes, seq<Rec>>, h: Bytes, pkt: Bytes, todo: set<Aux>, a: Aux)
    requires Filled(fronts, first, before, h, pkt, todo) && a in todo && Pending(fronts, h, a) && PutChunk(before, after, a, pkt)
    ensures Filled(fronts, first, after, h, pkt, todo - {a})
  {
    hide AllRecs, WithChunk;
    OneRecReached(a.fid, fronts[a.fid], first[a.fid], h, pkt, todo, a);
    forall f {:trigger first[f]} {:trigger after[f]} | f in first ensures after[f] == AllRecs(f, fronts[f], first[f], h, pkt, todo - {a}) {
      if f != a.fid {
        OtherRecsUntouched(f, fronts[f], first[f], h, pkt, todo, a);
      }
    }
  }

  /** What frontiers say of the records is true. */
  ghost predicate Told(c: Crypto, fronts: Fronts, recs: map<Bytes, seq<Rec>>)
    requires Sound(c)
  {
    fronts.Keys == recs.Keys && forall f {:trigger fronts[f]} :: f in fronts ==> ToldAt(c, recs[f], fronts[f].pendSc)
  }

  ghost predicate ToldAt(c: Crypto, recs: seq<Rec>, pend: map<nat, Pend>)
    requires Sound(c)
  {
    AreRecs(recs) && forall k {:trigger SideOk(c, recs, pend, k)} :: 0 <= k < |recs| ==> SideOk(c, recs, pend, k)
  }

  /** Record `k` waits for a chunk with this hash. */
  ghost predicate Waits(x: S.Held, k: nat, h: Bytes) {
    k + 1 in x.pend && x.pend[k + 1].hptr == h
  }

  /** If record `k` waits for the hash, and the packet reaches it, its side chain has
      one chunk more, which is the packet; otherwise the record is the same, as far as
      it has arrived and beyond. */
  ghost predicate AdvancedAt(x: S.Held, y: S.Held, k: nat, reach: bool, h: Bytes, pkt: Bytes)
    requires k < |x.recs| && k < |y.recs|
  {
    var n := Arrived(x.recs, x.pend, k);
    && y.recs[k].entry == x.recs[k].entry
    && if reach && Waits(x, k, h)
       then n < |x.recs[k].side| && y.recs[k].side == x.recs[k].side[n := pkt] && Arrived(y.recs, y.pend, k) == n + 1
       else y.recs[k] == x.recs[k] && Arrived(y.recs, y.pend, k) == n
  }

  ghost predicate Advanced(x: S.Held, y: S.Held, reach: bool, h: Bytes, pkt: Bytes) {
    |x.recs| <= |y.recs| && forall k {:trigger AdvancedAt(x, y, k, reach, h, pkt)} :: 0 <= k < |x.recs| ==> AdvancedAt(x, y, k, reach, h, pkt)
  }

  ghost predicate AllAdvanced(a: S.Shelf, b: S.Shelf, reach: bool, h: Bytes, pkt: Bytes) {
    forall f {:trigger a[f]} {:trigger b[f]} :: f in a ==> f in b && Advanced(a[f], b[f], reach, h, pkt)
  }

  /** The shelf is made of these records and frontiers. */
  ghost predicate Parts(shelf: S.Shelf, fronts: Fronts, recs: map<Bytes, seq<Rec>>) {
    fronts.Keys == recs.Keys && forall f: Key {:trigger shelf[f]} :: f in shelf ==> f in fronts && shelf[f] == S.Held(recs[f], fronts[f].pendSc)
  }

  lemma ShelfParts(reps: Replicas)
    ensures Parts(ShelfOf(reps), FrontsOf(reps), RecsOf(reps)) && ShelfOf(reps).Keys == reps.Keys
  {
  }

  lemma AdvancesOne(c: Crypto, fid: Bytes, f: State, recs: seq<Rec>, h: Bytes, pkt: Bytes)
    requires Sound(c) && ToldAt(c, recs, f.pendSc) && |pkt| == 120
    ensures Advanced(S.Held(recs, f.pendSc), S.Held(AllRecs(fid, f, recs, h, pkt, {}), AllAfterChunk(fid, f, h, pkt, {}).pendSc), true, h, pkt)
  {
    hide ChunkCount, LogOf;
    var x, y := S.Held(recs, f.pendSc), S.Held(AllRecs(fid, f, recs, h, pkt, {}), AllAfterChunk(fid, f, h, pkt, {}).pendSc);
    forall k | 0 <= k < |recs| ensures AdvancedAt(x, y, k, true, h, pkt) {
      assert SideOk(c, recs, f.pendSc, k);
    }
  }

  lemma MovedAdvances(c: Crypto, fronts: Fronts, recs: map<Bytes, seq<Rec>>, fronts': Fronts, recs': map<Bytes, seq<Rec>>, a: S.Shelf, b: S.Shelf, h: Bytes, pkt: Bytes)
    requires Sound(c) && Told(c, fronts, recs) && |pkt| == 120 && Moved(fronts, fronts', h, pkt, {}) && Filled(fronts, recs, recs', h, pkt, {})
    requires Parts(a, fronts, recs) && Parts(b, fronts', recs') && a.Keys == b.Keys
    ensures AllAdvanced(a, b, true, h, pkt)
  {
    hide ToldAt, AllRecs, AllAfterChunk, Advanced;
    forall f {:trigger a[f]} {:trigger b[f]} | f in a ensures f in b && Advanced(a[f], b[f], true, h, pkt) {
      assert f in fronts && ToldAt(c, recs[f], fronts[f].pendSc);
      AdvancesOne(c, f, fronts[f], recs[f], h, pkt);
    }
  }

  lemma NothingAdvances(a: S.Shelf, b: S.Shelf, h: Bytes, pkt: Bytes)
    requires a == b
    ensures AllAdvanced(a, b, false, h, pkt)
  {
  }

  lemma SameShelf(fronts: Fronts, recs: map<Bytes, seq<Rec>>, a: S.Shelf, b: S.Shelf)
    requires Parts(a, fronts, recs) && Parts(b, fronts, recs) && a.Keys == b.Keys
    ensures a == b
  {
  }

  /** Records have been added, and the others wait for what they waited for. */
  ghost predicate Longer(x: S.Held, y: S.Held) {
    && |x.recs| <= |y.recs| && (forall k :: 0 <= k < |x.recs| ==> y.recs[k] == x.recs[k])
    && forall s {:trigger s in x.pend} {:trigger s in y.pend} :: 1 <= s <= |x.recs| ==> (s in x.pend <==> s in y.pend) && (s in x.pend ==> y.pend[s] == x.pend[s])
  }

  ghost predicate AllLonger(a: S.Shelf, b: S.Shelf) {
    forall f {:trigger a[f]} {:trigger b[f]} :: f in a ==> f in b && Longer(a[f], b[f])
  }

  /** One replica may have taken an entry. */
  lemma ShelfLonger(c: Crypto, fid: Key, f: State, pkt: Bytes, a: S.Shelf, b: S.Shelf, stored: bool)
    requires Sound(c) && fid in a && a.Keys == b.Keys && f.pendSc == a[fid].pend && f.maxSeq == |a[fid].recs|
    requires forall g {:trigger a[g]} {:trigger b[g]} :: g in a && g != fid ==> b[g] == a[g]
    requires if stored then |pkt| == 120 && ChunkCount(pkt).Some? &&
                            b[fid] == S.Held(a[fid].recs + [Fresh(pkt, ChunkCount(pkt).value)], AfterEntry(c, fid, f, pkt, ChunkCount(pkt).value).pendSc)
             else b[fid] == a[fid]
    ensures AllLonger(a, b)
  {
    hide ChunkCount;
    forall g {:trigger a[g]} {:trigger b[g]} | g in a ensures g in b && Longer(a[g], b[g]) {
    }
  }

  lemma AdvancedFrom(x: S.Held, y: S.Held, z: S.Held, reach: bool, h: Bytes, pkt: Bytes)
    requires Longer(x, y) && Advanced(y, z, reach, h, pkt)
    ensures Advanced(x, z, reach, h, pkt)
  {
    forall k | 0 <= k < |x.recs| ensures AdvancedAt(x, z, k, reach, h, pkt) {
      assert AdvancedAt(y, z, k, reach, h, pkt);
      assert k + 1 in x.pend <==> k + 1 in y.pend;
    }
  }

  lemma AllAdvancedFrom(a: S.Shelf, b: S.Shelf, c: S.Shelf, reach: bool, h: Bytes, pkt: Bytes)
    requires AllLonger(a, b) && AllAdvanced(b, c, reach, h, pkt)
    ensures AllAdvanced(a, c, reach, h, pkt)
  {
    hide Longer, Advanced;
    forall f {:trigger a[f]} {:trigger c[f]} | f in a ensures f in c && Advanced(a[f], c[f], reach, h, pkt) {
      assert f in b;
      AdvancedFrom(a[f], b[f], c[f], reach, h, pkt);
    }
  }

  lemma LongerNot(a: S.Shelf, b: S.Shelf, h: Bytes, pkt: Bytes)
    requires AllLonger(a, b)
    ensures AllAdvanced(a, b, false, h, pkt)
  {
    forall f {:trigger a[f]} {:trigger b[f]} | f in a ensures f in b && Advanced(a[f], b[f], false, h, pkt) {
      var x, y := a[f], b[f];
      assert Longer(x, y);
      forall k | 0 <= k < |x.recs| ensures AdvancedAt(x, y, k, false, h, pkt) {
        assert k + 1 in x.pend <==> k + 1 in y.pend;
      }
    }
  }

  lemma ChunkFilterAt(c: Crypto, role: Role, fronts: Fronts, dmxt: map<Bytes, Handler>, chkt: map<Bytes, set<Aux>>, reserved: set<Bytes>, h: Bytes, a: Aux)
    requires Sound(c) && FiltersOk(c, role, fronts, dmxt, chkt, reserved) && role != Out && Has(chkt, h, a)
    ensures a.fid in fronts && a.seqn in fronts[a.fid].pendSc
    ensures fronts[a.fid].pendSc[a.seqn].hptr == h && fronts[a.fid].pendSc[a.seqn].cnr == a.cnr
  {
    assert Pending(fronts, h, a);
  }

  lemma FiltersAfterChunk(c: Crypto, role: Role, fronts: Fronts, dmxt: map<Bytes, Handler>, chkt: map<Bytes, set<Aux>>, reserved: set<Bytes>,
                          fid: Bytes, s: nat, pkt: Bytes)
    requires Sound(c) && FiltersOk(c, role, fronts, dmxt, chkt, reserved) && role != Out
    requires |pkt| == 120 && fid in fronts && s in fronts[fid].pendSc
    ensures var f, p := AfterChunk(fronts[fid], s, pkt), fronts[fid].pendSc[s];
      var rest := Disarmed(chkt, p.hptr, Aux(fid, s, p.cnr));
      FiltersOk(c, role, fronts[fid := f], dmxt, if s in f.pendSc then Armed(rest, f.pendSc[s].hptr, Aux(fid, s, p.cnr + 1)) else rest, reserved)
  {
    hide DmxOf, ChunkFilters, Armed, Disarmed;
    ChainMoves(fronts, chkt, fid, s, pkt);
    var f := AfterChunk(fronts[fid], s, pkt);
    assert f.maxSeq == fronts[fid].maxSeq && f.prev == fronts[fid].prev;
    SameEntryFilters(c, fronts, dmxt, fid, f);
  }

  lemma SameEntryFilters(c: Crypto, fronts: Fronts, dmxt: map<Bytes, Handler>, fid: Bytes, f: State)
    requires Sound(c) && EntryFilters(c, fronts, dmxt) && fid in fronts && f.maxSeq == fronts[fid].maxSeq && f.prev == fronts[fid].prev
    ensures EntryFilters(c, fronts[fid := f], dmxt)
  {
    hide Dmx;
  }

  lemma CountBelow(r: Replica)
    requires r.Valid()
    ensures r.state.maxSeq == |r.recs| < 0x8000_0000
  {
    hide SideOk, PrevOf;
    var n := |r.recs| - 1;
    if n >= 0 {
      assert AreRecs(r.recs[..n]);
      RecordsTakeRoom(r.recs[..n]);
      assert Start(r.recs, n) < MAX32;
    }
  }

  lemma AcceptableIsNext(r: Replica, author: seq<Rec>, pkt: Bytes)
    requires r.Valid() && Sound(r.crypto) && AreRecs(author) && |author| < MAX32 && |r.fid| == 32 && Genuine(r.crypto, r.fid, author, pkt)
    requires r.Acceptable(pkt, r.state.maxSeq + 1)
    ensures |r.recs| < |author| && pkt == author[|r.recs|].entry && r.state.maxSeq + 2 < MAX32
  {
    hide PrevOf, Dmx, SideOk, Genuine, Nam;
    AcceptedIsNext(r.crypto, r.fid, author, r.recs, pkt);
    RecordsTakeRoom(r.recs);
  }

  lemma FrontsHave(reps: Replicas, fid: Bytes)
    ensures fid in reps <==> fid in FrontsOf(reps)
    ensures fid in reps ==> FrontsOf(reps)[fid] == reps[fid].state && fid in RecsOf(reps) && RecsOf(reps)[fid] == reps[fid].recs
  {
  }

  lemma PendingBelow(r: Replica)
    requires r.Valid()
    ensures r.state.maxSeq + 1 !in r.state.pendSc
  {
  }
}
