/** Runs of many nodes. The network hands any packet to any node at any time: it
    loses, repeats, reorders and makes up packets. The nodes speak at any time.
    Authors go on writing meanwhile. */
module Network {
  import opened Basics
  import opened LogFormat
  import opened Frontier
  import opened Replica
  import opened Replication
  import opened KeySets
  import opened Filters
  import opened Node
  import Reconciliation
  import G = GOset
  import S = Serving

  /** A node hears a packet, advertises its key set, or asks for entries. */
  datatype Step = Hear(node: nat, pkt: Bytes) | AdvertiseKeys(node: nat) | AskEntries(node: nat)

  /** What authors have written only becomes more. */
  ghost predicate Grows(a: Feeds, b: Feeds) {
    a.Keys <= b.Keys && forall f {:trigger a[f]} :: f in a ==> |a[f]| <= |b[f]| && b[f][..|a[f]|] == a[f]
  }

  lemma NameOfEarlier(c: Crypto, f: Key, a: seq<Rec>, b: seq<Rec>, k: nat)
    requires Sound(c) && k <= |a| <= |b| && b[..|a|] == a
    ensures NameOf(c, f, a, k) == NameOf(c, f, b, k)
  {
    assert b[..k] == b[..|a|][..k] == a[..k];
  }

  /** Prefixes that are apart in the end were so before. */
  lemma ApartEarlier(c: Crypto, a: Feeds, b: Feeds, reserved: set<Bytes>)
    requires AreFeeds(c, a) && AreFeeds(c, b) && Grows(a, b) && Apart(c, b, reserved)
    ensures Apart(c, a, reserved)
  {
    hide NameOf, Dmx;
    forall f, k {:trigger NameOf(c, f, a[f], k)} | f in a && 0 <= k <= |a[f]| ensures NameOf(c, f, a[f], k) == NameOf(c, f, b[f], k) {
      NameOfEarlier(c, f, a[f], b[f], k);
    }
  }

  lemma StatesApartEarlier(c: Crypto, a: Feeds, b: Feeds, reserved: set<Bytes>)
    requires AreFeeds(c, a) && Grows(a, b) && StatesApart(c, b, reserved)
    ensures StatesApart(c, a, reserved)
  {
    hide PrefixesApart, XorOf, Sorted, SetOf;
  }

  lemma FollowsLonger(recs: seq<Rec>, a: seq<Rec>, b: seq<Rec>)
    requires Follows(recs, a) && |a| <= |b| && b[..|a|] == a
    ensures Follows(recs, b)
  {
    forall k | 0 <= k < |recs| ensures recs[k].entry == b[k].entry {
      assert b[..|a|][k] == b[k];
    }
  }

  ghost function Footprint(n: PubNode): set<object>
    reads n
  {
    {n, n.goset} + S.Objects(n.reps)
  }

  ghost predicate Good(n: PubNode, c: Crypto, authors: Feeds, reserved: set<Bytes>)
    reads n, Footprint(n)
  {
    n.crypto == c && n.role != Out && n.Valid(authors, reserved) && n.GosetOk(authors) && n.RequestsOk(reserved)
  }

  lemma StaysGood(n: PubNode, c: Crypto, a: Feeds, b: Feeds, reserved: set<Bytes>)
    requires Good(n, c, a, reserved) && AreFeeds(c, b) && Grows(a, b) && Apart(c, b, reserved)
    ensures Good(n, c, b, reserved)
  {
    hide Apart, FiltersOk, Replica.Valid, Reconciliation.Honest, PrefixesApart, Listens;
    forall f {:trigger n.reps[f]} | f in n.reps ensures RepOk(c, f, n.reps[f], b) {
      assert RepOk(c, f, n.reps[f], a);
      FollowsLonger(n.reps[f].recs, a[f], b[f]);
    }
    HonestLonger(a.Keys, b.Keys, n.goset.pending);
  }

  lemma HonestLonger(a: set<Key>, b: set<Key>, pend: seq<Claim>)
    requires a <= b && Reconciliation.HonestClaims(a, pend)
    ensures Reconciliation.HonestClaims(b, pend)
  {
    forall t | 0 <= t < |pend| ensures Reconciliation.Honest(b, pend[t]) {
      var ks, i, j :| HonestBy(pend[t], ks, i, j) && SetOf(ks) <= a;
    }
  }

  /** The nodes share nothing. */
  ghost predicate Separate(nodes: seq<PubNode>)
    reads nodes
  {
    forall i, j :: 0 <= i < j < |nodes| ==> Footprint(nodes[i]) !! Footprint(nodes[j])
  }

  ghost function All(nodes: seq<PubNode>): set<object>
    reads nodes
  {
    set i, o | 0 <= i < |nodes| && o in Footprint(nodes[i]) :: o
  }

  ghost predicate AllGood(nodes: seq<PubNode>, c: Crypto, authors: Feeds, reserved: set<Bytes>)
    reads nodes, All(nodes)
  {
    forall i :: 0 <= i < |nodes| ==> Good(nodes[i], c, authors, reserved)
  }

  /** A node hears a packet. */
  method HearOne(n: PubNode, pkt: Bytes, ghost c: Crypto, ghost authors: Feeds, ghost reserved: set<Bytes>)
    requires Good(n, c, authors, reserved) && Trusted(c, authors, pkt) && GosetTrusted(authors, pkt)
    modifies Footprint(n)
    ensures Good(n, c, authors, reserved)
    ensures forall o :: o in Footprint(n) ==> o in old(Footprint(n)) || fresh(o)
  {
    hide PubNode.Valid, PubNode.GosetOk, PubNode.RequestsOk, Trusted, GosetTrusted, AllAdvanced, Replied, PubNode.Raises, PubNode.Takers, PubNode.Counted, PubNode.KeysHeard;
    var _ := n.Rx(pkt, authors, reserved);
  }

  method Deliver(nodes: seq<PubNode>, i: nat, pkt: Bytes, ghost c: Crypto, ghost authors: Feeds, ghost reserved: set<Bytes>)
    requires i < |nodes| && Separate(nodes) && AllGood(nodes, c, authors, reserved)
    requires AreFeeds(c, authors) && Trusted(c, authors, pkt) && GosetTrusted(authors, pkt)
    modifies Footprint(nodes[i])
    ensures Separate(nodes) && AllGood(nodes, c, authors, reserved)
    ensures forall o :: o in All(nodes) ==> o in old(All(nodes)) || fresh(o)
  {
    hide Good, Trusted, GosetTrusted, AreFeeds;
    HearOne(nodes[i], pkt, c, authors, reserved);
  }

  method Advertise(nodes: seq<PubNode>, i: nat, ghost c: Crypto, ghost authors: Feeds, ghost reserved: set<Bytes>)
    requires i < |nodes| && Separate(nodes) && AllGood(nodes, c, authors, reserved)
    requires AreFeeds(c, authors) && StatesApart(c, authors, reserved)
    modifies Footprint(nodes[i])
    ensures Separate(nodes) && AllGood(nodes, c, authors, reserved)
    ensures forall o :: o in All(nodes) ==> o in old(All(nodes)) || fresh(o)
  {
    hide PubNode.Valid, PubNode.GosetOk, PubNode.RequestsOk, StatesApart, MakeClaim, XorOf, Reconciliation.Round, Reconciliation.AllHonest, G.BySize, G.HasNews;
    var _ := nodes[i].GetGOsetAdv(authors, reserved);
  }

  method Ask(nodes: seq<PubNode>, i: nat, ghost c: Crypto, ghost authors: Feeds, ghost reserved: set<Bytes>)
    requires i < |nodes| && Separate(nodes) && AllGood(nodes, c, authors, reserved)
    modifies Footprint(nodes[i])
    ensures Separate(nodes) && AllGood(nodes, c, authors, reserved)
    ensures forall o :: o in All(nodes) ==> o in old(All(nodes)) || fresh(o)
  {
    hide PubNode.Valid, PubNode.GosetOk, PubNode.RequestsOk;
    var _, _ := nodes[i].GetEntryAdv(authors, reserved);
  }

  method Do(nodes: seq<PubNode>, step: Step, ghost c: Crypto, ghost authors: Feeds, ghost reserved: set<Bytes>)
    requires Separate(nodes) && AllGood(nodes, c, authors, reserved) && AreFeeds(c, authors) && StatesApart(c, authors, reserved)
    requires step.Hear? ==> Trusted(c, authors, step.pkt) && GosetTrusted(authors, step.pkt)
    modifies All(nodes)
    ensures Separate(nodes) && AllGood(nodes, c, authors, reserved)
    ensures forall o :: o in All(nodes) ==> o in old(All(nodes)) || fresh(o)
  {
    hide Good, Trusted, GosetTrusted, StatesApart, AreFeeds, Separate;
    if step.node < |nodes| {
      match step {
        case Hear(i, pkt) => Deliver(nodes, i, pkt, c, authors, reserved);
        case AdvertiseKeys(i) => Advertise(nodes, i, c, authors, reserved);
        case AskEntries(i) => Ask(nodes, i, c, authors, reserved);
      }
    }
  }

  /** What an observer must grant about a schedule: in each packet the signature check
      accepts only what its author had signed by then, messages about the key set
      name only keys of authors, and prefixes do not collide. */
  ghost predicate Admissible(c: Crypto, schedule: seq<Step>, when: seq<Feeds>, reserved: set<Bytes>) {
    && |when| == |schedule| + 1
    && (forall k {:trigger when[k]} :: 0 <= k < |when| ==> AreFeeds(c, when[k]))
    && Apart(c, when[|schedule|], reserved) && StatesApart(c, when[|schedule|], reserved)
    && (forall k {:trigger schedule[k]} :: 0 <= k < |schedule| ==>
          Grows(when[k], when[k + 1]) && (schedule[k].Hear? ==> Trusted(c, when[k + 1], schedule[k].pkt) && GosetTrusted(when[k + 1], schedule[k].pkt)))
  }

  lemma {:induction false} ApartThroughout(c: Crypto, schedule: seq<Step>, when: seq<Feeds>, reserved: set<Bytes>, k: nat)
    requires Admissible(c, schedule, when, reserved) && k <= |schedule|
    ensures AreFeeds(c, when[k]) && Apart(c, when[k], reserved) && StatesApart(c, when[k], reserved)
    decreases |schedule| - k
  {
    hide Apart, AreFeeds, StatesApart, Grows, Trusted, GosetTrusted;
    assert AreFeeds(c, when[k]);
    if k < |schedule| {
      ApartThroughout(c, schedule, when, reserved, k + 1);
      var _ := schedule[k];
      assert Grows(when[k], when[k + 1]);
      ApartEarlier(c, when[k], when[k + 1], reserved);
      StatesApartEarlier(c, when[k], when[k + 1], reserved);
    }
  }

  /** In every run each replica of each node holds a prefix of what its author had
      written by then, the filter banks of every node are exact, and requests have the
      prefixes that go with the state of its key set. */
  method Run(nodes: seq<PubNode>, schedule: seq<Step>, ghost c: Crypto, ghost when: seq<Feeds>, ghost reserved: set<Bytes>)
    requires Separate(nodes) && Admissible(c, schedule, when, reserved) && AllGood(nodes, c, when[0], reserved)
    modifies All(nodes)
    ensures Separate(nodes) && AllGood(nodes, c, when[|schedule|], reserved)
  {
    for k := 0 to |schedule|
      invariant Separate(nodes) && AllGood(nodes, c, when[k], reserved)
      invariant forall o :: o in All(nodes) ==> o in old(All(nodes)) || fresh(o)
    {
      hide Good, Trusted, GosetTrusted, Apart, StatesApart, AreFeeds, Grows, Separate;
      var step := schedule[k];
      ApartThroughout(c, schedule, when, reserved, k + 1);
      forall i | 0 <= i < |nodes| ensures Good(nodes[i], c, when[k + 1], reserved) {
        StaysGood(nodes[i], c, when[k], when[k + 1], reserved);
      }
      Do(nodes, step, c, when[k + 1], reserved);
    }
  }

  /** Any two replicas of a feed are comparable: one holds a prefix of the other. */
  lemma Comparable(m: PubNode, n: PubNode, c: Crypto, authors: Feeds, reserved: set<Bytes>, f: Key)
    requires Good(m, c, authors, reserved) && Good(n, c, authors, reserved) && f in m.reps && f in n.reps
    ensures Follows(m.reps[f].recs, n.reps[f].recs) || Follows(n.reps[f].recs, m.reps[f].recs)
  {
    hide Apart, FiltersOk, Replica.Valid;
    assert RepOk(c, f, m.reps[f], authors) && RepOk(c, f, n.reps[f], authors);
  }

  lemma HearsAboutKeys(n: PubNode, c: Crypto, authors: Feeds, reserved: set<Bytes>)
    requires Good(n, c, authors, reserved)
    ensures n.HandlerOf(GosetPrefix(c)) == Some(GOsetMsg)
  {
    hide PubNode.Valid, PubNode.GosetOk, WantPrefix, BlobPrefix, GosetPrefix;
  }

  /** 'n' and the key. */
  lemma NewsOfKey(d: Bytes, key: Key)
    requires |d| == 7
    ensures var pkt := d + [110] + key;
      |pkt| == 40 && Slice(pkt, 0, 7) == d && Tells(pkt) && Reconciliation.Parsed(pkt[7..]) == Some(Reconciliation.Novelty(key))
  {
    var pkt := d + [110] + key;
    assert pkt[0..7] == d && pkt[7..] == [110] + key && ([110] + key)[1..33] == key;
  }

  lemma TrustedShort(c: Crypto, authors: Feeds, pkt: Bytes)
    requires AreFeeds(c, authors) && |pkt| != 120
    ensures Trusted(c, authors, pkt)
  {
  }

  /** A node that hears of a feed for the first time opens a replica for it. */
  method HearOfFeed(n: PubNode, key: Key, ghost c: Crypto, ghost authors: Feeds, ghost reserved: set<Bytes>)
    requires Good(n, c, authors, reserved) && key in authors && key != ZERO && |n.goset.keys| <= 98
    modifies Footprint(n)
    ensures Good(n, c, authors, reserved) && key in SetOf(n.goset.keys) && key in n.reps
  {
    hide Apart, FiltersOk, RepsOk, PubNode.RequestsOk, Trusted, PubNode.Takers, SetOf, G.GOset.KeysAfter, G.GOset.Within;
    ghost var m := Reconciliation.Novelty(key);
    var pkt := GosetPrefix(n.crypto) + [110] + key;
    NewsOfKey(GosetPrefix(c), key);
    HearsAboutKeys(n, c, authors, reserved);
    TrustedShort(c, authors, pkt);
    n.goset.KeysLearned(authors.Keys, m);
    var _ := n.Rx(pkt, authors, reserved);
  }
}
