/** Runs of honest nodes of both kinds, over a network that loses, repeats and
    reorders what they send. */
module Gossip {
  import opened Basics
  import opened KeySets
  import opened Reconciliation
  import G = GOset
  import S = GOsetStation

  /** A node hears one of the messages sent so far, or has its turn to speak. */
  datatype Step = NodeHears(node: nat, msg: nat) | StationHears(node: nat, msg: nat) | NodeSpeaks(node: nat) | StationSpeaks(node: nat)

  ghost predicate Separate(nodes: seq<G.GOset>, stations: seq<S.GOsetClass>) {
    && (forall i, j :: 0 <= i < j < |nodes| ==> nodes[i] != nodes[j])
    && (forall i, j :: 0 <= i < j < |stations| ==>
          stations[i] != stations[j] && stations[i].table != stations[j].table && stations[i].claims != stations[j].claims)
  }

  /** Each node holds at least the keys it is listed with, and none but from `all`. */
  ghost predicate Bounded(nodes: seq<G.GOset>, stations: seq<S.GOsetClass>, was: Census, all: set<Key>)
    reads nodes, stations, set s | s in stations :: s.table, set s | s in stations :: s.claims
  {
    && |was.nodes| == |nodes| && |was.stations| == |stations|
    && (forall i :: 0 <= i < |nodes| ==> nodes[i].Within(all) && was.nodes[i] <= SetOf(nodes[i].keys))
    && (forall i :: 0 <= i < |stations| ==> stations[i].Within(all) && was.stations[i] <= SetOf(stations[i].Keys()))
  }

  datatype Census = Census(nodes: seq<set<Key>>, stations: seq<set<Key>>)

  function Packet(prefix: Bytes, m: Msg): Bytes
    requires |prefix| == 7 && (m.Range? ==> m.claim.sz < 256)
  {
    prefix + Wire(m)
  }

  lemma PacketParses(prefix: Bytes, m: Msg)
    requires |prefix| == 7 && (m.Range? ==> m.claim.sz < 256)
    ensures |Packet(prefix, m)| > 7 && Parsed(Packet(prefix, m)[7..]) == Some(m)
  {
    WireRoundTrip(m);
    assert Packet(prefix, m)[7..] == Wire(m);
  }

  method LetNodeHear(nodes: seq<G.GOset>, stations: seq<S.GOsetClass>, i: nat, pkt: Bytes, ghost was: Census, ghost all: set<Key>)
    requires i < |nodes| && Separate(nodes, stations) && Bounded(nodes, stations, was, all)
    requires |pkt| > 7 && Parsed(pkt[7..]).Some? && HonestMsg(all, Parsed(pkt[7..]).value)
    modifies nodes[i]
    ensures Bounded(nodes, stations, was, all)
  {
    hide SetOf, HonestMsg, HonestClaims, Sorted, Parsed, G.GOset.KeysAfter;
    var _ := nodes[i].IncomingGosetMsg(pkt, all);
  }

  method LetStationHear(nodes: seq<G.GOset>, stations: seq<S.GOsetClass>, i: nat, pkt: Bytes, ghost was: Census, ghost all: set<Key>) returns (out: seq<Msg>)
    requires i < |stations| && Separate(nodes, stations) && Bounded(nodes, stations, was, all)
    requires |pkt| > 7 && Parsed(pkt[7..]).Some? && HonestMsg(all, Parsed(pkt[7..]).value)
    modifies stations[i], stations[i].table, stations[i].claims
    ensures Bounded(nodes, stations, was, all) && AllHonest(all, out)
  {
    hide SetOf, HonestMsg, HonestClaims, Sorted, Parsed, S.GOsetClass.KeysAfter, AllHonest;
    out := stations[i].Rx(pkt, all);
  }

  method LetNodeSpeak(nodes: seq<G.GOset>, stations: seq<S.GOsetClass>, i: nat, ghost was: Census, ghost all: set<Key>) returns (out: seq<Msg>)
    requires i < |nodes| && Separate(nodes, stations) && Bounded(nodes, stations, was, all)
    modifies nodes[i]
    ensures Bounded(nodes, stations, was, all) && AllHonest(all, out)
  {
    hide SetOf, HonestMsg, HonestClaims, Sorted, AllHonest, G.BySize, G.HasNews, Round, XorOf;
    var lst, _ := nodes[i].Advertise(all);
    G.EachHonest(all, []);
    out := if lst == None then [] else lst.value;
  }

  method LetStationSpeak(nodes: seq<G.GOset>, stations: seq<S.GOsetClass>, i: nat, ghost was: Census, ghost all: set<Key>) returns (out: seq<Msg>)
    requires i < |stations| && Separate(nodes, stations) && Bounded(nodes, stations, was, all)
    modifies stations[i], stations[i].claims
    ensures Bounded(nodes, stations, was, all) && AllHonest(all, out)
  {
    hide SetOf, HonestMsg, HonestClaims, Sorted, Round, AllHonest;
    out := stations[i].Tick(all);
  }

  method One(nodes: seq<G.GOset>, stations: seq<S.GOsetClass>, step: Step, net: seq<Msg>, prefix: Bytes, ghost was: Census, ghost all: set<Key>) returns (out: seq<Msg>)
    requires Separate(nodes, stations) && Bounded(nodes, stations, was, all) && AllHonest(all, net) && |prefix| == 7
    modifies nodes, stations, set s | s in stations :: s.table, set s | s in stations :: s.claims
    ensures Bounded(nodes, stations, was, all) && AllHonest(all, out)
  {
    hide Bounded, HonestMsg, Parsed, Packet, Separate;
    out := [];
    match step {
      case NodeHears(i, m) =>
        if i < |nodes| && m < |net| && (net[m].Range? ==> net[m].claim.sz < 256) {
          PacketParses(prefix, net[m]);
          LetNodeHear(nodes, stations, i, Packet(prefix, net[m]), was, all);
        }
      case StationHears(i, m) =>
        if i < |stations| && m < |net| && (net[m].Range? ==> net[m].claim.sz < 256) {
          PacketParses(prefix, net[m]);
          out := LetStationHear(nodes, stations, i, Packet(prefix, net[m]), was, all);
        }
      case NodeSpeaks(i) =>
        if i < |nodes| {
          out := LetNodeSpeak(nodes, stations, i, was, all);
        }
      case StationSpeaks(i) =>
        if i < |stations| {
          out := LetStationSpeak(nodes, stations, i, was, all);
        }
    }
  }

  /** No run invents a key or loses one: if all nodes start with keys from `all`,
      everything that is ever held anywhere is from `all`, in sorted lists, and
      whatever a node held at the start it still holds. */
  method Run(nodes: seq<G.GOset>, stations: seq<S.GOsetClass>, schedule: seq<Step>, prefix: Bytes, ghost was: Census, ghost all: set<Key>) returns (net: seq<Msg>)
    requires Separate(nodes, stations) && Bounded(nodes, stations, was, all) && |prefix| == 7
    modifies nodes, stations, set s | s in stations :: s.table, set s | s in stations :: s.claims
    ensures Bounded(nodes, stations, was, all) && AllHonest(all, net)
  {
    hide Bounded, HonestMsg, Separate;
    net := [];
    for k := 0 to |schedule|
      invariant Bounded(nodes, stations, was, all) && AllHonest(all, net)
    {
      var out := One(nodes, stations, schedule[k], net, prefix, was, all);
      net := net + out;
    }
  }
}
