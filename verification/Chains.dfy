/** Side chains on the air: a node that hears the chunks of a chain has them, in order;
    one that asks for them gets them. */
module Chains {
  import opened Basics
  import opened LogFormat
  import opened Frontier
  import opened Filters
  import opened Writing
  import opened Replica
  import opened Replication
  import opened KeySets
  import opened Node
  import opened Network
  import opened Exchange
  import Bipf
  import BipfCodec
  import Varint
  import S = Serving
  import R = RoundRobin

  /** What the chunk before says, or what is known from the start. */
  function Announced(h: Bytes, chunks: seq<Bytes>, j: nat): Bytes
    requires j < |chunks|
  {
    if j == 0 then h else if |chunks[j - 1]| >= 100 then chunks[j - 1][100..] else []
  }

  /** The first chunk has this hash, and each carries the hash of the next. */
  ghost predicate Linked(c: Crypto, h: Bytes, chunks: seq<Bytes>)
    requires Sound(c)
  {
    forall j: nat {:trigger Announced(h, chunks, j)} :: j < |chunks| ==> |chunks[j]| == 120 && Hash20(c, chunks[j]) == Announced(h, chunks, j)
  }

  /** What a node holds of a feed. */
  ghost function HeldOf(n: PubNode, f: Key): S.Held
    reads n, S.Objects(n.reps)
  {
    if f in n.reps then S.Held(n.reps[f].recs, n.reps[f].state.pendSc) else S.Held([], map[])
  }

  /** Chunk `n` of record `k` is the next one of its feed to arrive, and has this hash. */
  ghost predicate Expects(x: S.Held, k: nat, n: nat, h: Bytes) {
    k < |x.recs| && k + 1 in x.pend && x.pend[k + 1].cnr == n && x.pend[k + 1].hptr == h
  }

  lemma WhatIsHeld(n: PubNode, c: Crypto, authors: Feeds, reserved: set<Bytes>, f: Key)
    requires Good(n, c, authors, reserved) && f in n.reps
    ensures Sound(c) && ToldAt(c, HeldOf(n, f).recs, HeldOf(n, f).pend) && n.reps[f].Valid() && n.reps[f].crypto == c
    ensures f in ShelfOf(n.reps) && ShelfOf(n.reps)[f] == HeldOf(n, f)
  {
    hide Apart, FiltersOk, PrevOf, LogOf, SideOk;
    assert RepOk(c, f, n.reps[f], authors);
  }

  lemma ShelfIs(n: PubNode, f: Key)
    requires f in n.reps
    ensures f in ShelfOf(n.reps) && ShelfOf(n.reps)[f] == HeldOf(n, f) && HeldOf(n, f).recs == n.reps[f].recs
  {
  }

  /** A chain that has moved by a chunk goes on with what that chunk says, or is complete. */
  lemma GoesOn(c: Crypto, x: S.Held, y: S.Held, k: nat, n: nat, pkt: Bytes)
    requires Sound(c) && |pkt| == 120 && Expects(x, k, n, Hash20(c, pkt)) && Advanced(x, y, true, Hash20(c, pkt), pkt)
    requires ToldAt(c, x.recs, x.pend) && ToldAt(c, y.recs, y.pend)
    ensures k < |y.recs| && n < |x.recs[k].side| && y.recs[k] == x.recs[k].(side := x.recs[k].side[n := pkt]) && Arrived(y.recs, y.pend, k) == n + 1
    ensures n + 1 < |x.recs[k].side| ==> Expects(y, k, n + 1, pkt[100..])
  {
    hide ChunkCount, Hash20;
    assert AdvancedAt(x, y, k, true, Hash20(c, pkt), pkt);
    assert SideOk(c, y.recs, y.pend, k) && SideOk(c, x.recs, x.pend, k);
  }

  /** Hearing one chunk that has no armed prefix. */
  method HearChunk(n: PubNode, f: Key, pkt: Bytes, ghost c: Crypto, ghost authors: Feeds, ghost reserved: set<Bytes>)
    requires Good(n, c, authors, reserved) && Trusted(c, authors, pkt) && |pkt| == 120 && Slice(pkt, 0, 7) !in n.dmxt && f in n.reps
    modifies Footprint(n)
    ensures Good(n, c, authors, reserved) && n.dmxt == old(n.dmxt) && f in n.reps
    ensures n.goset.keys == old(n.goset.keys) && n.goset.state == old(n.goset.state)
    ensures forall o :: o in Footprint(n) ==> o in old(Footprint(n)) || fresh(o)
    ensures Advanced(old(HeldOf(n, f)), HeldOf(n, f), true, Hash20(c, pkt), pkt)
  {
    hide PubNode.Valid, PubNode.GosetOk, PubNode.RequestsOk, Trusted, GosetTrusted, PubNode.Takers, Advanced, Hash20, Replied, ShelfOf, HeldOf;
    ShelfIs(n, f);
    var _ := n.Rx(pkt, authors, reserved);
    ShelfIs(n, f);
  }

  /** What has become of record `k`: these chunks have arrived after the first `i`. */
  ghost predicate Extended(x: S.Held, y: S.Held, k: nat, i: nat, chunks: seq<Bytes>) {
    && k < |x.recs| && k < |y.recs| && i + |chunks| <= |x.recs[k].side|
    && y.recs[k] == x.recs[k].(side := x.recs[k].side[..i] + chunks + x.recs[k].side[i + |chunks|..])
    && Arrived(y.recs, y.pend, k) == i + |chunks|
  }

  lemma ExtendedNot(x: S.Held, k: nat, i: nat, h: Bytes)
    requires Expects(x, k, i, h) && i <= |x.recs[k].side|
    ensures Extended(x, x, k, i, [])
  {
    assert x.recs[k].side[..i] + [] + x.recs[k].side[i..] == x.recs[k].side;
  }

  lemma ExtendedMore(x: S.Held, y: S.Held, z: S.Held, k: nat, i: nat, chunks: seq<Bytes>, j: nat)
    requires j < |chunks| && Extended(x, y, k, i, chunks[..j]) && k < |z.recs| && i + |chunks| <= |x.recs[k].side|
    requires z.recs[k] == y.recs[k].(side := y.recs[k].side[i + j := chunks[j]]) && Arrived(z.recs, z.pend, k) == i + j + 1
    ensures Extended(x, z, k, i, chunks[..j + 1])
  {
    hide Arrived;
    var side := x.recs[k].side;
    assert (side[..i] + chunks[..j] + side[i + j..])[i + j := chunks[j]] == side[..i] + chunks[..j + 1] + side[i + j + 1..];
  }

  lemma SameRoom(x: S.Held, y: S.Held, k: nat, i: nat, chunks: seq<Bytes>)
    requires Extended(x, y, k, i, chunks)
    ensures k < |x.recs| && k < |y.recs| && |y.recs[k].side| == |x.recs[k].side| && i + |chunks| <= |y.recs[k].side|
    ensures Arrived(y.recs, y.pend, k) == i + |chunks| && y.recs[k].side[i..i + |chunks|] == chunks
  {
  }

  lemma StartsLinked(h: Bytes, chunks: seq<Bytes>)
    ensures chunks != [] ==> Announced(h, chunks, 0) == h
  {
  }

  lemma LinkedAt(c: Crypto, h: Bytes, chunks: seq<Bytes>, j: nat)
    requires Sound(c) && Linked(c, h, chunks) && j < |chunks|
    ensures |chunks[j]| == 120 && Hash20(c, chunks[j]) == Announced(h, chunks, j)
    ensures j + 1 < |chunks| ==> Announced(h, chunks, j + 1) == chunks[j][100..]
  {
    hide Hash20;
    assert Hash20(c, chunks[j]) == Announced(h, chunks, j);
  }

  /** Chunks are asked for one by one. */
  method Fetch(n: PubNode, f: Key, k: nat, i: nat, cnt: nat, ghost c: Crypto, ghost authors: Feeds, ghost reserved: set<Bytes>) returns (got: seq<Bytes>)
    requires Good(n, c, authors, reserved) && f in n.reps && k < |n.reps[f].recs|
    requires i + cnt <= Arrived(n.reps[f].recs, n.reps[f].state.pendSc, k) && i + cnt <= |n.reps[f].recs[k].side|
    ensures got == n.reps[f].recs[k].side[i..i + cnt]
  {
    hide Good, Arrived;
    WhatIsHeld(n, c, authors, reserved, f);
    got := [];
    for j := 0 to cnt
      invariant got == n.reps[f].recs[k].side[i..i + j]
    {
      var chunk := n.reps[f].GetChunk(k + 1, i + j);
      got := got + [chunk.value];
    }
  }

  /** A node hears chunks of a side chain, in order: it has that many more. */
  method HearChain(n: PubNode, f: Key, k: nat, i: nat, ghost h: Bytes, chunks: seq<Bytes>, ghost c: Crypto, ghost authors: Feeds, ghost reserved: set<Bytes>)
    requires Good(n, c, authors, reserved) && f in n.reps && Expects(HeldOf(n, f), k, i, h) && Linked(c, h, chunks)
    requires i + |chunks| <= |n.reps[f].recs[k].side|
    requires forall j :: 0 <= j < |chunks| ==> Trusted(c, authors, chunks[j]) && Slice(chunks[j], 0, 7) !in n.dmxt
    modifies Footprint(n)
    ensures Good(n, c, authors, reserved) && f in n.reps && n.dmxt == old(n.dmxt)
    ensures n.goset.keys == old(n.goset.keys) && n.goset.state == old(n.goset.state)
    ensures forall o :: o in Footprint(n) ==> o in old(Footprint(n)) || fresh(o)
    ensures Extended(old(HeldOf(n, f)), HeldOf(n, f), k, i, chunks)
  {
    hide Good, Trusted, Footprint, Hash20, Linked, Announced, AreFeeds, Extended, Advanced, ToldAt, Arrived;
    ghost var x := HeldOf(n, f);
    ExtendedNot(x, k, i, h);
    StartsLinked(h, chunks);
    assert chunks[..0] == [];
    for j := 0 to |chunks|
      invariant Good(n, c, authors, reserved) && f in n.reps && n.dmxt == old(n.dmxt)
      invariant n.goset.keys == old(n.goset.keys) && n.goset.state == old(n.goset.state)
      invariant forall o :: o in Footprint(n) ==> o in old(Footprint(n)) || fresh(o)
      invariant Extended(x, HeldOf(n, f), k, i, chunks[..j])
      invariant j < |chunks| ==> Expects(HeldOf(n, f), k, i + j, Announced(h, chunks, j))
    {
      ghost var y := HeldOf(n, f);
      WhatIsHeld(n, c, authors, reserved, f);
      LinkedAt(c, h, chunks, j);
      SameRoom(x, y, k, i, chunks[..j]);
      HearChunk(n, f, chunks[j], c, authors, reserved);
      WhatIsHeld(n, c, authors, reserved, f);
      GoesOn(c, y, HeldOf(n, f), k, i + j, chunks[j]);
      ExtendedMore(x, y, HeldOf(n, f), k, i, chunks, j);
    }
    assert chunks[..|chunks|] == chunks;
  }

  /** And it gives them to whoever asks. */
  method HearAndGive(n: PubNode, f: Key, k: nat, i: nat, ghost h: Bytes, chunks: seq<Bytes>, ghost c: Crypto, ghost authors: Feeds, ghost reserved: set<Bytes>) returns (got: seq<Bytes>)
    requires Good(n, c, authors, reserved) && f in n.reps && Expects(HeldOf(n, f), k, i, h) && Linked(c, h, chunks)
    requires i + |chunks| <= |n.reps[f].recs[k].side|
    requires forall j :: 0 <= j < |chunks| ==> Trusted(c, authors, chunks[j]) && Slice(chunks[j], 0, 7) !in n.dmxt
    modifies Footprint(n)
    ensures Good(n, c, authors, reserved) && got == chunks
  {
    hide Good, Trusted, Hash20, Linked, Extended, Arrived;
    ghost var x := HeldOf(n, f);
    HearChain(n, f, k, i, h, chunks, c, authors, reserved);
    SameRoom(x, HeldOf(n, f), k, i, chunks);
    got := Fetch(n, f, k, i, |chunks|, c, authors, reserved);
  }

  // ------------------------------------------------------------ content

  lemma AuthorsChain(c: Crypto, content: Bytes, nam: Bytes, sig: Bytes)
    requires Sound(c) && |Varint.Encoded(|content|)| <= 20 && |sig| == 64
    ensures var e := Message(c, content, nam) + sig;
      |e| == 120 && Linked(c, e[36..56], SideOf(c, content)) && ChunkCount(e) == Some(|SideOf(c, content)|)
  {
    hide ChunksOf, Varint.Encoded, Varint.Decoded, Tail, Payload, Dmx;
    EntryHeader(c, content, nam, sig);
    var t := Tail(content, 28 - |Varint.Encoded(|content|)|);
    var chunks := SideOf(c, content);
    forall j: nat | j < |chunks| ensures |chunks[j]| == 120 && Hash20(c, chunks[j]) == Announced(PtrTo(c, chunks), chunks, j) {
      if j > 0 {
        ChunksChained(c, t, j);
      }
    }
  }

  /** What the first chunk of a chain must be. */
  lemma FirstExpected(n: PubNode, c: Crypto, authors: Feeds, reserved: set<Bytes>, f: Key, k: nat)
    requires Good(n, c, authors, reserved) && f in n.reps && k < |n.reps[f].recs|
    ensures |n.reps[f].recs[k].entry| == 120 && ChunkCount(n.reps[f].recs[k].entry) == Some(|n.reps[f].recs[k].side|)
    ensures k + 1 in n.reps[f].state.pendSc && n.reps[f].state.pendSc[k + 1].cnr == 0 ==>
      n.reps[f].recs[k].side != [] && Expects(HeldOf(n, f), k, 0, n.reps[f].recs[k].entry[36..56])
  {
    hide Good, ChunkCount;
    WhatIsHeld(n, c, authors, reserved, f);
    assert SideOk(c, n.reps[f].recs, n.reps[f].state.pendSc, k);
  }

  /** A node has an entry of an author and hears the chunks that the author made with
      it: then the content is there. */
  method HearContent(n: PubNode, f: Key, k: nat, content: Bytes, chunks: seq<Bytes>, ghost nam: Bytes, ghost sig: Bytes, ghost c: Crypto, ghost authors: Feeds, ghost reserved: set<Bytes>) returns (got: Option<Bytes>)
    requires Good(n, c, authors, reserved) && f in n.reps && k < |n.reps[f].recs|
    requires Sound(c) && |Varint.Encoded(|content|)| <= 20 && |sig| == 64 && chunks == SideOf(c, content)
    requires n.reps[f].recs[k].entry == Message(c, content, nam) + sig
    requires chunks != [] ==> k + 1 in n.reps[f].state.pendSc && n.reps[f].state.pendSc[k + 1].cnr == 0
    requires forall j :: 0 <= j < |chunks| ==> Trusted(c, authors, chunks[j]) && Slice(chunks[j], 0, 7) !in n.dmxt
    modifies Footprint(n)
    ensures Good(n, c, authors, reserved) && got == Some(content)
  {
    hide Good, Trusted, Hash20, Linked, Extended, Arrived, SideOf, Message, Varint.Encoded, ChunkCount, ReadFinds;
    ghost var x := HeldOf(n, f);
    AuthorsChain(c, content, nam, sig);
    FirstExpected(n, c, authors, reserved, f, k);
    if chunks != [] {
      HearChain(n, f, k, 0, x.recs[k].entry[36..56], chunks, c, authors, reserved);
      WholeChain(x, HeldOf(n, f), k, chunks);
    }
    assert n.reps[f].recs[k] == Rec(Message(c, content, nam) + sig, chunks);
    WhatIsHeld(n, c, authors, reserved, f);
    got := ReadAt(n, f, k);
    AuthorsRecordReads(c, content, nam, sig, got);
  }

  lemma WholeChain(x: S.Held, y: S.Held, k: nat, chunks: seq<Bytes>)
    requires Extended(x, y, k, 0, chunks) && |chunks| == |x.recs[k].side|
    ensures k < |y.recs| && y.recs[k] == Rec(x.recs[k].entry, chunks)
  {
    assert x.recs[k].side[..0] + chunks + x.recs[k].side[|chunks|..] == chunks;
  }

  method ReadAt(n: PubNode, f: Key, k: nat) returns (got: Option<Bytes>)
    requires f in n.reps && n.reps[f].Valid() && k < |n.reps[f].recs|
    ensures |n.reps[f].recs[k].entry| == 120 && Chunks(n.reps[f].recs[k].side) && ReadFinds(n.reps[f].recs[k], got)
  {
    hide Replica.Valid, ReadFinds;
    got := n.reps[f].Read(k + 1);
  }

  // ------------------------------------------------------- asking for a chain

  /** The request for the chunks of record `k` of the feed at place `ndx`, from the
      `i`-th on. */
  function ChainRequest(ndx: nat, k: nat, i: nat): seq<Bipf.Value> {
    [Bipf.List([Bipf.Int(ndx), Bipf.Int(k + 1), Bipf.Int(i)])]
  }

  lemma ListensToBlobs(a: PubNode, c: Crypto, authors: Feeds, reserved: set<Bytes>)
    requires Good(a, c, authors, reserved) && a.role == InOut
    ensures a.HandlerOf(BlobPrefix(c, a.goset.state)) == Some(ChunkMsg)
  {
    hide PubNode.Valid, PubNode.GosetOk, WantPrefix, BlobPrefix, GosetPrefix;
  }

  /** The answer to a request for one chain: its next chunks, three if as many are here. */
  lemma ChainAnswered(keys: seq<Key>, shelf: S.Shelf, ndx: nat, k: nat, i: nat, pkt: Bytes, n: nat, out: seq<Bytes>)
    requires ndx < |keys| && keys[ndx] in shelf && k < |shelf[keys[ndx]].recs|
    requires Bipf.Decoded(PayloadOf(pkt), 0) == Some((Bipf.List(ChainRequest(ndx, k, i)), n)) && ChunkAnswered(keys, shelf, pkt, out)
    ensures Answers(shelf[keys[ndx]], k, i, out)
  {
    hide Bipf.Decoded, Arrived;
    var x, vect := shelf[keys[ndx]], ChainRequest(ndx, k, i);
    assert S.Parts(vect[0]) == Some((Bipf.Int(ndx), Bipf.Int(k + 1), Bipf.Int(i)));
    assert S.Triple(vect[0]) == Some((ndx, k + 1, i));
    assert S.AllAddressed(keys, vect) && S.AllSensible(vect);
    var ask := S.ChunksAsked(keys, shelf, vect);
    var turns: seq<R.Turn> :| R.Served(ask, |vect|, S.CREDIT, out, turns);
    R.OnePlace(ask, S.CREDIT, out, turns);
    forall m | 0 <= m < |out| ensures NextHeld(x, k, i + m, out[m]) {
      S.AskedIs(keys, shelf, vect, 0, m);
      assert ask(0, m) == Some(out[m]);
    }
    S.AskedIs(keys, shelf, vect, 0, |out|);
    assert |out| <= S.CREDIT == 3;
    assert |out| < 3 ==> ask(0, |out|) == None;
  }

  /** This is chunk `j`, and it has arrived. */
  ghost predicate NextHeld(x: S.Held, k: nat, j: nat, pkt: Bytes) {
    k < |x.recs| && j < Arrived(x.recs, x.pend, k) && j < |x.recs[k].side| && pkt == x.recs[k].side[j]
  }

  /** These are the next chunks that are held, three if there are as many. */
  ghost predicate Answers(x: S.Held, k: nat, i: nat, out: seq<Bytes>) {
    && k < |x.recs| && |out| <= 3
    && (forall m {:trigger out[m]} :: 0 <= m < |out| ==> NextHeld(x, k, i + m, out[m]))
    && (|out| < 3 ==> i + |out| >= Arrived(x.recs, x.pend, k) || i + |out| >= |x.recs[k].side|)
  }

  method RequestChain(b: PubNode, ndx: nat, k: nat, i: nat, ghost c: Crypto, ghost authors: Feeds, ghost reserved: set<Bytes>) returns (pkt: Bytes, ghost n: nat)
    requires Good(b, c, authors, reserved) && ndx < 0x8000_0000 && k + 1 < 0x8000_0000 && i < 0x8000_0000_0000_0000
    ensures Slice(pkt, 0, 7) == BlobPrefix(c, b.goset.state) && Bipf.Decoded(PayloadOf(pkt), 0) == Some((Bipf.List(ChainRequest(ndx, k, i)), n))
    ensures |pkt| < 120
  {
    hide PubNode.Valid, PubNode.GosetOk, Bipf.Encoded, Bipf.Decoded, Listens;
    var items := ChainRequest(ndx, k, i);
    RequestWellFormed(ndx, k, i);
    RequestRoom(ndx, k, i);
    RequestRead(BlobPrefix(c, b.goset.state), items);
    var wire := BipfCodec.Dumps(Bipf.List(items));
    pkt := b.chnkDmx.value + wire;
    n := |Bipf.Encoded(Bipf.List(items))|;
  }

  lemma RequestWellFormed(ndx: nat, k: nat, i: nat)
    requires ndx < 0x8000_0000 && k + 1 < 0x8000_0000 && i < 0x8000_0000_0000_0000
    ensures Bipf.WellFormed(Bipf.List(ChainRequest(ndx, k, i)))
  {
    var inner := [Bipf.Int(ndx), Bipf.Int(k + 1), Bipf.Int(i)];
    assert forall v :: v in inner ==> Bipf.WellFormed(v);
    assert Bipf.WellFormed(Bipf.List(inner));
  }

  lemma {:induction false} Pow256Grows(n: nat)
    requires n >= 7
    ensures Pow256(n) >= Pow256(7)
  {
    if n > 7 {
      Pow256Grows(n - 1);
    }
  }

  lemma ShortTag(v: nat)
    ensures v < 128 ==> Varint.EncodingLength(v) == 1
    ensures v < 128 * 128 ==> Varint.EncodingLength(v) <= 2
  {
    Varint.LengthAgrees(v);
    assert v < 128 * 128 ==> v / 128 < 128;
  }

  lemma IntRoom(i: nat)
    requires i < 0x8000_0000_0000_0000
    ensures Bipf.EncodingLength(Bipf.Int(i)) <= 9
  {
    hide Varint.EncodingLength;
    var n := Bipf.IntLength(i);
    Bipf.IntLengthMinimal(i);
    assert Pow256(4) == 0x1_0000_0000 && Pow256(7) == 0x100_0000_0000_0000;
    if n > 8 {
      Pow256Grows(n - 2);
    }
    ShortTag(n * 8);
  }

  lemma ThreeItems(u: Bipf.Value, v: Bipf.Value, w: Bipf.Value)
    ensures Bipf.ItemsLength([u, v, w]) == Bipf.EncodingLength(u) + Bipf.EncodingLength(v) + Bipf.EncodingLength(w)
  {
    hide Bipf.EncodingLength;
    assert [u, v, w][1..] == [v, w] && [v, w][1..] == [w] && [w][1..] == [];
    assert Bipf.ItemsLength([w]) == Bipf.EncodingLength(w);
    assert Bipf.ItemsLength([v, w]) == Bipf.EncodingLength(v) + Bipf.ItemsLength([w]);
  }

  lemma RequestRoom(ndx: nat, k: nat, i: nat)
    requires ndx < 0x8000_0000 && k + 1 < 0x8000_0000 && i < 0x8000_0000_0000_0000
    ensures |Bipf.Encoded(Bipf.List(ChainRequest(ndx, k, i)))| < 113
  {
    hide Varint.EncodingLength, Bipf.Encoded, Bipf.IntLength;
    IntRoom(ndx);
    IntRoom(k + 1);
    IntRoom(i);
    var inner := [Bipf.Int(ndx), Bipf.Int(k + 1), Bipf.Int(i)];
    ThreeItems(Bipf.Int(ndx), Bipf.Int(k + 1), Bipf.Int(i));
    ShortTag(Bipf.BodyLength(Bipf.List(inner)) * 8);
    var outer := ChainRequest(ndx, k, i);
    assert outer == [Bipf.List(inner)];
    assert Bipf.ItemsLength(outer) <= 29;
    ShortTag(Bipf.BodyLength(Bipf.List(outer)) * 8);
    RequestWellFormed(ndx, k, i);
    Bipf.LengthAgrees(Bipf.List(outer));
  }

  /** A record is as it was. */
  ghost predicate Keeps(x: S.Held, y: S.Held, k: nat) {
    k < |x.recs| && k < |y.recs| && y.recs[k] == x.recs[k] && Arrived(y.recs, y.pend, k) == Arrived(x.recs, x.pend, k)
  }

  lemma AdvancedKeeps(x: S.Held, y: S.Held, h: Bytes, pkt: Bytes, k: nat)
    requires Advanced(x, y, false, h, pkt) && k < |x.recs|
    ensures Keeps(x, y, k)
  {
    hide Arrived;
    assert AdvancedAt(x, y, k, false, h, pkt);
  }

  method GiveChunks(a: PubNode, f: Key, k: nat, pkt: Bytes, ghost c: Crypto, ghost authors: Feeds, ghost reserved: set<Bytes>) returns (out: seq<Bytes>)
    requires Good(a, c, authors, reserved) && a.role == InOut && Trusted(c, authors, pkt) && Slice(pkt, 0, 7) == BlobPrefix(c, a.goset.state)
    requires f in a.reps && k < |a.reps[f].recs| && |pkt| < 120
    modifies Footprint(a)
    ensures Good(a, c, authors, reserved) && a.goset.keys == old(a.goset.keys) && a.goset.state == old(a.goset.state) && f in a.reps
    ensures forall o :: o in Footprint(a) ==> o in old(Footprint(a)) || fresh(o)
    ensures ChunkAnswered(old(a.goset.keys), old(ShelfOf(a.reps)), pkt, out)
    ensures Keeps(old(HeldOf(a, f)), HeldOf(a, f), k)
  {
    hide PubNode.Valid, PubNode.GosetOk, PubNode.RequestsOk, Trusted, GosetTrusted, ChunkAnswered, PubNode.Takers, PubNode.Raises, BlobPrefix, Hash20, Advanced, Keeps, ShelfOf, HeldOf;
    ListensToBlobs(a, c, authors, reserved);
    WhatIsHeld(a, c, authors, reserved, f);
    ghost var x := HeldOf(a, f);
    ShelfIs(a, f);
    out := a.Rx(pkt, authors, reserved);
    ShelfIs(a, f);
    AdvancedKeeps(x, HeldOf(a, f), Hash20(c, pkt), pkt, k);
  }

  /** The first `n` chunks are the same. */
  ghost predicate SameSoFar(x: S.Held, y: S.Held, k: nat, n: nat) {
    && k < |x.recs| && k < |y.recs| && x.recs[k].entry == y.recs[k].entry
    && n <= |x.recs[k].side| && n <= |y.recs[k].side| && x.recs[k].side[..n] == y.recs[k].side[..n]
  }

  /** What one node answers is what the other expects. */
  lemma AnswerLinked(c: Crypto, x: S.Held, y: S.Held, k: nat, i: nat, h: Bytes, out: seq<Bytes>)
    requires Sound(c) && ToldAt(c, x.recs, x.pend) && ToldAt(c, y.recs, y.pend)
    requires Answers(x, k, i, out) && Expects(y, k, i, h) && SameSoFar(x, y, k, i)
    ensures Linked(c, h, out) && i + |out| <= |y.recs[k].side|
  {
    hide ChunkCount, Hash20, Arrived;
    assert SideOk(c, x.recs, x.pend, k) && SideOk(c, y.recs, y.pend, k);
    assert |x.recs[k].side| == |y.recs[k].side|;
    forall j: nat | j < |out| ensures |out[j]| == 120 && Hash20(c, out[j]) == Announced(h, out, j) {
      assert NextHeld(x, k, i + j, out[j]);
      ArrivedHash(c, x.recs, x.pend, k, i + j);
      if j > 0 {
        assert NextHeld(x, k, i + j - 1, out[j - 1]);
      } else if i > 0 {
        assert x.recs[k].side[..i][i - 1] == y.recs[k].side[..i][i - 1];
      }
    }
    if out != [] {
      assert NextHeld(x, k, i + |out| - 1, out[|out| - 1]);
    }
  }

  lemma SameSoon(x: S.Held, y: S.Held, z: S.Held, k: nat, i: nat, out: seq<Bytes>)
    requires Answers(x, k, i, out) && SameSoFar(x, y, k, i) && Extended(y, z, k, i, out)
    ensures SameSoFar(x, z, k, i + |out|)
  {
    hide Arrived;
    var m := i + |out|;
    if out != [] {
      assert NextHeld(x, k, m - 1, out[|out| - 1]);
    }
    forall j | 0 <= j < m ensures x.recs[k].side[j] == z.recs[k].side[j] {
      if j < i {
        assert x.recs[k].side[..i][j] == y.recs[k].side[..i][j];
      } else {
        assert NextHeld(x, k, i + (j - i), out[j - i]);
      }
    }
  }

  method AskAndGive(a: PubNode, b: PubNode, ndx: nat, f: Key, k: nat, i: nat, ghost c: Crypto, ghost authors: Feeds, ghost reserved: set<Bytes>) returns (out: seq<Bytes>)
    requires Pair(a, b, c, authors, reserved) && ndx < |b.goset.keys| && b.goset.keys[ndx] == f && f in a.reps && f in b.reps
    requires forall pkt {:trigger Trusted(c, authors, pkt)} :: Trusted(c, authors, pkt)
    requires k < |a.reps[f].recs| && k < |b.reps[f].recs| && i < 0x8000_0000_0000_0000
    modifies Footprint(a)
    ensures Pair(a, b, c, authors, reserved) && f in a.reps && unchanged(b, b.goset, S.Objects(b.reps))
    ensures forall o :: o in Footprint(a) ==> o in old(Footprint(a)) || fresh(o)
    ensures Answers(old(HeldOf(a, f)), k, i, out) && Keeps(old(HeldOf(a, f)), HeldOf(a, f), k)
  {
    hide Good, Trusted, Bipf.Decoded, ChunkAnswered, Keeps, BlobPrefix, Answers;
    ghost var keys, shelf := b.goset.keys, ShelfOf(a.reps);
    WhatIsHeld(a, c, authors, reserved, f);
    NumbersFit(b, c, authors, reserved, f, k);
    var pkt, n := RequestChain(b, ndx, k, i, c, authors, reserved);
    assert Good(a, c, authors, reserved);
    out := GiveChunks(a, f, k, pkt, c, authors, reserved);
    assert unchanged(b, b.goset, S.Objects(b.reps));
    ChainAnswered(keys, shelf, ndx, k, i, pkt, n, out);
  }

  /** One of two nodes hears chunks. */
  method HearInPair(a: PubNode, b: PubNode, f: Key, k: nat, i: nat, ghost h: Bytes, chunks: seq<Bytes>, ghost c: Crypto, ghost authors: Feeds, ghost reserved: set<Bytes>)
    requires Pair(a, b, c, authors, reserved) && f in b.reps && Expects(HeldOf(b, f), k, i, h) && Linked(c, h, chunks)
    requires forall pkt {:trigger Trusted(c, authors, pkt)} :: Trusted(c, authors, pkt)
    requires i + |chunks| <= |b.reps[f].recs[k].side| && forall j :: 0 <= j < |chunks| ==> Slice(chunks[j], 0, 7) !in b.dmxt
    modifies Footprint(b)
    ensures Pair(a, b, c, authors, reserved) && f in b.reps && b.dmxt == old(b.dmxt) && b.goset.keys == old(b.goset.keys)
    ensures forall o :: o in Footprint(b) ==> o in old(Footprint(b)) || fresh(o)
    ensures Extended(old(HeldOf(b, f)), HeldOf(b, f), k, i, chunks)
    ensures unchanged(a, S.Objects(a.reps))
  {
    hide Good, Trusted, Hash20, Linked, Arrived, Extended;
    HearChain(b, f, k, i, h, chunks, c, authors, reserved);
  }

  /** One exchange about one chain: the node that asks has as many chunks more as there
      are, three at most, and they are those of the other node. */
  method ChunkExchange(a: PubNode, b: PubNode, ndx: nat, f: Key, k: nat, i: nat, ghost h: Bytes, ghost c: Crypto, ghost authors: Feeds, ghost reserved: set<Bytes>) returns (out: seq<Bytes>)
    requires Pair(a, b, c, authors, reserved) && ndx < |b.goset.keys| && b.goset.keys[ndx] == f && f in a.reps && f in b.reps
    requires forall pkt {:trigger Trusted(c, authors, pkt)} :: Trusted(c, authors, pkt)
    requires Expects(HeldOf(b, f), k, i, h) && SameSoFar(HeldOf(a, f), HeldOf(b, f), k, i) && i < 0x8000_0000_0000_0000
    requires NonePrefixed(HeldOf(a, f), k, b.dmxt)
    modifies Footprint(a), Footprint(b)
    ensures Pair(a, b, c, authors, reserved) && f in a.reps && f in b.reps && b.dmxt == old(b.dmxt) && b.goset.keys == old(b.goset.keys)
    ensures forall o :: o in Footprint(a) ==> o in old(Footprint(a)) || fresh(o)
    ensures forall o :: o in Footprint(b) ==> o in old(Footprint(b)) || fresh(o)
    ensures Answers(old(HeldOf(a, f)), k, i, out) && Keeps(old(HeldOf(a, f)), HeldOf(a, f), k)
    ensures Extended(old(HeldOf(b, f)), HeldOf(b, f), k, i, out) && SameSoFar(old(HeldOf(a, f)), HeldOf(b, f), k, i + |out|)
  {
    hide Good, Trusted, Hash20, Linked, Arrived, Extended, Keeps, Answers, ToldAt, HeldOf, NonePrefixed, Pair, Footprint;
    GoodPair(a, b, c, authors, reserved);
    RoomOf(b, f, k, i, h);
    ghost var x, y := HeldOf(a, f), HeldOf(b, f);
    WhatIsHeld(a, c, authors, reserved, f);
    WhatIsHeld(b, c, authors, reserved, f);
    out := AskAndGive(a, b, ndx, f, k, i, c, authors, reserved);
    AnswerLinked(c, x, y, k, i, h, out);
    AnswersNotPrefixed(x, k, i, out, b.dmxt);
    HearInPair(a, b, f, k, i, h, out, c, authors, reserved);
    SameSoon(x, y, HeldOf(b, f), k, i, out);
  }

  /** No chunk of the record starts like a packet that the node listens to. */
  ghost predicate NonePrefixed(x: S.Held, k: nat, dmxt: map<Bytes, Handler>) {
    k < |x.recs| && forall j {:trigger x.recs[k].side[j]} :: 0 <= j < |x.recs[k].side| ==> Slice(x.recs[k].side[j], 0, 7) !in dmxt
  }

  lemma AnswersNotPrefixed(x: S.Held, k: nat, i: nat, out: seq<Bytes>, dmxt: map<Bytes, Handler>)
    requires Answers(x, k, i, out) && NonePrefixed(x, k, dmxt)
    ensures forall m :: 0 <= m < |out| ==> Slice(out[m], 0, 7) !in dmxt
  {
    hide Arrived, Slice;
    forall m | 0 <= m < |out| ensures Slice(out[m], 0, 7) !in dmxt {
      assert NextHeld(x, k, i + m, out[m]);
    }
  }

  lemma GoodPair(a: PubNode, b: PubNode, c: Crypto, authors: Feeds, reserved: set<Bytes>)
    requires Pair(a, b, c, authors, reserved)
    ensures Good(a, c, authors, reserved) && Good(b, c, authors, reserved) && Footprint(a) !! Footprint(b)
  {
  }

  lemma RoomOf(n: PubNode, f: Key, k: nat, i: nat, h: Bytes)
    requires f in n.reps && Expects(HeldOf(n, f), k, i, h)
    ensures k < |n.reps[f].recs| && HeldOf(n, f).recs == n.reps[f].recs
  {
  }

  lemma NumbersFit(n: PubNode, c: Crypto, authors: Feeds, reserved: set<Bytes>, f: Key, k: nat)
    requires Good(n, c, authors, reserved) && f in n.reps && k < |n.reps[f].recs|
    ensures |n.goset.keys| < 0x8000_0000 && k + 1 < 0x8000_0000
  {
    WhatIsHeld(n, c, authors, reserved, f);
    hide PubNode.Valid, PubNode.GosetOk, Listens, Replica.Valid;
    CountBelow(n.reps[f]);
  }

  // ------------------------------------------------------- fetching a chain

  /** What is to come of a chain that is not complete. */
  lemma StillExpected(c: Crypto, x: S.Held, k: nat)
    requires Sound(c) && ToldAt(c, x.recs, x.pend) && k < |x.recs| && Arrived(x.recs, x.pend, k) < |x.recs[k].side|
    ensures k + 1 in x.pend && Expects(x, k, Arrived(x.recs, x.pend, k), x.pend[k + 1].hptr)
  {
  }

  lemma ArrivedInSide(c: Crypto, x: S.Held, k: nat)
    requires Sound(c) && ToldAt(c, x.recs, x.pend) && k < |x.recs|
    ensures Arrived(x.recs, x.pend, k) <= |x.recs[k].side|
  {
    hide ChunkCount;
    assert SideOk(c, x.recs, x.pend, k);
  }

  /** What has arrived at both is the same, if there is no collision. */
  lemma SameAtFirst(c: Crypto, x: S.Held, y: S.Held, k: nat)
    requires Sound(c) && ToldAt(c, x.recs, x.pend) && ToldAt(c, y.recs, y.pend) && k < |x.recs| && k < |y.recs|
    requires x.recs[k].entry == y.recs[k].entry && NoCollision(c, x.recs, y.recs)
    ensures Alike(x, y, k)
  {
    hide ChunkCount, Hash20, NoCollision, Arrived;
    ArrivedInSide(c, x, k);
    ArrivedInSide(c, y, k);
    assert SideOk(c, x.recs, x.pend, k) && SideOk(c, y.recs, y.pend, k);
    var n := Min(Arrived(x.recs, x.pend, k), Arrived(y.recs, y.pend, k));
    forall j | 0 <= j < n ensures x.recs[k].side[j] == y.recs[k].side[j] {
      ArrivedAgree(c, x.recs, x.pend, y.recs, y.pend, k, j);
    }
  }

  lemma SameEntries(a: PubNode, b: PubNode, c: Crypto, authors: Feeds, reserved: set<Bytes>, f: Key, k: nat)
    requires Good(a, c, authors, reserved) && Good(b, c, authors, reserved) && f in a.reps && f in b.reps
    requires k < |a.reps[f].recs| && k < |b.reps[f].recs|
    ensures a.reps[f].recs[k].entry == b.reps[f].recs[k].entry
  {
    ShelfIsAuthors(a, c, authors, reserved, f);
    ShelfIsAuthors(b, c, authors, reserved, f);
  }

  /** How much of the side chain of record `k` has arrived. */
  ghost function Progress(x: S.Held, k: nat): nat {
    if k < |x.recs| then Arrived(x.recs, x.pend, k) else 0
  }

  /** What both have is the same. */
  ghost predicate Alike(x: S.Held, y: S.Held, k: nat) {
    SameSoFar(x, y, k, Min(Progress(x, k), Progress(y, k)))
  }

  lemma NotYet(c: Crypto, x: S.Held, y: S.Held, k: nat)
    requires Sound(c) && ToldAt(c, x.recs, x.pend) && ToldAt(c, y.recs, y.pend) && Alike(x, y, k)
    ensures k < |x.recs| && k < |y.recs| && Progress(x, k) <= |x.recs[k].side|
    ensures (k + 1 in y.pend && (k + 1 !in x.pend || y.pend[k + 1].cnr < x.pend[k + 1].cnr)) <==> Progress(y, k) < Progress(x, k)
    ensures Progress(y, k) < Progress(x, k) ==>
      y.pend[k + 1].cnr == Progress(y, k) && Expects(y, k, Progress(y, k), y.pend[k + 1].hptr) && SameSoFar(x, y, k, Progress(y, k))
  {
    hide ChunkCount, Hash20;
    assert SideOk(c, x.recs, x.pend, k) && SideOk(c, y.recs, y.pend, k);
  }

  lemma Fetched(x: S.Held, x': S.Held, y: S.Held, z: S.Held, k: nat, out: seq<Bytes>)
    requires Alike(x, y, k) && Progress(y, k) < Progress(x, k) && Answers(x, k, Progress(y, k), out) && Extended(y, z, k, Progress(y, k), out)
    requires SameSoFar(x, z, k, Progress(y, k) + |out|) && Progress(x, k) <= |x.recs[k].side| && Keeps(x, x', k)
    ensures Alike(x', z, k) && Progress(z, k) >= Min(Progress(x, k), Progress(y, k) + 3)
  {
    hide Arrived;
    var n := Min(Progress(x, k), Progress(z, k));
    assert x.recs[k].side[..n] == x.recs[k].side[..Progress(z, k)][..n] == z.recs[k].side[..Progress(z, k)][..n] == z.recs[k].side[..n];
  }

  /** If there is anything to fetch, it is asked for. */
  method FetchSome(a: PubNode, b: PubNode, ndx: nat, f: Key, k: nat, ghost c: Crypto, ghost authors: Feeds, ghost reserved: set<Bytes>)
    requires Pair(a, b, c, authors, reserved) && ndx < |b.goset.keys| && b.goset.keys[ndx] == f && f in a.reps && f in b.reps
    requires forall pkt {:trigger Trusted(c, authors, pkt)} :: Trusted(c, authors, pkt)
    requires Alike(HeldOf(a, f), HeldOf(b, f), k) && Progress(HeldOf(a, f), k) < 0x8000_0000_0000_0000 && NonePrefixed(HeldOf(a, f), k, b.dmxt)
    modifies Footprint(a), Footprint(b)
    ensures Pair(a, b, c, authors, reserved) && f in a.reps && f in b.reps && b.goset.keys == old(b.goset.keys) && b.dmxt == old(b.dmxt)
    ensures forall o :: o in Footprint(a) ==> o in old(Footprint(a)) || fresh(o)
    ensures forall o :: o in Footprint(b) ==> o in old(Footprint(b)) || fresh(o)
    ensures Keeps(old(HeldOf(a, f)), HeldOf(a, f), k) && Alike(HeldOf(a, f), HeldOf(b, f), k)
    ensures Progress(HeldOf(b, f), k) >= Min(Progress(HeldOf(a, f), k), old(Progress(HeldOf(b, f), k)) + 3)
  {
    hide Good, Trusted, Arrived, Extended, Answers, ToldAt, HeldOf, NonePrefixed, Pair, Footprint, Alike, SameSoFar, Keeps, Progress;
    ghost var x, y := HeldOf(a, f), HeldOf(b, f);
    GoodPair(a, b, c, authors, reserved);
    StatesAre(a, f);
    StatesAre(b, f);
    WhatIsHeld(a, c, authors, reserved, f);
    WhatIsHeld(b, c, authors, reserved, f);
    NotYet(c, x, y, k);
    KeepsSelf(x, k);
    var p, q := a.reps[f].state.pendSc, b.reps[f].state.pendSc;
    if k + 1 in q && (k + 1 !in p || q[k + 1].cnr < p[k + 1].cnr) {
      var out := ChunkExchange(a, b, ndx, f, k, q[k + 1].cnr, q[k + 1].hptr, c, authors, reserved);
      Fetched(x, HeldOf(a, f), y, HeldOf(b, f), k, out);
      KeepsProgress(x, HeldOf(a, f), k);
    }
  }

  lemma StatesAre(n: PubNode, f: Key)
    requires f in n.reps
    ensures HeldOf(n, f).pend == n.reps[f].state.pendSc && HeldOf(n, f).recs == n.reps[f].recs
  {
  }

  lemma KeepsSelf(x: S.Held, k: nat)
    ensures k < |x.recs| ==> Keeps(x, x, k)
  {
  }

  lemma KeepsProgress(x: S.Held, y: S.Held, k: nat)
    requires Keeps(x, y, k)
    ensures Progress(x, k) == Progress(y, k)
    ensures forall z {:trigger Keeps(z, x, k)} {:trigger Keeps(z, y, k)} :: Keeps(z, x, k) ==> Keeps(z, y, k)
    ensures forall dmxt {:trigger NonePrefixed(y, k, dmxt)} :: NonePrefixed(x, k, dmxt) ==> NonePrefixed(y, k, dmxt)
  {
    hide Arrived, Slice;
  }

  /** A node asks again and again for one side chain: after as many exchanges as the
      other node has threes of chunks more, it has all of these. */
  method FetchChain(a: PubNode, b: PubNode, ndx: nat, f: Key, k: nat, exchanges: nat, ghost c: Crypto, ghost authors: Feeds, ghost reserved: set<Bytes>)
    requires Pair(a, b, c, authors, reserved) && ndx < |b.goset.keys| && b.goset.keys[ndx] == f && f in a.reps && f in b.reps
    requires forall pkt {:trigger Trusted(c, authors, pkt)} :: Trusted(c, authors, pkt)
    requires k < |a.reps[f].recs| && k < |b.reps[f].recs| && Progress(HeldOf(a, f), k) < 0x8000_0000_0000_0000
    requires Sound(c) && NoCollision(c, a.reps[f].recs, b.reps[f].recs) && NonePrefixed(HeldOf(a, f), k, b.dmxt)
    requires Progress(HeldOf(a, f), k) <= Progress(HeldOf(b, f), k) + 3 * exchanges
    modifies Footprint(a), Footprint(b)
    ensures Pair(a, b, c, authors, reserved) && f in a.reps && f in b.reps && b.goset.keys == old(b.goset.keys)
    ensures Keeps(old(HeldOf(a, f)), HeldOf(a, f), k) && Alike(HeldOf(a, f), HeldOf(b, f), k)
    ensures Progress(HeldOf(b, f), k) >= Progress(HeldOf(a, f), k)
  {
    hide Good, Trusted, Hash20, Arrived, ToldAt, HeldOf, NonePrefixed, Pair, Footprint, Alike, Keeps, NoCollision, Progress;
    ghost var x, start := HeldOf(a, f), Progress(HeldOf(b, f), k);
    GoodPair(a, b, c, authors, reserved);
    StatesAre(a, f);
    StatesAre(b, f);
    WhatIsHeld(a, c, authors, reserved, f);
    WhatIsHeld(b, c, authors, reserved, f);
    SameEntries(a, b, c, authors, reserved, f, k);
    SameAtFirst(c, x, HeldOf(b, f), k);
    KeepsSelf(x, k);
    for j := 0 to exchanges
      invariant Pair(a, b, c, authors, reserved) && f in a.reps && f in b.reps && b.goset.keys == old(b.goset.keys) && b.dmxt == old(b.dmxt)
      invariant forall o :: o in Footprint(a) ==> o in old(Footprint(a)) || fresh(o)
      invariant forall o :: o in Footprint(b) ==> o in old(Footprint(b)) || fresh(o)
      invariant Keeps(x, HeldOf(a, f), k) && Alike(HeldOf(a, f), HeldOf(b, f), k) && NonePrefixed(HeldOf(a, f), k, b.dmxt)
      invariant Progress(HeldOf(a, f), k) == Progress(x, k) && Progress(HeldOf(b, f), k) >= Min(Progress(x, k), start + 3 * j)
    {
      ghost var was := HeldOf(a, f);
      FetchSome(a, b, ndx, f, k, c, authors, reserved);
      KeepsProgress(was, HeldOf(a, f), k);
    }
  }
}
