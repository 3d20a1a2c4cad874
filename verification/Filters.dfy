/** The two filter banks of a node, as functions of the frontiers of its replicas. */
module Filters {
  import opened Basics
  import opened LogFormat
  import opened Frontier

  /** What a packet that starts with an armed prefix is given to. */
  datatype Handler = GOsetMsg | WantMsg | ChunkMsg | Entry(fid: Bytes, seqn: nat)

  /** Which chunk of which side chain is waited for. */
  datatype Aux = Aux(fid: Bytes, seqn: nat, cnr: nat)

  type Fronts = map<Bytes, State>

  function DmxOf(c: Crypto, fid: Bytes, f: State): Bytes
    requires Sound(c)
  {
    Dmx(c, Nam(fid, f.maxSeq + 1, f.prev))
  }

  // ------------------------------------------------------- entry filters

  /** One armed prefix for each feed, for its next entry, and no other. */
  ghost predicate EntryFilters(c: Crypto, fronts: Fronts, dmxt: map<Bytes, Handler>)
    requires Sound(c)
  {
    && (forall f {:trigger fronts[f]} {:trigger f in fronts} :: f in fronts ==>
          DmxOf(c, f, fronts[f]) in dmxt && dmxt[DmxOf(c, f, fronts[f])] == Entry(f, fronts[f].maxSeq + 1))
    && (forall d {:trigger dmxt[d]} {:trigger d in dmxt} :: d in dmxt && dmxt[d].Entry? ==>
          dmxt[d].fid in fronts && d == DmxOf(c, dmxt[d].fid, fronts[dmxt[d].fid]))
  }

  /** `d` is not the prefix of another feed, nor one of the node's own. */
  ghost predicate Free(c: Crypto, fronts: Fronts, dmxt: map<Bytes, Handler>, fid: Bytes, d: Bytes)
    requires Sound(c)
  {
    && (forall g {:trigger fronts[g]} :: g in fronts && g != fid ==> DmxOf(c, g, fronts[g]) != d)
    && (d in dmxt ==> dmxt[d].Entry?)
  }

  /** A feed goes on to its next entry, or joins. */
  lemma EntryMoves(c: Crypto, fronts: Fronts, dmxt: map<Bytes, Handler>, fid: Bytes, f: State)
    requires Sound(c) && EntryFilters(c, fronts, dmxt) && Free(c, fronts, dmxt, fid, DmxOf(c, fid, f))
    ensures var rest := if fid in fronts then dmxt - {DmxOf(c, fid, fronts[fid])} else dmxt;
      EntryFilters(c, fronts[fid := f], rest[DmxOf(c, fid, f) := Entry(fid, f.maxSeq + 1)])
  {
    hide DmxOf;
  }

  /** Prefixes that belong to no feed come and go without harm. */
  lemma OthersComeAndGo(c: Crypto, fronts: Fronts, dmxt: map<Bytes, Handler>, d: Bytes, h: Handler)
    requires Sound(c) && EntryFilters(c, fronts, dmxt) && !h.Entry?
    requires forall g {:trigger fronts[g]} :: g in fronts ==> DmxOf(c, g, fronts[g]) != d
    ensures EntryFilters(c, fronts, dmxt[d := h]) && EntryFilters(c, fronts, dmxt - {d})
  {
    hide DmxOf;
  }

  // ------------------------------------------------------- chunk filters

  predicate Has(chkt: map<Bytes, set<Aux>>, h: Bytes, a: Aux) {
    h in chkt && a in chkt[h]
  }

  /** Side chain `a.seqn` of feed `a.fid` waits for chunk `a.cnr`, whose hash is `h`. */
  ghost predicate Pending(fronts: Fronts, h: Bytes, a: Aux) {
    && a.fid in fronts && a.seqn in fronts[a.fid].pendSc
    && fronts[a.fid].pendSc[a.seqn].cnr == a.cnr && fronts[a.fid].pendSc[a.seqn].hptr == h
  }

  ghost predicate ChunkFilters(fronts: Fronts, chkt: map<Bytes, set<Aux>>) {
    && (forall h, a {:trigger Has(chkt, h, a)} {:trigger Pending(fronts, h, a)} :: Has(chkt, h, a) <==> Pending(fronts, h, a))
    && (forall h :: h in chkt ==> chkt[h] != {})
  }

  function Armed(chkt: map<Bytes, set<Aux>>, h: Bytes, a: Aux): map<Bytes, set<Aux>> {
    chkt[h := if h in chkt then chkt[h] + {a} else {a}]
  }

  function Disarmed(chkt: map<Bytes, set<Aux>>, h: Bytes, a: Aux): map<Bytes, set<Aux>> {
    if h !in chkt then chkt
    else if chkt[h] - {a} == {} then chkt - {h}
    else chkt[h := chkt[h] - {a}]
  }

  lemma HasArmed(chkt: map<Bytes, set<Aux>>, h: Bytes, a: Aux)
    ensures forall g, b {:trigger Has(Armed(chkt, h, a), g, b)} :: Has(Armed(chkt, h, a), g, b) <==> Has(chkt, g, b) || (g == h && b == a)
  {
  }

  lemma HasDisarmed(chkt: map<Bytes, set<Aux>>, h: Bytes, a: Aux)
    ensures forall g, b {:trigger Has(Disarmed(chkt, h, a), g, b)} :: Has(Disarmed(chkt, h, a), g, b) <==> Has(chkt, g, b) && !(g == h && b == a)
  {
    if h in chkt {
      assert forall b :: b in chkt[h] - {a} <==> b in chkt[h] && b != a;
    }
  }

  /** A new entry opens at most one side chain. */
  lemma ChainOpens(fronts: Fronts, chkt: map<Bytes, set<Aux>>, fid: Bytes, f: State, s: nat)
    requires ChunkFilters(fronts, chkt)
    requires var was := if fid in fronts then fronts[fid].pendSc else map[];
      s !in was && forall t :: t in f.pendSc <==> t in was || (t == s && s in f.pendSc)
    requires forall t :: t in f.pendSc && t != s ==> fid in fronts && t in fronts[fid].pendSc && f.pendSc[t] == fronts[fid].pendSc[t]
    ensures ChunkFilters(fronts[fid := f], if s in f.pendSc then Armed(chkt, f.pendSc[s].hptr, Aux(fid, s, f.pendSc[s].cnr)) else chkt)
  {
    var fronts' := fronts[fid := f];
    var chkt' := if s in f.pendSc then Armed(chkt, f.pendSc[s].hptr, Aux(fid, s, f.pendSc[s].cnr)) else chkt;
    if s in f.pendSc {
      HasArmed(chkt, f.pendSc[s].hptr, Aux(fid, s, f.pendSc[s].cnr));
    }
    forall h, a ensures Has(chkt', h, a) <==> Pending(fronts', h, a) {
      assert Has(chkt, h, a) <==> Pending(fronts, h, a);
    }
  }

  /** A chain goes on to its next chunk, or is complete. */
  lemma ChainMoves(fronts: Fronts, chkt: map<Bytes, set<Aux>>, fid: Bytes, s: nat, pkt: Bytes)
    requires ChunkFilters(fronts, chkt) && |pkt| == 120 && fid in fronts && s in fronts[fid].pendSc
    ensures var f, f', p := fronts[fid], AfterChunk(fronts[fid], s, pkt), fronts[fid].pendSc[s];
      var rest := Disarmed(chkt, p.hptr, Aux(fid, s, p.cnr));
      ChunkFilters(fronts[fid := f'], if s in f'.pendSc then Armed(rest, f'.pendSc[s].hptr, Aux(fid, s, p.cnr + 1)) else rest)
  {
    var f, f', p := fronts[fid], AfterChunk(fronts[fid], s, pkt), fronts[fid].pendSc[s];
    var fronts' := fronts[fid := f'];
    var rest := Disarmed(chkt, p.hptr, Aux(fid, s, p.cnr));
    HasDisarmed(chkt, p.hptr, Aux(fid, s, p.cnr));
    var chkt' := rest;
    if s in f'.pendSc {
      HasArmed(rest, f'.pendSc[s].hptr, Aux(fid, s, p.cnr + 1));
      chkt' := Armed(rest, f'.pendSc[s].hptr, Aux(fid, s, p.cnr + 1));
    }
    forall h, a ensures Has(chkt', h, a) <==> Pending(fronts', h, a) {
      assert Has(chkt, h, a) <==> Pending(fronts, h, a);
    }
  }

  /** The front after a chunk reached every side chain of the feed that waits for its
      hash, but for those in `todo`. */
  function AllAfterChunk(fid: Bytes, f: State, h: Bytes, pkt: Bytes, todo: set<Aux>): State
    requires |pkt| == 120
  {
    f.(pendSc := map s | s in f.pendSc && !(Reached(fid, f, h, todo, s) && f.pendSc[s].remain <= 1)
                     :: if Reached(fid, f, h, todo, s)
                        then Pend(f.pendSc[s].cnr + 1, if f.pendSc[s].remain <= 1 then 0 else f.pendSc[s].remain - 1, pkt[100..], f.pendSc[s].pos + 120)
                        else f.pendSc[s])
  }

  predicate Reached(fid: Bytes, f: State, h: Bytes, todo: set<Aux>, s: nat)
    requires s in f.pendSc
  {
    f.pendSc[s].hptr == h && Aux(fid, s, f.pendSc[s].cnr) !in todo
  }

  lemma OneReached(fid: Bytes, f: State, h: Bytes, pkt: Bytes, todo: set<Aux>, a: Aux)
    requires |pkt| == 120 && a in todo && a.fid == fid
    requires a.seqn in f.pendSc && f.pendSc[a.seqn].hptr == h && f.pendSc[a.seqn].cnr == a.cnr
    ensures a.seqn in AllAfterChunk(fid, f, h, pkt, todo).pendSc
    ensures AllAfterChunk(fid, f, h, pkt, todo - {a}) == AfterChunk(AllAfterChunk(fid, f, h, pkt, todo), a.seqn, pkt)
  {
    forall s | s in f.pendSc ensures Reached(fid, f, h, todo - {a}, s) <==> Reached(fid, f, h, todo, s) || s == a.seqn {
    }
    var x, y := AllAfterChunk(fid, f, h, pkt, todo - {a}).pendSc, AfterChunk(AllAfterChunk(fid, f, h, pkt, todo), a.seqn, pkt).pendSc;
    assert x.Keys == y.Keys;
    assert x == y;
  }

  lemma OtherUntouched(fid: Bytes, f: State, h: Bytes, pkt: Bytes, todo: set<Aux>, a: Aux)
    requires |pkt| == 120 && a.fid != fid
    ensures AllAfterChunk(fid, f, h, pkt, todo - {a}) == AllAfterChunk(fid, f, h, pkt, todo)
  {
  }

  /** The records of the feed after that. */
  function AllRecs(fid: Bytes, f: State, recs: seq<Rec>, h: Bytes, pkt: Bytes, todo: set<Aux>): (r: seq<Rec>)
    ensures |r| == |recs|
  {
    seq(|recs|, k requires 0 <= k < |recs| => FilledRec(fid, f, recs[k], h, pkt, todo, k))
  }

  function FilledRec(fid: Bytes, f: State, rec: Rec, h: Bytes, pkt: Bytes, todo: set<Aux>, k: nat): Rec {
    if k + 1 in f.pendSc && Reached(fid, f, h, todo, k + 1) && f.pendSc[k + 1].cnr < |rec.side|
    then rec.(side := rec.side[f.pendSc[k + 1].cnr := pkt]) else rec
  }

  lemma OneRecReached(fid: Bytes, f: State, recs: seq<Rec>, h: Bytes, pkt: Bytes, todo: set<Aux>, a: Aux)
    requires a in todo && a.fid == fid && 1 <= a.seqn <= |recs|
    requires a.seqn in f.pendSc && f.pendSc[a.seqn].hptr == h && f.pendSc[a.seqn].cnr == a.cnr
    requires a.cnr < |AllRecs(fid, f, recs, h, pkt, todo)[a.seqn - 1].side|
    ensures AllRecs(fid, f, recs, h, pkt, todo - {a}) == WithChunk(AllRecs(fid, f, recs, h, pkt, todo), a.seqn - 1, a.cnr, pkt)
  {
    var x, y := AllRecs(fid, f, recs, h, pkt, todo - {a}), WithChunk(AllRecs(fid, f, recs, h, pkt, todo), a.seqn - 1, a.cnr, pkt);
    forall k | 0 <= k < |recs| ensures x[k] == y[k] {
      assert k + 1 in f.pendSc ==> (Reached(fid, f, h, todo - {a}, k + 1) <==> Reached(fid, f, h, todo, k + 1) || k + 1 == a.seqn);
    }
  }

  lemma OtherRecsUntouched(fid: Bytes, f: State, recs: seq<Rec>, h: Bytes, pkt: Bytes, todo: set<Aux>, a: Aux)
    requires a.fid != fid
    ensures AllRecs(fid, f, recs, h, pkt, todo - {a}) == AllRecs(fid, f, recs, h, pkt, todo)
  {
  }
}
