/** The frontier of a replica: what it knows about its log without reading it, and
    how the ingestion of an entry or a chunk changes log and frontier. */
module Frontier {
  import opened Basics
  import opened LogFormat
  import Varint

  /** A pending side chain: next chunk number, chunks still missing, the hash the
      next chunk must have, and where in the log it goes. */
  datatype Pend = Pend(cnr: nat, remain: nat, hptr: Bytes, pos: nat)

  datatype State = State(maxSeq: nat, maxPos: nat, prev: Bytes, pendSc: map<nat, Pend>)

  function Nam(fid: Bytes, seqn: nat, prev: Bytes): Bytes {
    PFX + fid + BE32(seqn) + prev
  }

  function Dmx(c: Crypto, nam: Bytes): Bytes
    requires Sound(c)
  {
    c.sha(nam)[..7]
  }

  /** How many chunks the side chain of an entry has; None if its length field does
      not end within the packet. */
  function ChunkCount(pkt: Bytes): (n: Option<nat>)
    requires |pkt| == 120
  {
    if pkt[7] != CHAIN20 then Some(0)
    else
      match Varint.Decoded(pkt, 8)
      case None => None
      case Some((contentLen, sz)) => Some((contentLen - (28 - sz) + 99) / 100)
  }

  /** The hash that chunk `j` of a record must have. */
  function Ptr(r: Rec, j: nat): Bytes
    requires |r.entry| == 120 && Chunks(r.side) && j <= |r.side|
  {
    if j == 0 then r.entry[36..56] else r.side[j - 1][100..]
  }

  /** The hash chain over the entries. */
  ghost function PrevOf(c: Crypto, fid: Bytes, recs: seq<Rec>): Bytes
    requires Sound(c) && |fid| == 32
  {
    if recs == [] then fid[..20]
    else
      var front := recs[..|recs| - 1];
      Hash20(c, Nam(fid, |recs|, PrevOf(c, fid, front)) + recs[|recs| - 1].entry)
  }

  /** How many chunks of record `k` have arrived. */
  ghost function Arrived(recs: seq<Rec>, pend: map<nat, Pend>, k: nat): nat
    requires k < |recs|
  {
    if k + 1 in pend then pend[k + 1].cnr else |recs[k].side|
  }

  /** What the frontier says of record `k` is true. */
  ghost predicate SideOk(c: Crypto, recs: seq<Rec>, pend: map<nat, Pend>, k: nat)
    requires Sound(c) && AreRecs(recs) && k < |recs|
  {
    var r := recs[k];
    && ChunkCount(r.entry) == Some(|r.side|)
    && (k + 1 in pend ==>
          var p := pend[k + 1];
          && p.cnr < |r.side| && p.remain == |r.side| - p.cnr
          && p.hptr == Ptr(r, p.cnr) && p.pos == Start(recs, k) + 120 * (p.cnr + 1))
    && (forall j :: 0 <= j < Arrived(recs, pend, k) ==> Hash20(c, r.side[j]) == Ptr(r, j))
  }

  /** Log, frontier and the list of records they stand for fit together. */
  ghost predicate Consistent(c: Crypto, fid: Bytes, recs: seq<Rec>, f: State, log: Bytes) {
    && Sound(c) && |fid| == 32 && AreRecs(recs) && Fits(recs)
    && log == LogOf(recs) && f.maxPos == |log|
    && f.maxSeq == |recs| && f.prev == PrevOf(c, fid, recs)
    && (forall s :: s in f.pendSc ==> 1 <= s <= |recs|)
    && (forall k {:trigger SideOk(c, recs, f.pendSc, k)} :: 0 <= k < |recs| ==> SideOk(c, recs, f.pendSc, k))
  }

  // ------------------------------------------------------------ an entry

  /** The chunks of a fresh record are zeros. */
  function Fresh(pkt: Bytes, n: nat): Rec {
    Rec(pkt, seq(n, i => Zeros(120)))
  }

  function AfterEntry(c: Crypto, fid: Bytes, f: State, pkt: Bytes, n: nat): State
    requires Sound(c) && |pkt| == 120
  {
    var s := f.maxSeq + 1;
    State(s, f.maxPos + 124 + 120 * n, Hash20(c, Nam(fid, s, f.prev) + pkt),
          if n > 0 then f.pendSc[s := Pend(0, n, pkt[36..56], f.maxPos + 120)] else f.pendSc)
  }

  lemma {:induction false} ConcatZeros(n: nat)
    ensures Concat(seq(n, i => Zeros(120))) == Zeros(120 * n)
  {
    var z: seq<Bytes> := seq(n, i => Zeros(120));
    if n > 0 {
      ConcatZeros(n - 1);
      assert z[..n - 1] == seq(n - 1, i => Zeros(120));
    }
  }

  /** A record joins: no earlier one moves. */
  lemma StartAppend(recs: seq<Rec>, r: Rec, k: nat)
    requires k <= |recs|
    ensures Start(recs + [r], k) == Start(recs, k)
  {
    assert (recs + [r])[..k] == recs[..k];
  }

  lemma SideKept(c: Crypto, recs: seq<Rec>, r: Rec, pend: map<nat, Pend>, more: map<nat, Pend>, k: nat)
    requires Sound(c) && AreRecs(recs) && AreRecs(recs + [r]) && k < |recs| && SideOk(c, recs, pend, k)
    requires (k + 1 in more <==> k + 1 in pend) && (k + 1 in pend ==> more[k + 1] == pend[k + 1])
    ensures SideOk(c, recs + [r], more, k)
  {
    StartAppend(recs, r, k);
  }

  lemma PrevAppend(c: Crypto, fid: Bytes, recs: seq<Rec>, r: Rec)
    requires Sound(c) && |fid| == 32
    ensures PrevOf(c, fid, recs + [r]) == Hash20(c, Nam(fid, |recs| + 1, PrevOf(c, fid, recs)) + r.entry)
  {
    hide Nam, Hash20;
    assert (recs + [r])[..|recs + [r]| - 1] == recs;
  }

  /** A record of any kind joins the log. */
  lemma RecordJoins(c: Crypto, fid: Bytes, recs: seq<Rec>, f: State, log: Bytes, r: Rec, pend: map<nat, Pend>)
    requires Consistent(c, fid, recs, f, log) && |r.entry| == 120 && Chunks(r.side) && |log| < MAX32
    requires forall s :: s in pend ==> s in f.pendSc || s == |recs| + 1
    requires forall s :: s in f.pendSc ==> s in pend && pend[s] == f.pendSc[s]
    requires SideOk(c, recs + [r], pend, |recs|)
    ensures var s := |recs| + 1;
      Consistent(c, fid, recs + [r],
                 State(s, f.maxPos + 124 + 120 * |r.side|, Hash20(c, Nam(fid, s, f.prev) + r.entry), pend),
                 log + r.entry + Concat(r.side) + BE32(|log|))
  {
    hide PrevOf, SideOk, LogOf, Concat, BE32, Hash20, Nam;
    var recs' := recs + [r];
    assert recs'[..|recs|] == recs;
    ConcatLength(r.side);
    BE32Length(|log|);
    LogUnfold(recs', |recs|);
    PrevAppend(c, fid, recs, r);
    assert log + r.entry + Concat(r.side) + BE32(|log|) == log + (r.entry + Concat(r.side) + BE32(|log|));
    forall k | 0 <= k < |recs'| ensures Start(recs', k) < MAX32 {
      StartAppend(recs, r, k);
      assert k == |recs| ==> recs[..k] == recs;
    }
    forall k | 0 <= k < |recs| ensures SideOk(c, recs', pend, k) {
      assert SideOk(c, recs, f.pendSc, k);
      SideKept(c, recs, r, f.pendSc, pend, k);
    }
  }

  lemma EntryKeeps(c: Crypto, fid: Bytes, recs: seq<Rec>, f: State, log: Bytes, pkt: Bytes, n: nat)
    requires Consistent(c, fid, recs, f, log) && |pkt| == 120 && ChunkCount(pkt) == Some(n)
    requires |log| < MAX32
    ensures Consistent(c, fid, recs + [Fresh(pkt, n)], AfterEntry(c, fid, f, pkt, n),
                       log + pkt + Zeros(120 * n) + BE32(|log|))
  {
    var r, f' := Fresh(pkt, n), AfterEntry(c, fid, f, pkt, n);
    ConcatZeros(n);
    StartAppend(recs, r, |recs|);
    assert recs[..|recs|] == recs;
    RecordJoins(c, fid, recs, f, log, r, f'.pendSc);
  }

  // ------------------------------------------------------------- a chunk

  function AfterChunk(f: State, s: nat, pkt: Bytes): State
    requires s in f.pendSc && |pkt| == 120
  {
    var p := f.pendSc[s];
    f.(pendSc := if p.remain <= 1 then f.pendSc - {s}
                 else f.pendSc[s := Pend(p.cnr + 1, p.remain - 1, pkt[100..], p.pos + 120)])
  }

  function WithChunk(recs: seq<Rec>, k: nat, j: nat, pkt: Bytes): seq<Rec>
    requires k < |recs| && j < |recs[k].side|
  {
    recs[k := recs[k].(side := recs[k].side[j := pkt])]
  }

  lemma {:induction false} PrevOfEntries(c: Crypto, fid: Bytes, a: seq<Rec>, b: seq<Rec>)
    requires Sound(c) && |fid| == 32 && |a| == |b| && forall k :: 0 <= k < |a| ==> a[k].entry == b[k].entry
    ensures PrevOf(c, fid, a) == PrevOf(c, fid, b)
    decreases |a|
  {
    if a != [] {
      PrevOfEntries(c, fid, a[..|a| - 1], b[..|b| - 1]);
    }
  }

  /** Bytes of a side chain that has not arrived may be anything. */
  lemma WindowIsFree(c: Crypto, fid: Bytes, recs: seq<Rec>, f: State, log: Bytes, s: nat, w: Bytes)
    requires Consistent(c, fid, recs, f, log) && s in f.pendSc && |w| == 120
    ensures 1 <= s <= |recs| && f.pendSc[s].cnr < |recs[s - 1].side| && f.pendSc[s].pos + 120 <= |log|
    ensures Consistent(c, fid, WithChunk(recs, s - 1, f.pendSc[s].cnr, w), f, Overwrite(log, f.pendSc[s].pos, w))
  {
    hide PrevOf, LogOf, SideOk;
    PendingPlace(c, recs, f.pendSc, s);
    var j := f.pendSc[s].cnr;
    var recs' := WithChunk(recs, s - 1, j, w);
    ChunkUpdate(recs, s - 1, j, w);
    PrevOfEntries(c, fid, recs, recs');
    forall k | 0 <= k < |recs'| ensures Start(recs', k) < MAX32 {
      StartStable(recs, recs', k);
    }
    forall k | 0 <= k < |recs'| ensures SideOk(c, recs', f.pendSc, k) {
      assert SideOk(c, recs, f.pendSc, k);
      SideFree(c, recs, f.pendSc, s, w, k);
    }
  }

  lemma PendingPlace(c: Crypto, recs: seq<Rec>, pend: map<nat, Pend>, s: nat)
    requires Sound(c) && AreRecs(recs) && s in pend && 1 <= s <= |recs| && SideOk(c, recs, pend, s - 1)
    ensures pend[s].cnr < |recs[s - 1].side| && pend[s].pos == Start(recs, s - 1) + 120 * (pend[s].cnr + 1)
  {
  }

  lemma SideFree(c: Crypto, recs: seq<Rec>, pend: map<nat, Pend>, s: nat, w: Bytes, k: nat)
    requires Sound(c) && AreRecs(recs) && s in pend && 1 <= s <= |recs| && pend[s].cnr < |recs[s - 1].side| && |w| == 120
    requires k < |recs| && SideOk(c, recs, pend, k) && AreRecs(WithChunk(recs, s - 1, pend[s].cnr, w))
    ensures SideOk(c, WithChunk(recs, s - 1, pend[s].cnr, w), pend, k)
  {
    hide LogOf, ChunkCount;
    StartStable(recs, WithChunk(recs, s - 1, pend[s].cnr, w), k);
  }

  lemma SideAfterChunk(c: Crypto, recs: seq<Rec>, f: State, s: nat, pkt: Bytes, k: nat)
    requires Sound(c) && AreRecs(recs) && s in f.pendSc && |pkt| == 120 && Hash20(c, pkt) == f.pendSc[s].hptr
    requires 1 <= s <= |recs| && f.pendSc[s].cnr < |recs[s - 1].side| && k < |recs|
    requires AreRecs(WithChunk(recs, s - 1, f.pendSc[s].cnr, pkt))
    requires SideOk(c, recs, f.pendSc, k) && SideOk(c, WithChunk(recs, s - 1, f.pendSc[s].cnr, pkt), f.pendSc, k)
    ensures SideOk(c, WithChunk(recs, s - 1, f.pendSc[s].cnr, pkt), AfterChunk(f, s, pkt).pendSc, k)
  {
    hide Concat, LogOf, Varint.Decoded, ChunkCount;
  }

  lemma ChunkKeeps(c: Crypto, fid: Bytes, recs: seq<Rec>, f: State, log: Bytes, s: nat, pkt: Bytes)
    requires Consistent(c, fid, recs, f, log) && s in f.pendSc && |pkt| == 120 && Hash20(c, pkt) == f.pendSc[s].hptr
    ensures 1 <= s <= |recs| && f.pendSc[s].cnr < |recs[s - 1].side| && f.pendSc[s].pos + 120 <= |log|
    ensures Consistent(c, fid, WithChunk(recs, s - 1, f.pendSc[s].cnr, pkt), AfterChunk(f, s, pkt), Overwrite(log, f.pendSc[s].pos, pkt))
  {
    hide PrevOf, LogOf, SideOk;
    WindowIsFree(c, fid, recs, f, log, s, pkt);
    var recs' := WithChunk(recs, s - 1, f.pendSc[s].cnr, pkt);
    forall k | 0 <= k < |recs'| ensures SideOk(c, recs', AfterChunk(f, s, pkt).pendSc, k) {
      assert SideOk(c, recs', f.pendSc, k);
      assert SideOk(c, recs, f.pendSc, k);
      SideAfterChunk(c, recs, f, s, pkt, k);
    }
  }
}
