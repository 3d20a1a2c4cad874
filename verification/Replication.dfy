/** What replicas promise beyond one call: they survive crashes, they follow their
    author and nobody else, and a complete one is the author's log byte by byte. */
module Replication {
  import opened Basics
  import opened LogFormat
  import opened Frontier
  import opened Writing
  import opened Replica
  import Varint

  // ------------------------------------------------------------- crashes

  /** A crash in the ingestion of an entry, after its 120 bytes are in the file and
      before the frontier is replaced: the restarted replica is in the state of one
      that did not crash. `kept` bytes of the record were written. */
  method RestartCompletesEntry(a: Replica, pkt: Bytes, kept: nat) returns (b: Replica)
    requires a.Valid() && !a.isAuthor && Sound(a.crypto) && a.Acceptable(pkt, a.state.maxSeq + 1)
    requires 120 <= kept <= 124 + 120 * ChunkCount(pkt).value
    modifies a
    ensures fresh(b) && a.Valid() && b.Valid() && b.crypto == a.crypto && b.fid == a.fid
    ensures a.recs == old(a.recs) + [Fresh(pkt, ChunkCount(pkt).value)]
    ensures b.log == a.log && b.state == a.state && b.disk == a.disk && b.recs == a.recs
  {
    hide Consistent, ChunkCount, Dmx, BE32, Nam;
    a.EntryNeeds();
    BE32Length(|a.log|);
    var n := ChunkCount(pkt).value;
    ghost var log, rest := a.log, (pkt + Zeros(120 * n) + BE32(|a.log|))[..kept];
    var torn := a.log + (pkt + Zeros(120 * n) + BE32(|a.log|))[..kept];
    RestOfRecord(log, pkt, Zeros(120 * n) + BE32(|log|), kept);
    assert pkt + Zeros(120 * n) + BE32(|a.log|) == pkt + (Zeros(120 * n) + BE32(|log|));
    b := new Replica.Existing(a.crypto, a.fid, false, torn, a.disk, a.recs);
    var ok := b.Recover();
    assert b.log == log + pkt + Zeros(120 * n) + BE32(|log|);
    var r := a.IngestEntry(pkt, a.state.maxSeq + 1);
  }

  lemma RestOfRecord(log: Bytes, pkt: Bytes, room: Bytes, kept: nat)
    requires |pkt| == 120 && 120 <= kept <= 120 + |room|
    ensures var torn := log + (pkt + room)[..kept];
      && torn[..|log|] == log && torn[|log|..|log| + 120] == pkt
      && Slice(torn, |log|, 120) == pkt && Slice(pkt, 0, 7) == pkt[..7]
  {
    var torn := log + (pkt + room)[..kept];
    assert (pkt + room)[..kept][..120] == pkt;
    assert torn[|log|..|log| + 120] == (pkt + room)[..kept][..120];
  }

  /** A crash of the author: what stands beyond the frontier is given up. */
  method RestartDropsWrite(a: Replica, more: Bytes) returns (b: Replica)
    requires a.Valid() && a.isAuthor && a.state.maxSeq + 1 < MAX32
    ensures fresh(b) && b.Valid() && b.log == a.log && b.state == a.state && b.recs == a.recs
  {
    hide Consistent;
    a.EntryNeeds();
    assert (a.log + more)[..|a.log|] == a.log;
    b := new Replica.Existing(a.crypto, a.fid, true, a.log + more, a.disk, a.recs);
    var ok := b.Recover();
  }

  lemma WindowTwice(recs: seq<Rec>, k: nat, j: nat, log: Bytes, pos: nat, w: Bytes, pkt: Bytes)
    requires k < |recs| && j < |recs[k].side| && pos + 120 <= |log| && |w| == |pkt| == 120
    ensures WithChunk(WithChunk(recs, k, j, w), k, j, pkt) == WithChunk(recs, k, j, pkt)
    ensures Overwrite(Overwrite(log, pos, w), pos, pkt) == Overwrite(log, pos, pkt)
  {
    assert recs[k].side[j := w][j := pkt] == recs[k].side[j := pkt];
    assert WithChunk(WithChunk(recs, k, j, w), k, j, pkt) == WithChunk(recs, k, j, pkt);
  }

  /** A crash between the writing of a chunk and the replacement of the frontier:
      the bytes `w` are in the place of the chunk. The restarted replica answers for
      everything that had arrived, and taking the chunk again gives the state of a
      replica that did not crash. */
  method RestartRepeatsChunk(a: Replica, pkt: Bytes, s: nat, w: Bytes) returns (b: Replica)
    requires a.Valid() && s in a.state.pendSc && |pkt| == |w| == 120
    requires Sound(a.crypto) && a.state.pendSc[s].hptr == Hash20(a.crypto, pkt)
    modifies a
    ensures fresh(b) && a.Valid() && b.Valid() && b.crypto == a.crypto && b.fid == a.fid
    ensures s in old(a.state).pendSc && a.state == AfterChunk(old(a.state), s, pkt)
    ensures b.log == a.log && b.state == a.state && b.disk == a.disk && b.recs == a.recs
  {
    hide Consistent, ChunkCount;
    a.EntryNeeds();
    var p := a.state.pendSc[s];
    WindowIsFree(a.crypto, a.fid, a.recs, a.state, a.log, s, w);
    WindowTwice(a.recs, s - 1, p.cnr, a.log, p.pos, w, pkt);
    ghost var recs' := WithChunk(a.recs, s - 1, p.cnr, w);
    var torn := Overwrite(a.log, p.pos, w);
    assert torn[..a.state.maxPos] == torn;
    b := new Replica.Existing(a.crypto, a.fid, a.isAuthor, torn, a.disk, recs');
    var ok := b.Recover();
    var rb := b.IngestChunk(pkt, s);
    var ra := a.IngestChunk(pkt, s);
  }

  // ----------------------------------------------------- write, then read

  lemma AuthorsRecordReads(c: Crypto, content: Bytes, nam: Bytes, sig: Bytes, got: Option<Bytes>)
    requires Sound(c) && |Varint.Encoded(|content|)| <= 20 && |sig| == 64
    requires ReadFinds(Rec(Message(c, content, nam) + sig, SideOf(c, content)), got)
    ensures got == Some(content)
  {
    EntryHeader(c, content, nam, sig);
    ReadsBack(c, content, nam, sig);
  }

  /** What was written is read, whatever its length. */
  method WriteThenRead(a: Replica, content: Bytes, sign: Bytes -> Bytes) returns (seqn: Option<nat>, got: Option<Bytes>)
    requires a.Valid()
    modifies a
    ensures a.Valid() && Sound(a.crypto)
    ensures if old(a.Writable(content, sign)) then seqn == Some(old(|a.recs|) + 1) && got == Some(content) && |a.recs| == old(|a.recs|) + 1
            else seqn == None && a.recs == old(a.recs) && a.log == old(a.log)
  {
    hide Consistent, ChunkCount, ReadFinds, Message, SideOf;
    a.EntryNeeds();
    ghost var nam := a.NextNam();
    seqn := a.Write(content, sign);
    got := None;
    if seqn.Some? {
      got := a.Read(seqn.value);
      MessageLength(a.crypto, content, nam);
      AuthorsRecordReads(a.crypto, content, nam, sign(nam + Message(a.crypto, content, nam)), got);
    }
  }

  /** An entry that is not the head of a side chain (its type is not 1) takes no more
      room than itself and a back pointer. One of type 0 carries 48 bytes. */
  method TakePlain(a: Replica, pkt: Bytes) returns (got: Option<Bytes>)
    requires a.Valid() && Sound(a.crypto) && |pkt| == 120 && pkt[7] != 1 && a.Authentic(pkt)
    requires a.state.maxSeq + 1 < MAX32 && a.state.maxPos < MAX32
    modifies a
    ensures a.Valid() && a.recs == old(a.recs) + [Rec(pkt, [])] && a.log == old(a.log) + pkt + BE32(|old(a.log)|)
    ensures a.state.maxSeq == old(a.state.maxSeq) + 1 && a.state.maxPos == old(a.state.maxPos) + 124 && a.state.pendSc == old(a.state.pendSc)
    ensures got == if pkt[7] == 0 then Some(pkt[8..56]) else None
  {
    hide Consistent, Dmx, Nam, BE32;
    a.EntryNeeds();
    var r := a.IngestEntry(pkt, a.state.maxSeq + 1);
    a.EntryNeeds();
    assert Fresh(pkt, 0) == Rec(pkt, []);
    assert old(a.log) + pkt + [] + BE32(|old(a.log)|) == old(a.log) + pkt + BE32(|old(a.log)|);
    got := a.Read(a.state.maxSeq);
  }

  lemma MessageLength(c: Crypto, content: Bytes, nam: Bytes)
    requires Sound(c) && |Varint.Encoded(|content|)| <= 20
    ensures |Message(c, content, nam)| == 56
  {
  }

  // --------------------------------------------------------- authenticity

  /** `msg` with signature `sig` belongs to record `k` of the author. */
  ghost predicate Signed(c: Crypto, fid: Bytes, author: seq<Rec>, k: nat, sig: Bytes, msg: Bytes)
    requires Sound(c) && |fid| == 32 && AreRecs(author)
  {
    && k < |author| && sig == author[k].entry[56..]
    && msg == Nam(fid, k + 1, PrevOf(c, fid, author[..k])) + author[k].entry[..56]
  }

  /** In this packet, the signature check accepts only what the author has signed so
      far. */
  ghost predicate Genuine(c: Crypto, fid: Bytes, author: seq<Rec>, pkt: Bytes)
    requires Sound(c) && |fid| == 32 && AreRecs(author)
  {
    |pkt| == 120 ==>
      forall msg {:trigger c.verify(fid, pkt[56..], msg)} :: c.verify(fid, pkt[56..], msg) ==>
        exists k {:trigger Signed(c, fid, author, k, pkt[56..], msg)} :: Signed(c, fid, author, k, pkt[56..], msg)
  }

  /** The same entries, as far as they go. */
  ghost predicate Follows(recs: seq<Rec>, author: seq<Rec>) {
    |recs| <= |author| && forall k :: 0 <= k < |recs| ==> recs[k].entry == author[k].entry
  }

  lemma PrevLength(c: Crypto, fid: Bytes, recs: seq<Rec>)
    requires Sound(c) && |fid| == 32
    ensures |PrevOf(c, fid, recs)| == 20
  {
  }

  lemma NamInjective(fid: Bytes, s: nat, prev: Bytes, tail: Bytes, fid': Bytes, s': nat, prev': Bytes, tail': Bytes)
    requires |fid| == |fid'| == 32 && |prev| == |prev'| == 20 && s < MAX32 && s' < MAX32
    requires Nam(fid, s, prev) + tail == Nam(fid', s', prev') + tail'
    ensures fid == fid' && s == s' && prev == prev' && tail == tail'
  {
    hide BE32;
    BE32Length(s);
    BE32Length(s');
    var a, b := Nam(fid, s, prev) + tail, Nam(fid', s', prev') + tail';
    assert a[10..42] == fid && b[10..42] == fid';
    assert a[42..46] == BE32(s) && b[42..46] == BE32(s');
    assert a[46..66] == prev && b[46..66] == prev';
    assert a[66..] == tail && b[66..] == tail';
    BE32Injective(s, s');
  }

  lemma Halves(a: Bytes, b: Bytes)
    requires |a| == |b| == 120 && a[..56] == b[..56] && a[56..] == b[56..]
    ensures a == b
  {
    assert a == a[..56] + a[56..] && b == b[..56] + b[56..];
  }

  /** An entry that a replica takes is the author's next one. */
  lemma AcceptedIsNext(c: Crypto, fid: Bytes, author: seq<Rec>, recs: seq<Rec>, pkt: Bytes)
    requires Sound(c) && |fid| == 32 && AreRecs(author) && Genuine(c, fid, author, pkt)
    requires |author| < MAX32 && |recs| + 1 < MAX32 && |pkt| == 120
    requires c.verify(fid, pkt[56..], Nam(fid, |recs| + 1, PrevOf(c, fid, recs)) + pkt[..56])
    ensures |recs| < |author| && pkt == author[|recs|].entry
    ensures PrevOf(c, fid, recs) == PrevOf(c, fid, author[..|recs|])
  {
    hide PrevOf, Nam, Signed;
    var msg := Nam(fid, |recs| + 1, PrevOf(c, fid, recs)) + pkt[..56];
    var k: nat :| Signed(c, fid, author, k, pkt[56..], msg);
    SignedIsNext(c, fid, author, recs, k, pkt);
  }

  lemma SignedIsNext(c: Crypto, fid: Bytes, author: seq<Rec>, recs: seq<Rec>, k: nat, pkt: Bytes)
    requires Sound(c) && |fid| == 32 && AreRecs(author)
    requires |author| < MAX32 && |recs| + 1 < MAX32 && |pkt| == 120
    requires Signed(c, fid, author, k, pkt[56..], Nam(fid, |recs| + 1, PrevOf(c, fid, recs)) + pkt[..56])
    ensures k == |recs| < |author| && pkt == author[k].entry
    ensures PrevOf(c, fid, recs) == PrevOf(c, fid, author[..k])
  {
    hide PrevOf, Nam;
    PrevLength(c, fid, recs);
    PrevLength(c, fid, author[..k]);
    NamInjective(fid, |recs| + 1, PrevOf(c, fid, recs), pkt[..56], fid, k + 1, PrevOf(c, fid, author[..k]), author[k].entry[..56]);
    Halves(pkt, author[k].entry);
  }

  lemma FollowsNext(recs: seq<Rec>, author: seq<Rec>, r: Rec)
    requires Follows(recs, author) && |recs| < |author| && r.entry == author[|recs|].entry
    ensures Follows(recs + [r], author)
  {
  }

  // ------------------------------------------------------------ completion

  /** No two different packets among the chunks of two logs have the same hash. */
  ghost predicate NoCollision(c: Crypto, a: seq<Rec>, b: seq<Rec>)
    requires Sound(c)
  {
    forall k, i, j {:trigger a[k].side[i], b[k].side[j]} ::
      0 <= k < |a| && k < |b| && 0 <= i < |a[k].side| && 0 <= j < |b[k].side| && Hash20(c, a[k].side[i]) == Hash20(c, b[k].side[j])
      ==> a[k].side[i] == b[k].side[j]
  }

  lemma ArrivedHash(c: Crypto, recs: seq<Rec>, pend: map<nat, Pend>, k: nat, j: nat)
    requires Sound(c) && AreRecs(recs) && k < |recs| && SideOk(c, recs, pend, k) && j < Arrived(recs, pend, k)
    ensures j < |recs[k].side| && Hash20(c, recs[k].side[j]) == Ptr(recs[k], j)
  {
  }

  lemma NoCollisionAt(c: Crypto, a: seq<Rec>, b: seq<Rec>, k: nat, j: nat)
    requires Sound(c) && NoCollision(c, a, b) && k < |a| && k < |b| && j < |a[k].side| && j < |b[k].side|
    ensures Hash20(c, a[k].side[j]) == Hash20(c, b[k].side[j]) ==> a[k].side[j] == b[k].side[j]
  {
  }

  /** Whatever has arrived at two replicas of the same entries is the same. */
  lemma {:induction false} ArrivedAgree(c: Crypto, a: seq<Rec>, pa: map<nat, Pend>, b: seq<Rec>, pb: map<nat, Pend>, k: nat, j: nat)
    requires Sound(c) && AreRecs(a) && AreRecs(b) && k < |a| && k < |b| && a[k].entry == b[k].entry && NoCollision(c, a, b)
    requires SideOk(c, a, pa, k) && SideOk(c, b, pb, k) && j < Arrived(a, pa, k) && j < Arrived(b, pb, k)
    ensures j < |a[k].side| && j < |b[k].side| && a[k].side[j] == b[k].side[j]
  {
    hide SideOk, NoCollision, Arrived;
    ArrivedHash(c, a, pa, k, j);
    ArrivedHash(c, b, pb, k, j);
    if j > 0 {
      ArrivedAgree(c, a, pa, b, pb, k, j - 1);
    }
    NoCollisionAt(c, a, b, k, j);
  }

  /** Two complete logs with the same entries are identical, byte by byte. */
  lemma CompleteIsIdentical(c: Crypto, fid: Bytes, a: seq<Rec>, fa: State, la: Bytes, b: seq<Rec>, fb: State, lb: Bytes)
    requires Consistent(c, fid, a, fa, la) && Consistent(c, fid, b, fb, lb)
    requires fa.pendSc == map[] && fb.pendSc == map[] && Follows(a, b) && |a| == |b| && NoCollision(c, a, b)
    ensures a == b && la == lb && fa == fb
  {
    hide PrevOf, LogOf, Varint.Decoded;
    forall k | 0 <= k < |a| ensures a[k] == b[k] {
      assert SideOk(c, a, fa.pendSc, k) && SideOk(c, b, fb.pendSc, k);
      forall j | 0 <= j < |a[k].side| ensures a[k].side[j] == b[k].side[j] {
        ArrivedAgree(c, a, fa.pendSc, b, fb.pendSc, k, j);
      }
    }
  }
}
