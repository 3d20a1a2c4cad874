/** A replica of one author's log: a file of bytes and a frontier file beside it,
    which is replaced as a whole. */
module Replica {
  import opened Basics
  import opened LogFormat
  import opened Frontier
  import opened Writing
  import Varint

  datatype Ingest = Stored | Refused | Raised

  /** What reading must yield. A length field longer than the room for content is
      left open, since no author writes one. */
  ghost predicate ReadFinds(rec: Rec, r: Option<Bytes>)
    requires |rec.entry| == 120 && Chunks(rec.side)
  {
    && (rec.entry[7] == PLAIN48 ==> r == Some(rec.entry[8..56]))
    && (rec.entry[7] != PLAIN48 && rec.entry[7] != CHAIN20 ==> r == None)
    && (rec.entry[7] == CHAIN20 && Varint.Decoded(rec.entry, 8).Some? && Varint.Decoded(rec.entry, 8).value.1 <= 28 ==> r == ContentOf(rec))
  }

  /** Writing at a position of a file, beyond its end if need be. */
  function WriteAt(s: Bytes, pos: nat, pkt: Bytes): Bytes
    requires pos <= |s|
  {
    s[..pos] + pkt + (if pos + |pkt| <= |s| then s[pos + |pkt|..] else [])
  }

  lemma WriteTwice(s: Bytes, pos: nat, a: Bytes, b: Bytes)
    requires pos <= |s|
    ensures WriteAt(WriteAt(s, pos, a), pos + |a|, b) == WriteAt(s, pos, a + b)
  {
  }

  /** An entry that stands in the file is completed to a record. */
  lemma RecordCompleted(s: Bytes, pos: nat, z: Bytes, b: Bytes)
    requires pos + 120 <= |s|
    ensures var t := WriteAt(WriteAt(s, pos + 120, z), pos + 120 + |z|, b);
      var end := pos + 120 + |z| + |b|;
      && pos + 120 + |z| <= |WriteAt(s, pos + 120, z)|
      && t == s[..pos] + s[pos..pos + 120] + z + b + (if |s| <= end then [] else s[end..])
      && end <= |t| && t[..end] == s[..pos] + s[pos..pos + 120] + z + b
  {
    WriteTwice(s, pos + 120, z, b);
    assert s[..pos + 120] == s[..pos] + s[pos..pos + 120];
  }

  /** What a reader collects from `n` chunks at `pos`. */
  function Blocks(log: Bytes, pos: nat, n: nat): Bytes {
    if n == 0 then [] else Blocks(log, pos, n - 1) + Slice(Slice(log, pos + 120 * (n - 1), 120), 0, 100)
  }

  lemma {:induction false} BlocksOfSide(recs: seq<Rec>, k: nat, n: nat)
    requires AreRecs(recs) && k < |recs| && n <= |recs[k].side|
    ensures Blocks(LogOf(recs), Start(recs, k) + 120, n) == Payloads(recs[k].side[..n])
    ensures recs[k].side[..|recs[k].side|] == recs[k].side
  {
    hide LogOf;
    if n > 0 {
      BlocksOfSide(recs, k, n - 1);
      ChunkAt(recs, k, n - 1);
      assert recs[k].side[..n][..n - 1] == recs[k].side[..n - 1];
    }
  }

  class Replica {
    const crypto: Crypto
    const fid: Bytes
    const isAuthor: bool
    var log: Bytes              // the file log.bin
    var disk: State             // the file frontier.bin
    var state: State            // the frontier in memory
    ghost var recs: seq<Rec>    // the records the log stands for

    ghost predicate Valid()
      reads this
    {
      Consistent(crypto, fid, recs, state, log) && disk == state
    }

    /** A new replica: two empty files. */
    constructor (crypto: Crypto, fid: Bytes, isAuthor: bool)
      requires Sound(crypto) && |fid| == 32
      ensures Valid() && log == [] && recs == [] && state == State(0, 0, fid[..20], map[])
      ensures this.crypto == crypto && this.fid == fid && this.isAuthor == isAuthor
    {
      this.crypto, this.fid, this.isAuthor := crypto, fid, isAuthor;
      log, recs := [], [];
      state := State(0, 0, fid[..20], map[]);
      disk := State(0, 0, fid[..20], map[]);
    }

    /** The two files as a previous run left them; `Recover` must follow. */
    constructor Existing(crypto: Crypto, fid: Bytes, isAuthor: bool, log: Bytes, disk: State, ghost recs: seq<Rec>)
      ensures this.crypto == crypto && this.fid == fid && this.isAuthor == isAuthor
      ensures this.log == log && this.disk == disk && state == disk && this.recs == recs
    {
      this.crypto, this.fid, this.isAuthor := crypto, fid, isAuthor;
      this.log, this.disk, this.recs := log, disk, recs;
      state := disk;
    }

    // ------------------------------------------------------------- start-up

    /** The log may have run ahead of the frontier. */
    ghost predicate Ahead()
      reads this
    {
      state.maxPos <= |log| && Consistent(crypto, fid, recs, state, log[..state.maxPos]) && disk == state
    }

    /** The bytes beyond the frontier start like the next entry. */
    predicate StartsEntry()
      reads this
      requires Sound(crypto)
    {
      !isAuthor && Dmx(crypto, NextNam()) == Slice(Slice(log, state.maxPos, 120), 0, 7)
    }

    /** They hold a whole entry that can be completed. */
    predicate HoldsEntry()
      reads this
    {
      && state.maxPos + 120 <= |log| && state.maxPos < MAX32 && state.maxSeq + 1 < MAX32
      && ChunkCount(log[state.maxPos..state.maxPos + 120]).Some?
    }

    lemma AheadNeeds()
      requires Ahead()
      ensures Sound(crypto) && state.maxPos <= |log| && state.maxSeq == |recs|
      ensures |log| == state.maxPos ==> Valid()
    {
      assert |log| == state.maxPos ==> log[..state.maxPos] == log;
    }

    /** One round of the loop in the program's constructor. Torn entries, of which less
        than 120 bytes were written, are not modelled: the method gives up. */
    method RecoverOne() returns (r: Ingest)
      requires Ahead() && |log| > state.maxPos
      modifies this
      ensures Sound(crypto)
      ensures r == Refused <==> old(!StartsEntry() && state.maxSeq + 1 < MAX32)
      ensures r == Stored <==> old(StartsEntry() && HoldsEntry())
      ensures r == Refused ==> Valid() && state == old(state) && log == old(log[..state.maxPos]) && recs == old(recs)
      ensures r == Stored ==> Ahead() && state.maxPos > old(state.maxPos) && Completed(old(state), old(log), old(recs))
    {
      hide Consistent, Dmx, ChunkCount, WriteAt, BE32, Nam;
      AheadNeeds();
      BE32Length(state.maxPos);
      var pos, seqn := state.maxPos, state.maxSeq + 1;
      var pkt := Slice(log, pos, 120);
      if seqn >= MAX32 {
        return Raised;
      }
      var nam := NextNam();
      if isAuthor || Dmx(crypto, nam) != Slice(pkt, 0, 7) {
        log := log[..pos];
        assert log[..pos] == log;
        AheadNeeds();
        return Refused;
      }
      if |pkt| < 120 || ChunkCount(pkt) == None || pos >= MAX32 {
        return Raised;
      }
      var n := ChunkCount(pkt).value;
      EntryKeeps(crypto, fid, recs, state, log[..pos], pkt, n);
      RecordCompleted(log, pos, Zeros(120 * n), BE32(pos));
      if n > 0 {
        state := state.(pendSc := state.pendSc[seqn := Pend(0, n, pkt[36..56], pos + 120)]);
      }
      var at := pos + 120;
      WriteZeros(at, n);
      at := at + 120 * n;
      log := WriteAt(log, at, BE32(pos));
      at := at + 4;
      PersistFrontier(seqn, at, Hash20(crypto, nam + pkt));
      recs := recs + [Fresh(pkt, n)];
      r := Stored;
    }

    /** What a round leaves that completed an entry. */
    ghost predicate Completed(f: State, before: Bytes, were: seq<Rec>)
      reads this
      requires Sound(crypto)
    {
      && f.maxPos + 120 <= |before| && ChunkCount(before[f.maxPos..f.maxPos + 120]).Some?
      && var pkt := before[f.maxPos..f.maxPos + 120];
         var n := ChunkCount(pkt).value;
      && state == AfterEntry(crypto, fid, f, pkt, n) && recs == were + [Fresh(pkt, n)]
      && log == before[..f.maxPos] + pkt + Zeros(120 * n) + BE32(f.maxPos)
                + (if |before| <= state.maxPos then [] else before[state.maxPos..])
    }

    method WriteZeros(pos: nat, n: nat)
      requires pos <= |log|
      modifies this`log
      ensures log == WriteAt(old(log), pos, Zeros(120 * n))
    {
      var cnt := 0;
      while cnt < n
        invariant cnt <= n && log == WriteAt(old(log), pos, Zeros(120 * cnt))
      {
        log := WriteAt(log, pos + 120 * cnt, Zeros(120));
        assert Zeros(120 * (cnt + 1)) == Zeros(120 * cnt) + Zeros(120);
        WriteTwice(old(log), pos, Zeros(120 * cnt), Zeros(120));
        cnt := cnt + 1;
      }
    }

    /** The rest of the program's constructor: bring log and frontier together. */
    method Recover() returns (ok: bool)
      requires Ahead()
      modifies this
      ensures Sound(crypto)
      ensures ok ==> Valid()
      ensures old(|log| == state.maxPos) ==> ok && log == old(log) && state == old(state) && recs == old(recs)
      ensures old(|log| > state.maxPos && !StartsEntry() && state.maxSeq + 1 < MAX32) ==> ok && state == old(state) && log == old(log[..state.maxPos]) && recs == old(recs)
      ensures old(|log| > state.maxPos && StartsEntry() && HoldsEntry()) && old(|log|) <= old(EndOfEntry()) ==> ok && Completed(old(state), old(log), old(recs))
    {
      hide Consistent, Dmx, ChunkCount;
      AheadNeeds();
      ghost var rounds := 0;
      while |log| > state.maxPos
        invariant Ahead() && Sound(crypto)
        invariant rounds == 0 ==> log == old(log) && state == old(state) && recs == old(recs)
        invariant rounds > 0 ==> old(|log| > state.maxPos && StartsEntry() && HoldsEntry())
        invariant rounds > 0 && old(|log|) <= old(EndOfEntry()) ==> Completed(old(state), old(log), old(recs)) && |log| == state.maxPos
        decreases |log| - state.maxPos
      {
        var r := RecoverOne();
        if r == Refused {
          return true;
        }
        if r == Raised {
          return false;
        }
        rounds := rounds + 1;
        AheadNeeds();
      }
      AheadNeeds();
      ok := true;
    }

    /** Where the record of the entry beyond the frontier ends. */
    function EndOfEntry(): nat
      reads this
    {
      if HoldsEntry() then state.maxPos + 124 + 120 * ChunkCount(log[state.maxPos..state.maxPos + 120]).value else 0
    }

    // ------------------------------------------------------------ ingestion

    method PersistFrontier(seqn: nat, pos: nat, prev: Bytes)
      modifies this`state, this`disk
      ensures state == old(state).(maxSeq := seqn, maxPos := pos, prev := prev) && disk == state
    {
      state := state.(maxSeq := seqn, maxPos := pos, prev := prev);
      disk := state;
    }

    /** The next entry must carry this prefix in its signed part. */
    function NextNam(): Bytes
      reads this
    {
      Nam(fid, state.maxSeq + 1, state.prev)
    }

    /** When an entry packet is taken. */
    ghost predicate Acceptable(pkt: Bytes, seqn: int)
      reads this
      requires Sound(crypto)
    {
      && |pkt| == 120 && seqn == state.maxSeq + 1 && seqn < MAX32
      && Authentic(pkt) && ChunkCount(pkt).Some? && state.maxPos < MAX32
    }

    /** When the handling of an entry packet ends in an exception. */
    ghost predicate Raises(pkt: Bytes, seqn: int)
      reads this
      requires Sound(crypto)
    {
      |pkt| != 120 || (seqn == state.maxSeq + 1 && (seqn >= MAX32 || (Authentic(pkt) && (ChunkCount(pkt) == None || state.maxPos >= MAX32))))
    }

    /** It starts with the prefix of the next entry, and is signed as such. */
    ghost predicate Authentic(pkt: Bytes)
      reads this
      requires Sound(crypto) && |pkt| == 120
    {
      Dmx(crypto, NextNam()) == pkt[..7] && crypto.verify(fid, pkt[56..], NextNam() + pkt[..56])
    }

    method IngestEntry(pkt: Bytes, seqn: int) returns (r: Ingest)
      requires Valid()
      modifies this
      ensures Valid()
      ensures r == Stored <==> old(Acceptable(pkt, seqn))
      ensures r == Raised <==> old(Raises(pkt, seqn))
      ensures r == Stored ==>
        var n := ChunkCount(pkt).value;
        && recs == old(recs) + [Fresh(pkt, n)]
        && log == old(log) + pkt + Zeros(120 * n) + BE32(|old(log)|)
        && state == AfterEntry(crypto, fid, old(state), pkt, n)
      ensures r != Stored ==> log == old(log) && state == old(state) && recs == old(recs)
    {
      hide Consistent, Dmx, ChunkCount;
      EntryNeeds();
      if |pkt| != 120 {
        return Raised;
      }
      if seqn != state.maxSeq + 1 {
        return Refused;
      }
      if seqn >= MAX32 {
        return Raised;
      }
      var nam := Nam(fid, seqn, state.prev);
      var dmx := Dmx(crypto, nam);
      if dmx != pkt[..7] {
        return Refused;
      }
      if !crypto.verify(fid, pkt[56..], nam + pkt[..56]) {
        return Refused;
      }
      var chunkCnt := ChunkCount(pkt);
      if chunkCnt == None || state.maxPos >= MAX32 {
        return Raised;
      }
      var n := chunkCnt.value;
      EntryKeeps(crypto, fid, recs, state, log, pkt, n);
      var logEntry := pkt + Zeros(120 * n) + BE32(state.maxPos);
      log := log + logEntry;
      if n > 0 {
        state := state.(pendSc := state.pendSc[seqn := Pend(0, n, pkt[36..56], state.maxPos + 120)]);
      }
      PersistFrontier(seqn, state.maxPos + |logEntry|, Hash20(crypto, nam + pkt));
      recs := recs + [Fresh(pkt, n)];
      assert log == old(log) + pkt + Zeros(120 * n) + BE32(|old(log)|);
      r := Stored;
    }

    lemma EntryNeeds()
      requires Valid()
      ensures Sound(crypto) && state.maxPos == |log| && state.maxSeq == |recs|
    {
    }

    method IngestChunk(pkt: Bytes, s: nat) returns (r: Ingest)
      requires Valid()
      modifies this
      ensures Valid()
      ensures r == if |pkt| != 120 then Raised
                   else if s in old(state).pendSc && old(state).pendSc[s].hptr == Hash20(crypto, pkt) then Stored else Refused
      ensures r == Stored ==>
        var p := old(state).pendSc[s];
        && 1 <= s <= |old(recs)| && p.cnr < |old(recs)[s - 1].side|
        && recs == WithChunk(old(recs), s - 1, p.cnr, pkt)
        && state == AfterChunk(old(state), s, pkt)
        && p.pos + 120 <= |old(log)| && log == Overwrite(old(log), p.pos, pkt)
      ensures r != Stored ==> log == old(log) && state == old(state) && recs == old(recs)
    {
      hide Consistent, ChunkCount;
      EntryNeeds();
      if |pkt| != 120 {
        return Raised;
      }
      if s !in state.pendSc || state.pendSc[s].hptr != Hash20(crypto, pkt) {
        return Refused;
      }
      var pend := state.pendSc[s];
      ChunkKeeps(crypto, fid, recs, state, log, s, pkt);
      log := log[..pend.pos] + pkt + log[pend.pos + 120..];
      var pos := pend.pos + 120;
      if pend.remain <= 1 {
        state := state.(pendSc := state.pendSc - {s});
      } else {
        state := state.(pendSc := state.pendSc[s := Pend(pend.cnr + 1, pend.remain - 1, pkt[100..], pos)]);
      }
      disk := state;
      recs := WithChunk(recs, s - 1, pend.cnr, pkt);
      r := Stored;
    }

    // ------------------------------------------------------------- lookups

    /** Following back pointers from the end of the file: after as many steps as
        there are records from `seqn` on, the start of that record is reached. */
    method FindRecord(seqn: int) returns (pos: nat, lim: nat)
      requires Valid() && 1 <= seqn <= state.maxSeq
      ensures pos == Start(recs, seqn - 1) && lim == Start(recs, seqn)
    {
      hide Consistent, LogOf;
      LookupNeeds();
      pos := |log|;
      lim := pos;
      var cnt := state.maxSeq - seqn + 1;
      assert recs[..|recs|] == recs;
      while cnt > 0
        invariant 0 <= cnt <= state.maxSeq - seqn + 1
        invariant pos == Start(recs, seqn - 1 + cnt)
        invariant cnt <= state.maxSeq - seqn ==> lim == Start(recs, seqn + cnt)
      {
        var k := seqn - 2 + cnt;
        RecordAt(recs, k);
        BE32RoundTrip(Start(recs, k));
        lim := pos;
        pos := FromBE(Slice(log, pos - 4, 4));
        cnt := cnt - 1;
      }
    }

    lemma LookupNeeds()
      requires Valid()
      ensures log == LogOf(recs) && AreRecs(recs) && state.maxSeq == |recs| && forall k :: 0 <= k < |recs| ==> Start(recs, k) < MAX32
    {
    }

    method GetEntry(seqn: int) returns (r: Option<Bytes>)
      requires Valid()
      ensures r == if 1 <= seqn <= |recs| then Some(recs[seqn - 1].entry) else None
    {
      hide Consistent, LogOf;
      LookupNeeds();
      if seqn < 1 || seqn > state.maxSeq {
        return None;
      }
      var pos, lim := FindRecord(seqn);
      RecordAt(recs, seqn - 1);
      r := Some(Slice(log, pos, 120));
    }

    lemma ChunkNeeds(k: nat)
      requires Valid() && k < |recs|
      ensures k + 1 in state.pendSc ==> state.pendSc[k + 1].cnr < |recs[k].side|
      ensures ChunkCount(recs[k].entry) == Some(|recs[k].side|)
    {
      assert SideOk(crypto, recs, state.pendSc, k);
    }

    /** A chunk is found exactly if it has arrived, and then it is the right one.
        Asked for the chunk before the first, the replica answers with the entry. */
    method GetChunk(seqn: int, cnr: int) returns (r: Option<Bytes>)
      requires Valid()
      ensures cnr >= 0 && 1 <= seqn <= |recs| && cnr < Arrived(recs, state.pendSc, seqn - 1) ==>
        cnr < |recs[seqn - 1].side| && r == Some(recs[seqn - 1].side[cnr])
      ensures cnr >= 0 && !(1 <= seqn <= |recs| && cnr < Arrived(recs, state.pendSc, seqn - 1)) ==> r == None
      ensures cnr == -1 && 1 <= seqn <= |recs| ==> r == Some(recs[seqn - 1].entry)
    {
      hide Consistent, LogOf;
      LookupNeeds();
      if seqn < 1 || seqn > state.maxSeq {
        return None;
      }
      ChunkNeeds(seqn - 1);
      if seqn in state.pendSc && cnr >= state.pendSc[seqn].cnr {
        return None;
      }
      var start, lim := FindRecord(seqn);
      RecordAt(recs, seqn - 1);
      var pos := start + 120 * (cnr + 1);
      if pos > lim - 120 || pos < 0 {
        return None;
      }
      if cnr >= 0 {
        ChunkAt(recs, seqn - 1, cnr);
      }
      r := Some(Slice(log, pos, 120));
    }

    /** The content of an event. */
    method Read(seqn: int) returns (r: Option<Bytes>)
      requires Valid()
      ensures !(1 <= seqn <= |recs|) ==> r == None
      ensures 1 <= seqn <= |recs| ==> |recs[seqn - 1].entry| == 120 && Chunks(recs[seqn - 1].side) && ReadFinds(recs[seqn - 1], r)
    {
      hide Consistent, LogOf, ReadFinds;
      LookupNeeds();
      if seqn < 1 || state.maxSeq < seqn {
        return None;
      }
      var pos, _ := FindRecord(seqn);
      ChunkNeeds(seqn - 1);
      RecordAt(recs, seqn - 1);
      var pkt := Slice(log, pos, 120);
      BlocksOfSide(recs, seqn - 1, |recs[seqn - 1].side|);
      r := ReadRecord(pkt, pos + 120, recs[seqn - 1]);
    }

    /** The entry has been read, the file is positioned after it. */
    method ReadRecord(pkt: Bytes, start: nat, ghost rec: Rec) returns (r: Option<Bytes>)
      requires |pkt| == 120 && rec.entry == pkt && Chunks(rec.side) && ChunkCount(pkt) == Some(|rec.side|)
      requires Blocks(log, start, |rec.side|) == Payloads(rec.side)
      ensures ReadFinds(rec, r)
    {
      hide Blocks, Payloads, Varint.Decoded;
      if pkt[7] == PLAIN48 {
        return Some(pkt[8..56]);
      }
      if pkt[7] != CHAIN20 {
        return None;
      }
      var h := Varint.Decode(pkt, 8);
      if h == None {
        return None;
      }
      var (chainLen, sz) := h.value;
      var content := Slice(pkt, 8 + sz, if sz <= 28 then 28 - sz else 0);
      CountsAgree(chainLen, sz);
      var blocks := (chainLen - |content| + 99) / 100;
      var more := ReadBlocks(start, blocks);
      r := Some(Slice(content + more, 0, chainLen));
    }

    method ReadBlocks(start: nat, n: int) returns (content: Bytes)
      ensures n >= 0 ==> content == Blocks(log, start, n)
    {
      var blocks, pos := n, start;
      content := [];
      while blocks > 0
        invariant n >= 0 ==> 0 <= blocks <= n && content == Blocks(log, start, n - blocks)
        invariant pos == start + 120 * (n - blocks) || |log| <= pos <= start + 120 * (n - blocks)
      {
        var chunk := Slice(log, pos, 120);
        pos := pos + |chunk|;
        content := content + Slice(chunk, 0, 100);
        blocks := blocks - 1;
      }
    }

    // -------------------------------------------------------------- writing

    /** The side chain is built from its end. */
    method BuildChain(t: Bytes) returns (chunks: seq<Bytes>, ptr: Bytes)
      requires Sound(crypto) && |t| % 100 == 0
      ensures chunks == ChunksOf(crypto, t) && ptr == PtrTo(crypto, chunks)
    {
      var content := t;
      chunks, ptr := [], Zeros(20);
      assert t[|t|..] == [];
      while |content| > 0
        invariant |content| <= |t| && |content| % 100 == 0 && content == t[..|content|]
        invariant chunks == ChunksOf(crypto, t[|content|..]) && ptr == PtrTo(crypto, chunks)
      {
        var buf := content[|content| - 100..] + ptr;
        assert t[|content| - 100..][100..] == t[|content|..];
        assert t[|content| - 100..][..100] == content[|content| - 100..];
        chunks := [buf] + chunks;
        ptr := Hash20(crypto, buf);
        content := content[..|content| - 100];
      }
      assert t[0..] == t;
    }

    /** First part of an entry: length, first bytes of the content, and the hash that
        leads to the rest of it. */
    method BuildPayload(content: Bytes) returns (payload: Bytes, chunks: seq<Bytes>)
      requires Sound(crypto) && |Varint.Encoded(|content|)| <= 20
      ensures payload == Payload(crypto, content) && chunks == SideOf(crypto, content)
    {
      hide ChunksOf, Varint.Encoded, Padded;
      var encoded := Varint.EncodeToBytes(|content|);
      var sz := encoded.value;
      payload := sz + Padded(content[..Min(28 - |sz|, |content|)], 28 - |sz|);
      var ptr: Bytes;
      chunks, ptr := BuildChain(Tail(content, 28 - |sz|));
      payload := payload + ptr;
    }

    /** The length of the content fits twenty bytes, sequence number and position fit
        four, and the signature has 64 bytes and is valid. */
    ghost predicate Writable(content: Bytes, sign: Bytes -> Bytes)
      reads this
      requires Sound(crypto)
    {
      && |Varint.Encoded(|content|)| <= 20 && state.maxSeq + 1 < MAX32 && state.maxPos < MAX32
      && var nam := NextNam();
         var msg := Message(crypto, content, nam);
         |sign(nam + msg)| == 64 && crypto.verify(fid, sign(nam + msg), nam + msg)
    }

    /** Publish an event; None where the program raises an exception. */
    method Write(content: Bytes, sign: Bytes -> Bytes) returns (r: Option<nat>)
      requires Valid()
      modifies this
      ensures Valid() && Sound(crypto)
      ensures r.Some? <==> old(Writable(content, sign))
      ensures r.Some? ==>
        && |Varint.Encoded(|content|)| <= 20
        && var msg := Message(crypto, content, old(NextNam()));
           var wire := msg + sign(old(NextNam()) + msg);
        && recs == old(recs) + [Rec(wire, SideOf(crypto, content))]
        && r == Some(|recs|) && old(Acceptable(wire, |recs| + 1))
        && state.pendSc == old(state.pendSc)
      ensures r == None ==> log == old(log) && state == old(state) && recs == old(recs)
    {
      hide Consistent, SideOf, Payload, Varint.Encoded, Varint.Decoded, Nam, Dmx, ChunkCount;
      EntryNeeds();
      var seqn := state.maxSeq + 1;
      var sz := Varint.EncodeToBytes(|content|);
      if sz == None {
        return None;
      }
      var payload, chunks := BuildPayload(content);
      if seqn >= MAX32 {
        return None;
      }
      var nam := Nam(fid, seqn, state.prev);
      var msg := Dmx(crypto, nam) + [CHAIN20] + payload;
      assert msg == Message(crypto, content, nam);
      var wire := msg + sign(nam + msg);
      assert wire[..56] == msg && wire[56..] == sign(nam + msg);
      if |wire| != 120 || !crypto.verify(fid, wire[56..], nam + wire[..56]) || state.maxPos >= MAX32 {
        return None;
      }
      assert wire[..7] == msg[..7] == Dmx(crypto, nam);
      EntryHeader(crypto, content, nam, sign(nam + msg));
      Append(wire, chunks, content);
      r := Some(seqn);
    }

    method Append(wire: Bytes, chunks: seq<Bytes>, ghost content: Bytes)
      requires Valid()
      requires |Varint.Encoded(|content|)| <= 20 && |wire| == 120 && |log| < MAX32
      requires wire == Message(crypto, content, NextNam()) + wire[56..] && chunks == SideOf(crypto, content)
      modifies this
      ensures Valid() && recs == old(recs) + [Rec(wire, chunks)] && state.pendSc == old(state.pendSc)
    {
      hide Consistent, ChunksOf, Varint.Encoded, Message;
      EntryNeeds();
      AuthorJoins(crypto, fid, recs, state, log, content, wire[56..]);
      ConcatLength(chunks);
      var nam := NextNam();
      var logEntry := wire + Concat(chunks) + BE32(state.maxPos);
      assert log + wire + Concat(chunks) + BE32(state.maxPos) == log + logEntry;
      log := log + logEntry;
      PersistFrontier(state.maxSeq + 1, state.maxPos + |logEntry|, Hash20(crypto, nam + wire));
      recs := recs + [Rec(wire, chunks)];
    }
  }

  lemma AuthorJoins(c: Crypto, fid: Bytes, recs: seq<Rec>, f: State, log: Bytes, content: Bytes, sig: Bytes)
    requires Consistent(c, fid, recs, f, log) && |log| < MAX32
    requires |Varint.Encoded(|content|)| <= 20 && |sig| == 64
    ensures var s := |recs| + 1;
      var nam := Nam(fid, s, f.prev);
      var r := Rec(Message(c, content, nam) + sig, SideOf(c, content));
      Consistent(c, fid, recs + [r],
                 f.(maxSeq := s, maxPos := f.maxPos + 124 + 120 * |r.side|, prev := Hash20(c, nam + r.entry)),
                 log + r.entry + Concat(r.side) + BE32(|log|))
  {
    hide ChunksOf, Varint.Encoded, LogOf;
    var nam := Nam(fid, |recs| + 1, f.prev);
    var r := Rec(Message(c, content, nam) + sig, SideOf(c, content));
    AuthorSideOk(c, recs + [r], f.pendSc, content, nam, sig);
    RecordJoins(c, fid, recs, f, log, r, f.pendSc);
  }
}
