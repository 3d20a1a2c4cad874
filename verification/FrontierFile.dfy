/** The frontier as it lies in its file: a dictionary in the binary format. */
module FrontierFile {
  import opened Basics
  import opened LogFormat
  import opened Frontier
  import opened Replica
  import opened Bipf
  import BipfCodec
  import BipfSeek

  /** b'pend_sc', b'max_seq', b'max_pos', b'prev' */
  const PEND_SC: Bytes := [112, 101, 110, 100, 95, 115, 99]
  const MAX_SEQ: Bytes := [109, 97, 120, 95, 115, 101, 113]
  const MAX_POS: Bytes := [109, 97, 120, 95, 112, 111, 115]
  const PREV: Bytes := [112, 114, 101, 118]

  function PendValue(p: Pend): Value {
    List([Int(p.cnr), Int(p.remain), Raw(p.hptr), Int(p.pos)])
  }

  /** The pending side chains, as a dictionary in any order. */
  ghost predicate IsPending(entries: seq<(Value, Value)>, pend: map<nat, Pend>) {
    && (forall s {:trigger pend[s]} :: s in pend ==> (Int(s), PendValue(pend[s])) in entries)
    && (forall e :: e in entries ==> e.0.Int? && e.0.i >= 0 && e.0.i in pend && e.1 == PendValue(pend[e.0.i]))
  }

  /** The value `v` stands for the frontier `f`. */
  ghost predicate StandsFor(v: Value, f: State) {
    && v.Dict?
    && BipfSeek.LookupKey(v.entries, MAX_SEQ) == Some(Int(f.maxSeq))
    && BipfSeek.LookupKey(v.entries, MAX_POS) == Some(Int(f.maxPos))
    && BipfSeek.LookupKey(v.entries, PREV) == Some(Raw(f.prev))
    && var p := BipfSeek.LookupKey(v.entries, PEND_SC);
       p.Some? && p.value.Dict? && IsPending(p.value.entries, f.pendSc)
  }

  /** A value stands for one frontier only. */
  lemma StandsForOne(v: Value, f: State, g: State)
    requires StandsFor(v, f) && StandsFor(v, g)
    ensures f == g
  {
    var entries := BipfSeek.LookupKey(v.entries, PEND_SC).value.entries;
    forall s | s in f.pendSc ensures s in g.pendSc && g.pendSc[s] == f.pendSc[s] {
      assert (Int(s), PendValue(f.pendSc[s])) in entries;
      SamePend(f.pendSc[s], g.pendSc[s]);
    }
    forall s | s in g.pendSc ensures s in f.pendSc {
      assert (Int(s), PendValue(g.pendSc[s])) in entries;
    }
  }

  lemma SamePend(p: Pend, q: Pend)
    ensures PendValue(p) == PendValue(q) <==> p == q
  {
    if PendValue(p) == PendValue(q) {
      var a, b := PendValue(p).items, PendValue(q).items;
      assert a[0] == b[0] && a[1] == b[1] && a[2] == b[2] && a[3] == b[3];
    }
  }

  /** Its numbers have 64 bits. */
  ghost predicate HasInts(f: State) {
    f.maxSeq < 0x8000_0000_0000_0000 && f.maxPos < 0x8000_0000_0000_0000 && forall s :: s in f.pendSc ==> HasIntsAt(s, f.pendSc[s])
  }

  predicate HasIntsAt(s: nat, p: Pend) {
    s < 0x8000_0000_0000_0000 && p.cnr < 0x8000_0000_0000_0000 && p.remain < 0x8000_0000_0000_0000 && p.pos < 0x8000_0000_0000_0000
  }

  lemma PendWellFormed(p: Pend)
    requires HasIntsAt(0, p)
    ensures WellFormed(PendValue(p))
  {
  }

  method PendingEntries(pend: map<nat, Pend>) returns (entries: seq<(Value, Value)>)
    requires forall s :: s in pend ==> HasIntsAt(s, pend[s])
    ensures IsPending(entries, pend) && WellFormed(Dict(entries))
  {
    hide PendValue;
    entries := [];
    var todo := pend.Keys;
    while todo != {}
      invariant todo <= pend.Keys
      invariant forall s {:trigger pend[s]} :: s in pend && s !in todo ==> (Int(s), PendValue(pend[s])) in entries
      invariant forall e :: e in entries ==> e.0.Int? && e.0.i >= 0 && e.0.i in pend && e.0.i !in todo && e.1 == PendValue(pend[e.0.i])
      invariant forall e :: e in entries ==> WellFormed(e.0) && WellFormed(e.1)
      invariant forall i, j :: 0 <= i < j < |entries| ==> entries[i].0 != entries[j].0
      decreases todo
    {
      var s :| s in todo;
      PendWellFormed(pend[s]);
      forall i | 0 <= i < |entries| ensures entries[i].0 != Int(s) {
        assert entries[i] in entries;
      }
      entries := entries + [(Int(s), PendValue(pend[s]))];
      todo := todo - {s};
    }
  }

  /** The dictionary, with its entries in the order in which the program sets them. */
  method ValueOf(f: State) returns (v: Value)
    requires HasInts(f)
    ensures WellFormed(v) && StandsFor(v, f)
  {
    var pending := PendingEntries(f.pendSc);
    hide IsPending;
    var entries := [(Str(PEND_SC), Dict(pending)), (Str(MAX_SEQ), Int(f.maxSeq)), (Str(MAX_POS), Int(f.maxPos)), (Str(PREV), Raw(f.prev))];
    v := Dict(entries);
    NamesDiffer();
    Lookups(entries);
    forall e | e in entries ensures WellFormed(e.0) && WellFormed(e.1) && !e.0.List? && !e.0.Dict? {
      NamesAscii();
    }
  }

  lemma NamesAscii()
    ensures WellFormed(Str(PEND_SC)) && WellFormed(Str(MAX_SEQ)) && WellFormed(Str(MAX_POS)) && WellFormed(Str(PREV))
  {
  }

  lemma NamesDiffer()
    ensures PEND_SC != MAX_SEQ && PEND_SC != MAX_POS && PEND_SC != PREV && MAX_SEQ != MAX_POS && MAX_SEQ != PREV && MAX_POS != PREV
  {
    assert MAX_SEQ[4] != MAX_POS[4] && PEND_SC[0] != MAX_SEQ[0] && PEND_SC[0] != MAX_POS[0];
  }

  lemma Lookups(entries: seq<(Value, Value)>)
    requires |entries| == 4 && entries[0].0 == Str(PEND_SC) && entries[1].0 == Str(MAX_SEQ) && entries[2].0 == Str(MAX_POS) && entries[3].0 == Str(PREV)
    ensures BipfSeek.LookupKey(entries, PEND_SC) == Some(entries[0].1) && BipfSeek.LookupKey(entries, MAX_SEQ) == Some(entries[1].1)
    ensures BipfSeek.LookupKey(entries, MAX_POS) == Some(entries[2].1) && BipfSeek.LookupKey(entries, PREV) == Some(entries[3].1)
  {
    NamesDiffer();
    var e1 := entries[1..];
    var e2 := e1[1..];
    var e3 := e2[1..];
    assert e1[0] == entries[1] && e2[0] == entries[2] && e3[0] == entries[3];
    assert BipfSeek.LookupKey(e3, PREV) == Some(entries[3].1);
    assert BipfSeek.LookupKey(e2, PREV) == Some(entries[3].1) && BipfSeek.LookupKey(e2, MAX_POS) == Some(entries[2].1);
    assert BipfSeek.LookupKey(e1, PREV) == Some(entries[3].1) && BipfSeek.LookupKey(e1, MAX_POS) == Some(entries[2].1);
  }

  method LoadPending(entries: seq<(Value, Value)>, ghost pend: map<nat, Pend>) returns (p: map<nat, Pend>)
    requires IsPending(entries, pend)
    ensures p == pend
  {
    p := map[];
    for i := 0 to |entries|
      invariant forall s {:trigger p[s]} :: s in p ==> s in pend && p[s] == pend[s]
      invariant forall j :: 0 <= j < i ==> entries[j].0.Int? && entries[j].0.i >= 0 && entries[j].0.i in p
    {
      assert entries[i] in entries;
      var items := entries[i].1.items;
      p := p[entries[i].0.i := Pend(items[0].i, items[1].i, items[2].data, items[3].i)];
    }
    forall s | s in pend ensures s in p {
      assert (Int(s), PendValue(pend[s])) in entries;
    }
  }

  /** The frontier is read out of the dictionary. */
  method LoadFrontier(v: Value, ghost f: State) returns (g: State)
    requires StandsFor(v, f)
    ensures g == f
  {
    var pending := LoadPending(BipfSeek.LookupKey(v.entries, PEND_SC).value.entries, f.pendSc);
    g := State(BipfSeek.LookupKey(v.entries, MAX_SEQ).value.i, BipfSeek.LookupKey(v.entries, MAX_POS).value.i,
               BipfSeek.LookupKey(v.entries, PREV).value.data, pending);
  }

  /** Files have less than 2^63 bytes: then all numbers of a frontier have 64 bits. */
  lemma ValidHasInts(r: Replica)
    requires r.Valid() && |r.log| < 0x8000_0000_0000_0000
    ensures HasInts(r.state)
  {
    hide LogOf, PrevOf, ChunkCount, Ptr;
    RecordsTakeRoom(r.recs);
    forall s | s in r.state.pendSc ensures HasIntsAt(s, r.state.pendSc[s]) {
      assert SideOk(r.crypto, r.recs, r.state.pendSc, s - 1);
      RecordAt(r.recs, s - 1);
    }
  }

  /** The frontier that is persisted is the frontier with which the replica starts
      again. */
  method PersistAndLoad(f: State) returns (g: State)
    requires HasInts(f)
    ensures g == f
  {
    var v := ValueOf(f);
    var w := BipfCodec.DumpAndLoad(v);
    g := LoadFrontier(w.value.0, f);
  }

  /** A replica ends between two operations and is started again from its two files:
      nothing has changed. */
  method Restart(r: Replica) returns (again: Replica)
    requires r.Valid() && |r.log| < 0x8000_0000_0000_0000
    ensures fresh(again) && again.Valid() && again.crypto == r.crypto && again.fid == r.fid && again.isAuthor == r.isAuthor
    ensures again.log == r.log && again.state == r.state && again.recs == r.recs
  {
    hide Consistent, HasInts;
    ValidHasInts(r);
    r.EntryNeeds();
    var disk := PersistAndLoad(r.disk);
    assert r.log[..|r.log|] == r.log;
    again := new Replica.Existing(r.crypto, r.fid, r.isAuthor, r.log, disk, r.recs);
    var ok := again.Recover();
  }
}
