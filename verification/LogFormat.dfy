/** The append-only log of a feed as a byte string: entries of 120 bytes, room for
    their side chains, and back pointers. */
module LogFormat {
  import opened Basics

  const PLAIN48 := 0
  const CHAIN20 := 1

  /** b'tinyssb-v0' */
  const PFX: Bytes := [116, 105, 110, 121, 115, 115, 98, 45, 118, 48]

  /** SHA-256 and the signature check, which the model knows nothing else about. */
  datatype Crypto = Crypto(sha: Bytes -> Bytes, verify: (Bytes, Bytes, Bytes) -> bool)

  ghost predicate Sound(c: Crypto) {
    forall b :: |c.sha(b)| == 32
  }

  function Hash20(c: Crypto, b: Bytes): Bytes
    requires Sound(c)
  {
    c.sha(b)[..20]
  }

  // -------------------------------------------------- four-byte integers

  /** Big endian. The program refuses integers that do not fit. */
  function BE32(n: nat): (s: Bytes)
    ensures |s| == 4
  {
    [n / 0x100_0000 % 256, n / 0x1_0000 % 256, n / 256 % 256, n % 256]
  }

  function FromBE(s: Bytes): nat {
    if s == [] then 0 else 256 * FromBE(s[..|s| - 1]) + s[|s| - 1]
  }

  const MAX32 := 0x1_0000_0000

  lemma BE32RoundTrip(n: nat)
    requires n < MAX32
    ensures FromBE(BE32(n)) == n
  {
    var s := BE32(n);
    assert s[..3] == [s[0], s[1], s[2]] && s[..3][..2] == [s[0], s[1]] && s[..3][..2][..1] == [s[0]];
    assert FromBE([s[0]]) == 256 * FromBE([]) + s[0] by {
      assert [s[0]][..0] == [];
    }
    assert FromBE(s[..3][..2]) == 256 * FromBE([s[0]]) + s[1];
    assert FromBE(s[..3]) == 256 * FromBE([s[0], s[1]]) + s[2];
    assert n / 256 / 256 / 256 == n / 0x100_0000 && n / 256 / 256 == n / 0x1_0000;
  }

  lemma BE32Injective(m: nat, n: nat)
    requires m < MAX32 && n < MAX32 && BE32(m) == BE32(n)
    ensures m == n
  {
    BE32RoundTrip(m);
    BE32RoundTrip(n);
  }

  // --------------------------------------------------------------- records

  /** An entry packet and the room for its side chain, chunk by chunk. */
  datatype Rec = Rec(entry: Bytes, side: seq<Bytes>)

  ghost predicate Chunks(side: seq<Bytes>) {
    forall j :: 0 <= j < |side| ==> |side[j]| == 120
  }

  ghost predicate AreRecs(recs: seq<Rec>) {
    forall k :: 0 <= k < |recs| ==> |recs[k].entry| == 120 && Chunks(recs[k].side)
  }

  function Concat(chunks: seq<Bytes>): Bytes {
    if chunks == [] then [] else Concat(chunks[..|chunks| - 1]) + chunks[|chunks| - 1]
  }

  function RecBytes(r: Rec, start: nat): Bytes {
    r.entry + Concat(r.side) + BE32(start)
  }

  function LogOf(recs: seq<Rec>): Bytes {
    if recs == [] then []
    else
      var front := LogOf(recs[..|recs| - 1]);
      front + RecBytes(recs[|recs| - 1], |front|)
  }

  /** Where record `k` starts. */
  function Start(recs: seq<Rec>, k: nat): nat
    requires k <= |recs|
  {
    |LogOf(recs[..k])|
  }

  /** All back pointers fit four bytes. */
  ghost predicate Fits(recs: seq<Rec>) {
    forall k :: 0 <= k < |recs| ==> Start(recs, k) < MAX32
  }

  lemma {:induction false} ConcatLength(side: seq<Bytes>)
    requires Chunks(side)
    ensures |Concat(side)| == 120 * |side|
  {
    if side != [] {
      ConcatLength(side[..|side| - 1]);
    }
  }

  lemma {:induction false} ConcatAt(side: seq<Bytes>, j: nat)
    requires Chunks(side) && j < |side|
    ensures At(Concat(side), 120 * j, side[j])
  {
    ConcatLength(side);
    ConcatLength(side[..|side| - 1]);
    if j < |side| - 1 {
      ConcatAt(side[..|side| - 1], j);
    }
  }

  /** `s` with `pkt` written over it at `pos`. */
  function Overwrite(s: Bytes, pos: nat, pkt: Bytes): (t: Bytes)
    requires pos + |pkt| <= |s|
    ensures |t| == |s|
  {
    s[..pos] + pkt + s[pos + |pkt|..]
  }

  lemma OverwriteFront(s: Bytes, t: Bytes, pos: nat, pkt: Bytes)
    requires pos + |pkt| <= |s|
    ensures Overwrite(s + t, pos, pkt) == Overwrite(s, pos, pkt) + t
  {
    assert (s + t)[..pos] == s[..pos] && (s + t)[pos + |pkt|..] == s[pos + |pkt|..] + t;
  }

  lemma OverwriteBack(s: Bytes, t: Bytes, pos: nat, pkt: Bytes)
    requires pos + |pkt| <= |t|
    ensures Overwrite(s + t, |s| + pos, pkt) == s + Overwrite(t, pos, pkt)
  {
    assert (s + t)[..|s| + pos] == s + t[..pos] && (s + t)[|s| + pos + |pkt|..] == t[pos + |pkt|..];
  }

  lemma {:induction false} ConcatUpdate(side: seq<Bytes>, j: nat, pkt: Bytes)
    requires Chunks(side) && j < |side| && |pkt| == 120
    ensures 120 * j + 120 <= |Concat(side)|
    ensures Concat(side[j := pkt]) == Overwrite(Concat(side), 120 * j, pkt)
  {
    var n := |side| - 1;
    ConcatLength(side);
    ConcatLength(side[..n]);
    if j == n {
      assert side[j := pkt][..n] == side[..n];
      OverwriteBack(Concat(side[..n]), side[n], 0, pkt);
    } else {
      ConcatUpdate(side[..n], j, pkt);
      assert side[j := pkt][..n] == side[..n][j := pkt];
      OverwriteFront(Concat(side[..n]), side[n], 120 * j, pkt);
    }
  }

  lemma {:induction false} LogPrefix(recs: seq<Rec>, k: nat)
    requires k <= |recs|
    ensures Start(recs, k) <= |LogOf(recs)| && LogOf(recs[..k]) == LogOf(recs)[..Start(recs, k)]
  {
    if k < |recs| {
      var front := recs[..|recs| - 1];
      LogPrefix(front, k);
      assert front[..k] == recs[..k];
    } else {
      assert recs[..k] == recs;
    }
  }

  lemma AtMiddle(a: Bytes, b: Bytes, c: Bytes)
    ensures At(a + b + c, |a|, b)
  {
  }

  lemma AtPrefix(log: Bytes, n: nat, pos: nat, s: Bytes)
    requires n <= |log| && At(log[..n], pos, s)
    ensures At(log, pos, s)
  {
    assert log[..n][pos..pos + |s|] == log[pos..pos + |s|];
  }

  lemma AtNested(log: Bytes, p: nat, c: Bytes, q: nat, s: Bytes)
    requires At(log, p, c) && At(c, q, s)
    ensures At(log, p + q, s)
  {
    forall i | 0 <= i < |s| ensures log[p + q + i] == s[i] {
      AtByte(c, q, s, i);
      AtByte(log, p, c, q + i);
    }
  }

  lemma LogUnfold(recs: seq<Rec>, n: nat)
    requires |recs| == n + 1
    ensures LogOf(recs) == LogOf(recs[..n]) + RecBytes(recs[n], Start(recs, n))
  {
  }

  /** Record `k` stands at its start, and ends where the next one starts. */
  lemma RecordAt(recs: seq<Rec>, k: nat)
    requires AreRecs(recs) && k < |recs|
    ensures Start(recs, k + 1) == Start(recs, k) + 124 + 120 * |recs[k].side|
    ensures At(LogOf(recs), Start(recs, k), recs[k].entry)
    ensures At(LogOf(recs), Start(recs, k) + 120, Concat(recs[k].side))
    ensures At(LogOf(recs), Start(recs, k + 1) - 4, BE32(Start(recs, k)))
    ensures Start(recs, k + 1) <= |LogOf(recs)|
  {
    hide At, LogOf, Concat, BE32;
    var r, start := recs[k], Start(recs, k);
    LogPrefix(recs, k + 1);
    assert recs[..k + 1][..k] == recs[..k];
    LogUnfold(recs[..k + 1], k);
    ConcatLength(r.side);
    BE32Length(start);
    RecordParts(LogOf(recs[..k]), r.entry, Concat(r.side), BE32(start));
    var upto, log := LogOf(recs[..k + 1]), LogOf(recs);
    AtPrefix(log, |upto|, start, r.entry);
    AtPrefix(log, |upto|, start + 120, Concat(r.side));
    AtPrefix(log, |upto|, |upto| - 4, BE32(start));
  }

  lemma BE32Length(n: nat)
    ensures |BE32(n)| == 4
  {
  }

  lemma RecordParts(front: Bytes, e: Bytes, c: Bytes, b: Bytes)
    ensures var s := front + (e + c + b);
      At(s, |front|, e) && At(s, |front| + |e|, c) && At(s, |s| - |b|, b)
  {
    var s := front + (e + c + b);
    assert s == front + e + (c + b);
    AtMiddle(front, e, c + b);
    assert s == (front + e) + c + b;
    AtMiddle(front + e, c, b);
    assert s == (front + e + c) + b + [];
    AtMiddle(front + e + c, b, []);
  }

  lemma ChunkAt(recs: seq<Rec>, k: nat, j: nat)
    requires AreRecs(recs) && k < |recs| && j < |recs[k].side|
    ensures At(LogOf(recs), Start(recs, k) + 120 * (j + 1), recs[k].side[j])
  {
    hide At, LogOf, Concat, BE32;
    RecordAt(recs, k);
    ConcatAt(recs[k].side, j);
    AtNested(LogOf(recs), Start(recs, k) + 120, Concat(recs[k].side), 120 * j, recs[k].side[j]);
  }

  /** Writing a chunk in place is updating the record. */
  lemma {:induction false} ChunkUpdate(recs: seq<Rec>, k: nat, j: nat, pkt: Bytes)
    requires AreRecs(recs) && k < |recs| && j < |recs[k].side| && |pkt| == 120
    ensures var pos, r := Start(recs, k) + 120 * (j + 1), recs[k];
      && pos + 120 <= |LogOf(recs)|
      && LogOf(recs[k := r.(side := r.side[j := pkt])]) == Overwrite(LogOf(recs), pos, pkt)
  {
    hide At, LogOf, Concat, BE32, RecBytes;
    var n, r, pos := |recs| - 1, recs[k], Start(recs, k) + 120 * (j + 1);
    var r' := r.(side := r.side[j := pkt]);
    var recs' := recs[k := r'];
    LogUnfold(recs, n);
    LogUnfold(recs', n);
    var start := Start(recs, n);
    if k == n {
      assert recs'[..n] == recs[..n];
      RecordUpdate(r, j, pkt, start);
      OverwriteBack(LogOf(recs[..n]), RecBytes(r, start), 120 * (j + 1), pkt);
    } else {
      ChunkUpdate(recs[..n], k, j, pkt);
      assert recs'[..n] == recs[..n][k := r'] && recs[..n][..k] == recs[..k];
      OverwriteFront(LogOf(recs[..n]), RecBytes(recs[n], start), pos, pkt);
    }
  }

  lemma RecordUpdate(r: Rec, j: nat, pkt: Bytes, start: nat)
    requires |r.entry| == 120 && Chunks(r.side) && j < |r.side| && |pkt| == 120
    ensures 120 * (j + 1) + 120 <= |RecBytes(r, start)|
    ensures RecBytes(r.(side := r.side[j := pkt]), start) == Overwrite(RecBytes(r, start), 120 * (j + 1), pkt)
  {
    ConcatUpdate(r.side, j, pkt);
    OverwriteBack(r.entry, Concat(r.side), 120 * j, pkt);
    OverwriteFront(r.entry + Concat(r.side), BE32(start), 120 * (j + 1), pkt);
  }

  lemma StartStable(recs: seq<Rec>, recs': seq<Rec>, k: nat)
    requires k <= |recs| == |recs'| && AreRecs(recs) && AreRecs(recs')
    requires forall i :: 0 <= i < |recs| ==> |recs'[i].side| == |recs[i].side|
    ensures Start(recs', k) == Start(recs, k)
  {
    if k > 0 {
      StartStable(recs, recs', k - 1);
      RecordAt(recs, k - 1);
      RecordAt(recs', k - 1);
    }
  }

  /** The log grows beyond what a back pointer holds long before sequence numbers do. */
  lemma {:induction false} RecordsTakeRoom(recs: seq<Rec>)
    requires AreRecs(recs)
    ensures 124 * |recs| <= |LogOf(recs)|
  {
    if recs != [] {
      var n := |recs| - 1;
      RecordsTakeRoom(recs[..n]);
      RecordAt(recs, n);
      assert recs[..n + 1] == recs;
    }
  }
}
