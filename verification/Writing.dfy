/** What an author puts into a log: content cut into an entry and a hash chain of
    chunks, and how a reader puts it together again. */
module Writing {
  import opened Basics
  import opened LogFormat
  import opened Frontier
  import Varint

  // -------------------------------------------------------- the side chain

  /** The hash of the first chunk, or zeros for an empty chain. */
  function PtrTo(c: Crypto, chunks: seq<Bytes>): (p: Bytes)
    requires Sound(c)
    ensures |p| == 20
  {
    if chunks == [] then Zeros(20) else Hash20(c, chunks[0])
  }

  /** Content in pieces of 100 bytes, each with the hash of the next chunk. */
  function ChunksOf(c: Crypto, t: Bytes): (chunks: seq<Bytes>)
    requires Sound(c) && |t| % 100 == 0
    ensures Chunks(chunks) && |chunks| == |t| / 100
    decreases |t|
  {
    if t == [] then []
    else
      var rest := ChunksOf(c, t[100..]);
      [t[..100] + PtrTo(c, rest)] + rest
  }

  lemma {:induction false} ChunksChained(c: Crypto, t: Bytes, j: nat)
    requires Sound(c) && |t| % 100 == 0 && 0 < j < |t| / 100
    ensures var chunks := ChunksOf(c, t);
      Hash20(c, chunks[j]) == chunks[j - 1][100..]
    decreases j
  {
    var rest := ChunksOf(c, t[100..]);
    if j == 1 {
      assert (t[..100] + PtrTo(c, rest))[100..] == PtrTo(c, rest);
    } else {
      ChunksChained(c, t[100..], j - 1);
    }
  }

  /** The content carried by chunks. */
  function Payloads(chunks: seq<Bytes>): Bytes
    requires Chunks(chunks)
  {
    if chunks == [] then [] else Payloads(chunks[..|chunks| - 1]) + chunks[|chunks| - 1][..100]
  }

  lemma {:induction false} PayloadsFront(x: Bytes, chunks: seq<Bytes>)
    requires |x| == 120 && Chunks(chunks)
    ensures Chunks([x] + chunks) && Payloads([x] + chunks) == x[..100] + Payloads(chunks)
  {
    if chunks == [] {
      assert [x] + chunks == [x] && [x][..0] == [];
    } else {
      PayloadsFront(x, chunks[..|chunks| - 1]);
      assert ([x] + chunks)[..|chunks|] == [x] + chunks[..|chunks| - 1];
    }
  }

  lemma {:induction false} PayloadsOfChunks(c: Crypto, t: Bytes)
    requires Sound(c) && |t| % 100 == 0
    ensures Payloads(ChunksOf(c, t)) == t
    decreases |t|
  {
    if t != [] {
      var rest := ChunksOf(c, t[100..]);
      PayloadsOfChunks(c, t[100..]);
      PayloadsFront(t[..100] + PtrTo(c, rest), rest);
    }
  }

  // -------------------------------------------------------------- an entry

  function Padded(s: Bytes, n: nat): (p: Bytes)
    requires |s| <= n
    ensures |p| == n
  {
    s + Zeros(n - |s|)
  }

  /** Bytes up to the next multiple of 100. */
  function Tail(content: Bytes, head: nat): (t: Bytes)
    requires head <= 28
    ensures |t| % 100 == 0
  {
    if |content| <= head then []
    else
      var rest := content[head..];
      RoundedUp(|rest|);
      if |rest| % 100 == 0 then rest else Padded(rest, |rest| + 100 - |rest| % 100)
  }

  lemma RoundedUp(n: nat)
    ensures (n + 100 - n % 100) % 100 == 0
  {
  }

  function Min(a: nat, b: nat): nat {
    if a < b then a else b
  }

  function Payload(c: Crypto, content: Bytes): (p: Bytes)
    requires Sound(c) && |Varint.Encoded(|content|)| <= 20
    ensures |p| == 48
  {
    var sz := Varint.Encoded(|content|);
    var head := 28 - |sz|;
    sz + Padded(content[..Min(head, |content|)], head) + PtrTo(c, ChunksOf(c, Tail(content, head)))
  }

  function Message(c: Crypto, content: Bytes, nam: Bytes): (m: Bytes)
    requires Sound(c) && |Varint.Encoded(|content|)| <= 20
    ensures |m| == 56 && m[..7] == Dmx(c, nam) && m[7] == CHAIN20 && m[8..] == Payload(c, content)
  {
    Dmx(c, nam) + [CHAIN20] + Payload(c, content)
  }

  function SideOf(c: Crypto, content: Bytes): (side: seq<Bytes>)
    requires Sound(c) && |Varint.Encoded(|content|)| <= 20
    ensures Chunks(side)
  {
    ChunksOf(c, Tail(content, 28 - |Varint.Encoded(|content|)|))
  }

  // ---------------------------------------------------------- chunk counts

  /** How many chunks the author makes, the receiver makes room for, and the reader
      reads. */
  function CountWritten(len: nat, sz: nat): nat {
    if len + sz <= 28 then 0 else (len + sz - 28 + 99) / 100
  }

  function CountIngested(len: nat, sz: nat): int {
    (len - (28 - sz) + 99) / 100
  }

  function CountRead(len: nat, sz: nat): int {
    (len - (if sz <= 28 then 28 - sz else 0) + 99) / 100
  }

  /** The receiver makes as much room as the author uses, and the reader reads as
      many chunks, unless the length field is so long that it leaves less than
      nothing for content: then they agree exactly if the excess does not open
      another chunk. No author writes such a field. */
  lemma CountsAgree(len: nat, sz: nat)
    requires sz >= 1
    ensures CountWritten(len, sz) == CountIngested(len, sz)
    ensures sz <= 28 ==> CountRead(len, sz) == CountIngested(len, sz)
    ensures 28 < sz <= 112 ==> (CountRead(len, sz) == CountIngested(len, sz) <==> (len + 99) % 100 + (sz - 28) < 100)
  {
    if 28 < sz <= 112 {
      var q, m := (len + 99) / 100, (len + 99) % 100;
      assert len + 99 == 100 * q + m;
      assert len - (28 - sz) + 99 == 100 * q + (m + sz - 28);
    }
  }

  // -------------------------------------------------------------- reading

  /** What a reader finds in a record with a side chain. */
  function ContentOf(r: Rec): Option<Bytes>
    requires |r.entry| == 120 && Chunks(r.side)
  {
    match Varint.Decoded(r.entry, 8)
    case None => None
    case Some((len, sz)) =>
      var s := Slice(r.entry, 8 + sz, if sz <= 28 then 28 - sz else 0) + Payloads(r.side);
      Some(Slice(s, 0, len))
  }

  lemma TailLength(content: Bytes, sz: nat)
    requires 1 <= sz <= 28
    ensures |Tail(content, 28 - sz)| / 100 == CountWritten(|content|, sz)
  {
  }

  /** An entry made from `content` has the chunk count of its side chain, and
      carries its length and its first bytes. */
  lemma EntryHeader(c: Crypto, content: Bytes, nam: Bytes, sig: Bytes)
    requires Sound(c) && |Varint.Encoded(|content|)| <= 20 && |sig| == 64
    ensures var e := Message(c, content, nam) + sig;
      && |e| == 120 && Varint.Decoded(e, 8) == Some((|content|, |Varint.Encoded(|content|)|))
      && ChunkCount(e) == Some(|SideOf(c, content)|)
      && e[36..56] == PtrTo(c, SideOf(c, content))
  {
    hide ChunksOf, Varint.Decoded, Varint.Encoded, Tail, Payload, Dmx, PtrTo;
    var sz := Varint.Encoded(|content|);
    var e := Message(c, content, nam) + sig;
    EntryLayout(c, content, nam, sig);
    Varint.RoundTrip(|content|, e, 8);
    TailLength(content, |sz|);
    CountsAgree(|content|, |sz|);
  }

  /** Where things are in an entry. */
  lemma EntryLayout(c: Crypto, content: Bytes, nam: Bytes, sig: Bytes)
    requires Sound(c) && |Varint.Encoded(|content|)| <= 20 && |sig| == 64
    ensures var e := Message(c, content, nam) + sig;
      && |e| == 120 && e[7] == CHAIN20 && e[8..56] == Payload(c, content)
      && |Varint.Encoded(|content|)| >= 1 && At(e, 8, Varint.Encoded(|content|))
      && e[36..56] == PtrTo(c, SideOf(c, content)) && |SideOf(c, content)| == |Tail(content, 28 - |Varint.Encoded(|content|)|)| / 100
  {
    var sz := Varint.Encoded(|content|);
    var e := Message(c, content, nam) + sig;
    var p := Payload(c, content);
    hide Varint.Encoded, Dmx, ChunksOf, Tail;
    assert e[8..56] == Message(c, content, nam)[8..] == p;
    assert p[..|sz|] == sz;
    assert e[8..8 + |sz|] == p[..|sz|];
    assert e[36..56] == p[28..48];
    assert |ChunksOf(c, Tail(content, 28 - |sz|))| == |Tail(content, 28 - |sz|)| / 100;
  }

  /** Padding is at the end, and beyond the length that is kept. */
  lemma Reassembled(content: Bytes, head: nat)
    requires head <= 28
    ensures Slice(Padded(content[..Min(head, |content|)], head) + Tail(content, head), 0, |content|) == content
  {
    var s := Padded(content[..Min(head, |content|)], head) + Tail(content, head);
    assert |s| >= |content|;
    assert s[..|content|] == content;
  }

  /** Reading what was written gives the content back, whatever its length. */
  lemma ReadsBack(c: Crypto, content: Bytes, nam: Bytes, sig: Bytes)
    requires Sound(c) && |Varint.Encoded(|content|)| <= 20 && |sig| == 64
    ensures ContentOf(Rec(Message(c, content, nam) + sig, SideOf(c, content))) == Some(content)
  {
    hide ChunksOf, Varint.Decoded, Tail, Padded, Payloads;
    EntryHeader(c, content, nam, sig);
    var sz := |Varint.Encoded(|content|)|;
    var e, head := Message(c, content, nam) + sig, 28 - sz;
    PayloadsOfChunks(c, Tail(content, head));
    assert Slice(e, 8 + sz, 28 - sz) == e[8..56][sz..28] == Padded(content[..Min(head, |content|)], head);
    Reassembled(content, head);
  }

  /** The author's own record satisfies what its frontier says: the chain is complete. */
  lemma AuthorSideOk(c: Crypto, recs: seq<Rec>, pend: map<nat, Pend>, content: Bytes, nam: Bytes, sig: Bytes)
    requires Sound(c) && |Varint.Encoded(|content|)| <= 20 && |sig| == 64 && AreRecs(recs)
    requires recs != [] && recs[|recs| - 1] == Rec(Message(c, content, nam) + sig, SideOf(c, content)) && |recs| !in pend
    ensures SideOk(c, recs, pend, |recs| - 1)
  {
    var r, side := recs[|recs| - 1], SideOf(c, content);
    EntryHeader(c, content, nam, sig);
    forall j | 0 <= j < |side| ensures Hash20(c, side[j]) == Ptr(r, j) {
      if j > 0 {
        ChunksChained(c, Tail(content, 28 - |Varint.Encoded(|content|)|), j);
      }
    }
  }
}
