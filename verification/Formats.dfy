/** What stands on the wire and in the files, byte by byte. */
module Formats {
  import opened Basics
  import opened LogFormat
  import opened Frontier
  import opened Writing
  import opened KeySets
  import opened Bipf
  import BipfSeek
  import FrontierFile
  import EventGraph
  import Kiss
  import Node
  import Reconciliation
  import Serving
  import Varint

  // ------------------------------------------------------------------ order

  /** Where two sequences part. */
  ghost predicate PartAt(a: seq<int>, b: seq<int>, k: nat) {
    k <= |a| && k < |b| && a[..k] == b[..k] && (k == |a| || a[k] < b[k])
  }

  /** The smaller sequence ends first, or has the smaller number where they part. */
  lemma {:induction false} LessMeans(a: seq<int>, b: seq<int>)
    ensures Less(a, b) <==> exists k {:trigger PartAt(a, b, k)} :: 0 <= k && PartAt(a, b, k)
  {
    if b != [] && (a == [] || a[0] < b[0]) {
      assert PartAt(a, b, 0);
    } else if b != [] && a[0] == b[0] {
      LessMeans(a[1..], b[1..]);
      if Less(a[1..], b[1..]) {
        var k: nat :| PartAt(a[1..], b[1..], k);
        assert a[..k + 1] == [a[0]] + a[1..][..k] && b[..k + 1] == [b[0]] + b[1..][..k];
        assert PartAt(a, b, k + 1);
      }
      if k :| 0 <= k && PartAt(a, b, k) {
        PartsBehind(a, b, k);
      }
    } else {
      assert forall k {:trigger PartAt(a, b, k)} :: k > 0 && PartAt(a, b, k) ==> a[..k][0] == b[..k][0];
    }
  }

  lemma PartsBehind(a: seq<int>, b: seq<int>, k: nat)
    requires PartAt(a, b, k) && a != [] && b != [] && a[0] == b[0]
    ensures k > 0 && PartAt(a[1..], b[1..], k - 1)
  {
    assert a[1..][..k - 1] == a[..k][1..] && b[1..][..k - 1] == b[..k][1..];
  }

  /** Events are listed by rank, and by name within a rank: "a" before "ab" before "b". */
  lemma EventOrder(r: nat)
    ensures EventGraph.KeyLess(r, [98], r + 1, [97])
    ensures EventGraph.KeyLess(r, [97], r, [97, 98]) && EventGraph.KeyLess(r, [97, 98], r, [98])
  {
    assert [97, 98][1..] == [98];
  }

  // ---------------------------------------------------------------- values

  lemma VarintBytes()
    ensures Varint.Encoded(0) == [0] && Varint.Encoded(127) == [127] && Varint.Encoded(128) == [128, 1] && Varint.Encoded(300) == [172, 2]
  {
    assert Varint.Encoded(2) == [2];
  }

  lemma AtomBytes(bits: Bytes)
    requires |bits| == 8
    ensures Encoded(Null) == [6] && Encoded(Bool(false)) == [14, 0] && Encoded(Bool(true)) == [14, 1]
    ensures Encoded(Double(bits)) == [67] + bits
    ensures Encoded(Str([97, 98])) == [16, 97, 98] && Encoded(Raw([97, 98])) == [17, 97, 98]
  {
  }

  lemma IntBytes()
    ensures Encoded(Int(0)) == [10, 0] && Encoded(Int(-1)) == [10, 255] && Encoded(Int(127)) == [10, 127]
  {
    BitLengths();
    assert IntLE(0, 0) == [] && IntLE(-1, 0) == [];
  }

  lemma WideIntBytes()
    ensures Encoded(Int(128)) == [18, 128, 0] && Encoded(Int(300)) == [18, 44, 1] && Encoded(Int(-300)) == [18, 212, 254]
  {
    BitLengths();
    assert IntLE(0, 1) == [0] && IntLE(1, 1) == [1] && IntLE(-2, 1) == [254] by {
      assert IntLE(0, 0) == [] && IntLE(-1, 0) == [];
    }
  }

  lemma BitLengths()
    ensures Varint.BitLength(0) == 0 && Varint.BitLength(127) == 7 && Varint.BitLength(128) == 8 && Varint.BitLength(300) == 9 && Varint.BitLength(299) == 9
  {
    Varint.BitLengthShift(128);
    Varint.BitLengthShift(300);
    Varint.BitLengthShift(299);
    assert Varint.BitLength(1) == 1 && Varint.BitLength(2) == 2 && Varint.BitLength(3) == 2;
    assert Varint.BitLength(7) == 3 && Varint.BitLength(31) == 5;
  }

  /** [1, None] and {"a": 1}. */
  lemma ContainerBytes()
    ensures Encoded(List([Int(1), Null])) == [28, 10, 1, 6]
    ensures Encoded(Dict([(Str([97]), Int(1))])) == [37, 8, 97, 10, 1]
  {
    assert Varint.BitLength(1) == 1;
    assert IntLE(1, 1) == [1] by {
      assert IntLE(0, 0) == [];
    }
    assert Encoded(Int(1)) == [10, 1] && Encoded(Null) == [6] && Encoded(Str([97])) == [8, 97];
    assert [Int(1), Null][1..] == [Null] && [Null][1..] == [];
    assert Items([Null]) == [6] && Items([Int(1), Null]) == [10, 1, 6];
    var e := [(Str([97]), Int(1))];
    assert e[1..] == [];
    assert Entries(e) == [8, 97, 10, 1];
    Lengths();
  }

  lemma Lengths()
    ensures ItemsLength([Int(1), Null]) == 3 && EntriesLength([(Str([97]), Int(1))]) == 4
  {
    assert Varint.BitLength(1) == 1;
    assert Varint.BitLength(8) == 4 && Varint.EncodingLength(8) == 1 by {
      assert Varint.BitLength(2) == 2 && Varint.BitLength(4) == 3;
    }
    assert [Int(1), Null][1..] == [Null] && [Null][1..] == [];
    assert ItemsLength([Null]) == 1;
    var e := [(Str([97]), Int(1))];
    assert e[1..] == [];
  }

  // --------------------------------------------------------------- the log

  /** What an entry is signed together with: 'tinyssb-v0', the feed, its number, most
      significant byte first, and the hash of what comes before. */
  lemma NamBytes(fid: Bytes, prev: Bytes)
    ensures Nam(fid, 0x0102_0304, prev) == [116, 105, 110, 121, 115, 115, 98, 45, 118, 48] + fid + [1, 2, 3, 4] + prev
  {
  }

  /** Where things are in the entry of an author: prefix, type, payload with the length of
      the content in front and the hash of the first chunk at its end, signature. */
  lemma EntryBytes(c: Crypto, content: Bytes, nam: Bytes, sig: Bytes)
    requires Sound(c) && |Varint.Encoded(|content|)| <= 20 && |sig| == 64
    ensures var e, sz, side := Message(c, content, nam) + sig, Varint.Encoded(|content|), SideOf(c, content);
      && |e| == 120 && e[..7] == c.sha(nam)[..7] && e[7] == 1 && e[8..8 + |sz|] == sz && e[56..] == sig
      && e[36..56] == if side == [] then seq(20, i => 0) else c.sha(side[0])[..20]
  {
    hide ChunksOf, Varint.Encoded, Tail;
    EntryLayout(c, content, nam, sig);
  }

  /** A chunk holds 100 bytes of content and the hash of the next chunk. */
  lemma ChunkBytes(c: Crypto, content: Bytes, j: nat)
    requires Sound(c) && |Varint.Encoded(|content|)| <= 20 && j < |SideOf(c, content)|
    ensures var side := SideOf(c, content);
      |side[j]| == 120 && side[j][100..] == if j + 1 < |side| then c.sha(side[j + 1])[..20] else seq(20, i => 0)
  {
    hide Varint.Encoded, Tail;
    ChunkAt(c, Tail(content, 28 - |Varint.Encoded(|content|)|), j);
  }

  lemma {:induction false} ChunkAt(c: Crypto, t: Bytes, j: nat)
    requires Sound(c) && |t| % 100 == 0 && j < |ChunksOf(c, t)|
    ensures var side := ChunksOf(c, t);
      |side[j]| == 120 && side[j][100..] == if j + 1 < |side| then c.sha(side[j + 1])[..20] else seq(20, i => 0)
    decreases j
  {
    if j > 0 {
      ChunkAt(c, t[100..], j - 1);
    }
  }

  /** Two records: entries, chunks, and where each record starts. */
  lemma LogBytes(e: Bytes, x: Bytes, e': Bytes)
    requires |e| == |x| == |e'| == 120
    ensures LogOf([Rec(e, [x]), Rec(e', [])]) == e + x + [0, 0, 0, 0] + e' + [0, 0, 0, 244]
  {
    assert Concat([x]) == x by {
      assert [x][..0] == [];
    }
    var recs := [Rec(e, [x]), Rec(e', [])];
    assert recs[..1] == [Rec(e, [x])] && recs[..1][..0] == [];
    assert LogOf(recs[..1]) == e + x + [0, 0, 0, 0];
    assert |LogOf(recs[..1])| == 244;
    assert LogOf(recs) == LogOf(recs[..1]) + (e' + [] + [0, 0, 0, 244]);
  }

  /** The names under which a frontier is kept: 'max_seq', 'max_pos', 'prev', 'pend_sc';
      and what is kept of a side chain. */
  lemma FrontierNames(v: Value, f: State)
    requires FrontierFile.StandsFor(v, f)
    ensures BipfSeek.LookupKey(v.entries, [109, 97, 120, 95, 115, 101, 113]) == Some(Int(f.maxSeq))
    ensures BipfSeek.LookupKey(v.entries, [109, 97, 120, 95, 112, 111, 115]) == Some(Int(f.maxPos))
    ensures BipfSeek.LookupKey(v.entries, [112, 114, 101, 118]) == Some(Raw(f.prev))
    ensures var p := BipfSeek.LookupKey(v.entries, [112, 101, 110, 100, 95, 115, 99]);
      && p.Some? && p.value.Dict?
      && forall s {:trigger f.pendSc[s]} :: s in f.pendSc ==>
           (Int(s), List([Int(f.pendSc[s].cnr), Int(f.pendSc[s].remain), Raw(f.pendSc[s].hptr), Int(f.pendSc[s].pos)])) in p.value.entries
  {
  }

  // --------------------------------------------------------------- packets

  /** The prefixes of a node: of 'tinySSB-0.1 GOset 1', and of 'tinyssb-v0want' and
      'tinyssb-v0blob' with the fingerprint of all keys. */
  lemma PrefixBytes(c: Crypto, state: Key)
    requires Sound(c)
    ensures Node.GosetPrefix(c) == c.sha([116, 105, 110, 121, 83, 83, 66, 45, 48, 46, 49, 32, 71, 79, 115, 101, 116, 32, 49])[..7]
    ensures Node.WantPrefix(c, state) == c.sha([116, 105, 110, 121, 115, 115, 98, 45, 118, 48, 119, 97, 110, 116] + state)[..7]
    ensures Node.BlobPrefix(c, state) == c.sha([116, 105, 110, 121, 115, 115, 98, 45, 118, 48, 98, 108, 111, 98] + state)[..7]
  {
    assert [116, 105, 110, 121, 115, 115, 98, 45, 118, 48, 119, 97, 110, 116] == PFX + Node.WANT;
    assert [116, 105, 110, 121, 115, 115, 98, 45, 118, 48, 98, 108, 111, 98] == PFX + Node.BLOB;
  }

  /** 'n' and a key; 'c', both ends, the fingerprint and the number of keys. */
  lemma MessageBytes(key: Key, lo: Key, hi: Key, xo: Key)
    ensures Reconciliation.Wire(Reconciliation.Novelty(key)) == [110] + key
    ensures Reconciliation.Wire(Reconciliation.Range(Claim(lo, hi, xo, 7))) == [99] + lo + hi + xo + [7]
  {
  }

  /** A fingerprint is a bitwise exclusive or. */
  lemma XorBytes()
    ensures XorNat(12, 10) == 6 && XorNat(255, 15) == 240
  {
    assert XorNat(0, 0) == 0;
    assert XorNat(1, 1) == 0 && XorNat(3, 2) == 1 && XorNat(6, 5) == 3;
    assert XorNat(3, 0) == 3 && XorNat(1, 0) == 1 && XorNat(7, 0) == 7 && XorNat(15, 0) == 15;
    assert XorNat(31, 1) == 30 && XorNat(63, 3) == 60 && XorNat(127, 7) == 120;
  }

  /** Places of feeds count from the end if they are negative. */
  lemma PlacesOfFeeds(keys: seq<Key>, i: int)
    requires |keys| == 3
    ensures Serving.KeyAt(keys, 0) == Serving.KeyAt(keys, -3) == Some(keys[0]) && Serving.KeyAt(keys, 2) == Serving.KeyAt(keys, -1) == Some(keys[2])
    ensures i >= 3 || i < -3 ==> Serving.KeyAt(keys, i) == None
    ensures Serving.AsInt(Bool(true)) == Some(1) && Serving.AsInt(Bool(false)) == Some(0) && Serving.AsInt(Str([49])) == None
  {
  }

  /** The bytes that end frames, and the byte that stands before their stand-ins. */
  lemma FrameBytes()
    ensures Kiss.Frame([0xc0, 1, 0xdb]) == [0xc0, 0xdb, 0xdc, 1, 0xdb, 0xdd, 0xc0]
  {
    var p: Bytes := [0xc0, 1, 0xdb];
    assert p[..2] == [0xc0, 1] && p[..2][..1] == [0xc0] && p[..2][..1][..0] == [];
    assert Kiss.Stuffed([0xc0]) == [0xdb, 0xdc];
    assert Kiss.Stuffed([0xc0, 1]) == [0xdb, 0xdc, 1];
  }
}
