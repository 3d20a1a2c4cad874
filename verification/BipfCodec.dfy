/** The encoder and the decoder as the program has them: writing at positions of a
    caller's buffer, and walking over a buffer with loops. */
module BipfCodec {
  import opened Basics
  import opened Utf8
  import opened Bipf
  import Varint

  /** `after` is `before` with the bytes `s` written at `pos`. */
  ghost predicate Written(before: Bytes, after: Bytes, pos: nat, s: Bytes) {
    pos + |s| <= |before| && after == before[..pos] + s + before[pos + |s|..]
  }

  lemma WrittenMore(a: Bytes, b: Bytes, c: Bytes, pos: nat, s: Bytes, t: Bytes)
    requires Written(a, b, pos, s) && Written(b, c, pos + |s|, t)
    ensures Written(a, c, pos, s + t)
  {
    assert b[..pos + |s|] == a[..pos] + s;
    assert b[pos + |s| + |t|..] == a[pos + |s| + |t|..];
  }

  /** A slice assignment. */
  method Put(buf: array<byte>, pos: nat, s: Bytes)
    requires pos + |s| <= buf.Length
    modifies buf
    ensures Written(old(buf[..]), buf[..], pos, s)
  {
    for i := 0 to |s|
      invariant buf[..pos] == old(buf[..pos]) && buf[pos + i..] == old(buf[pos + i..])
      invariant buf[pos..pos + i] == s[..i]
    {
      buf[pos + i] := s[i];
    }
    Varint.Framed(old(buf[..]), buf[..], pos, pos + |s|, s);
  }

  method Encode(v: Value, buf: array<byte>, pos: nat) returns (sz: nat)
    requires WellFormed(v) && pos + |Encoded(v)| <= buf.Length
    modifies buf
    ensures sz == |Encoded(v)| && Written(old(buf[..]), buf[..], pos, Encoded(v))
    decreases v, 1
  {
    hide Body, BodyLength, WellFormed, Varint.Encoded, Written;
    if v == Null {
      Put(buf, pos, [TYPE_BOOLNONE]);
      return 1;
    }
    var tag := BodyLength(v) * 8 + TypeOf(v);
    var sz1 := Varint.Encode(tag, buf, pos);
    ghost var mid := buf[..];
    var n := EncodeBody(v, buf, pos + sz1);
    WrittenMore(old(buf[..]), mid, buf[..], pos, Varint.Encoded(tag), Body(v));
    sz := sz1 + n;
  }

  method EncodeBody(v: Value, buf: array<byte>, pos: nat) returns (sz: nat)
    requires v != Null && WellFormed(v) && pos + |Body(v)| <= buf.Length
    modifies buf
    ensures sz == |Body(v)| && Written(old(buf[..]), buf[..], pos, Body(v))
    decreases v, 0
  {
    match v {
      case Bool(b) =>
        Put(buf, pos, [if b then 1 else 0]);
        return 1;
      case Int(i) =>
        sz := IntLength(i);
        IntFits(i);
        IntPrefix(i, sz, 8);
        Put(buf, pos, IntLE(i, 8)[..sz]);
      case Double(bits) =>
        Put(buf, pos, bits);
        return 8;
      case Str(text) =>
        Put(buf, pos, text);
        return |text|;
      case Raw(data) =>
        Put(buf, pos, data);
        return |data|;
      case List(items) =>
        sz := EncodeItems(items, buf, pos);
      case Dict(entries) =>
        sz := EncodeEntries(entries, buf, pos);
    }
  }

  /** A 64-bit integer never needs more than eight bytes. */
  lemma IntFits(i: int)
    requires WellFormed(Int(i))
    ensures IntLength(i) <= 8
  {
    var v := if i < 0 then -i - 1 else i;
    assert Pow256(1) == 256 && Pow256(3) == 0x100_0000 && Pow256(5) == 0x100_0000_0000 && Pow256(7) == 0x100_0000_0000_0000;
    BitsAndBytes(v, 8);
  }

  lemma {:induction false} ItemsSplit(items: seq<Value>, i: nat)
    requires i < |items|
    ensures Items(items[..i + 1]) == Items(items[..i]) + Encoded(items[i])
    ensures |Items(items[..i + 1])| <= |Items(items)|
  {
    ItemsAppend(items[..i], items[i..i + 1]);
    ItemsAppend(items[..i + 1], items[i + 1..]);
    assert items[..i] + items[i..i + 1] == items[..i + 1] && items[..i + 1] + items[i + 1..] == items;
    assert items[i..i + 1] == [items[i]] && Items([items[i]]) == Encoded(items[i]) + Items([]);
  }

  lemma {:induction false} ItemsAppend(a: seq<Value>, b: seq<Value>)
    ensures Items(a + b) == Items(a) + Items(b)
  {
    hide Encoded;
    if a == [] {
      assert a + b == b;
    } else {
      ItemsAppend(a[1..], b);
      assert (a + b)[1..] == a[1..] + b;
    }
  }

  lemma {:induction false} EntriesAppend(a: seq<(Value, Value)>, b: seq<(Value, Value)>)
    ensures Entries(a + b) == Entries(a) + Entries(b)
  {
    hide Encoded;
    if a == [] {
      assert a + b == b;
    } else {
      EntriesAppend(a[1..], b);
      assert (a + b)[1..] == a[1..] + b;
    }
  }

  lemma EntriesSplit(entries: seq<(Value, Value)>, i: nat)
    requires i < |entries|
    ensures Entries(entries[..i + 1]) == Entries(entries[..i]) + (Encoded(entries[i].0) + Encoded(entries[i].1))
    ensures |Entries(entries[..i + 1])| <= |Entries(entries)|
  {
    EntriesAppend(entries[..i], entries[i..i + 1]);
    EntriesAppend(entries[..i + 1], entries[i + 1..]);
    assert entries[..i] + entries[i..i + 1] == entries[..i + 1] && entries[..i + 1] + entries[i + 1..] == entries;
    assert entries[i..i + 1] == [entries[i]];
    assert Entries([entries[i]]) == Encoded(entries[i].0) + Encoded(entries[i].1) + Entries([]);
  }

  method EncodeItems(items: seq<Value>, buf: array<byte>, start: nat) returns (sz: nat)
    requires (forall x :: x in items ==> WellFormed(x)) && start + |Items(items)| <= buf.Length
    modifies buf
    ensures sz == |Items(items)| && Written(old(buf[..]), buf[..], start, Items(items))
    decreases items, 0
  {
    hide Encoded, WellFormed, Items, Written;
    var pos := start;
    NothingWritten(buf[..], start);
    assert items[..0] == [];
    for i := 0 to |items|
      invariant pos == start + |Items(items[..i])| && |buf[..]| == |old(buf[..])|
      invariant Written(old(buf[..]), buf[..], start, Items(items[..i]))
    {
      ItemsSplit(items, i);
      ghost var mid := buf[..];
      var n := Encode(items[i], buf, pos);
      WrittenMore(old(buf[..]), mid, buf[..], start, Items(items[..i]), Encoded(items[i]));
      pos := pos + n;
    }
    assert items[..|items|] == items;
    sz := pos - start;
  }

  lemma NothingWritten(a: Bytes, pos: nat)
    requires pos <= |a|
    ensures Items([]) == [] && Entries([]) == [] && Written(a, a, pos, [])
  {
  }

  method EncodeEntries(entries: seq<(Value, Value)>, buf: array<byte>, start: nat) returns (sz: nat)
    requires (forall e :: e in entries ==> WellFormed(e.0) && WellFormed(e.1)) && start + |Entries(entries)| <= buf.Length
    modifies buf
    ensures sz == |Entries(entries)| && Written(old(buf[..]), buf[..], start, Entries(entries))
    decreases entries, 0
  {
    hide Encoded, WellFormed, Entries, Written;
    var pos := start;
    NothingWritten(buf[..], start);
    assert entries[..0] == [];
    for i := 0 to |entries|
      invariant pos == start + |Entries(entries[..i])| && |buf[..]| == |old(buf[..])|
      invariant Written(old(buf[..]), buf[..], start, Entries(entries[..i]))
    {
      EntriesSplit(entries, i);
      var (k, v) := entries[i];
      assert k < entries[i] && v < entries[i] && entries[i] in entries;
      ghost var mid := buf[..];
      var n := Encode(k, buf, pos);
      ghost var mid2 := buf[..];
      var m := Encode(v, buf, pos + n);
      WrittenMore(mid, mid2, buf[..], pos, Encoded(k), Encoded(v));
      WrittenMore(old(buf[..]), mid, buf[..], start, Entries(entries[..i]), Encoded(k) + Encoded(v));
      pos := pos + n + m;
    }
    assert entries[..|entries|] == entries;
    sz := pos - start;
  }

  /** `dumps`: a buffer of the computed length is filled exactly. */
  method Dumps(v: Value) returns (s: Bytes)
    requires WellFormed(v)
    ensures s == Encoded(v)
  {
    LengthAgrees(v);
    var buf := new byte[EncodingLength(v)];
    var n := Encode(v, buf, 0);
    s := buf[..];
  }

  // ------------------------------------------------------------- decoding

  function Unsigned(s: Bytes): (v: nat)
    ensures v < Pow256(|s|)
  {
    if s == [] then 0 else s[0] + 256 * Unsigned(s[1..])
  }

  /** Two's complement is the unsigned value, less 2^(8n) if the top bit is set. */
  lemma {:induction false} SignedIsUnsigned(s: Bytes)
    requires s != []
    ensures Signed(s) == if Unsigned(s) < 128 * Pow256(|s| - 1) then Unsigned(s) else Unsigned(s) - Pow256(|s|)
  {
    if |s| == 1 {
      assert s[1..] == [];
    } else {
      SignedIsUnsigned(s[1..]);
    }
  }

  lemma {:induction false} UnsignedMore(s: Bytes, b: byte)
    ensures Unsigned(s + [b]) == Unsigned(s) + b * Pow256(|s|)
  {
    if s == [] {
      assert (s + [b])[1..] == [];
    } else {
      UnsignedMore(s[1..], b);
      assert (s + [b])[1..] == s[1..] + [b];
      var p := Pow256(|s| - 1);
      assert b * Pow256(|s|) == b * (256 * p) == 256 * (b * p);
    }
  }

  method DecodeInt(buf: Bytes, pos: nat, n: nat) returns (r: Option<(Value, nat)>)
    ensures r == if n == 0 || pos + n > |buf| then None else Some((Int(Signed(buf[pos..pos + n])), n))
  {
    if n == 0 {
      return None;
    }
    var val: nat, unit: nat := 0, 1;
    for i := 0 to n
      invariant pos + i <= |buf| || i == 0
      invariant unit == Pow256(i) && val == if i == 0 then 0 else Unsigned(buf[pos..pos + i])
    {
      if pos + i >= |buf| {
        return None;
      }
      assert i > 0 ==> buf[pos..pos + i + 1] == buf[pos..pos + i] + [buf[pos + i]];
      UnsignedMore(if i == 0 then [] else buf[pos..pos + i], buf[pos + i]);
      assert i == 0 ==> buf[pos..pos + 1] == [] + [buf[pos]];
      val := val + buf[pos + i] * unit;
      unit := unit * 256;
    }
    SignedIsUnsigned(buf[pos..pos + n]);
    var sign := unit / 2;
    r := Some((Int(if val < sign then val else val - unit), n));
  }

  method DecodeBody(tag: nat, buf: Bytes, pos: nat) returns (r: Option<(Value, nat)>)
    ensures r == DecodedBody(tag, buf, pos)
    decreases Left(buf, pos), 1
  {
    hide DecodedItems, DecodedEntries, Slice, Signed, Merged, IsUtf8;
    var t, n := tag % 8, tag / 8;
    if tag == TYPE_BOOLNONE {
      r := Some((Null, 0));
    } else if t == TYPE_RESERVED {
      r := None;
    } else if t == TYPE_BOOLNONE {
      r := if pos < |buf| then Some((Bool(buf[pos] != 0), 1)) else None;
    } else if t == TYPE_INT {
      r := DecodeInt(buf, pos, n);
    } else if t == TYPE_DOUBLE {
      r := if pos + 8 > |buf| then None else Some((Double(buf[pos..pos + 8]), 8));
    } else if t == TYPE_STRING {
      var text := Slice(buf, pos, n);
      r := if IsUtf8(text) then Some((Str(text), n)) else None;
    } else if t == TYPE_BYTES {
      r := Some((Raw(Slice(buf, pos, n)), n));
    } else if t == TYPE_LIST {
      r := DecodeItems(buf, pos, n);
    } else {
      r := DecodeEntries(buf, pos, n);
    }
  }

  method DecodeItems(buf: Bytes, start: nat, lim: nat) returns (r: Option<(Value, nat)>)
    ensures r == match DecodedItems(buf, start, start + lim) case None => None case Some(items) => Some((List(items), lim))
    decreases Left(buf, start), 0
  {
    hide Varint.Decoded, DecodedBody;
    var pos, end := start, start + lim;
    var items: seq<Value> := [];
    PrefixedEmpty(DecodedItems(buf, start, end));
    while pos < end
      invariant pos >= start
      invariant DecodedItems(buf, start, end) == Prefixed(items, DecodedItems(buf, pos, end))
      decreases Left(buf, pos)
    {
      var h := Varint.Decode(buf, pos);
      if h == None {
        return None;
      }
      HeaderInside(buf, pos);
      var b := DecodeBody(h.value.0, buf, pos + h.value.1);
      if b == None {
        return None;
      }
      pos := pos + h.value.1 + b.value.1;
      PrefixedStep(items, b.value.0, DecodedItems(buf, pos, end));
      items := items + [b.value.0];
    }
    PrefixedEnd(items);
    r := Some((List(items), lim));
  }

  function Prefixed<T>(a: seq<T>, r: Option<seq<T>>): Option<seq<T>> {
    match r
    case None => None
    case Some(more) => Some(a + more)
  }

  lemma PrefixedEmpty<T>(r: Option<seq<T>>)
    ensures Prefixed([], r) == r
  {
    assert r.Some? ==> [] + r.value == r.value;
  }

  lemma PrefixedStep<T>(a: seq<T>, x: T, r: Option<seq<T>>)
    ensures Prefixed(a, Prefixed([x], r)) == Prefixed(a + [x], r)
  {
    assert r.Some? ==> a + ([x] + r.value) == a + [x] + r.value;
  }

  lemma PrefixedEnd<T>(a: seq<T>)
    ensures Prefixed(a, Some([])) == Some(a)
  {
    assert a + [] == a;
  }

  /** One entry at a time. */
  lemma EntriesStep(buf: Bytes, pos: nat, end: nat)
    requires pos < end
    ensures DecodedEntries(buf, pos, end) ==
      match Varint.Decoded(buf, pos)
      case None => None
      case Some((tag, sz)) =>
        if tag % 8 == TYPE_LIST || tag % 8 == TYPE_DICT then None
        else
          match DecodedBody(tag, buf, pos + sz)
          case None => None
          case Some((k, n)) =>
            match Decoded(buf, pos + sz + n)
            case None => None
            case Some((v, m)) => Prefixed([(k, v)], DecodedEntries(buf, pos + sz + n + m, end))
  {
    hide Varint.Decoded, DecodedBody, Decoded;
  }

  lemma EntriesEnd(buf: Bytes, pos: nat, end: nat)
    requires pos >= end
    ensures DecodedEntries(buf, pos, end) == Some([])
  {
  }

  method DecodeEntries(buf: Bytes, start: nat, lim: nat) returns (r: Option<(Value, nat)>)
    ensures r == match DecodedEntries(buf, start, start + lim) case None => None case Some(entries) => Some((Dict(Merged(entries)), lim))
    decreases Left(buf, start), 0
  {
    hide Varint.Decoded, DecodedBody, Store, DecodedEntries, Decoded;
    var pos, end := start, start + lim;
    var d: seq<(Value, Value)> := [];
    ghost var seen: seq<(Value, Value)> := [];
    PrefixedEmpty(DecodedEntries(buf, start, end));
    while pos < end
      invariant pos >= start && d == Merged(seen)
      invariant DecodedEntries(buf, start, end) == Prefixed(seen, DecodedEntries(buf, pos, end))
      decreases Left(buf, pos)
    {
      EntriesStep(buf, pos, end);
      var h := Varint.Decode(buf, pos);
      if h == None {
        return None;
      }
      HeaderInside(buf, pos);
      if h.value.0 % 8 == TYPE_LIST || h.value.0 % 8 == TYPE_DICT {
        return None;
      }
      var k := DecodeBody(h.value.0, buf, pos + h.value.1);
      if k == None {
        return None;
      }
      var v := Decode(buf, pos + h.value.1 + k.value.1);
      if v == None {
        return None;
      }
      ghost var e := (k.value.0, v.value.0);
      assert (seen + [e])[..|seen|] == seen;
      pos := pos + h.value.1 + k.value.1 + v.value.1;
      PrefixedStep(seen, e, DecodedEntries(buf, pos, end));
      seen := seen + [e];
      d := Store(d, (k.value.0, v.value.0));
    }
    EntriesEnd(buf, pos, end);
    PrefixedEnd(seen);
    r := Some((Dict(d), lim));
  }

  method Decode(buf: Bytes, pos: nat) returns (r: Option<(Value, nat)>)
    ensures r == Decoded(buf, pos)
    decreases Left(buf, pos), 2
  {
    hide Varint.Decoded, DecodedBody;
    var h := Varint.Decode(buf, pos);
    if h == None {
      return None;
    }
    HeaderInside(buf, pos);
    var b := DecodeBody(h.value.0, buf, pos + h.value.1);
    if b == None {
      return None;
    }
    r := Some((b.value.0, h.value.1 + b.value.1));
  }

  /** What was dumped is loaded again. */
  method DumpAndLoad(v: Value) returns (w: Option<(Value, nat)>)
    requires WellFormed(v)
    ensures w == Some((v, EncodingLength(v)))
  {
    var s := Dumps(v);
    RoundTrip(v, s, 0);
    LengthAgrees(v);
    w := Decode(s, 0);
  }
}
