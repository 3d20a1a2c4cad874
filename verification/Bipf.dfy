/** The binary in-place format: nested, self-delimiting values. */
module Bipf {
  import opened Basics
  import opened Utf8
  import Varint

  const TYPE_STRING := 0
  const TYPE_BYTES := 1
  const TYPE_INT := 2
  const TYPE_DOUBLE := 3
  const TYPE_LIST := 4
  const TYPE_DICT := 5
  const TYPE_BOOLNONE := 6
  const TYPE_RESERVED := 7

  /** A string is given by its bytes, a double by its eight bytes. */
  datatype Value =
    | Null
    | Bool(b: bool)
    | Int(i: int)
    | Double(bits: Bytes)
    | Str(text: Bytes)
    | Raw(data: Bytes)
    | List(items: seq<Value>)
    | Dict(entries: seq<(Value, Value)>)

  function TypeOf(v: Value): (t: nat)
    ensures t < 8
  {
    match v
    case Null => TYPE_BOOLNONE
    case Bool(_) => TYPE_BOOLNONE
    case Int(_) => TYPE_INT
    case Double(_) => TYPE_DOUBLE
    case Str(_) => TYPE_STRING
    case Raw(_) => TYPE_BYTES
    case List(_) => TYPE_LIST
    case Dict(_) => TYPE_DICT
  }

  /** What the encoder accepts: integers of 64 bits, ASCII strings, dictionaries
      with distinct keys that are not containers. */
  predicate WellFormed(v: Value) {
    match v
    case Null => true
    case Bool(_) => true
    case Int(i) => -0x8000_0000_0000_0000 <= i < 0x8000_0000_0000_0000
    case Double(bits) => |bits| == 8
    case Str(text) => forall c :: c in text ==> c < 128
    case Raw(_) => true
    case List(items) => forall x :: x in items ==> WellFormed(x)
    case Dict(entries) =>
      && (forall e :: e in entries ==> WellFormed(e.0) && WellFormed(e.1) && !e.0.List? && !e.0.Dict?)
      && (forall i, j :: 0 <= i < j < |entries| ==> entries[i].0 != entries[j].0)
  }

  // ------------------------------------------------------------- integers

  /** Little endian, two's complement. */
  function IntLE(i: int, n: nat): (s: Bytes)
    ensures |s| == n
    decreases n
  {
    if n == 0 then [] else [i % 256] + IntLE(i / 256, n - 1)
  }

  function IntLength(i: int): (n: nat)
    ensures n >= 1
  {
    1 + Varint.BitLength(if i < 0 then -i - 1 else i) / 8
  }

  /** The value of two's complement bytes. */
  function Signed(s: Bytes): int
    requires s != []
  {
    if |s| == 1 then (if s[0] < 128 then s[0] else s[0] - 256) else s[0] + 256 * Signed(s[1..])
  }

  lemma {:induction false} IntRoundTrip(i: int, n: nat)
    requires n >= 1 && -128 * Pow256(n - 1) <= i < 128 * Pow256(n - 1)
    ensures Signed(IntLE(i, n)) == i
    decreases n
  {
    if n > 1 {
      IntRoundTrip(i / 256, n - 1);
      assert IntLE(i, n)[1..] == IntLE(i / 256, n - 1);
    }
  }

  lemma {:induction false} IntPrefix(i: int, n: nat, m: nat)
    requires n <= m
    ensures IntLE(i, m)[..n] == IntLE(i, n)
    decreases n
  {
    if n > 0 {
      IntPrefix(i / 256, n - 1, m - 1);
      assert IntLE(i, m)[..n] == [i % 256] + IntLE(i / 256, m - 1)[..n - 1];
    }
  }

  /** A magnitude below 2^(8n-1) has a bit length that fits n bytes, and back. */
  lemma {:induction false} BitsAndBytes(v: nat, n: nat)
    requires n >= 1
    ensures v < 128 * Pow256(n - 1) <==> Varint.BitLength(v) <= 8 * n - 1
    decreases n
  {
    if n == 1 {
      if v < 128 {
        if v > 0 {
          Varint.SmallBits(v);
        }
      } else {
        Varint.BitLengthShift(v);
      }
    } else {
      BitsAndBytes(v / 256, n - 1);
      if v >= 256 {
        Varint.BitLengthShift(v);
        assert v / 128 / 2 == v / 256;
        assert Varint.BitLength(v / 128) == 1 + Varint.BitLength(v / 256);
      } else {
        BitsAndBytes(v, 1);
        if v >= 128 {
          Varint.BitLengthShift(v);
          assert v / 128 == 1 && Varint.BitLength(1) == 1 + Varint.BitLength(0);
        }
      }
    }
  }

  /** The encoder uses the fewest bytes whose two's complement holds the value. */
  lemma IntLengthMinimal(i: int)
    ensures var n := IntLength(i);
      && -128 * Pow256(n - 1) <= i < 128 * Pow256(n - 1)
      && (n > 1 ==> !(-128 * Pow256(n - 2) <= i < 128 * Pow256(n - 2)))
  {
    var n, v := IntLength(i), if i < 0 then -i - 1 else i;
    BitsAndBytes(v, n);
    if n > 1 {
      BitsAndBytes(v, n - 1);
    }
  }

  // ------------------------------------------------------------- encoding

  function BodyLength(v: Value): nat
    decreases v, 0
  {
    match v
    case Null => 0
    case Bool(_) => 1
    case Int(i) => IntLength(i)
    case Double(_) => 8
    case Str(text) => |text|
    case Raw(data) => |data|
    case List(items) => ItemsLength(items)
    case Dict(entries) => EntriesLength(entries)
  }

  function EncodingLength(v: Value): nat
    decreases v, 1
  {
    if v == Null then 1 else Varint.EncodingLength(BodyLength(v) * 8) + BodyLength(v)
  }

  function ItemsLength(items: seq<Value>): nat {
    if items == [] then 0 else EncodingLength(items[0]) + ItemsLength(items[1..])
  }

  function EntriesLength(entries: seq<(Value, Value)>): nat {
    if entries == [] then 0 else
      var (k, v) := entries[0];
      assert k < entries[0] && v < entries[0];
      EncodingLength(k) + EncodingLength(v) + EntriesLength(entries[1..])
  }

  function Encoded(v: Value): (s: Bytes)
    ensures |s| >= 1
    decreases v, 1
  {
    if v == Null then [TYPE_BOOLNONE]
    else Varint.Encoded(BodyLength(v) * 8 + TypeOf(v)) + Body(v)
  }

  function Body(v: Value): Bytes
    decreases v, 0
  {
    match v
    case Null => []
    case Bool(b) => [if b then 1 else 0]
    case Int(i) => IntLE(i, IntLength(i))
    case Double(bits) => bits
    case Str(text) => text
    case Raw(data) => data
    case List(items) => Items(items)
    case Dict(entries) => Entries(entries)
  }

  function Items(items: seq<Value>): Bytes {
    if items == [] then [] else Encoded(items[0]) + Items(items[1..])
  }

  function Entries(entries: seq<(Value, Value)>): Bytes {
    if entries == [] then [] else
      var (k, v) := entries[0];
      assert k < entries[0] && v < entries[0];
      Encoded(k) + Encoded(v) + Entries(entries[1..])
  }

  /** Type bits below the length bits do not lengthen the tag. */
  lemma TagLength(n: nat, t: nat)
    requires t < 8
    ensures Varint.EncodingLength(n * 8) == |Varint.Encoded(n * 8 + t)|
  {
    Varint.LengthAgrees(n * 8 + t);
    if n == 0 {
      if t > 0 {
        Varint.SmallBits(t);
      }
    } else {
      var a, b := n * 8, n * 8 + t;
      assert a / 2 / 2 / 2 == n == b / 2 / 2 / 2;
      assert Varint.BitLength(a) == 1 + Varint.BitLength(a / 2);
      assert Varint.BitLength(a / 2) == 1 + Varint.BitLength(a / 2 / 2);
      assert Varint.BitLength(a / 2 / 2) == 1 + Varint.BitLength(n);
      assert Varint.BitLength(b) == 1 + Varint.BitLength(b / 2);
      assert Varint.BitLength(b / 2) == 1 + Varint.BitLength(b / 2 / 2);
      assert Varint.BitLength(b / 2 / 2) == 1 + Varint.BitLength(n);
    }
  }

  /** `encode` writes exactly as many bytes as `encodingLength` says. */
  lemma {:induction false} LengthAgrees(v: Value)
    requires WellFormed(v)
    ensures |Encoded(v)| == EncodingLength(v) && |Body(v)| == BodyLength(v)
    decreases v
  {
    match v {
      case List(items) => ItemsLengthAgrees(items);
      case Dict(entries) => EntriesLengthAgrees(entries);
      case _ =>
    }
    TagLength(BodyLength(v), TypeOf(v));
  }

  lemma {:induction false} ItemsLengthAgrees(items: seq<Value>)
    requires forall x :: x in items ==> WellFormed(x)
    ensures |Items(items)| == ItemsLength(items)
    decreases items
  {
    if items != [] {
      LengthAgrees(items[0]);
      ItemsLengthAgrees(items[1..]);
    }
  }

  lemma {:induction false} EntriesLengthAgrees(entries: seq<(Value, Value)>)
    requires forall e :: e in entries ==> WellFormed(e.0) && WellFormed(e.1)
    ensures |Entries(entries)| == EntriesLength(entries)
    decreases entries
  {
    if entries != [] {
      var (k, v) := entries[0];
      assert k < entries[0] && v < entries[0];
      LengthAgrees(k);
      LengthAgrees(v);
      EntriesLengthAgrees(entries[1..]);
    }
  }

  // ------------------------------------------------------------- decoding

  lemma HeaderInside(buf: Bytes, pos: nat)
    requires Varint.Decoded(buf, pos).Some?
    ensures Varint.Decoded(buf, pos).value.1 >= 1 && pos < |buf|
  {
  }

  function Left(buf: Bytes, pos: nat): nat {
    if pos < |buf| then |buf| - pos else 0
  }

  /** The value at `pos` and its size; None where the decoder raises an exception. */
  function Decoded(buf: Bytes, pos: nat): Option<(Value, nat)>
    decreases Left(buf, pos), 2
  {
    match Varint.Decoded(buf, pos)
    case None => None
    case Some((tag, sz)) =>
      match DecodedBody(tag, buf, pos + sz)
      case None => None
      case Some((v, n)) => Some((v, sz + n))
  }

  function DecodedBody(tag: nat, buf: Bytes, pos: nat): Option<(Value, nat)>
    decreases Left(buf, pos), 1
  {
    var t, n := tag % 8, tag / 8;
    if tag == TYPE_BOOLNONE then Some((Null, 0))
    else if t == TYPE_RESERVED then None
    else if t == TYPE_BOOLNONE then
      if pos < |buf| then Some((Bool(buf[pos] != 0), 1)) else None
    else if t == TYPE_INT then
      if n == 0 || pos + n > |buf| then None else Some((Int(Signed(buf[pos..pos + n])), n))
    else if t == TYPE_DOUBLE then
      if pos + 8 > |buf| then None else Some((Double(buf[pos..pos + 8]), 8))
    else if t == TYPE_STRING then
      if IsUtf8(Slice(buf, pos, n)) then Some((Str(Slice(buf, pos, n)), n)) else None
    else if t == TYPE_BYTES then Some((Raw(Slice(buf, pos, n)), n))
    else if t == TYPE_LIST then
      match DecodedItems(buf, pos, pos + n)
      case None => None
      case Some(items) => Some((List(items), n))
    else
      match DecodedEntries(buf, pos, pos + n)
      case None => None
      case Some(entries) => Some((Dict(Merged(entries)), n))
  }

  function DecodedItems(buf: Bytes, pos: nat, end: nat): Option<seq<Value>>
    decreases Left(buf, pos), 0
  {
    if pos >= end then Some([])
    else
      match Varint.Decoded(buf, pos)
      case None => None
      case Some((tag, sz)) =>
        match DecodedBody(tag, buf, pos + sz)
        case None => None
        case Some((v, n)) =>
          match DecodedItems(buf, pos + sz + n, end)
          case None => None
          case Some(more) => Some([v] + more)
  }

  function DecodedEntries(buf: Bytes, pos: nat, end: nat): Option<seq<(Value, Value)>>
    decreases Left(buf, pos), 0
  {
    if pos >= end then Some([])
    else
      match Varint.Decoded(buf, pos)
      case None => None
      case Some((tag, sz)) =>
        if tag % 8 == TYPE_LIST || tag % 8 == TYPE_DICT then None
        else
          match DecodedBody(tag, buf, pos + sz)
          case None => None
          case Some((k, n)) =>
            match Decoded(buf, pos + sz + n)
            case None => None
            case Some((v, m)) =>
              match DecodedEntries(buf, pos + sz + n + m, end)
              case None => None
              case Some(more) => Some([(k, v)] + more)
  }

  /** Storing the entries one by one: a key that comes again keeps its place and
      takes the new value. */
  function Merged(entries: seq<(Value, Value)>): seq<(Value, Value)> {
    if entries == [] then [] else Store(Merged(entries[..|entries| - 1]), entries[|entries| - 1])
  }

  function Store(d: seq<(Value, Value)>, e: (Value, Value)): seq<(Value, Value)> {
    if d == [] then [e]
    else if d[0].0 == e.0 then [e] + d[1..]
    else [d[0]] + Store(d[1..], e)
  }

  lemma {:induction false} StoreNew(d: seq<(Value, Value)>, e: (Value, Value))
    requires forall i :: 0 <= i < |d| ==> d[i].0 != e.0
    ensures Store(d, e) == d + [e]
  {
    if d != [] {
      StoreNew(d[1..], e);
      assert d == [d[0]] + d[1..];
    }
  }

  ghost predicate DistinctKeys(d: seq<(Value, Value)>) {
    forall i, j :: 0 <= i < j < |d| ==> d[i].0 != d[j].0
  }

  /** A known key takes the new value in its old place; a new key goes to the end. */
  lemma {:induction false} StoreMeans(d: seq<(Value, Value)>, e: (Value, Value))
    requires DistinctKeys(d)
    ensures DistinctKeys(Store(d, e))
    ensures forall i {:trigger d[i]} :: 0 <= i < |d| && d[i].0 == e.0 ==> Store(d, e) == d[i := e]
    ensures (forall i :: 0 <= i < |d| ==> d[i].0 != e.0) ==> Store(d, e) == d + [e]
  {
    if d != [] && d[0].0 != e.0 {
      var rest := d[1..];
      StoreMeans(rest, e);
      assert d == [d[0]] + rest;
      forall i {:trigger d[i]} | 0 <= i < |d| && d[i].0 == e.0 ensures Store(d, e) == d[i := e] {
        assert rest[i - 1] == d[i];
      }
      if forall i :: 0 <= i < |rest| ==> rest[i].0 != e.0 {
        StoreNew(d, e);
      }
    }
  }

  /** Each key is there once, with the value that came last. */
  lemma {:induction false} MergedMeans(entries: seq<(Value, Value)>)
    ensures DistinctKeys(Merged(entries))
    ensures forall j {:trigger entries[j]} :: 0 <= j < |entries| && (forall k :: j < k < |entries| ==> entries[k].0 != entries[j].0) ==> entries[j] in Merged(entries)
    ensures forall e :: e in Merged(entries) ==> e in entries
  {
    hide Store;
    if entries != [] {
      var front, last := entries[..|entries| - 1], entries[|entries| - 1];
      var d := Merged(front);
      MergedMeans(front);
      StoreMeans(d, last);
      StoreMembers(d, last);
      forall j {:trigger entries[j]} | 0 <= j < |entries| && (forall k :: j < k < |entries| ==> entries[k].0 != entries[j].0) ensures entries[j] in Merged(entries) {
        if j < |front| {
          assert front[j] == entries[j] && entries[|entries| - 1].0 != entries[j].0;
        }
      }
    }
  }

  lemma StoreMembers(d: seq<(Value, Value)>, e: (Value, Value))
    requires DistinctKeys(d)
    ensures e in Store(d, e) && (forall x :: x in Store(d, e) ==> x == e || x in d)
    ensures forall x :: x in d && x.0 != e.0 ==> x in Store(d, e)
  {
    hide Store;
    StoreMeans(d, e);
    if i :| 0 <= i < |d| && d[i].0 == e.0 {
      assert Store(d, e) == d[i := e] && d[i := e][i] == e;
      forall x | x in d && x.0 != e.0 ensures x in Store(d, e) {
        var j :| 0 <= j < |d| && d[j] == x;
        assert d[i := e][j] == x;
      }
    }
  }

  lemma {:induction false} MergedDistinct(entries: seq<(Value, Value)>)
    requires forall i, j :: 0 <= i < j < |entries| ==> entries[i].0 != entries[j].0
    ensures Merged(entries) == entries
  {
    if entries != [] {
      var front := entries[..|entries| - 1];
      MergedDistinct(front);
      StoreNew(front, entries[|entries| - 1]);
      assert entries == front + [entries[|entries| - 1]];
    }
  }

  // ----------------------------------------------------------- round trip

  /** At any offset, with any bytes before and after, decoding an encoded value
      gives the value back, and its exact length. */
  lemma {:induction false} RoundTrip(v: Value, buf: Bytes, pos: nat)
    requires WellFormed(v) && At(buf, pos, Encoded(v))
    ensures Decoded(buf, pos) == Some((v, |Encoded(v)|))
    decreases v, 1
  {
    hide WellFormed, Body, DecodedBody, BodyLength, TypeOf, At, Varint.Decoded, Varint.Encoded;
    if v == Null {
      NullRoundTrip(buf, pos);
    } else {
      var tag := BodyLength(v) * 8 + TypeOf(v);
      AtSplit(buf, pos, Varint.Encoded(tag), Body(v));
      Varint.RoundTrip(tag, buf, pos);
      BodyRoundTrip(v, buf, pos + |Varint.Encoded(tag)|);
    }
  }

  lemma NullRoundTrip(buf: Bytes, pos: nat)
    requires At(buf, pos, Encoded(Null))
    ensures Decoded(buf, pos) == Some((Null, 1))
  {
    AtByte(buf, pos, Encoded(Null), 0);
  }

  lemma {:induction false} BodyRoundTrip(v: Value, buf: Bytes, pos: nat)
    requires v != Null && WellFormed(v) && At(buf, pos, Body(v))
    ensures DecodedBody(BodyLength(v) * 8 + TypeOf(v), buf, pos) == Some((v, |Body(v)|))
    decreases v, 0
  {
    hide DecodedBody, DecodedItems, DecodedEntries, Merged;
    LengthAgrees(v);
    match v {
      case Int(i) => IntBody(i, buf, pos);
      case List(items) =>
        ItemsRoundTrip(items, buf, pos);
        ContainerBody(v, buf, pos);
      case Dict(entries) =>
        EntriesRoundTrip(entries, buf, pos);
        MergedDistinct(entries);
        ContainerBody(v, buf, pos);
      case _ => AtomBody(v, buf, pos);
    }
  }

  lemma AtomBody(v: Value, buf: Bytes, pos: nat)
    requires v.Bool? || v.Double? || v.Str? || v.Raw?
    requires WellFormed(v) && At(buf, pos, Body(v)) && |Body(v)| == BodyLength(v)
    ensures DecodedBody(BodyLength(v) * 8 + TypeOf(v), buf, pos) == Some((v, |Body(v)|))
  {
    hide Signed, DecodedItems, DecodedEntries, Merged, IsUtf8;
    if v.Bool? {
      AtByte(buf, pos, Body(v), 0);
    } else if v.Str? {
      AsciiIsUtf8(v.text);
    }
  }

  lemma IntBody(i: int, buf: Bytes, pos: nat)
    requires At(buf, pos, Body(Int(i)))
    ensures DecodedBody(BodyLength(Int(i)) * 8 + TypeOf(Int(i)), buf, pos) == Some((Int(i), |Body(Int(i))|))
  {
    hide Signed, IntLE, IntLength, DecodedItems, DecodedEntries, Merged, IsUtf8;
    IntLengthMinimal(i);
    IntRoundTrip(i, IntLength(i));
  }

  lemma ContainerBody(v: Value, buf: Bytes, pos: nat)
    requires v.List? || v.Dict?
    requires |Body(v)| == BodyLength(v)
    requires v.List? ==> DecodedItems(buf, pos, pos + |Items(v.items)|) == Some(v.items)
    requires v.Dict? ==> DecodedEntries(buf, pos, pos + |Entries(v.entries)|) == Some(v.entries) && Merged(v.entries) == v.entries
    ensures DecodedBody(BodyLength(v) * 8 + TypeOf(v), buf, pos) == Some((v, |Body(v)|))
  {
    hide Signed, DecodedItems, DecodedEntries, Merged, IsUtf8, Items, Entries, ItemsLength, EntriesLength;
  }

  lemma {:induction false} ItemsRoundTrip(items: seq<Value>, buf: Bytes, pos: nat)
    requires (forall x :: x in items ==> WellFormed(x)) && At(buf, pos, Items(items))
    ensures DecodedItems(buf, pos, pos + |Items(items)|) == Some(items)
    decreases items, 0
  {
    hide WellFormed, At, Encoded, DecodedBody;
    if items != [] {
      var n := |Encoded(items[0])|;
      AtSplit(buf, pos, Encoded(items[0]), Items(items[1..]));
      RoundTrip(items[0], buf, pos);
      ItemsRoundTrip(items[1..], buf, pos + n);
      assert items == [items[0]] + items[1..];
    }
  }

  lemma {:induction false} EntriesRoundTrip(entries: seq<(Value, Value)>, buf: Bytes, pos: nat)
    requires forall e :: e in entries ==> WellFormed(e.0) && WellFormed(e.1) && !e.0.List? && !e.0.Dict?
    requires At(buf, pos, Entries(entries))
    ensures DecodedEntries(buf, pos, pos + |Entries(entries)|) == Some(entries)
    decreases entries, 0
  {
    hide WellFormed, At, Encoded, Decoded, DecodedBody;
    if entries != [] {
      var (k, v) := entries[0];
      var more := entries[1..];
      assert k < entries[0] && v < entries[0];
      assert Encoded(k) + Encoded(v) + Entries(more) == Encoded(k) + (Encoded(v) + Entries(more));
      AtSplit(buf, pos, Encoded(k), Encoded(v) + Entries(more));
      AtSplit(buf, pos + |Encoded(k)|, Encoded(v), Entries(more));
      RoundTrip(k, buf, pos);
      RoundTrip(v, buf, pos + |Encoded(k)|);
      EntriesRoundTrip(more, buf, pos + |Encoded(k)| + |Encoded(v)|);
      KeyTag(k, buf, pos);
      hide Entries;
      EntryStep(buf, pos, k, |Encoded(k)|, v, |Encoded(v)|, more, pos + |Entries(entries)|);
      assert entries == [(k, v)] + more;
    }
  }

  lemma EntryStep(buf: Bytes, pos: nat, k: Value, n: nat, v: Value, m: nat, more: seq<(Value, Value)>, end: nat)
    requires pos < end && Decoded(buf, pos) == Some((k, n)) && Decoded(buf, pos + n) == Some((v, m))
    requires Varint.Decoded(buf, pos).value.0 % 8 != TYPE_LIST && Varint.Decoded(buf, pos).value.0 % 8 != TYPE_DICT
    requires DecodedEntries(buf, pos + n + m, end) == Some(more)
    ensures DecodedEntries(buf, pos, end) == Some([(k, v)] + more)
  {
    hide DecodedBody;
  }

  /** The header of an encoded value gives its type and the size of its body. */
  lemma Header(v: Value, buf: Bytes, pos: nat)
    requires WellFormed(v) && At(buf, pos, Encoded(v))
    ensures var d := Varint.Decoded(buf, pos);
      && d.Some? && d.value.0 % 8 == TypeOf(v) && d.value.0 / 8 == |Body(v)|
      && d.value.1 + |Body(v)| == |Encoded(v)| && At(buf, pos + d.value.1, Body(v))
  {
    hide WellFormed, Body, BodyLength, EncodingLength, TypeOf, Varint.Encoded;
    if v == Null {
      NullHeader(buf, pos);
    } else {
      var tag := BodyLength(v) * 8 + TypeOf(v);
      TypeBelow(v);
      LengthAgrees(v);
      AtSplit(buf, pos, Varint.Encoded(tag), Body(v));
      Varint.RoundTrip(tag, buf, pos);
    }
  }

  lemma TypeBelow(v: Value)
    ensures TypeOf(v) < 8
  {
  }

  lemma NullHeader(buf: Bytes, pos: nat)
    requires At(buf, pos, Encoded(Null))
    ensures var d := Varint.Decoded(buf, pos);
      && d.Some? && d.value.0 % 8 == TypeOf(Null) && d.value.0 / 8 == |Body(Null)|
      && d.value.1 + |Body(Null)| == |Encoded(Null)| && At(buf, pos + d.value.1, Body(Null))
  {
    AtByte(buf, pos, Encoded(Null), 0);
  }

  lemma KeyTag(k: Value, buf: Bytes, pos: nat)
    requires WellFormed(k) && At(buf, pos, Encoded(k))
    ensures Varint.Decoded(buf, pos).Some? && Varint.Decoded(buf, pos).value.0 % 8 == TypeOf(k)
  {
    hide WellFormed, At, Encoded, Body, Varint.Decoded;
    Header(k, buf, pos);
  }

  /** Encodings delimit themselves: none is a proper prefix of another. */
  lemma PrefixFree(v: Value, w: Value, rest: Bytes)
    requires WellFormed(v) && WellFormed(w) && Encoded(w) == Encoded(v) + rest
    ensures v == w && rest == []
  {
    RoundTrip(v, Encoded(w), 0);
    RoundTrip(w, Encoded(w), 0);
  }
}
