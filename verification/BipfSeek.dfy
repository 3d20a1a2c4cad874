/** Navigation in an encoded value without decoding it. */
module BipfSeek {
  import opened Basics
  import opened Bipf
  import Varint

  /** Where the value of `key` starts among the entries from `pos` to `end`, -1 if
      there is none; None where the walk runs off the buffer. */
  function KeyOffsetFrom(buf: Bytes, key: Bytes, pos: nat, end: nat): Option<int>
    decreases Left(buf, pos)
  {
    if pos >= end then Some(-1)
    else
      match Varint.Decoded(buf, pos)
      case None => None
      case Some((tag, sz)) =>
        var p, n := pos + sz, tag / 8;
        if tag % 8 == TYPE_STRING && n == |key| && Slice(buf, p, n) == key then Some(p + n)
        else
          match Varint.Decoded(buf, p + n)
          case None => None
          case Some((tag', sz')) => KeyOffsetFrom(buf, key, p + n + sz' + tag' / 8, end)
  }

  function KeyOffset(buf: Bytes, key: Bytes, pos: nat): Option<int> {
    match Varint.Decoded(buf, pos)
    case None => None
    case Some((tag, sz)) =>
      if tag % 8 != TYPE_DICT then Some(-1) else KeyOffsetFrom(buf, key, pos + sz, pos + sz + tag / 8)
  }

  function PathOffset(buf: Bytes, path: seq<Bytes>, pos: nat): Option<int>
    requires path != []
  {
    if |path| == 1 then KeyOffset(buf, path[0], pos)
    else
      match KeyOffset(buf, path[0], pos)
      case None => None
      case Some(q) => if q < 0 then Some(-1) else PathOffset(buf, path[1..], q)
  }

  // ------------------------------------------------ looking up in the value

  function LookupKey(entries: seq<(Value, Value)>, key: Bytes): Option<Value> {
    if entries == [] then None
    else if entries[0].0 == Str(key) then Some(entries[0].1)
    else LookupKey(entries[1..], key)
  }

  function Lookup(v: Value, path: seq<Bytes>): Option<Value>
    decreases |path|
  {
    if path == [] then Some(v)
    else if !v.Dict? then None
    else
      match LookupKey(v.entries, path[0])
      case None => None
      case Some(w) => Lookup(w, path[1..])
  }

  // ------------------------------------------------------------- agreement

  /** The place found for `key`, if there is one, holds the encoding of its value. */
  ghost predicate Found(buf: Bytes, r: Option<int>, w: Option<Value>) {
    match w
    case None => r == Some(-1)
    case Some(v) => r.Some? && r.value >= 0 && At(buf, r.value, Encoded(v)) && WellFormed(v)
  }

  /** The walk, one entry at a time. */
  lemma KeyStep(buf: Bytes, key: Bytes, pos: nat, end: nat)
    requires pos < end
    ensures KeyOffsetFrom(buf, key, pos, end) ==
      match Varint.Decoded(buf, pos)
      case None => None
      case Some((tag, sz)) =>
        if tag % 8 == TYPE_STRING && tag / 8 == |key| && Slice(buf, pos + sz, tag / 8) == key then Some(pos + sz + tag / 8)
        else
          match Varint.Decoded(buf, pos + sz + tag / 8)
          case None => None
          case Some((tag', sz')) => KeyOffsetFrom(buf, key, pos + sz + tag / 8 + sz' + tag' / 8, end)
  {
    hide Varint.Decoded, Slice;
  }

  lemma {:induction false} KeyAmongEntries(entries: seq<(Value, Value)>, buf: Bytes, key: Bytes, pos: nat)
    requires forall e :: e in entries ==> WellFormed(e.0) && WellFormed(e.1)
    requires At(buf, pos, Entries(entries))
    ensures Found(buf, KeyOffsetFrom(buf, key, pos, pos + |Entries(entries)|), LookupKey(entries, key))
    decreases |entries|
  {
    hide WellFormed, At, Encoded, Body, KeyOffsetFrom, Slice;
    if entries == [] {
      assert KeyOffsetFrom(buf, key, pos, pos) == Some(-1) by { KeyPast(buf, key, pos, pos); }
    } else {
      KeyStep(buf, key, pos, pos + |Entries(entries)|);
      var (k, v) := entries[0];
      var more := entries[1..];
      assert Encoded(k) + Encoded(v) + Entries(more) == Encoded(k) + (Encoded(v) + Entries(more));
      AtSplit(buf, pos, Encoded(k), Encoded(v) + Entries(more));
      AtSplit(buf, pos + |Encoded(k)|, Encoded(v), Entries(more));
      Header(k, buf, pos);
      Header(v, buf, pos + |Encoded(k)|);
      KeyMatches(k, buf, key, pos);
      KeyAmongEntries(more, buf, key, pos + |Encoded(k)| + |Encoded(v)|);
    }
  }

  lemma KeyPast(buf: Bytes, key: Bytes, pos: nat, end: nat)
    requires pos >= end
    ensures KeyOffsetFrom(buf, key, pos, end) == Some(-1)
  {
  }

  /** The comparison of types, lengths and bytes is the comparison of keys. */
  lemma KeyMatches(k: Value, buf: Bytes, key: Bytes, pos: nat)
    requires WellFormed(k) && At(buf, pos, Encoded(k))
    requires Varint.Decoded(buf, pos).Some?
    ensures var (tag, sz) := Varint.Decoded(buf, pos).value;
      tag % 8 == TYPE_STRING && tag / 8 == |key| && Slice(buf, pos + sz, tag / 8) == key <==> k == Str(key)
  {
    Header(k, buf, pos);
  }

  lemma DictParts(v: Value)
    requires v.Dict? && WellFormed(v)
    ensures Body(v) == Entries(v.entries)
    ensures forall e :: e in v.entries ==> WellFormed(e.0) && WellFormed(e.1)
  {
  }

  lemma KeyFound(v: Value, buf: Bytes, key: Bytes, pos: nat)
    requires WellFormed(v) && At(buf, pos, Encoded(v))
    ensures if v.Dict? then Found(buf, KeyOffset(buf, key, pos), LookupKey(v.entries, key)) else KeyOffset(buf, key, pos) == Some(-1)
  {
    hide At, WellFormed, Encoded, Found, KeyOffsetFrom, LookupKey;
    Header(v, buf, pos);
    if v.Dict? {
      DictParts(v);
      KeyAmongEntries(v.entries, buf, key, pos + Varint.Decoded(buf, pos).value.1);
    }
  }

  /** In-place navigation agrees with decoding: `seekPath` on an encoded value
      returns -1 exactly if the path leads nowhere in the value, and otherwise an
      offset at which decoding gives the value the path leads to. */
  lemma {:induction false} PathFound(v: Value, buf: Bytes, path: seq<Bytes>, pos: nat)
    requires WellFormed(v) && At(buf, pos, Encoded(v)) && path != []
    ensures match Lookup(v, path)
      case None => PathOffset(buf, path, pos) == Some(-1)
      case Some(w) =>
        var r := PathOffset(buf, path, pos);
        r.Some? && r.value >= 0 && Decoded(buf, r.value) == Some((w, |Encoded(w)|))
    decreases |path|
  {
    hide WellFormed, At, Encoded, KeyOffset, LookupKey, Decoded;
    KeyFound(v, buf, path[0], pos);
    if v.Dict? && LookupKey(v.entries, path[0]).Some? {
      var w := LookupKey(v.entries, path[0]).value;
      var q := KeyOffset(buf, path[0], pos).value;
      if |path| == 1 {
        assert Lookup(w, path[1..]) == Some(w);
        RoundTrip(w, buf, q);
      } else {
        PathFound(w, buf, path[1..], q);
      }
    }
  }

  // -------------------------------------------------------------- the loops

  method SeekKey(buf: Bytes, key: Bytes, start: nat) returns (r: Option<int>)
    ensures r == KeyOffset(buf, key, start)
  {
    hide Slice, KeyOffsetFrom, Varint.Decoded;
    var h := Varint.Decode(buf, start);
    if h == None {
      return None;
    }
    var (tag, sz) := h.value;
    var pos: nat := start + sz;
    if tag % 8 != TYPE_DICT {
      return Some(-1);
    }
    var end := pos + tag / 8;
    while pos < end
      invariant KeyOffset(buf, key, start) == KeyOffsetFrom(buf, key, pos, end)
      decreases Left(buf, pos)
    {
      KeyStep(buf, key, pos, end);
      var k := Varint.Decode(buf, pos);
      if k == None {
        return None;
      }
      HeaderInside(buf, pos);
      var p, n := pos + k.value.1, k.value.0 / 8;
      if k.value.0 % 8 == TYPE_STRING && n == |key| && Slice(buf, p, n) == key {
        return Some(p + n);
      }
      var v := Varint.Decode(buf, p + n);
      if v == None {
        return None;
      }
      pos := p + n + v.value.1 + v.value.0 / 8;
    }
    KeyPast(buf, key, pos, end);
    r := Some(-1);
  }

  method SeekPath(buf: Bytes, path: seq<Bytes>, start: nat) returns (r: Option<int>)
    requires path != []
    ensures r == PathOffset(buf, path, start)
  {
    var pos: nat := start;
    for i := 0 to |path| - 1
      invariant PathOffset(buf, path, start) == PathOffset(buf, path[i..], pos)
    {
      var q := SeekKey(buf, path[i], pos);
      if q == None || q.value < 0 {
        return if q == None then None else Some(-1);
      }
      pos := q.value;
      assert path[i..][1..] == path[i + 1..];
    }
    r := SeekKey(buf, path[|path| - 1], pos);
  }

  // --------------------------------------------------------- enumeration

  /** What an enumeration yields: a key or an index, and the bytes of the value. */
  datatype Part = ByKey(key: Bytes, val: Bytes) | ByIndex(ndx: nat, val: Bytes)

  /** The parts of a list from `pos` on; None where the walk runs off the buffer. */
  function ListParts(buf: Bytes, pos: nat, end: nat, i: nat): Option<seq<Part>>
    decreases Left(buf, pos)
  {
    if pos >= end then Some([])
    else
      match Varint.Decoded(buf, pos)
      case None => None
      case Some((tag, sz)) =>
        match ListParts(buf, pos + sz + tag / 8, end, i + 1)
        case None => None
        case Some(more) => Some([ByIndex(i, Slice(buf, pos, sz + tag / 8))] + more)
  }

  function DictPartsFrom(buf: Bytes, pos: nat, end: nat): Option<seq<Part>>
    decreases Left(buf, pos)
  {
    if pos >= end then Some([])
    else
      match Varint.Decoded(buf, pos)
      case None => None
      case Some((tag, sz)) =>
        var n := sz + tag / 8;
        match Varint.Decoded(buf, pos + n)
        case None => None
        case Some((tag', sz')) =>
          var m := sz' + tag' / 8;
          match DictPartsFrom(buf, pos + n + m, end)
          case None => None
          case Some(more) => Some([ByKey(Slice(buf, pos, n), Slice(buf, pos + n, m))] + more)
  }

  function PartsAt(buf: Bytes, pos: nat): Option<seq<Part>> {
    match Varint.Decoded(buf, pos)
    case None => None
    case Some((tag, sz)) =>
      if tag % 8 == TYPE_DICT then DictPartsFrom(buf, pos + sz, pos + sz + tag / 8)
      else if tag % 8 == TYPE_LIST then ListParts(buf, pos + sz, pos + sz + tag / 8, 0)
      else Some([])
  }

  /** The parts that a value has. */
  function ItemParts(items: seq<Value>, i: nat): seq<Part> {
    if items == [] then [] else [ByIndex(i, Encoded(items[0]))] + ItemParts(items[1..], i + 1)
  }

  function EntryParts(entries: seq<(Value, Value)>): seq<Part> {
    if entries == [] then [] else [ByKey(Encoded(entries[0].0), Encoded(entries[0].1))] + EntryParts(entries[1..])
  }

  function PartsOf(v: Value): seq<Part> {
    match v
    case List(items) => ItemParts(items, 0)
    case Dict(entries) => EntryParts(entries)
    case _ => []
  }

  lemma SliceAt(buf: Bytes, pos: nat, s: Bytes)
    requires At(buf, pos, s)
    ensures Slice(buf, pos, |s|) == s
  {
  }

  lemma {:induction false} ItemsEnumerated(items: seq<Value>, buf: Bytes, pos: nat, i: nat)
    requires (forall x :: x in items ==> WellFormed(x)) && At(buf, pos, Items(items))
    ensures ListParts(buf, pos, pos + |Items(items)|, i) == Some(ItemParts(items, i))
    decreases |items|
  {
    hide WellFormed, At, Encoded, Body, Slice;
    if items != [] {
      var more := items[1..];
      AtSplit(buf, pos, Encoded(items[0]), Items(more));
      Header(items[0], buf, pos);
      SliceAt(buf, pos, Encoded(items[0]));
      ItemsEnumerated(more, buf, pos + |Encoded(items[0])|, i + 1);
    }
  }

  lemma {:induction false} EntriesEnumerated(entries: seq<(Value, Value)>, buf: Bytes, pos: nat)
    requires (forall e :: e in entries ==> WellFormed(e.0) && WellFormed(e.1)) && At(buf, pos, Entries(entries))
    ensures DictPartsFrom(buf, pos, pos + |Entries(entries)|) == Some(EntryParts(entries))
    decreases |entries|
  {
    hide WellFormed, At, Encoded, Body, Slice, DictPartsFrom, Varint.Decoded;
    DictPartsStep(buf, pos, pos + |Entries(entries)|);
    if entries != [] {
      var (k, v) := entries[0];
      var more := entries[1..];
      assert Encoded(k) + Encoded(v) + Entries(more) == Encoded(k) + (Encoded(v) + Entries(more));
      AtSplit(buf, pos, Encoded(k), Encoded(v) + Entries(more));
      AtSplit(buf, pos + |Encoded(k)|, Encoded(v), Entries(more));
      Header(k, buf, pos);
      Header(v, buf, pos + |Encoded(k)|);
      SliceAt(buf, pos, Encoded(k));
      SliceAt(buf, pos + |Encoded(k)|, Encoded(v));
      EntriesEnumerated(more, buf, pos + |Encoded(k)| + |Encoded(v)|);
    }
  }

  lemma ListItems(v: Value)
    requires v.List? && WellFormed(v)
    ensures Body(v) == Items(v.items) && forall x :: x in v.items ==> WellFormed(x)
  {
  }

  /** Enumerating an encoded value yields the encodings of its parts, in order. */
  lemma PartsFound(v: Value, buf: Bytes, pos: nat)
    requires WellFormed(v) && At(buf, pos, Encoded(v))
    ensures PartsAt(buf, pos) == Some(PartsOf(v))
  {
    hide At, WellFormed, Encoded, ListParts, DictPartsFrom, ItemParts, EntryParts;
    Header(v, buf, pos);
    var p := pos + Varint.Decoded(buf, pos).value.1;
    if v.Dict? {
      DictParts(v);
      EntriesEnumerated(v.entries, buf, p);
    } else if v.List? {
      ListItems(v);
      ItemsEnumerated(v.items, buf, p, 0);
    }
  }

  /** All that the generator yields. */
  method Generate(buf: Bytes, start: nat) returns (r: Option<seq<Part>>)
    ensures r == PartsAt(buf, start)
  {
    hide Slice, Varint.Decoded, ListParts, DictPartsFrom;
    var h := Varint.Decode(buf, start);
    if h == None {
      return None;
    }
    var (tag, sz) := h.value;
    var pos: nat := start + sz;
    if tag % 8 == TYPE_DICT {
      r := GenerateEntries(buf, pos, pos + tag / 8);
    } else if tag % 8 == TYPE_LIST {
      r := GenerateItems(buf, pos, pos + tag / 8);
    } else {
      r := Some([]);
    }
  }

  function Joined(a: seq<Part>, r: Option<seq<Part>>): Option<seq<Part>> {
    match r
    case None => None
    case Some(more) => Some(a + more)
  }

  lemma JoinedStep(a: seq<Part>, x: Part, r: Option<seq<Part>>)
    ensures Joined(a, Joined([x], r)) == Joined(a + [x], r) && Joined([], r) == r && Joined(a, Some([])) == Some(a)
  {
    assert r.Some? ==> a + ([x] + r.value) == a + [x] + r.value && [] + r.value == r.value;
    assert a + [] == a;
  }

  lemma ListPartsStep(buf: Bytes, pos: nat, end: nat, i: nat)
    ensures ListParts(buf, pos, end, i) ==
      if pos >= end then Some([])
      else
        match Varint.Decoded(buf, pos)
        case None => None
        case Some((tag, sz)) => Joined([ByIndex(i, Slice(buf, pos, sz + tag / 8))], ListParts(buf, pos + sz + tag / 8, end, i + 1))
  {
    hide Varint.Decoded, Slice;
  }

  method GenerateItems(buf: Bytes, start: nat, end: nat) returns (r: Option<seq<Part>>)
    ensures r == ListParts(buf, start, end, 0)
  {
    hide Slice, Varint.Decoded, ListParts;
    var pos: nat, i: nat := start, 0;
    var parts: seq<Part> := [];
    JoinedStep([], ByIndex(0, []), ListParts(buf, start, end, 0));
    while pos < end
      invariant ListParts(buf, start, end, 0) == Joined(parts, ListParts(buf, pos, end, i))
      decreases Left(buf, pos)
    {
      ListPartsStep(buf, pos, end, i);
      var h := Varint.Decode(buf, pos);
      if h == None {
        return None;
      }
      HeaderInside(buf, pos);
      var sz: nat := h.value.1 + h.value.0 / 8;
      JoinedStep(parts, ByIndex(i, Slice(buf, pos, sz)), ListParts(buf, pos + sz, end, i + 1));
      parts := parts + [ByIndex(i, Slice(buf, pos, sz))];
      pos := pos + sz;
      i := i + 1;
    }
    ListPartsStep(buf, pos, end, i);
    JoinedStep(parts, ByIndex(0, []), None);
    r := Some(parts);
  }

  lemma DictPartsStep(buf: Bytes, pos: nat, end: nat)
    ensures DictPartsFrom(buf, pos, end) ==
      if pos >= end then Some([])
      else
        match Varint.Decoded(buf, pos)
        case None => None
        case Some((tag, sz)) =>
          match Varint.Decoded(buf, pos + sz + tag / 8)
          case None => None
          case Some((tag', sz')) =>
            Joined([ByKey(Slice(buf, pos, sz + tag / 8), Slice(buf, pos + sz + tag / 8, sz' + tag' / 8))],
                   DictPartsFrom(buf, pos + sz + tag / 8 + sz' + tag' / 8, end))
  {
    hide Varint.Decoded, Slice;
  }

  method GenerateEntries(buf: Bytes, start: nat, end: nat) returns (r: Option<seq<Part>>)
    ensures r == DictPartsFrom(buf, start, end)
  {
    hide Slice, Varint.Decoded, DictPartsFrom;
    var pos: nat := start;
    var parts: seq<Part> := [];
    JoinedStep([], ByIndex(0, []), DictPartsFrom(buf, start, end));
    while pos < end
      invariant DictPartsFrom(buf, start, end) == Joined(parts, DictPartsFrom(buf, pos, end))
      decreases Left(buf, pos)
    {
      DictPartsStep(buf, pos, end);
      var k := Varint.Decode(buf, pos);
      if k == None {
        return None;
      }
      HeaderInside(buf, pos);
      var n: nat := k.value.1 + k.value.0 / 8;
      var v := Varint.Decode(buf, pos + n);
      if v == None {
        return None;
      }
      var m: nat := v.value.1 + v.value.0 / 8;
      JoinedStep(parts, ByKey(Slice(buf, pos, n), Slice(buf, pos + n, m)), DictPartsFrom(buf, pos + n + m, end));
      parts := parts + [ByKey(Slice(buf, pos, n), Slice(buf, pos + n, m))];
      pos := pos + n + m;
    }
    DictPartsStep(buf, pos, end);
    JoinedStep(parts, ByIndex(0, []), None);
    r := Some(parts);
  }
}
