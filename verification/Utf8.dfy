/** Strings on the wire: UTF-8 as in section 3 of RFC 3629. */
module Utf8 {
  import opened Basics

  /** Well-formed bytes; the program refuses all others. */
  predicate IsUtf8(s: Bytes) {
    if s == [] then true
    else if s[0] < 0x80 then IsUtf8(s[1..])
    else if 0xc2 <= s[0] <= 0xdf then |s| >= 2 && Continues(s[1]) && IsUtf8(s[2..])
    else if 0xe0 <= s[0] <= 0xef then
      |s| >= 3 && Continues(s[1]) && Continues(s[2]) && (s[0] == 0xe0 ==> s[1] >= 0xa0) && (s[0] == 0xed ==> s[1] < 0xa0) && IsUtf8(s[3..])
    else if 0xf0 <= s[0] <= 0xf4 then
      |s| >= 4 && Continues(s[1]) && Continues(s[2]) && Continues(s[3]) && (s[0] == 0xf0 ==> s[1] >= 0x90) && (s[0] == 0xf4 ==> s[1] < 0x90)
      && IsUtf8(s[4..])
    else false
  }

  predicate Continues(b: byte) {
    0x80 <= b <= 0xbf
  }

  lemma {:induction false} AsciiIsUtf8(s: Bytes)
    requires forall c :: c in s ==> c < 128
    ensures IsUtf8(s)
  {
    if s != [] {
      assert s[0] in s && forall c :: c in s[1..] ==> c in s;
      AsciiIsUtf8(s[1..]);
    }
  }

  // ------------------------------------------------------------ characters

  /** Code points, without the surrogates. */
  predicate IsScalar(c: nat) {
    c < 0xd800 || 0xe000 <= c < 0x11_0000
  }

  function Char(c: nat): (s: Bytes)
    requires IsScalar(c)
    ensures 1 <= |s| <= 4
  {
    if c < 0x80 then [c]
    else if c < 0x800 then [0xc0 + c / 0x40, 0x80 + c % 0x40]
    else if c < 0x1_0000 then [0xe0 + c / 0x1000, 0x80 + c / 0x40 % 0x40, 0x80 + c % 0x40]
    else [0xf0 + c / 0x4_0000, 0x80 + c / 0x1000 % 0x40, 0x80 + c / 0x40 % 0x40, 0x80 + c % 0x40]
  }

  function Text(cs: seq<nat>): Bytes
    requires forall c :: c in cs ==> IsScalar(c)
  {
    if cs == [] then [] else Char(cs[0]) + Text(cs[1..])
  }

  /** A character by itself is well-formed, and tells its length by its first byte. */
  predicate IsChar(s: Bytes) {
    || (|s| == 1 && s[0] < 0x80)
    || (|s| == 2 && 0xc2 <= s[0] <= 0xdf && Continues(s[1]))
    || (|s| == 3 && 0xe0 <= s[0] <= 0xef && Continues(s[1]) && Continues(s[2]) && (s[0] == 0xe0 ==> s[1] >= 0xa0) && (s[0] == 0xed ==> s[1] < 0xa0))
    || (|s| == 4 && 0xf0 <= s[0] <= 0xf4 && Continues(s[1]) && Continues(s[2]) && Continues(s[3]) && (s[0] == 0xf0 ==> s[1] >= 0x90) && (s[0] == 0xf4 ==> s[1] < 0x90))
  }

  lemma CharIsChar(c: nat)
    requires IsScalar(c)
    ensures IsChar(Char(c))
  {
  }

  lemma CharFirst(c: nat, rest: Bytes)
    requires IsScalar(c) && IsUtf8(rest)
    ensures IsUtf8(Char(c) + rest)
  {
    hide Char, IsScalar;
    CharIsChar(c);
    var s, n := Char(c) + rest, |Char(c)|;
    assert s[n..] == rest;
  }

  /** Whatever text, in any script, is well-formed. */
  lemma {:induction false} TextIsUtf8(cs: seq<nat>)
    requires forall c :: c in cs ==> IsScalar(c)
    ensures IsUtf8(Text(cs))
  {
    hide Char;
    if cs != [] {
      TextIsUtf8(cs[1..]);
      CharFirst(cs[0], Text(cs[1..]));
    }
  }

  lemma TwoBytes(a: int, b: int)
    requires 0xc2 <= a <= 0xdf && 0x80 <= b <= 0xbf
    ensures var c := (a - 0xc0) * 0x40 + (b - 0x80);
      IsScalar(c) && Char(c) == [a, b]
  {
  }

  lemma ThreeBytes(a: int, b: int, d: int)
    requires 0xe0 <= a <= 0xef && 0x80 <= b <= 0xbf && 0x80 <= d <= 0xbf && (a == 0xe0 ==> b >= 0xa0) && (a == 0xed ==> b < 0xa0)
    ensures var c := (a - 0xe0) * 0x1000 + (b - 0x80) * 0x40 + (d - 0x80);
      IsScalar(c) && Char(c) == [a, b, d]
  {
    var c := (a - 0xe0) * 0x1000 + (b - 0x80) * 0x40 + (d - 0x80);
    assert c / 0x40 == (a - 0xe0) * 0x40 + (b - 0x80);
  }

  lemma FourBytes(a: int, b: int, d: int, e: int)
    requires 0xf0 <= a <= 0xf4 && 0x80 <= b <= 0xbf && 0x80 <= d <= 0xbf && 0x80 <= e <= 0xbf && (a == 0xf0 ==> b >= 0x90) && (a == 0xf4 ==> b < 0x90)
    ensures var c := (a - 0xf0) * 0x4_0000 + (b - 0x80) * 0x1000 + (d - 0x80) * 0x40 + (e - 0x80);
      IsScalar(c) && Char(c) == [a, b, d, e]
  {
    var c := (a - 0xf0) * 0x4_0000 + (b - 0x80) * 0x1000 + (d - 0x80) * 0x40 + (e - 0x80);
    assert c / 0x40 == (a - 0xf0) * 0x1000 + (b - 0x80) * 0x40 + (d - 0x80);
    assert c / 0x1000 == (a - 0xf0) * 0x40 + (b - 0x80);
  }

  lemma OneChar(s: Bytes) returns (c: nat)
    requires IsUtf8(s) && s != []
    ensures IsScalar(c) && |Char(c)| <= |s| && s == Char(c) + s[|Char(c)|..] && IsUtf8(s[|Char(c)|..])
  {
    hide Char, IsScalar;
    var a: int := s[0];
    if a < 0x80 {
      OneByte(a);
      c := a;
    } else if a <= 0xdf {
      var b: int := s[1];
      TwoBytes(a, b);
      c := (a - 0xc0) * 0x40 + (b - 0x80);
    } else if a <= 0xef {
      var b: int, d: int := s[1], s[2];
      ThreeBytes(a, b, d);
      c := (a - 0xe0) * 0x1000 + (b - 0x80) * 0x40 + (d - 0x80);
    } else {
      var b: int, d: int, e: int := s[1], s[2], s[3];
      FourBytes(a, b, d, e);
      c := (a - 0xf0) * 0x4_0000 + (b - 0x80) * 0x1000 + (d - 0x80) * 0x40 + (e - 0x80);
    }
  }

  lemma OneByte(a: int)
    requires 0 <= a < 0x80
    ensures IsScalar(a) && Char(a) == [a]
  {
  }

  /** And whatever is well-formed is some text. */
  lemma {:induction false} Utf8IsText(s: Bytes) returns (cs: seq<nat>)
    requires IsUtf8(s)
    ensures (forall c :: c in cs ==> IsScalar(c)) && s == Text(cs)
    decreases |s|
  {
    hide IsUtf8, Char, IsScalar;
    if s == [] {
      cs := [];
    } else {
      var c := OneChar(s);
      CharNotEmpty(c);
      var more := Utf8IsText(s[|Char(c)|..]);
      cs := [c] + more;
      assert cs[1..] == more;
    }
  }

  lemma CharNotEmpty(c: nat)
    requires IsScalar(c)
    ensures |Char(c)| >= 1
  {
  }
}
