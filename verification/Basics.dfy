/** What several parts of the model share. */
module Basics {

  datatype Option<+T> = None | Some(value: T)

  type byte = x: int | 0 <= x < 256
  type Bytes = seq<byte>

  /** The bytes `s` stand in `buf` at offset `pos`. */
  predicate At(buf: Bytes, pos: nat, s: Bytes) {
    pos + |s| <= |buf| && buf[pos..pos + |s|] == s
  }

  lemma AtByte(buf: Bytes, pos: nat, s: Bytes, k: nat)
    requires At(buf, pos, s) && k < |s|
    ensures pos + k < |buf| && buf[pos + k] == s[k]
  {
    assert buf[pos..pos + |s|][k] == s[k];
  }

  lemma AtSplit(buf: Bytes, pos: nat, s: Bytes, t: Bytes)
    ensures At(buf, pos, s + t) <==> At(buf, pos, s) && At(buf, pos + |s|, t)
  {
    if pos + |s| + |t| <= |buf| {
      assert buf[pos..pos + |s + t|] == buf[pos..pos + |s|] + buf[pos + |s|..pos + |s| + |t|];
      assert (s + t)[..|s|] == s && (s + t)[|s|..] == t;
    }
  }

  /** A slice as Python takes it: what lies beyond the end is missing. */
  function Slice(buf: Bytes, pos: nat, n: nat): Bytes {
    if pos >= |buf| then [] else if pos + n > |buf| then buf[pos..] else buf[pos..pos + n]
  }

  function Zeros(n: nat): (z: Bytes)
    ensures |z| == n
  {
    seq(n, i => 0)
  }

  function Pow2(n: nat): (p: nat)
    ensures p >= 1
  {
    if n == 0 then 1 else 2 * Pow2(n - 1)
  }

  function Pow256(n: nat): (p: nat)
    ensures p >= 1
  {
    if n == 0 then 1 else 256 * Pow256(n - 1)
  }

  /** Lexicographic order, of strings and of keys. */
  predicate Less(a: seq<int>, b: seq<int>) {
    b != [] && (a == [] || a[0] < b[0] || (a[0] == b[0] && Less(a[1..], b[1..])))
  }

  lemma {:induction false} LessIrreflexive(a: seq<int>)
    ensures !Less(a, a)
  {
    if a != [] {
      LessIrreflexive(a[1..]);
    }
  }

  lemma {:induction false} LessTotal(a: seq<int>, b: seq<int>)
    ensures a == b || Less(a, b) || Less(b, a)
  {
    if a != [] && b != [] && a[0] == b[0] {
      LessTotal(a[1..], b[1..]);
      if a[1..] == b[1..] {
        assert a == [a[0]] + a[1..] == [b[0]] + b[1..] == b;
      }
    }
  }

  lemma {:induction false} LessTransitive(a: seq<int>, b: seq<int>, c: seq<int>)
    requires Less(a, b) && Less(b, c)
    ensures Less(a, c)
  {
    if a != [] && a[0] == b[0] == c[0] {
      LessTransitive(a[1..], b[1..], c[1..]);
    }
  }
}
