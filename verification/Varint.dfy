/** Variable-length integers: seven bits a byte, least significant first. */
module Varint {
  import opened Basics

  function Encoded(v: nat): (s: Bytes)
    ensures |s| >= 1
  {
    if v < 128 then [v] else [v % 128 + 128] + Encoded(v / 128)
  }

  /** The value and the size of the number at `pos`; None if the buffer ends first. */
  function Decoded(buf: Bytes, pos: nat): (r: Option<(nat, nat)>)
    ensures r.Some? ==> r.value.1 >= 1 && pos + r.value.1 <= |buf|
    decreases if pos < |buf| then |buf| - pos else 0
  {
    if pos >= |buf| then None
    else if buf[pos] < 128 then Some((buf[pos], 1))
    else
      match Decoded(buf, pos + 1)
      case None => None
      case Some((v, n)) => Some((buf[pos] - 128 + 128 * v, n + 1))
  }

  lemma {:induction false} RoundTrip(v: nat, buf: Bytes, pos: nat)
    requires At(buf, pos, Encoded(v))
    ensures Decoded(buf, pos) == Some((v, |Encoded(v)|))
    decreases v
  {
    AtByte(buf, pos, Encoded(v), 0);
    if v >= 128 {
      AtSplit(buf, pos, [v % 128 + 128], Encoded(v / 128));
      RoundTrip(v / 128, buf, pos + 1);
    }
  }

  function BitLength(v: nat): nat {
    if v == 0 then 0 else 1 + BitLength(v / 2)
  }

  function EncodingLength(v: nat): nat {
    if v == 0 then 1 else (BitLength(v) + 6) / 7
  }

  lemma BitLengthShift(v: nat)
    requires v >= 128
    ensures BitLength(v) == 7 + BitLength(v / 128)
  {
    var v1 := v / 2;
    var v2 := v1 / 2;
    var v3 := v2 / 2;
    var v4 := v3 / 2;
    var v5 := v4 / 2;
    var v6 := v5 / 2;
    assert BitLength(v) == 1 + BitLength(v1) && BitLength(v1) == 1 + BitLength(v2);
    assert BitLength(v2) == 1 + BitLength(v3) && BitLength(v3) == 1 + BitLength(v4);
    assert BitLength(v4) == 1 + BitLength(v5) && BitLength(v5) == 1 + BitLength(v6);
    assert BitLength(v6) == 1 + BitLength(v6 / 2) && v6 / 2 == v / 128;
  }

  /** The length computed from the bit length is the number of bytes written. */
  lemma {:induction false} LengthAgrees(v: nat)
    ensures |Encoded(v)| == EncodingLength(v)
    decreases v
  {
    if v >= 128 {
      LengthAgrees(v / 128);
      BitLengthShift(v);
    } else if v > 0 {
      SmallBits(v);
    }
  }

  lemma SmallBits(v: nat)
    requires 0 < v < 128
    ensures 1 <= BitLength(v) <= 7
  {
    assert Pow2(3) == 8 && Pow2(5) == 32 && Pow2(7) == 128;
    BitsBelow(v, 7, 128);
  }

  lemma {:induction false} BitsBelow(v: nat, n: nat, p: nat)
    requires v < p && p == Pow2(n)
    ensures BitLength(v) <= n && (v > 0 ==> BitLength(v) >= 1)
  {
    if v > 0 {
      BitsBelow(v / 2, n - 1, p / 2);
    }
  }

  // ------------------------------------------------------------ the loops

  method Decode(buf: Bytes, pos: nat) returns (r: Option<(nat, nat)>)
    ensures r == Decoded(buf, pos)
  {
    var val: nat, shift: nat, p := 0, 1, pos;
    while true
      invariant p >= pos && shift > 0
      invariant Decoded(buf, pos) == match Decoded(buf, p) case None => None case Some((v, n)) => Some((val + shift * v, n + (p - pos)))
      decreases if p < |buf| then |buf| - p else 0
    {
      if p >= |buf| {
        return None;
      }
      var b := buf[p];
      if b < 128 {
        val := val + b * shift;
        return Some((val, p - pos + 1));
      }
      ShiftStep(buf, p, val, shift);
      val := val + (b - 128) * shift;
      shift := shift * 128;
      p := p + 1;
    }
  }

  lemma ShiftStep(buf: Bytes, p: nat, val: nat, shift: nat)
    requires p < |buf| && buf[p] >= 128
    ensures Decoded(buf, p + 1).Some? ==> (
              Decoded(buf, p).Some? &&
              val + shift * Decoded(buf, p).value.0 == (val + (buf[p] - 128) * shift) + (shift * 128) * Decoded(buf, p + 1).value.0)
  {
    if Decoded(buf, p + 1).Some? {
      var v := Decoded(buf, p + 1).value.0;
      assert shift * (buf[p] - 128 + 128 * v) == shift * (buf[p] - 128) + shift * (128 * v);
      assert shift * (128 * v) == (shift * 128) * v;
    }
  }

  method Encode(val: nat, buf: array<byte>, pos: nat) returns (sz: nat)
    requires pos + |Encoded(val)| <= buf.Length
    modifies buf
    ensures sz == |Encoded(val)|
    ensures buf[..] == old(buf[..pos]) + Encoded(val) + old(buf[pos + |Encoded(val)|..])
  {
    var v, p := val, pos;
    while true
      invariant pos <= p && p + |Encoded(v)| == pos + |Encoded(val)|
      invariant buf[pos..p] + Encoded(v) == Encoded(val)
      invariant buf[..pos] == old(buf[..pos]) && buf[p..] == old(buf[p..])
      decreases v
    {
      buf[p] := v % 128;
      if v / 128 == 0 {
        Framed(old(buf[..]), buf[..], pos, p + 1, Encoded(val));
        return p - pos + 1;
      }
      buf[p] := v % 128 + 128;
      assert buf[pos..p + 1] == buf[pos..p] + [buf[p]];
      v := v / 128;
      p := p + 1;
    }
  }

  /** A buffer that changed only between two positions. */
  lemma Framed(before: Bytes, after: Bytes, lo: nat, hi: nat, s: Bytes)
    requires |before| == |after| && lo <= hi <= |after| && after[lo..hi] == s
    requires after[..lo] == before[..lo] && after[hi..] == before[hi..]
    ensures after == before[..lo] + s + before[hi..]
  {
    assert after == after[..lo] + after[lo..hi] + after[hi..];
  }

  /** None where the number needs more than the twenty bytes set aside for it. */
  method EncodeToBytes(val: nat) returns (s: Option<Bytes>)
    ensures s == if |Encoded(val)| <= 20 then Some(Encoded(val)) else None
  {
    if |Encoded(val)| > 20 {
      return None;
    }
    var buf := new byte[20](i => 0);
    ghost var before := buf[..];
    var sz := Encode(val, buf, 0);
    assert buf[..] == Encoded(val) + before[|Encoded(val)|..];
    assert buf[..sz] == buf[..][..sz] == Encoded(val);
    s := Some(buf[..sz]);
  }
}
