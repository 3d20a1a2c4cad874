/** The check sum at the end of packets: CRC-32 as in section 3.2.9 of IEEE Std 802.3. */
module Crc {
  type Packet = seq<bv8>

  const POLY: bv32 := 0xEDB88320

  // Named operations on the register, so that what is said about packets can be
  // kept apart from what is said about bits.

  function Mix(x: bv32, y: bv32): bv32 {
    x ^ y
  }

  function Wide(b: bv8): bv32 {
    b as bv32
  }

  function Up(y: bv32): bv32 {
    y << 1
  }

  function Up8(y: bv32): bv32 {
    y << 8
  }

  function Half(x: bv32): bv32 {
    x >> 1
  }

  predicate Odd(x: bv32) {
    x & 1 == 1
  }

  /** One step of the shift register. */
  function Shift(x: bv32): bv32 {
    if Odd(x) then Mix(Half(x), POLY) else Half(x)
  }

  function Shift8(x: bv32): bv32 {
    Shift(Shift(Shift(Shift(Shift(Shift(Shift(Shift(x))))))))
  }

  /** The register after the bytes of a packet. */
  function Register(x: bv32, pkt: Packet): bv32
    decreases |pkt|
  {
    if pkt == [] then x else Register(Shift8(Mix(x, Wide(pkt[0]))), pkt[1..])
  }

  /** The complement, in network byte order. */
  function Final(x: bv32): bv32 {
    var y := x ^ 0xffffffff;
    (y << 24) | ((y & 0xff00) << 8) | ((y >> 8) & 0xff00) | (y >> 24)
  }

  const START: bv32 := 0xffffffff

  function CrcOf(pkt: Packet): bv32 {
    Final(Register(START, pkt))
  }

  method Crc32Ieee(pkt: Packet) returns (crc: bv32)
    ensures crc == CrcOf(pkt)
  {
    hide Shift8, Final, Mix, Wide;
    crc := START;
    var k := 0;
    assert pkt[0..] == pkt;
    while k < |pkt|
      invariant 0 <= k <= |pkt| && Register(crc, pkt[k..]) == Register(START, pkt)
    {
      assert pkt[k..][0] == pkt[k] && pkt[k..][1..] == pkt[k + 1..];
      crc := MixIn(Mix(crc, Wide(pkt[k])));
      k := k + 1;
    }
    crc := Final(crc);
  }

  /** The inner loop, bit by bit. */
  method MixIn(x: bv32) returns (crc: bv32)
    ensures crc == Shift8(x)
  {
    hide Shift8;
    crc := x;
    for i := 0 to 8
      invariant Iterated(x, i) == crc
    {
      crc := if crc & 1 == 1 then (crc >> 1) ^ POLY else crc >> 1;
    }
    EightTimes(x);
  }

  function Iterated(x: bv32, n: nat): bv32
    decreases n
  {
    if n == 0 then x else Shift(Iterated(x, n - 1))
  }

  lemma EightTimes(x: bv32)
    ensures Iterated(x, 8) == Shift8(x)
  {
    hide Shift;
    assert Iterated(x, 0) == x && Iterated(x, 1) == Shift(x);
    assert Iterated(x, 3) == Shift(Shift(Iterated(x, 1)));
    assert Iterated(x, 5) == Shift(Shift(Iterated(x, 3)));
    assert Iterated(x, 7) == Shift(Shift(Iterated(x, 5)));
  }

  // ----------------------------------------------- the register keeps all

  lemma ShiftInjective(x: bv32, y: bv32)
    requires Shift(x) == Shift(y)
    ensures x == y
  {
  }

  lemma Shift8Injective(x: bv32, y: bv32)
    requires Shift8(x) == Shift8(y)
    ensures x == y
  {
    hide Shift;
    var x1, y1 := Shift(x), Shift(y);
    var x2, y2 := Shift(x1), Shift(y1);
    var x3, y3 := Shift(x2), Shift(y2);
    var x4, y4 := Shift(x3), Shift(y3);
    var x5, y5 := Shift(x4), Shift(y4);
    var x6, y6 := Shift(x5), Shift(y5);
    var x7, y7 := Shift(x6), Shift(y6);
    ShiftInjective(x7, y7);
    ShiftInjective(x6, y6);
    ShiftInjective(x5, y5);
    ShiftInjective(x4, y4);
    ShiftInjective(x3, y3);
    ShiftInjective(x2, y2);
    ShiftInjective(x1, y1);
    ShiftInjective(x, y);
  }

  lemma MixCancels(x: bv32, y: bv32, b: bv32)
    ensures Mix(x, b) == Mix(y, b) ==> x == y
    ensures Mix(b, x) == Mix(b, y) ==> x == y
  {
  }

  /** Different registers stay different under equal bytes. */
  lemma {:induction false} RegisterInjective(x: bv32, y: bv32, pkt: Packet)
    requires Register(x, pkt) == Register(y, pkt)
    ensures x == y
    decreases |pkt|
  {
    hide Shift8, Mix, Wide;
    if pkt != [] {
      var b := Wide(pkt[0]);
      RegisterInjective(Shift8(Mix(x, b)), Shift8(Mix(y, b)), pkt[1..]);
      Shift8Injective(Mix(x, b), Mix(y, b));
      MixCancels(x, y, b);
    }
  }

  // ------------------------------------------------ four bytes at a time

  /** High bits move down unchanged, besides what the low bits do. */
  lemma ShiftSplits(x: bv32, y: bv32)
    requires y < 0x8000_0000
    ensures Shift(Mix(x, Up(y))) == Mix(Shift(x), y)
  {
    hide Odd, Half, Mix, Up;
    LowBit(x, y);
    HighBits(x, y);
    PolySwaps(Half(x), y);
  }

  lemma LowBit(x: bv32, y: bv32)
    ensures Odd(Mix(x, Up(y))) == Odd(x)
  {
  }

  lemma HighBits(x: bv32, y: bv32)
    requires y < 0x8000_0000
    ensures Half(Mix(x, Up(y))) == Mix(Half(x), y)
  {
  }

  lemma PolySwaps(a: bv32, y: bv32)
    ensures Mix(Mix(a, y), POLY) == Mix(Mix(a, POLY), y)
  {
  }

  lemma Doublings(y: bv32)
    requires y < 0x100_0000
    ensures var y2 := Up(Up(y));
      var y4 := Up(Up(y2));
      var y6 := Up(Up(y4));
      Up8(y) == Up(Up(y6)) && y < 0x8000_0000 && Up(y) < 0x8000_0000 && y2 < 0x8000_0000 && Up(y2) < 0x8000_0000
      && y4 < 0x8000_0000 && Up(y4) < 0x8000_0000 && y6 < 0x8000_0000 && Up(y6) < 0x8000_0000
  {
  }

  lemma Shift8Splits(x: bv32, y: bv32)
    requires y < 0x100_0000
    ensures Shift8(Mix(x, Up8(y))) == Mix(Shift8(x), y)
  {
    hide Shift, Mix, Up, Up8;
    Doublings(y);
    var y1 := Up(y);
    var y2 := Up(y1);
    var y3 := Up(y2);
    var y4 := Up(y3);
    var y5 := Up(y4);
    var y6 := Up(y5);
    var y7 := Up(y6);
    var x1 := Shift(x);
    var x2 := Shift(x1);
    var x3 := Shift(x2);
    var x4 := Shift(x3);
    var x5 := Shift(x4);
    var x6 := Shift(x5);
    var x7 := Shift(x6);
    ShiftSplits(x, y7);
    ShiftSplits(x1, y6);
    ShiftSplits(x2, y5);
    ShiftSplits(x3, y4);
    ShiftSplits(x4, y3);
    ShiftSplits(x5, y2);
    ShiftSplits(x6, y1);
    ShiftSplits(x7, y);
  }

  /** Up to four bytes as one number, the first lowest. */
  function Word(pkt: Packet): bv32
    requires |pkt| <= 4
    decreases |pkt|
  {
    if pkt == [] then 0 else Mix(Wide(pkt[0]), Up8(Word(pkt[1..])))
  }

  /** Less than three bytes' worth. */
  predicate Fits(w: bv32, n: nat) {
    (n == 0 ==> w == 0) && (n == 1 ==> w < 0x100) && (n == 2 ==> w < 0x1_0000) && (n == 3 ==> w < 0x100_0000)
  }

  lemma {:induction false} WordFits(pkt: Packet)
    requires |pkt| <= 3
    ensures Fits(Word(pkt), |pkt|)
    decreases |pkt|
  {
    hide Mix, Wide, Up8, Fits;
    if pkt == [] {
      NothingFits();
    } else {
      WordFits(pkt[1..]);
      NextFits(pkt[0], Word(pkt[1..]), |pkt|);
    }
  }

  lemma NothingFits()
    ensures Fits(0, 0)
  {
  }

  lemma NextFits(b: bv8, w: bv32, n: nat)
    requires 1 <= n <= 3 && Fits(w, n - 1)
    ensures Fits(Mix(Wide(b), Up8(w)), n)
  {
  }

  lemma Below(w: bv32, n: nat)
    requires n <= 3 && Fits(w, n)
    ensures w < 0x100_0000
  {
  }

  lemma SplitByte(b: bv8, w: bv32, b': bv8, w': bv32)
    requires w < 0x100_0000 && w' < 0x100_0000 && Mix(Wide(b), Up8(w)) == Mix(Wide(b'), Up8(w'))
    ensures b == b' && w == w'
  {
  }

  lemma {:induction false} WordInjective(a: Packet, b: Packet)
    requires |a| == |b| <= 4 && Word(a) == Word(b)
    ensures a == b
    decreases |a|
  {
    hide Mix, Wide, Up8, Fits;
    if a != [] {
      WordFits(a[1..]);
      WordFits(b[1..]);
      Below(Word(a[1..]), |a| - 1);
      Below(Word(b[1..]), |a| - 1);
      SplitByte(a[0], Word(a[1..]), b[0], Word(b[1..]));
      WordInjective(a[1..], b[1..]);
      assert a == [a[0]] + a[1..] && b == [b[0]] + b[1..];
    }
  }

  function Shift8s(x: bv32, n: nat): bv32
    decreases n
  {
    if n == 0 then x else Shift8s(Shift8(x), n - 1)
  }

  lemma MixAssociates(x: bv32, y: bv32, z: bv32)
    ensures Mix(Mix(x, y), z) == Mix(x, Mix(y, z)) && Mix(x, 0) == x
  {
  }

  /** Up to four bytes may be mixed in at once. */
  lemma {:induction false} RegisterOfWord(x: bv32, pkt: Packet)
    requires |pkt| <= 4
    ensures Register(x, pkt) == Shift8s(Mix(x, Word(pkt)), |pkt|)
    decreases |pkt|
  {
    hide Shift8, Mix, Wide, Up8, Fits;
    if pkt == [] {
      MixAssociates(x, 0, 0);
    } else {
      var b, w := Wide(pkt[0]), Word(pkt[1..]);
      RegisterOfWord(Shift8(Mix(x, b)), pkt[1..]);
      WordFits(pkt[1..]);
      Below(w, |pkt| - 1);
      Shift8Splits(Mix(x, b), w);
      MixAssociates(x, b, Up8(w));
    }
  }

  lemma {:induction false} Shift8sInjective(x: bv32, y: bv32, n: nat)
    requires Shift8s(x, n) == Shift8s(y, n)
    ensures x == y
    decreases n
  {
    hide Shift8;
    if n > 0 {
      Shift8sInjective(Shift8(x), Shift8(y), n - 1);
      Shift8Injective(x, y);
    }
  }

  lemma {:induction false} RegisterAppend(x: bv32, a: Packet, b: Packet)
    ensures Register(x, a + b) == Register(Register(x, a), b)
    decreases |a|
  {
    hide Shift8, Mix, Wide;
    if a == [] {
      assert a + b == b;
    } else {
      assert (a + b)[1..] == a[1..] + b;
      RegisterAppend(Shift8(Mix(x, Wide(a[0]))), a[1..], b);
    }
  }

  lemma FinalInjective(x: bv32, y: bv32)
    requires Final(x) == Final(y)
    ensures x == y
  {
  }

  /** Packets of any length that differ within four consecutive bytes, and nowhere
      else, have different check sums. */
  lemma BurstDetected(head: Packet, a: Packet, b: Packet, tail: Packet)
    requires |a| == |b| <= 4 && a != b
    ensures CrcOf(head + a + tail) != CrcOf(head + b + tail)
  {
    hide Register, Word, Shift8s, Final, Mix;
    var x := Register(START, head);
    RegisterAppend(START, head + a, tail);
    RegisterAppend(START, head, a);
    RegisterAppend(START, head + b, tail);
    RegisterAppend(START, head, b);
    var y, z := Register(x, a), Register(x, b);
    if CrcOf(head + a + tail) == CrcOf(head + b + tail) {
      FinalInjective(Register(y, tail), Register(z, tail));
      RegisterInjective(y, z, tail);
      RegisterOfWord(x, a);
      RegisterOfWord(x, b);
      Shift8sInjective(Mix(x, Word(a)), Mix(x, Word(b)), |a|);
      MixCancels(Word(a), Word(b), x);
      WordInjective(a, b);
    }
  }

  // -------------------------------------------------------------- checking

  /** A 32-bit number as it lies in the memory of the controller. */
  function InMemory(x: bv32): (m: Packet)
    ensures |m| == 4
  {
    [(x & 0xff) as bv8, ((x >> 8) & 0xff) as bv8, ((x >> 16) & 0xff) as bv8, (x >> 24) as bv8]
  }

  predicate Accepted(pkt: Packet)
    requires |pkt| >= 4
  {
    pkt[|pkt| - 4..] == InMemory(CrcOf(pkt[..|pkt| - 4]))
  }

  /** Zero if the packet ends with its check sum, as memcmp has it. */
  method CrcCheck(pkt: Packet) returns (r: int)
    requires |pkt| >= 4
    ensures r == 0 <==> Accepted(pkt)
  {
    hide InMemory, CrcOf;
    var crc := Crc32Ieee(pkt[..|pkt| - 4]);
    MemoryLength(crc);
    var m := InMemory(crc);
    r := 0;
    var k := 0;
    while k < 4 && r == 0
      invariant 0 <= k <= 4
      invariant r == 0 <==> forall i :: 0 <= i < k ==> pkt[|pkt| - 4 + i] == m[i]
    {
      var a, b := pkt[|pkt| - 4 + k], m[k];
      if a != b {
        r := if a < b then -1 else 1;
      }
      k := k + 1;
    }
  }

  lemma MemoryLength(x: bv32)
    ensures |InMemory(x)| == 4
  {
  }

  lemma InMemoryInjective(x: bv32, y: bv32)
    requires InMemory(x) == InMemory(y)
    ensures x == y
  {
    assert InMemory(x)[0] == InMemory(y)[0] && InMemory(x)[1] == InMemory(y)[1];
    assert InMemory(x)[2] == InMemory(y)[2] && InMemory(x)[3] == InMemory(y)[3];
  }

  // --------------------------------- corruption across content and check sum

  lemma BitsSplit(x: bv32, y: bv32)
    ensures Odd(Mix(x, y)) <==> Odd(x) != Odd(y)
    ensures Half(Mix(x, y)) == Mix(Half(x), Half(y))
  {
  }

  lemma MixCommutes(x: bv32, y: bv32)
    ensures Mix(x, y) == Mix(y, x)
  {
  }

  lemma MixSelf(x: bv32)
    ensures Mix(x, x) == 0
  {
  }

  lemma PolyCancels(x: bv32, y: bv32, p: bv32)
    ensures Mix(Mix(x, p), y) == Mix(Mix(x, y), p) && Mix(x, Mix(y, p)) == Mix(Mix(x, y), p)
    ensures Mix(Mix(x, p), Mix(y, p)) == Mix(x, y)
  {
    hide Mix;
    MixAssociates(x, p, y);
    MixCommutes(p, y);
    MixAssociates(x, y, p);
    MixAssociates(Mix(x, p), y, p);
    MixAssociates(Mix(x, y), p, p);
    MixSelf(p);
    MixAssociates(Mix(x, y), 0, 0);
  }

  lemma ShiftLinear(x: bv32, y: bv32)
    ensures Shift(Mix(x, y)) == Mix(Shift(x), Shift(y))
  {
    hide Odd, Half, Mix;
    BitsSplit(x, y);
    PolyCancels(Half(x), Half(y), POLY);
  }

  lemma Shift8Linear(x: bv32, y: bv32)
    ensures Shift8(Mix(x, y)) == Mix(Shift8(x), Shift8(y))
  {
    hide Shift, Mix;
    var x1, y1 := Shift(x), Shift(y);
    var x2, y2 := Shift(x1), Shift(y1);
    var x3, y3 := Shift(x2), Shift(y2);
    var x4, y4 := Shift(x3), Shift(y3);
    var x5, y5 := Shift(x4), Shift(y4);
    var x6, y6 := Shift(x5), Shift(y5);
    var x7, y7 := Shift(x6), Shift(y6);
    ShiftLinear(x, y);
    ShiftLinear(x1, y1);
    ShiftLinear(x2, y2);
    ShiftLinear(x3, y3);
    ShiftLinear(x4, y4);
    ShiftLinear(x5, y5);
    ShiftLinear(x6, y6);
    ShiftLinear(x7, y7);
  }

  lemma {:induction false} Shift8sLinear(x: bv32, y: bv32, n: nat)
    ensures Shift8s(Mix(x, y), n) == Mix(Shift8s(x, n), Shift8s(y, n))
    decreases n
  {
    hide Shift8, Mix;
    if n > 0 {
      Shift8Linear(x, y);
      Shift8sLinear(Shift8(x), Shift8(y), n - 1);
    }
  }

  /** The step that undoes a shift. */
  function Back(y: bv32): bv32 {
    if y & 0x8000_0000 != 0 then ((y ^ POLY) << 1) | 1 else y << 1
  }

  function Back8(y: bv32): bv32 {
    Back(Back(Back(Back(Back(Back(Back(Back(y))))))))
  }

  lemma BackShift(x: bv32)
    ensures Back(Shift(x)) == x
  {
  }

  lemma Back8Shift8(x: bv32)
    ensures Back8(Shift8(x)) == x
  {
    hide Shift, Back;
    var x1 := Shift(x);
    var x2 := Shift(x1);
    var x3 := Shift(x2);
    var x4 := Shift(x3);
    var x5 := Shift(x4);
    var x6 := Shift(x5);
    var x7 := Shift(x6);
    BackShift(x7);
    BackShift(x6);
    BackShift(x5);
    BackShift(x4);
    BackShift(x3);
    BackShift(x2);
    BackShift(x1);
    BackShift(x);
  }

  // A change of n content bytes changes the last n bytes of the check sum, for n = 1
  // and 3. For n = 2 there is one change that does not.

  lemma OneByteShows(w: bv32)
    requires w < 0x100 && Shift8(w) & 0xff == 0
    ensures w == 0
  {
  }

  lemma TwoBytesShowOdd(w: bv32)
    requires w < 0x1_0000 && Odd(w) && Shift8(Shift8(w)) & 0xffff == 0
    ensures w == 0xd861
  {
  }

  lemma TwoBytesShowEven(w: bv32)
    requires w < 0x1_0000 && !Odd(w) && Shift8(Shift8(w)) & 0xffff == 0
    ensures w == 0
  {
  }

  lemma TwoBytesHidden()
    ensures Shift8(Shift8(0xd861)) == 0xf4ee_0000
  {
  }

  lemma ThreeBytesShowBack(y: bv32)
    requires y & 0xff_ffff == 0 && Back8(Back8(Back8(y))) < 0x100_0000
    ensures y == 0
  {
  }

  lemma ThreeBytesShow(w: bv32)
    requires w < 0x100_0000 && Shift8(Shift8(Shift8(w))) & 0xff_ffff == 0
    ensures w == 0
  {
    var y := Shift8(Shift8(Shift8(w)));
    assert Back8(Back8(Back8(y))) == w by {
      hide Shift8, Back8;
      Back8Shift8(w);
      Back8Shift8(Shift8(w));
      Back8Shift8(Shift8(Shift8(w)));
    }
    ThreeBytesShowBack(y);
  }

  /** The lowest `n` bytes are zero. */
  predicate LowZero(y: bv32, n: nat) {
    (n == 1 ==> y & 0xff == 0) && (n == 2 ==> y & 0xffff == 0) && (n == 3 ==> y & 0xff_ffff == 0)
  }

  lemma ChangeShows(w: bv32, n: nat)
    requires 1 <= n <= 3 && Fits(w, n) && w != 0
    ensures LowZero(Shift8s(w, n), n) <==> n == 2 && w == 0xd861
    ensures n == 2 && w == 0xd861 ==> Shift8s(w, n) == 0xf4ee_0000
  {
    hide Shift8;
    assert n == 1 ==> Shift8s(w, n) == Shift8(w) by {
      assert n == 1 ==> Shift8s(Shift8(w), 0) == Shift8(w);
    }
    assert n == 2 ==> Shift8s(w, n) == Shift8(Shift8(w)) by {
      assert n == 2 ==> Shift8s(Shift8(w), 1) == Shift8s(Shift8(Shift8(w)), 0);
    }
    assert n == 3 ==> Shift8s(w, n) == Shift8(Shift8(Shift8(w))) by {
      assert n == 3 ==> Shift8s(Shift8(w), 2) == Shift8s(Shift8(Shift8(w)), 1);
    }
    TwoBytesHidden();
    if LowZero(Shift8s(w, n), n) {
      if n == 1 {
        OneByteShows(w);
      } else if n == 3 {
        ThreeBytesShow(w);
      } else if Odd(w) {
        TwoBytesShowOdd(w);
      } else {
        TwoBytesShowEven(w);
      }
    }
  }

  lemma MixFits(v: bv32, w: bv32, n: nat)
    requires n <= 3 && Fits(v, n) && Fits(w, n)
    ensures Fits(Mix(v, w), n)
  {
    hide Mix;
    MixSelf(0);
    if n == 1 {
      MixBelow1(v, w);
    } else if n == 2 {
      MixBelow2(v, w);
    } else if n == 3 {
      MixBelow3(v, w);
    }
  }

  lemma MixBelow1(v: bv32, w: bv32)
    requires v < 0x100 && w < 0x100
    ensures Mix(v, w) < 0x100
  {
  }

  lemma MixBelow2(v: bv32, w: bv32)
    requires v < 0x1_0000 && w < 0x1_0000
    ensures Mix(v, w) < 0x1_0000
  {
  }

  lemma MixBelow3(v: bv32, w: bv32)
    requires v < 0x100_0000 && w < 0x100_0000
    ensures Mix(v, w) < 0x100_0000
  {
  }

  lemma MixZero(v: bv32, w: bv32)
    ensures Mix(v, w) == 0 <==> v == w
  {
  }

  lemma MixSwaps(x: bv32, v: bv32, w: bv32)
    ensures Mix(Mix(x, v), Mix(x, w)) == Mix(v, w)
  {
    hide Mix;
    MixCommutes(x, v);
    MixCommutes(x, w);
    PolyCancels(v, w, x);
  }

  lemma WordOfTwo(a: Packet, b: Packet)
    requires |a| == |b| == 2
    ensures Mix(Word(a), Word(b)) == 0xd861 <==> Flip(a[0], b[0]) == 0x61 && Flip(a[1], b[1]) == 0xd8
  {
    var a1, b1 := a[1..], b[1..];
    assert a1[1..] == [] && b1[1..] == [];
    assert Word(a1) == Mix(Wide(a[1]), Up8(0)) && Word(b1) == Mix(Wide(b[1]), Up8(0));
    TwoBytesWide(a[0], a[1], b[0], b[1]);
  }

  lemma TwoBytesWide(a0: bv8, a1: bv8, b0: bv8, b1: bv8)
    ensures var a, b := Mix(Wide(a0), Up8(Mix(Wide(a1), Up8(0)))), Mix(Wide(b0), Up8(Mix(Wide(b1), Up8(0))));
      Mix(a, b) == 0xd861 <==> Flip(a0, b0) == 0x61 && Flip(a1, b1) == 0xd8
  {
  }

  function Flip(a: bv8, b: bv8): bv8 {
    a ^ b
  }

  /** The bytes of the check sum for a register. */
  function Seal(x: bv32): (m: Packet)
    ensures |m| == 4
  {
    InMemory(Final(x))
  }

  lemma SealTail(x: bv32, y: bv32, n: nat)
    requires 1 <= n <= 3
    ensures Seal(x)[4 - n..] == Seal(y)[4 - n..] <==> LowZero(Mix(x, y), n)
  {
    hide Seal, Mix, LowZero;
    var s, t := Seal(x), Seal(y);
    FirstByte(x, y);
    SecondByte(x, y);
    ThirdByte(x, y);
    LowBytes(Mix(x, y));
    assert s[4 - n..] == t[4 - n..] <==> forall k :: 4 - n <= k < 4 ==> s[k] == t[k];
  }

  lemma FirstByte(x: bv32, y: bv32)
    ensures Seal(x)[3] == Seal(y)[3] <==> LowZero(Mix(x, y), 1)
  {
    SealBytes(x);
    SealBytes(y);
  }

  lemma SecondByte(x: bv32, y: bv32)
    ensures Seal(x)[2] == Seal(y)[2] <==> Mix(x, y) & 0xff00 == 0
  {
    SealBytes(x);
    SealBytes(y);
  }

  lemma ThirdByte(x: bv32, y: bv32)
    ensures Seal(x)[1] == Seal(y)[1] <==> Mix(x, y) & 0xff_0000 == 0
  {
    SealBytes(x);
    SealBytes(y);
  }

  lemma LowBytes(y: bv32)
    ensures LowZero(y, 2) <==> LowZero(y, 1) && y & 0xff00 == 0
    ensures LowZero(y, 3) <==> LowZero(y, 2) && y & 0xff_0000 == 0
  {
  }

  lemma SealBytes(x: bv32)
    ensures var y, m := x ^ 0xffff_ffff, Seal(x);
      m[0] == (y >> 24) as bv8 && m[1] == ((y >> 16) & 0xff) as bv8 && m[2] == ((y >> 8) & 0xff) as bv8 && m[3] == (y & 0xff) as bv8
  {
  }

  lemma SealHidden(x: bv32, y: bv32)
    requires Mix(x, y) == 0xf4ee_0000
    ensures var s, t := Seal(x), Seal(y);
      Flip(s[0], t[0]) == 0xf4 && Flip(s[1], t[1]) == 0xee && s[2..] == t[2..]
  {
    SealTail(x, y, 2);
    SealBytes(x);
    SealBytes(y);
  }

  /** The change of the last two bytes of the content that can be made up for by a change
      of the first two bytes of the check sum. */
  predicate Hidden(a: Packet, b: Packet) {
    |a| == |b| == 2 && Flip(a[0], b[0]) == 0x61 && Flip(a[1], b[1]) == 0xd8
  }

  /** Content that differs in its last one to three bytes only. */
  lemma SealsDiffer(x: bv32, a: Packet, b: Packet)
    requires 1 <= |a| == |b| <= 3 && a != b
    ensures var s, t := Seal(Register(x, a)), Seal(Register(x, b));
      && (s[4 - |a|..] == t[4 - |a|..] <==> Hidden(a, b))
      && (Hidden(a, b) ==> Flip(s[0], t[0]) == 0xf4 && Flip(s[1], t[1]) == 0xee)
  {
    hide Register, Word, Fits, LowZero, Seal, Shift8s, Mix, Flip;
    var n, v, w := |a|, Word(a), Word(b);
    WordFits(a);
    WordFits(b);
    if v == w {
      WordInjective(a, b);
    }
    MixFits(v, w, n);
    MixZero(v, w);
    RegisterOfWord(x, a);
    RegisterOfWord(x, b);
    Shift8sLinear(Mix(x, v), Mix(x, w), n);
    MixSwaps(x, v, w);
    ChangeShows(Mix(v, w), n);
    SealTail(Register(x, a), Register(x, b), n);
    if n == 2 {
      WordOfTwo(a, b);
    }
    if Hidden(a, b) {
      SealHidden(Register(x, a), Register(x, b));
    }
  }

  /** Four consecutive bytes: nothing else differs. */
  ghost predicate DifferWithin(p: Packet, q: Packet, i: nat)
    requires |p| == |q|
  {
    forall k {:trigger p[k]} {:trigger q[k]} :: 0 <= k < |p| && !(i <= k < i + 4) ==> p[k] == q[k]
  }

  /** The last two bytes of the content and the first two of the check sum differ, in
      one particular way, and nothing else does. */
  ghost predicate SlipsThrough(p: Packet, q: Packet)
    requires |p| == |q| >= 4
  {
    |p| >= 6 &&
    var i := |p| - 6;
    p[..i] == q[..i] && p[i + 4..] == q[i + 4..] && Hidden(p[i..i + 2], q[i..i + 2])
    && Flip(p[i + 2], q[i + 2]) == 0xf4 && Flip(p[i + 3], q[i + 3]) == 0xee
  }

  /** Corruption within four consecutive bytes of an accepted packet, wherever they lie,
      is rejected but for one pattern across content and check sum. */
  lemma CorruptionRejected(p: Packet, q: Packet, i: nat)
    requires |p| == |q| >= 4 && DifferWithin(p, q, i) && Accepted(p)
    ensures Accepted(q) <==> p == q || SlipsThrough(p, q)
  {
    hide CrcOf, InMemory, Hidden;
    var n := |p| - 4;
    assert p == p[..n] + p[n..] && q == q[..n] + q[n..];
    if p[..n] == q[..n] {
      if SlipsThrough(p, q) {
        NotSame(p, q);
      }
    } else if i + 4 <= n {
      InContent(p, q, i);
    } else {
      Across(p, q, i);
    }
  }

  lemma NotSame(p: Packet, q: Packet)
    requires |p| == |q| >= 4 && SlipsThrough(p, q)
    ensures p[..|p| - 4] != q[..|p| - 4]
  {
    hide Flip;
    var n := |p| - 4;
    assert p[n - 2..n][0] == p[..n][n - 2] && q[n - 2..n][0] == q[..n][n - 2];
    Alike(p[n - 2]);
  }

  lemma Alike(b: bv8)
    ensures Flip(b, b) == 0
  {
  }

  lemma InContent(p: Packet, q: Packet, i: nat)
    requires |p| == |q| >= 4 && DifferWithin(p, q, i) && Accepted(p) && i + 4 <= |p| - 4 && p[..|p| - 4] != q[..|p| - 4]
    ensures !Accepted(q) && !SlipsThrough(p, q)
  {
    hide CrcOf, InMemory, Flip;
    var n := |p| - 4;
    var head, tail, a, b := p[..i], p[i + 4..n], p[i..i + 4], q[i..i + 4];
    assert q[..i] == head && q[i + 4..n] == tail && q[n..] == p[n..];
    assert p[..n] == head + a + tail && q[..n] == head + b + tail;
    BurstDetected(head, a, b, tail);
    if Accepted(q) {
      InMemoryInjective(CrcOf(p[..n]), CrcOf(q[..n]));
    }
    assert p[n] == p[n..][0] == q[n];
    Alike(p[n]);
  }

  lemma Across(p: Packet, q: Packet, i: nat)
    requires |p| == |q| >= 4 && DifferWithin(p, q, i) && Accepted(p) && i < |p| - 4 < i + 4 && p[..|p| - 4] != q[..|p| - 4]
    ensures Accepted(q) <==> SlipsThrough(p, q)
  {
    hide InMemory, Register, Final, Hidden, Accepted, SlipsThrough, Seal, Flip;
    var n := |p| - 4;
    var head, a, b := p[..i], p[i..n], q[i..n];
    assert q[..i] == head && p[i + 4..] == q[i + 4..];
    assert p[..n] == head + a && q[..n] == head + b;
    var x := Register(START, head);
    var s, t := Seal(Register(x, a)), Seal(Register(x, b));
    SealsDiffer(x, a, b);
    AcceptedBySeal(p, head, a);
    AcceptedBySeal(q, head, b);
    assert p[n..][i + 4 - n..] == p[i + 4..] && q[n..][i + 4 - n..] == q[i + 4..];
    if Accepted(q) {
      SlipsForth(p, q, i, s, t);
    } else if SlipsThrough(p, q) {
      SlipsBack(p, q, i, s, t);
    }
  }

  lemma AcceptedBySeal(p: Packet, head: Packet, a: Packet)
    requires |p| >= 4 && p[..|p| - 4] == head + a
    ensures Accepted(p) <==> p[|p| - 4..] == Seal(Register(Register(START, head), a))
  {
    hide InMemory, Final, Register;
    RegisterAppend(START, head, a);
  }

  lemma SlipsForth(p: Packet, q: Packet, i: nat, s: Packet, t: Packet)
    requires |p| == |q| >= 4 && DifferWithin(p, q, i) && i < |p| - 4 < i + 4 && Hidden(p[i..|p| - 4], q[i..|p| - 4])
    requires |s| == |t| == 4 && p[|p| - 4..] == s && q[|p| - 4..] == t && Flip(s[0], t[0]) == 0xf4 && Flip(s[1], t[1]) == 0xee
    ensures SlipsThrough(p, q)
  {
    hide Flip;
    assert p[..i] == q[..i] && p[i + 4..] == q[i + 4..];
    assert s[0] == p[i + 2] && s[1] == p[i + 3] && t[0] == q[i + 2] && t[1] == q[i + 3];
  }

  lemma SlipsBack(p: Packet, q: Packet, i: nat, s: Packet, t: Packet)
    requires |p| == |q| >= 4 && DifferWithin(p, q, i) && i < |p| - 4 < i + 4 && SlipsThrough(p, q) && |s| == |t| == 4 && p[|p| - 4..] == s
    requires Hidden(p[i..|p| - 4], q[i..|p| - 4]) ==> s[8 + i - |p|..] == t[8 + i - |p|..] && Flip(s[0], t[0]) == 0xf4 && Flip(s[1], t[1]) == 0xee
    ensures q[|p| - 4..] == t
  {
    hide Hidden, Flip;
    var n := |p| - 4;
    SlipsWhere(p, q, i);
    assert s[0] == p[n] && s[1] == p[n + 1] && s[2] == p[n + 2] && s[3] == p[n + 3];
    XorCancels(s[0], q[n], t[0]);
    XorCancels(s[1], q[n + 1], t[1]);
    assert p[n + 2..][0] == q[n + 2..][0] && p[n + 2..][1] == q[n + 2..][1];
    assert s[2..][0] == t[2..][0] && s[2..][1] == t[2..][1];
  }

  lemma SlipsWhere(p: Packet, q: Packet, i: nat)
    requires |p| == |q| >= 4 && DifferWithin(p, q, i) && i < |p| - 4 < i + 4 && SlipsThrough(p, q)
    ensures i == |p| - 6
  {
    hide Flip;
    var n := |p| - 4;
    assert p[n - 2..n][0] == p[n - 2] && q[n - 2..n][0] == q[n - 2];
    Alike(p[n - 2]);
    Alike(p[n + 1]);
  }

  lemma XorCancels(a: bv8, b: bv8, c: bv8)
    requires Flip(a, b) == Flip(a, c)
    ensures b == c
  {
  }

  /** Seven bytes, two zeros and their check sum; and what they may turn into. */
  const SENT: Packet := [1, 2, 3, 4, 5, 6, 7, 0x00, 0x00, 0xf1, 0xea, 0x99, 0x32]
  const GOT: Packet := [1, 2, 3, 4, 5, 6, 7, 0x61, 0xd8, 0x05, 0x04, 0x99, 0x32]

  lemma OneByte(x: bv32, pkt: Packet, k: nat, y: bv32)
    requires k < |pkt| && Shift8(Mix(x, Wide(pkt[k]))) == y
    ensures Register(x, pkt[k..]) == Register(y, pkt[k + 1..])
  {
    hide Shift8, Mix, Wide;
    assert pkt[k..][0] == pkt[k] && pkt[k..][1..] == pkt[k + 1..];
  }

  const CONTENT: Packet := [1, 2, 3, 4, 5, 6, 7, 0, 0]

  lemma RegisterHalfway()
    ensures Register(START, CONTENT) == Register(0xb8f4_660b, CONTENT[5..])
  {
    hide Register;
    var pkt := CONTENT;
    OneByte(0xffff_ffff, pkt, 0, 0x5afa_20e4);
    OneByte(0x5afa_20e4, pkt, 1, 0x4933_bd6d);
    OneByte(0x4933_bd6d, pkt, 2, 0xaa43_7fe2);
    OneByte(0xaa43_7fe2, pkt, 3, 0x49c3_0432);
    OneByte(0x49c3_0432, pkt, 4, 0xb8f4_660b);
    assert pkt[0..] == pkt;
  }

  lemma RegisterOfContent()
    ensures Register(START, CONTENT) == 0x0e15_66cd
  {
    hide Register;
    var pkt := CONTENT;
    RegisterHalfway();
    OneByte(0xb8f4_660b, pkt, 5, 0x7e09_88db);
    OneByte(0x7e09_88db, pkt, 6, 0x8f1b_9777);
    OneByte(0x8f1b_9777, pkt, 7, 0xceee_ff08);
    OneByte(0xceee_ff08, pkt, 8, 0x0e15_66cd);
    assert pkt[9..] == [];
    Nothing(0x0e15_66cd);
  }

  lemma SealOfSent()
    ensures Seal(0x0e15_66cd) == [0xf1, 0xea, 0x99, 0x32]
  {
  }

  lemma SentIsAccepted()
    ensures Accepted(SENT)
  {
    hide Register, Seal, Accepted;
    RegisterOfContent();
    SealOfSent();
    assert SENT[..|SENT| - 4] == CONTENT + [];
    AcceptedBySeal(SENT, CONTENT, []);
    Nothing(0x0e15_66cd);
    assert SENT[9..] == [0xf1, 0xea, 0x99, 0x32];
  }

  lemma Nothing(x: bv32)
    ensures Register(x, []) == x
  {
  }

  /** The program takes this corruption of four consecutive bytes. */
  lemma CorruptionAccepted()
    ensures |SENT| == |GOT| && SENT != GOT && DifferWithin(SENT, GOT, 7) && Accepted(SENT) && Accepted(GOT)
  {
    SentIsAccepted();
    assert SENT[7] != GOT[7];
    assert SENT[..7] == GOT[..7] && SENT[11..] == GOT[11..];
    assert SENT[7..9] == [0, 0] && GOT[7..9] == [0x61, 0xd8];
    CorruptionRejected(SENT, GOT, 7);
  }
}
