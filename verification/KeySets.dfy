/** Sorted lists of keys and the XOR fingerprints of their ranges. */
module KeySets {
  import opened Basics

  type Key = s: Bytes | |s| == 32 witness seq(32, i => 0)

  // ------------------------------------------------------------------ xor

  /** Bitwise exclusive or, bit by bit. */
  function XorNat(a: nat, b: nat): (r: nat)
    decreases a + b
  {
    if a == 0 && b == 0 then 0 else (a + b) % 2 + 2 * XorNat(a / 2, b / 2)
  }

  lemma {:induction false} XorNatCommutes(a: nat, b: nat)
    ensures XorNat(a, b) == XorNat(b, a)
    decreases a + b
  {
    if a + b != 0 {
      XorNatCommutes(a / 2, b / 2);
    }
  }

  lemma {:induction false} XorNatZero(a: nat)
    ensures XorNat(a, 0) == a
  {
    if a != 0 {
      XorNatZero(a / 2);
    }
  }

  lemma {:induction false} XorNatSelf(a: nat)
    ensures XorNat(a, a) == 0
  {
    if a != 0 {
      XorNatSelf(a / 2);
    }
  }

  lemma Halve(m: nat, q: nat)
    requires m < 2
    ensures (m + 2 * q) % 2 == m && (m + 2 * q) / 2 == q
  {
  }

  lemma XorNatStep(a: nat, b: nat)
    ensures XorNat(a, b) % 2 == (a + b) % 2 && XorNat(a, b) / 2 == XorNat(a / 2, b / 2)
  {
    var x, q, m := XorNat(a, b), XorNat(a / 2, b / 2), (a + b) % 2;
    assert x == m + 2 * q by {
      if a == 0 && b == 0 {
        assert XorNat(0, 0) == 0;
      }
    }
    hide XorNat;
    Halve(m, q);
  }

  lemma SameHalves(x: nat, y: nat)
    requires x % 2 == y % 2 && x / 2 == y / 2
    ensures x == y
  {
  }

  lemma Parities(a: nat, b: nat, c: nat, x: nat, y: nat)
    requires x % 2 == (a + b) % 2 && y % 2 == (b + c) % 2
    ensures (x + c) % 2 == (a + y) % 2
  {
  }

  lemma {:induction false} XorNatAssociates(a: nat, b: nat, c: nat)
    ensures XorNat(XorNat(a, b), c) == XorNat(a, XorNat(b, c))
    decreases a + b + c, 1
  {
    if a == 0 && b == 0 && c == 0 {
      assert XorNat(0, 0) == 0;
    } else {
      AssociatesStep(a, b, c);
    }
  }

  lemma {:induction false} AssociatesStep(a: nat, b: nat, c: nat)
    requires a + b + c != 0
    ensures XorNat(XorNat(a, b), c) == XorNat(a, XorNat(b, c))
    decreases a + b + c, 0
  {
    hide XorNat;
    var x, y := XorNat(a, b), XorNat(b, c);
    XorNatStep(a, b);
    XorNatStep(b, c);
    XorNatStep(x, c);
    XorNatStep(a, y);
    XorNatAssociates(a / 2, b / 2, c / 2);
    Parities(a, b, c, x, y);
    SameHalves(XorNat(x, c), XorNat(a, y));
  }

  lemma {:induction false} XorNatBound(a: nat, b: nat, k: nat)
    requires a < Pow2(k) && b < Pow2(k)
    ensures XorNat(a, b) < Pow2(k)
  {
    if k > 0 {
      XorNatBound(a / 2, b / 2, k - 1);
      XorNatStep(a, b);
    }
  }

  function XorByte(a: byte, b: byte): (r: byte) {
    assert XorNat(a, b) < 256 by {
      assert Pow2(4) == 16 && Pow2(8) == 256;
      XorNatBound(a, b, 8);
    }
    XorNat(a, b)
  }

  function Xor(a: Key, b: Key): (r: Key) {
    seq(32, i requires 0 <= i < 32 => XorByte(a[i], b[i]))
  }

  const ZERO: Key := Zeros(32)

  lemma XorCommutes(a: Key, b: Key)
    ensures Xor(a, b) == Xor(b, a)
  {
    forall i | 0 <= i < 32 ensures Xor(a, b)[i] == Xor(b, a)[i] {
      XorNatCommutes(a[i], b[i]);
    }
  }

  lemma XorAssociates(a: Key, b: Key, c: Key)
    ensures Xor(Xor(a, b), c) == Xor(a, Xor(b, c))
  {
    forall i | 0 <= i < 32 ensures Xor(Xor(a, b), c)[i] == Xor(a, Xor(b, c))[i] {
      XorNatAssociates(a[i], b[i], c[i]);
    }
  }

  lemma XorZero(a: Key)
    ensures Xor(a, ZERO) == a && Xor(ZERO, a) == a
  {
    forall i | 0 <= i < 32 ensures Xor(a, ZERO)[i] == a[i] {
      XorNatZero(a[i]);
    }
    XorCommutes(a, ZERO);
  }

  /** What was mixed in twice is gone. */
  lemma XorCancels(a: Key, b: Key)
    ensures Xor(a, Xor(a, b)) == b
  {
    XorAssociates(a, a, b);
    assert Xor(a, a) == ZERO by {
      forall i | 0 <= i < 32 ensures Xor(a, a)[i] == 0 {
        XorNatSelf(a[i]);
      }
    }
    XorZero(b);
  }

  /** The fingerprint of a list of keys. */
  function XorOf(keys: seq<Key>): Key {
    if keys == [] then ZERO else Xor(XorOf(keys[..|keys| - 1]), keys[|keys| - 1])
  }

  // --------------------------------------------------------- sorted lists

  ghost predicate Sorted(keys: seq<Key>) {
    forall i, j :: 0 <= i < j < |keys| ==> Less(keys[i], keys[j])
  }

  ghost function SetOf(keys: seq<Key>): set<Key> {
    set i {:trigger keys[i]} | 0 <= i < |keys| :: keys[i]
  }

  lemma SortedDistinct(keys: seq<Key>, i: nat, j: nat)
    requires Sorted(keys) && i < |keys| && j < |keys| && keys[i] == keys[j]
    ensures i == j
  {
    LessIrreflexive(keys[i]);
  }

  lemma SortedOrder(keys: seq<Key>, i: nat, j: nat)
    requires Sorted(keys) && i < |keys| && j < |keys| && Less(keys[i], keys[j])
    ensures i < j
  {
    if j < i {
      LessTransitive(keys[i], keys[j], keys[i]);
    }
    LessIrreflexive(keys[i]);
  }

  lemma {:induction false} SetOfSize(keys: seq<Key>)
    requires Sorted(keys)
    ensures |SetOf(keys)| == |keys|
  {
    if keys != [] {
      var n := |keys| - 1;
      SetOfSize(keys[..n]);
      assert SetOf(keys) == SetOf(keys[..n]) + {keys[n]};
      if keys[n] in SetOf(keys[..n]) {
        var i :| 0 <= i < n && keys[..n][i] == keys[n];
        SortedDistinct(keys, i, n);
      }
    }
  }

  /** A set has one sorted list. */
  lemma {:induction false} SortedUnique(a: seq<Key>, b: seq<Key>)
    requires Sorted(a) && Sorted(b) && SetOf(a) == SetOf(b)
    ensures a == b
  {
    SetOfSize(a);
    SetOfSize(b);
    if a != [] {
      assert a[|a| - 1] in SetOf(b);
      assert b[|b| - 1] in SetOf(a);
      var m, n := |a| - 1, |b| - 1;
      LastIsLargest(a, b);
      LastIsLargest(b, a);
      LessTransitiveOrEqual(a[m], b[n]);
      assert SetOf(a[..m]) == SetOf(a) - {a[m]} by { WithoutLast(a); }
      assert SetOf(b[..n]) == SetOf(b) - {b[n]} by { WithoutLast(b); }
      SortedUnique(a[..m], b[..n]);
      assert a == a[..m] + [a[m]] && b == b[..n] + [b[n]];
    }
  }

  lemma LastIsLargest(a: seq<Key>, b: seq<Key>)
    requires Sorted(b) && a != [] && b != [] && a[|a| - 1] in SetOf(b)
    ensures a[|a| - 1] == b[|b| - 1] || Less(a[|a| - 1], b[|b| - 1])
  {
  }

  lemma LessTransitiveOrEqual(a: Key, b: Key)
    requires (a == b || Less(a, b)) && (b == a || Less(b, a))
    ensures a == b
  {
    if a != b {
      LessTransitive(a, b, a);
      LessIrreflexive(a);
    }
  }

  lemma WithoutLast(a: seq<Key>)
    requires Sorted(a) && a != []
    ensures SetOf(a[..|a| - 1]) == SetOf(a) - {a[|a| - 1]}
  {
    var m := |a| - 1;
    forall x ensures x in SetOf(a[..m]) <==> x in SetOf(a) - {a[m]} {
      if x in SetOf(a[..m]) {
        var i :| 0 <= i < m && a[..m][i] == x;
        if x == a[m] {
          SortedDistinct(a, i, m);
        }
      }
      if x in SetOf(a) && x != a[m] {
        var i :| 0 <= i < |a| && a[i] == x;
        assert a[..m][i] == x;
      }
    }
  }

  // --------------------------------------------------------------- claims

  /** "Between `lo` and `hi` I hold `sz` keys with this fingerprint." */
  datatype Claim = Claim(lo: Key, hi: Key, xo: Key, sz: nat)

  function MakeClaim(keys: seq<Key>, lo: nat, hi: nat): Claim
    requires lo <= hi < |keys|
  {
    Claim(keys[lo], keys[hi], XorOf(keys[lo..hi + 1]), hi - lo + 1)
  }

  /** Some list of known keys has been described by this claim. */
  ghost predicate HonestBy(cl: Claim, keys: seq<Key>, i: nat, j: nat) {
    Sorted(keys) && i <= j < |keys| && cl == MakeClaim(keys, i, j)
  }

  /** Between the same two keys, the one who holds at least as many and has a
      different fingerprint holds one that the other lacks. */
  lemma ClaimantLacks(mine: seq<Key>, lo: nat, hi: nat, theirs: seq<Key>, i: nat, j: nat)
    requires Sorted(mine) && Sorted(theirs) && lo <= hi < |mine| && i <= j < |theirs|
    requires mine[lo] == theirs[i] && mine[hi] == theirs[j]
    requires XorOf(mine[lo..hi + 1]) != XorOf(theirs[i..j + 1]) && hi - lo >= j - i
    ensures exists m :: lo < m < hi && mine[m] !in SetOf(theirs)
  {
    var a, b := mine[lo..hi + 1], theirs[i..j + 1];
    if forall m :: lo < m < hi ==> mine[m] in SetOf(theirs) {
      forall x | x in SetOf(a) ensures x in SetOf(b) {
        var m :| 0 <= m < |a| && a[m] == x;
        Between(mine, lo, hi, lo + m, theirs, i, j);
      }
      SetOfSize(a);
      SetOfSize(b);
      SubsetOfSize(SetOf(a), SetOf(b));
      SortedUnique(a, b);
    }
  }

  lemma SubsetOfSize(a: set<Key>, b: set<Key>)
    requires a <= b && |a| >= |b|
    ensures a == b
  {
    if a != b {
      var x :| x in b && x !in a;
      assert a + {x} <= b;
      Smaller(a + {x}, b);
    }
  }

  lemma {:induction false} Smaller(a: set<Key>, b: set<Key>)
    requires a <= b
    ensures |a| <= |b|
  {
    if a != {} {
      var x :| x in a;
      Smaller(a - {x}, b - {x});
    }
  }

  lemma Between(mine: seq<Key>, lo: nat, hi: nat, m: nat, theirs: seq<Key>, i: nat, j: nat)
    requires Sorted(mine) && Sorted(theirs) && lo <= m <= hi < |mine| && i <= j < |theirs|
    requires mine[lo] == theirs[i] && mine[hi] == theirs[j] && mine[m] in SetOf(theirs)
    ensures mine[m] in SetOf(theirs[i..j + 1])
  {
    var k :| 0 <= k < |theirs| && theirs[k] == mine[m];
    if k < i {
      assert Less(theirs[k], theirs[i]);
      SortedOrder(mine, m, lo);
    }
    if k > j {
      assert Less(theirs[j], theirs[k]);
      SortedOrder(mine, hi, m);
    }
    assert theirs[i..j + 1][k - i] == mine[m];
  }

  // ------------------------------------------------------- the middle key

  function MiddleKey(cl: Claim): Key {
    Xor(Xor(cl.xo, cl.lo), cl.hi)
  }

  /** The claim of a range of three keys determines the one in the middle. */
  lemma MiddleIsHeld(cl: Claim, keys: seq<Key>, i: nat, j: nat)
    requires HonestBy(cl, keys, i, j) && cl.sz == 3
    ensures MiddleKey(cl) == keys[i + 1] && Less(cl.lo, MiddleKey(cl)) && Less(MiddleKey(cl), cl.hi)
  {
    var a, b, c := keys[i], keys[i + 1], keys[i + 2];
    var r := keys[i..j + 1];
    assert r == [a, b, c] && r[..2] == [a, b] && r[..2][..1] == [a] && r[..2][..1][..0] == [];
    XorZero(a);
    assert XorOf([a]) == a;
    assert XorOf([a, b]) == Xor(a, b);
    assert cl.xo == Xor(Xor(a, b), c);
    // mixing in a and c once more leaves b
    XorCommutes(Xor(Xor(a, b), c), a);
    XorAssociates(a, Xor(a, b), c);
    XorCancels(a, b);
    XorCommutes(b, c);
    XorCommutes(Xor(c, b), c);
    XorCancels(c, b);
    assert Xor(cl.xo, a) == Xor(a, Xor(Xor(a, b), c)) == Xor(Xor(a, Xor(a, b)), c) == Xor(b, c) == Xor(c, b);
  }
}
