/** The loops of the curve arithmetic: powers, reduction, multiples of a point. */
module ScalarMult {
  import opened Basics
  import opened Congruence
  import opened Edwards
  import opened EdwardsGroup

  // --------------------------------------------------------------- powers

  function Power(b: int, n: nat): int {
    if n == 0 then 1 else b * Power(b, n - 1)
  }

  lemma {:induction false} PowerHalves(b: int, n: nat)
    ensures Power(b, n) == Power(b * b, n / 2) * (if n % 2 == 1 then b else 1)
  {
    if n >= 2 {
      PowerHalves(b, n - 2);
      var m := Power(b, n - 2);
      assert Power(b, n) == b * (b * m) == (b * b) * m;
      assert (n - 2) / 2 == n / 2 - 1;
      assert Power(b * b, n / 2) == (b * b) * Power(b * b, n / 2 - 1);
      PowerStep(b * b, Power(b * b, n / 2 - 1), if n % 2 == 1 then b else 1);
    }
  }

  lemma PowerStep(a: int, m: int, c: int)
    ensures a * (m * c) == (a * m) * c
  {
  }

  lemma {:induction false} PowerEq(m: nat, a: int, b: int, n: nat)
    requires m > 0 && Eq(m, a, b)
    ensures Eq(m, Power(a, n), Power(b, n))
  {
    if n == 0 {
      EqRefl(m, 1);
    } else {
      PowerEq(m, a, b, n - 1);
      EqMul(m, a, b, Power(a, n - 1), Power(b, n - 1));
    }
  }

  /** Square and multiply. A zero exponent leaves the base, and not one. */
  method Pow3(base: int, exponent: nat, m: nat) returns (r: int)
    requires m > 0
    ensures r == (if exponent == 0 then base else Power(base, exponent)) % m
  {
    hide Eq, Power;
    var b, exp, res := base, exponent, 1;
    ghost var goal := Power(base, exponent);
    EqRefl(m, goal);
    while exp > 1
      invariant exponent > 0 ==> exp > 0
      invariant exponent == 0 ==> exp == 0 && b == base && res == 1
      invariant Eq(m, res * Power(b, exp), goal)
    {
      PowerHalves(b, exp);
      ghost var odd := if exp % 2 == 1 then b else 1;
      ghost var before := res;
      if exp % 2 == 1 {
        res := (res * b) % m;
        EqMod(m, before * b);
      } else {
        EqRefl(m, before);
      }
      Stepped(m, before, odd, res, b, exp / 2, Power(b, exp), goal);
      b := (b * b) % m;
      exp := exp / 2;
    }
    PowerSmall(b);
    assert exponent > 0 ==> exp == 1;
    EqIsSameRemainder(m, b * res, goal);
    r := (b * res) % m;
  }

  lemma PowerSmall(b: int)
    ensures Power(b, 1) == b && Power(b, 0) == 1
  {
    assert Power(b, 0) == 1;
  }

  lemma Stepped(m: nat, before: int, odd: int, res: int, b: int, half: nat, power: int, goal: int)
    requires m > 0 && power == Power(b * b, half) * odd && Eq(m, before * power, goal) && Eq(m, res, before * odd)
    ensures Eq(m, res * Power((b * b) % m, half), goal)
  {
    hide Eq, Power;
    EqMod(m, b * b);
    PowerEq(m, (b * b) % m, b * b, half);
    EqMul(m, res, before * odd, Power((b * b) % m, half), Power(b * b, half));
    Rotate(before, odd, Power(b * b, half));
    EqTrans(m, res * Power((b * b) % m, half), before * power, goal);
  }

  lemma Rotate(a: int, b: int, c: int)
    ensures (a * b) * c == a * (c * b)
  {
  }

  /** The power is what one expects exactly if the exponent is positive or the base
      leaves the same remainder as one. */
  method Pow3Exact(b: int, exp: nat, m: nat) returns (r: int)
    requires m > 0
    ensures r == Power(b, exp) % m <==> exp > 0 || b % m == 1 % m
  {
    r := Pow3(b, exp, m);
    PowerSmall(b);
  }

  /** The program gives 2 for the zeroth power of 2 modulo 5. */
  method Pow3Zero() returns (r: int)
    ensures r == 2 && Power(2, 0) % 5 == 1
  {
    r := Pow3(2, 0, 5);
    PowerSmall(2);
  }

  // ------------------------------------------------------------- reduction

  /** The bytes of a number, most significant first. */
  function BigEndian(num: nat, n: nat): (s: Bytes)
    ensures |s| == n
  {
    if n == 0 then [] else BigEndian(num / 256, n - 1) + [num % 256]
  }

  lemma {:induction false} ByteOf(num: nat, n: nat, i: nat)
    requires i < n
    ensures BigEndian(num, n)[i] == num / Pow256(n - 1 - i) % 256
  {
    if i < n - 1 {
      ByteOf(num / 256, n - 1, i);
      DivTwice(num, 256, Pow256(n - 2 - i));
    } else {
      assert Pow256(0) == 1;
    }
  }

  lemma DivTwice(a: nat, b: nat, c: nat)
    requires b > 0 && c > 0
    ensures b * c > 0 && a / b / c == a / (b * c)
  {
    QuotientAndRest(a, b);
    QuotientAndRest(a / b, c);
    TwoDivisions(a, b, c, a / b, a % b, a / b / c, a / b % c);
  }

  lemma QuotientAndRest(a: nat, b: nat)
    requires b > 0
    ensures a == b * (a / b) + a % b && 0 <= a % b < b
  {
  }

  lemma TwoDivisions(a: nat, b: nat, c: nat, q: nat, s: nat, q': nat, r: nat)
    requires a == b * q + s && s < b && q == c * q' + r && r < c
    ensures b * c > 0 && a / (b * c) == q'
  {
    Regrouped(b, c, q', r, s);
    UniqueRemainder(b * c, a, q', b * r + s);
  }

  lemma Regrouped(b: nat, c: nat, q: nat, r: nat, s: nat)
    requires b > 0 && r < c && s < b
    ensures b * (c * q + r) + s == (b * c) * q + (b * r + s) && b * r + s < b * c && b * c > 0
  {
    assert b * (c * q + r) == b * (c * q) + b * r;
    var d := c - 1 - r;
    assert c == r + 1 + d;
    assert b * c == b * r + b + b * d;
  }

  /** Reduction modulo `a` byte by byte; None where the number has more than 64 bytes. */
  method Mod(num: nat, a: nat) returns (r: Option<nat>)
    requires a > 0
    ensures r == if num < Pow256(64) then Some(num % a) else None
  {
    hide Eq, Pow256, BigEndian;
    if num >= Pow256(64) {
      return None;
    }
    var res := num / Pow256(33);
    var bytes := BigEndian(num, 64);
    EqRefl(a, res);
    var i := 31;
    while i < 64
      invariant 31 <= i <= 64
      invariant Eq(a, res, num / Pow256(64 - i))
      invariant i > 31 ==> 0 <= res < a
    {
      ByteOf(num, 64, i);
      ghost var high := num / Pow256(64 - i);
      NextByte(num, 63 - i);
      assert num / Pow256(63 - i) == 256 * high + bytes[i];
      EqRefl(a, 256);
      EqMul(a, 256, 256, res, high);
      EqRefl(a, bytes[i]);
      EqAdd(a, 256 * res, 256 * high, bytes[i], bytes[i]);
      EqMod(a, 256 * res + bytes[i]);
      EqTrans(a, (256 * res + bytes[i]) % a, 256 * res + bytes[i], num / Pow256(63 - i));
      res := (256 * res + bytes[i]) % a;
      i := i + 1;
    }
    WholeNumber(num);
    EqIsSameRemainder(a, res, num);
    Small(res, a);
    r := Some(res);
  }

  lemma NextByte(num: nat, k: nat)
    ensures num / Pow256(k) == 256 * (num / Pow256(k + 1)) + num / Pow256(k) % 256
  {
    DivTwice(num, Pow256(k), 256);
    assert Pow256(k) * 256 == Pow256(k + 1);
  }

  lemma WholeNumber(num: nat)
    ensures num / Pow256(0) == num
  {
    assert Pow256(0) == 1;
  }

  lemma Small(r: nat, a: nat)
    requires r < a
    ensures r % a == r
  {
  }

  // -------------------------------------------------------------- multiples

  /** Double and add, with either formula for the sum. */
  function Ladder(cv: Curve, p: Point, n: nat, fast: bool): Point {
    if n == 0 then ZERO
    else
      var v := Double(cv, Ladder(cv, p, n / 2, fast));
      if n % 2 == 1 then (if fast then AddNonUnified(cv, v, p) else Add(cv, v, p)) else v
  }

  function Shifted(n: nat, i: nat): nat {
    if i == 0 then n else Shifted(n, i - 1) / 2
  }

  lemma {:induction false} ShiftedZero(n: nat, i: nat)
    ensures Shifted(n, i) == 0 <==> n < Pow2(i)
  {
    if i > 0 {
      ShiftedBound(n, i, 1);
    }
  }

  lemma {:induction false} ShiftedBound(n: nat, i: nat, k: nat)
    ensures Shifted(n, i) < k <==> n < k * Pow2(i)
    decreases i
  {
    if i > 0 {
      ShiftedBound(n, i - 1, 2 * k);
      assert (2 * k) * Pow2(i - 1) == k * (2 * Pow2(i - 1));
    } else {
      assert Pow2(0) == 1;
    }
  }

  /** The bits are laid down first, then used from the highest. There is room for 256;
      a larger number raises an exception. */
  method ScalarMultElement(cv: Curve, pt: Point, n: nat, fast: bool) returns (r: Option<Point>)
    ensures r == if n < Pow2(256) then Some(Ladder(cv, pt, n, fast)) else None
  {
    hide Double, Add, AddNonUnified, Pow2, Shifted;
    ShiftedZero(n, 256);
    var f := new bool[256](i => false);
    var m, i: nat := n, 0;
    ShiftedStart(n);
    while m != 0
      invariant m == Shifted(n, i)
      invariant Shifted(n, 256) != 0 ==> m != 0
      invariant forall k :: 0 <= k < 256 && k < i ==> f[k] == (Shifted(n, k) % 2 == 1)
      invariant forall k :: i <= k < 256 ==> !f[k]
      invariant forall k :: 0 <= k < i ==> Shifted(n, k) != 0
      invariant i > 256 ==> Shifted(n, 256) != 0
      decreases m
    {
      if m % 2 == 1 {
        if i >= 256 {
          ShiftedFalls(n, 256, i);
          return None;
        }
        f[i] := true;
      }
      ShiftedNext(n, i);
      if i >= 256 {
        ShiftedFalls(n, 256, i);
      } else {
        ShiftedFalls(n, i + 1, 256);
      }
      m := m / 2;
      i := i + 1;
    }
    ghost var bits := i;
    assert bits <= 256;
    var v := ZERO;
    while i > 0
      invariant forall k :: 0 <= k < bits ==> f[k] == (Shifted(n, k) % 2 == 1)
      invariant i <= bits <= 256 && v == Ladder(cv, pt, Shifted(n, i), fast)
    {
      LadderStep(cv, pt, n, i - 1, fast);
      v := Double(cv, v);
      i := i - 1;
      assert f[i] == (Shifted(n, i) % 2 == 1);
      if f[i] {
        v := if fast then AddNonUnified(cv, v, pt) else Add(cv, v, pt);
      }
    }
    ShiftedStart(n);
    r := Some(v);
  }

  lemma ShiftedStart(n: nat)
    ensures Shifted(n, 0) == n
  {
  }

  lemma ShiftedNext(n: nat, i: nat)
    ensures Shifted(n, i + 1) == Shifted(n, i) / 2
  {
  }

  lemma {:induction false} ShiftedFalls(n: nat, i: nat, j: nat)
    requires i <= j
    ensures Shifted(n, j) <= Shifted(n, i)
  {
    if i < j {
      ShiftedFalls(n, i, j - 1);
    }
  }

  lemma LadderStep(cv: Curve, pt: Point, n: nat, i: nat, fast: bool)
    requires Shifted(n, i) != 0
    ensures var k, v := Shifted(n, i), Double(cv, Ladder(cv, pt, Shifted(n, i + 1), fast));
      Ladder(cv, pt, k, fast) == if k % 2 == 1 then (if fast then AddNonUnified(cv, v, pt) else Add(cv, v, pt)) else v
  {
    hide Double, Add, AddNonUnified;
  }

  /** What a multiple is: the same recursion, with nothing but unified sums. */
  function Multiple(cv: Curve, p: Point, n: nat): Point {
    if n == 0 then ZERO
    else
      var h := Multiple(cv, p, n / 2);
      if n % 2 == 1 then Add(cv, Add(cv, h, h), p) else Add(cv, h, h)
  }

  lemma ZeroOnCurve(cv: Curve)
    ensures OnCurve(cv, ZERO)
  {
    EqRefl(cv.q, 0);
    EqRefl(cv.q, 1);
    assert cv.d * (0 * 0) == 0;
  }

  lemma SameReflexive(cv: Curve, p: Point)
    ensures Same(cv, p, p)
  {
    hide Eq;
    EqRefl(cv.q, p.x);
    EqRefl(cv.q, p.y);
    EqRefl(cv.q, p.z);
    EqRefl(cv.q, p.t);
    OneIsUnit(cv);
    SameBy(cv, p, p, 1, 1);
  }

  /** The ladder with unified sums computes the multiple, and stays on the curve. */
  lemma {:induction false} LadderIsMultiple(cv: Curve, p: Point, n: nat)
    requires OnCurve(cv, p) && cv.q % 4 == 1
    ensures OnCurve(cv, Ladder(cv, p, n, false)) && Same(cv, Ladder(cv, p, n, false), Multiple(cv, p, n))
  {
    hide Eq, OnCurve, Same, Add, Double;
    if n == 0 {
      ZeroOnCurve(cv);
      SameReflexive(cv, ZERO);
    } else {
      LadderIsMultiple(cv, p, n / 2);
      var v, h := Ladder(cv, p, n / 2, false), Multiple(cv, p, n / 2);
      DoubleSame(cv, v);
      AddSame(cv, v, h, v, h);
      SameSymmetric(cv, Add(cv, v, v), Double(cv, v));
      SameTransitive(cv, Double(cv, v), Add(cv, v, v), Add(cv, h, h));
      if n % 2 == 1 {
        AddOnCurve(cv, Double(cv, v), p);
        SameReflexive(cv, p);
        AddSame(cv, Double(cv, v), Add(cv, h, h), p, p);
      }
    }
  }

  // --------------------------------------------------- the faster formula

  ghost predicate Unit(cv: Curve, z: int) {
    exists m :: Inverse(cv, z, m)
  }

  /** Where neither denominator vanishes, the fast sum is the unified one. */
  lemma FastSumSame(cv: Curve, v: Point, p: Point)
    requires OnCurve(cv, v) && OnCurve(cv, p) && Unit(cv, AddNonUnified(cv, v, p).z) && Unit(cv, Add(cv, v, p).z)
    ensures Same(cv, Add(cv, v, p), AddNonUnified(cv, v, p))
  {
    hide Eq, OnCurve, Add, AddNonUnified, Scaled;
    NonUnifiedAgrees(cv, v, p);
    var r, s := AddNonUnified(cv, v, p), Add(cv, v, p);
    var m :| Inverse(cv, r.z, m);
    var k :| Inverse(cv, s.z, k);
    RatioOne(cv, r.x, s.x, r.z, s.z, m);
    RatioOne(cv, r.y, s.y, r.z, s.z, m);
    RatioOne(cv, r.t, s.t, r.z, s.z, m);
    EqRefl(cv.q, s.z * r.z);
    RatioOne(cv, r.z, s.z, r.z, s.z, m);
    InverseProduct(cv, r.z, m, r.z, m);
    InverseProduct(cv, s.z, k, m, r.z);
    ScaledIs(cv, s, r, s.z * m);
    SameBy(cv, s, r, s.z * m, k * r.z);
  }

  lemma ScaledIs(cv: Curve, r: Point, s: Point, l: int)
    requires Eq(cv.q, r.x, l * s.x) && Eq(cv.q, r.y, l * s.y) && Eq(cv.q, r.z, l * s.z) && Eq(cv.q, r.t, l * s.t)
    ensures Scaled(cv, r, s, l)
  {
  }

  lemma RatioOne(cv: Curve, a: int, b: int, u: int, v: int, m: int)
    requires (Eq(cv.q, a * v, b * u) || (a == u && b == v)) && Inverse(cv, u, m)
    ensures Eq(cv.q, b, (v * m) * a)
  {
    hide Eq;
    if a == u && b == v {
      EqRefl(cv.q, v * u);
    }
    EqRefl(cv.q, m);
    EqMul(cv.q, a * v, b * u, m, m);
    EqRefl(cv.q, b);
    EqMul(cv.q, b, b, u * m, 1);
    Rotations(a, v, m, b, u);
    EqTrans(cv.q, (v * m) * a, b * (u * m), b);
    EqSym(cv.q, (v * m) * a, b);
  }

  lemma Rotations(a: int, v: int, m: int, b: int, u: int)
    ensures (a * v) * m == (v * m) * a && (b * u) * m == b * (u * m)
  {
  }

  /** At no step of the fast ladder does a denominator vanish. */
  ghost predicate Regular(cv: Curve, p: Point, n: nat) {
    n == 0 ||
    (var v := Double(cv, Ladder(cv, p, n / 2, true));
     Regular(cv, p, n / 2) && (n % 2 == 1 ==> Unit(cv, AddNonUnified(cv, v, p).z) && Unit(cv, Add(cv, v, p).z)))
  }

  /** Then it computes the same multiple. */
  lemma {:induction false} FastLadderIsMultiple(cv: Curve, p: Point, n: nat)
    requires OnCurve(cv, p) && cv.q % 4 == 1 && Regular(cv, p, n)
    ensures OnCurve(cv, Ladder(cv, p, n, true)) && Same(cv, Ladder(cv, p, n, true), Multiple(cv, p, n))
  {
    hide Eq, OnCurve, Same, Add, Double, AddNonUnified, Unit;
    if n == 0 {
      ZeroOnCurve(cv);
      SameReflexive(cv, ZERO);
    } else {
      FastLadderIsMultiple(cv, p, n / 2);
      var v, h := Ladder(cv, p, n / 2, true), Multiple(cv, p, n / 2);
      var d := Double(cv, v);
      DoubleSame(cv, v);
      AddSame(cv, v, h, v, h);
      SameSymmetric(cv, Add(cv, v, v), d);
      SameTransitive(cv, d, Add(cv, v, v), Add(cv, h, h));
      if n % 2 == 1 {
        FastSumSame(cv, d, p);
        SameSymmetric(cv, Add(cv, d, p), AddNonUnified(cv, d, p));
        AddOnCurve(cv, d, p);
        SameOnCurve(cv, AddNonUnified(cv, d, p), Add(cv, d, p));
        SameReflexive(cv, p);
        AddSame(cv, d, Add(cv, h, h), p, p);
        SameTransitive(cv, AddNonUnified(cv, d, p), Add(cv, d, p), Add(cv, Add(cv, h, h), p));
      }
    }
  }
}
