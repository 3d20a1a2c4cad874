/** The points of the curve under addition: sums stay on the curve, and nothing depends
    on the scale of extended coordinates. */
module EdwardsGroup {
  import opened Congruence
  import opened Edwards

  // ------------------------------------------------------------- closure

  lemma FactorsOnCurve(cv: Curve, r: Point, e: int, f: int, g: int, h: int)
    requires HasFactors(cv, r, e, f, g, h)
    requires Eq(cv.q, (g * h) * (g * h) - (e * f) * (e * f), (f * g) * (f * g) + cv.d * ((e * h) * (e * h)))
    ensures OnCurve(cv, r)
  {
    hide Red, Eq;
    EqMul(cv.q, r.x, e * f, r.y, g * h);
    EqMul(cv.q, r.z, f * g, r.t, e * h);
    Swap(e, f, h, g);
    assert (e * f) * (g * h) == (f * g) * (e * h);
    Meet(cv, r.x * r.y, (e * f) * (g * h), r.z * r.t);
    EqMul(cv.q, r.x, e * f, r.x, e * f);
    EqMul(cv.q, r.y, g * h, r.y, g * h);
    EqMul(cv.q, r.z, f * g, r.z, f * g);
    EqMul(cv.q, r.t, e * h, r.t, e * h);
    EqRefl(cv.q, cv.d);
    EqMul(cv.q, cv.d, cv.d, r.t * r.t, (e * h) * (e * h));
    EqAdd(cv.q, r.y * r.y, (g * h) * (g * h), r.x * r.x, (e * f) * (e * f));
    EqAdd(cv.q, r.z * r.z, (f * g) * (f * g), cv.d * (r.t * r.t), cv.d * ((e * h) * (e * h)));
    EqTrans(cv.q, r.y * r.y - r.x * r.x, (g * h) * (g * h) - (e * f) * (e * f), (f * g) * (f * g) + cv.d * ((e * h) * (e * h)));
    Meet(cv, r.y * r.y - r.x * r.x, (f * g) * (f * g) + cv.d * ((e * h) * (e * h)), r.z * r.z + cv.d * (r.t * r.t));
  }

  /** The halves of E and H, by the coordinates of the two points. */
  lemma HalvesIdentities(x1: int, y1: int, x2: int, y2: int)
    ensures var e, h := x1 * y2 + x2 * y1, y1 * y2 + x1 * x2;
      var k1, k2, u1, u2, w1, w2 := y1 * y1 - x1 * x1, y2 * y2 - x2 * x2, y1 * y1 + x1 * x1, y2 * y2 + x2 * x2, x1 * y1, x2 * y2;
      && h * h - e * e == k1 * k2 && h * h + e * e == u1 * u2 + 4 * (w1 * w2)
      && e * h == w1 * u2 + w2 * u1
  {
    var e, h := x1 * y2 + x2 * y1, y1 * y2 + x1 * x2;
    var w1, w2 := x1 * y1, x2 * y2;
    Rearranged(1, x1, y1, x2, y2);
    var a1, a2, b1, b2 := y1 + x1, y2 + x2, y1 - x1, y2 - x2;
    Dist(y1, x1, y2, x2);
    assert h + e == a1 * a2 && h - e == b1 * b2;
    Dist(h, e, h, e);
    Dist(y1, x1, y1, x1);
    Dist(y2, x2, y2, x2);
    Swap(a1, a2, b1, b2);
    assert (h + e) * (h - e) == (a1 * b1) * (a2 * b2);
    Swap(a1, a2, a1, a2);
    Swap(b1, b2, b1, b2);
    var u1, u2 := y1 * y1 + x1 * x1, y2 * y2 + x2 * x2;
    assert a1 * a1 == u1 + 2 * w1 && a2 * a2 == u2 + 2 * w2 && b1 * b1 == u1 - 2 * w1 && b2 * b2 == u2 - 2 * w2;
    Dist(u1, 2 * w1, u2, 2 * w2);
    assert (2 * w1) * (2 * w2) == 4 * (w1 * w2);
  }

  lemma SquareOfSum(a: int, b: int)
    ensures (a + b) * (a + b) == a * a + b * b + 2 * (a * b) && (a - b) * (a - b) == a * a + b * b - 2 * (a * b)
  {
  }

  lemma SumAndDifference(x: int, y: int)
    ensures var u, k, w := y * y + x * x, y * y - x * x, x * y;
      u * u == k * k + 4 * (w * w)
  {
    SquareOfSum(y * y, x * x);
    Swap(y, y, x, x);
    assert (y * y) * (x * x) == (x * y) * (x * y);
  }

  /** The equation holds for the z and t coordinates alone. */
  lemma DenominatorIdentity(z1: int, s1: int, z2: int, s2: int)
    ensures (z1 + s1) * (z2 + s2) * (z1 * z2 + s1 * s2)
      == (z1 * z2 - s1 * s2) * (z1 * z2 - s1 * s2) + (z1 * s1) * ((z2 + s2) * (z2 + s2)) + (z2 * s2) * ((z1 + s1) * (z1 + s1))
  {
    var a, b, c, d := z1 * z2, s1 * s2, z1 * s2, s1 * z2;
    Dist(z1, s1, z2, s2);
    SquareOfSum(z2, s2);
    SquareOfSum(z1, s1);
    SquareOfSum(a, b);
    Dist(a + b, c + d, a + b, 0);
    Dist(c, d, a, b);
    Spread(z1 * s1, z2 * z2, s2 * s2, z2 * s2);
    Spread(z2 * s2, z1 * z1, s1 * s1, z1 * s1);
    Swap(z1, s1, z2, z2);
    Swap(z1, s1, s2, s2);
    Swap(z1, s1, z2, s2);
    Swap(z2, s2, z1, z1);
    Swap(z2, s2, s1, s1);
    Swap(z2, s2, z1, s1);
    assert (z1 + s1) * (z2 + s2) == a + b + c + d;
    assert (a + b + c + d) * (a + b) == (a + b) * (a + b) + (c + d) * (a + b);
  }

  lemma Spread(a: int, b: int, c: int, d: int)
    ensures a * (b + c + 2 * d) == a * b + a * c + 2 * (a * d)
  {
  }

  lemma LeftSide(e: int, f: int, g: int, h: int, p: int, r: int, kk: int, s: int)
    requires f == p - r && g == p + r && h * h - e * e == kk && h * h + e * e == s
    ensures (g * h) * (g * h) - (e * f) * (e * f) == kk * (p * p + r * r) + 2 * ((p * r) * s)
  {
    SquareOfSum(p, r);
    Swap(g, h, g, h);
    Swap(e, f, e, f);
    var n, m := p * p + r * r, p * r;
    Spread(h * h, p * p, r * r, m);
    Spread(e * e, p * p, r * r, -m);
    assert (g * h) * (g * h) == (h * h) * n + 2 * ((h * h) * m) by { Dist(h * h, 0, p * p, r * r); }
    assert (e * f) * (e * f) == (e * e) * n - 2 * ((e * e) * m) by {
      Dist(e * e, 0, p * p, r * r);
      assert (e * e) * -m == -((e * e) * m);
    }
    Dist(h * h, e * e, n, 0);
    Dist(h * h, e * e, m, 0);
    assert kk * n == (h * h) * n - (e * e) * n && m * s == (h * h) * m + (e * e) * m;
  }

  lemma RightSide(f: int, g: int, p: int, r: int)
    requires f == p - r && g == p + r
    ensures f * g == p * p - r * r
  {
    Dist(p, r, p, -r);
  }

  /** What both sides of the equation of a sum come down to. */
  lemma Balance(cv: Curve, z1: int, t1: int, z2: int, t2: int, uu: int)
    ensures var p, r := z1 * z2, cv.d * (t1 * t2);
      var v1, v2 := z1 * t1, z2 * t2;
      var c1, c2 := z1 * z1 + cv.d * (t1 * t1), z2 * z2 + cv.d * (t2 * t2);
      (c1 * c2) * (p * p + r * r) + 2 * ((p * r) * (uu + 4 * (v1 * v2)))
      == (p * p - r * r) * (p * p - r * r)
         + cv.d * ((v1 * v1) * (c2 * c2 + 4 * (v2 * v2)) + (v2 * v2) * (c1 * c1 + 4 * (v1 * v1)) + 2 * ((v1 * v2) * uu))
  {
    var a, b, s1, s2 := z1 * z1, z2 * z2, cv.d * (t1 * t1), cv.d * (t2 * t2);
    var p, r, v1, v2 := z1 * z2, cv.d * (t1 * t2), z1 * t1, z2 * t2;
    var c1, c2 := a + s1, b + s2;
    Swap(z1, z2, z1, z2);
    Swap(cv.d, t1 * t2, cv.d, t1 * t2);
    Swap(t1, t2, t1, t2);
    Swap(cv.d, t1 * t1, cv.d, t2 * t2);
    assert p * p == a * b && r * r == s1 * s2;
    DenominatorIdentity(a, s1, b, s2);
    Swap(z1, t1, z1, t1);
    Swap(z2, t2, z2, t2);
    Pull(cv.d, a, t1 * t1);
    Pull(cv.d, b, t2 * t2);
    assert a * s1 == cv.d * (v1 * v1) && b * s2 == cv.d * (v2 * v2);
    Swap(z1, z2, t1, t2);
    Pull(cv.d, p, t1 * t2);
    assert p * r == cv.d * (v1 * v2);
    Swap(v1, v1, v2, v2);
    BalanceOfParts(cv, c1 * c2 * (p * p + r * r), (p * p - r * r) * (p * p - r * r), v1 * v1, v2 * v2, v1 * v2, c1 * c1, c2 * c2, uu);
  }

  lemma BalanceOfParts(cv: Curve, left: int, square: int, vv1: int, vv2: int, v: int, cc1: int, cc2: int, uu: int)
    requires vv1 * vv2 == v * v
    requires left == square + (cv.d * vv1) * cc2 + (cv.d * vv2) * cc1
    ensures left + 2 * ((cv.d * v) * (uu + 4 * v)) == square + cv.d * (vv1 * (cc2 + 4 * vv2) + vv2 * (cc1 + 4 * vv1) + 2 * (v * uu))
  {
    var a, b, c, d := vv1 * cc2, vv2 * cc1, v * uu, v * v;
    assert vv1 * (cc2 + 4 * vv2) == a + 4 * d && vv2 * (cc1 + 4 * vv1) == b + 4 * d;
    assert (cv.d * vv1) * cc2 == cv.d * a && (cv.d * vv2) * cc1 == cv.d * b;
    assert (cv.d * v) * (uu + 4 * v) == cv.d * c + 4 * (cv.d * d);
  }

  /** The sum of two points of the curve is a point of the curve. */
  lemma SumEquation(cv: Curve, p: Point, q: Point)
    requires OnCurve(cv, p) && OnCurve(cv, q)
    ensures var e, f, g, h := p.x * q.y + q.x * p.y, p.z * q.z - cv.d * p.t * q.t, p.z * q.z + cv.d * p.t * q.t, p.y * q.y + p.x * q.x;
      Eq(cv.q, (g * h) * (g * h) - (e * f) * (e * f), (f * g) * (f * g) + cv.d * ((e * h) * (e * h)))
  {
    hide Red, Eq, OnCurve;
    CurveSides(cv, p);
    CurveSides(cv, q);
    var e, f, g, h := p.x * q.y + q.x * p.y, p.z * q.z - cv.d * p.t * q.t, p.z * q.z + cv.d * p.t * q.t, p.y * q.y + p.x * q.x;
    var a, r := p.z * q.z, cv.d * (p.t * q.t);
    assert cv.d * p.t * q.t == r;
    var k1, k2, u1, u2 := p.y * p.y - p.x * p.x, q.y * q.y - q.x * q.x, p.y * p.y + p.x * p.x, q.y * q.y + q.x * q.x;
    var w1, w2, v1, v2 := p.x * p.y, q.x * q.y, p.z * p.t, q.z * q.t;
    var c1, c2 := p.z * p.z + cv.d * (p.t * p.t), q.z * q.z + cv.d * (q.t * q.t);
    HalvesIdentities(p.x, p.y, q.x, q.y);
    SumAndDifference(p.x, p.y);
    SumAndDifference(q.x, q.y);
    Balance(cv, p.z, p.t, q.z, q.t, u1 * u2);
    SidesMeet(cv, k1, k2, u1, u2, w1, w2, v1, v2, c1, c2, a * a + r * r, a * r, (a * a - r * r) * (a * a - r * r));
    SumFromParts(cv, e, f, g, h, a, r, k1 * k2, u1 * u2 + 4 * (w1 * w2), w1 * u2 + w2 * u1);
  }

  lemma SumFromParts(cv: Curve, e: int, f: int, g: int, h: int, a: int, r: int, kk: int, s: int, t: int)
    requires f == a - r && g == a + r && h * h - e * e == kk && h * h + e * e == s && e * h == t
    requires Eq(cv.q, kk * (a * a + r * r) + 2 * ((a * r) * s), (a * a - r * r) * (a * a - r * r) + cv.d * (t * t))
    ensures Eq(cv.q, (g * h) * (g * h) - (e * f) * (e * f), (f * g) * (f * g) + cv.d * ((e * h) * (e * h)))
  {
    hide Red, Eq;
    LeftSide(e, f, g, h, a, r, kk, s);
    RightSide(f, g, a, r);
    SameSquare(f * g, a * a - r * r);
    SameSquare(e * h, t);
  }

  lemma SameSquare(a: int, b: int)
    requires a == b
    ensures a * a == b * b
  {
  }

  /** The same, with the coordinates replaced by what the curve says they are. */
  lemma SidesMeet(cv: Curve, k1: int, k2: int, u1: int, u2: int, w1: int, w2: int, v1: int, v2: int, c1: int, c2: int, n: int, m: int, square: int)
    requires Eq(cv.q, w1, v1) && Eq(cv.q, w2, v2) && Eq(cv.q, k1, c1) && Eq(cv.q, k2, c2)
    requires u1 * u1 == k1 * k1 + 4 * (w1 * w1) && u2 * u2 == k2 * k2 + 4 * (w2 * w2)
    requires (c1 * c2) * n + 2 * (m * (u1 * u2 + 4 * (v1 * v2)))
          == square + cv.d * ((v1 * v1) * (c2 * c2 + 4 * (v2 * v2)) + (v2 * v2) * (c1 * c1 + 4 * (v1 * v1)) + 2 * ((v1 * v2) * (u1 * u2)))
    ensures Eq(cv.q, (k1 * k2) * n + 2 * (m * (u1 * u2 + 4 * (w1 * w2))), square + cv.d * ((w1 * u2 + w2 * u1) * (w1 * u2 + w2 * u1)))
  {
    hide Red, Eq;
    LeftReduced(cv, k1, k2, w1, w2, v1, v2, c1, c2, n, m, u1 * u2);
    SquareOfSum(w1 * u2, w2 * u1);
    Swap(w1, u2, w1, u2);
    Swap(w2, u1, w2, u1);
    Swap(w1, u2, w2, u1);
    assert (w1 * u2) * (w2 * u1) == (w1 * w2) * (u1 * u2);
    var s := (w1 * w1) * (u2 * u2) + (w2 * w2) * (u1 * u1) + 2 * ((w1 * w2) * (u1 * u2));
    var s' := (v1 * v1) * (c2 * c2 + 4 * (v2 * v2)) + (v2 * v2) * (c1 * c1 + 4 * (v1 * v1)) + 2 * ((v1 * v2) * (u1 * u2));
    RightReduced(cv, k1, k2, w1, w2, v1, v2, c1, c2, u1 * u2);
    EqRefl(cv.q, cv.d);
    EqMul(cv.q, cv.d, cv.d, s, s');
    EqRefl(cv.q, square);
    EqAdd(cv.q, square, square, cv.d * s, cv.d * s');
    Meet(cv, (k1 * k2) * n + 2 * (m * (u1 * u2 + 4 * (w1 * w2))), square + cv.d * s', square + cv.d * s);
  }

  lemma LeftReduced(cv: Curve, k1: int, k2: int, w1: int, w2: int, v1: int, v2: int, c1: int, c2: int, n: int, m: int, uu: int)
    requires Eq(cv.q, w1, v1) && Eq(cv.q, w2, v2) && Eq(cv.q, k1, c1) && Eq(cv.q, k2, c2)
    ensures Eq(cv.q, (k1 * k2) * n + 2 * (m * (uu + 4 * (w1 * w2))), (c1 * c2) * n + 2 * (m * (uu + 4 * (v1 * v2))))
  {
    hide Red, Eq;
    EqRefl(cv.q, n);
    EqRefl(cv.q, m);
    EqRefl(cv.q, uu);
    EqRefl(cv.q, 2);
    EqRefl(cv.q, 4);
    EqMul(cv.q, k1, c1, k2, c2);
    EqMul(cv.q, k1 * k2, c1 * c2, n, n);
    EqMul(cv.q, w1, v1, w2, v2);
    EqMul(cv.q, 4, 4, w1 * w2, v1 * v2);
    EqAdd(cv.q, uu, uu, 4 * (w1 * w2), 4 * (v1 * v2));
    EqMul(cv.q, m, m, uu + 4 * (w1 * w2), uu + 4 * (v1 * v2));
    EqMul(cv.q, 2, 2, m * (uu + 4 * (w1 * w2)), m * (uu + 4 * (v1 * v2)));
    EqAdd(cv.q, (k1 * k2) * n, (c1 * c2) * n, 2 * (m * (uu + 4 * (w1 * w2))), 2 * (m * (uu + 4 * (v1 * v2))));
  }

  lemma RightReduced(cv: Curve, k1: int, k2: int, w1: int, w2: int, v1: int, v2: int, c1: int, c2: int, uu: int)
    requires Eq(cv.q, w1, v1) && Eq(cv.q, w2, v2) && Eq(cv.q, k1, c1) && Eq(cv.q, k2, c2)
    ensures Eq(cv.q, (w1 * w1) * (k2 * k2 + 4 * (w2 * w2)) + (w2 * w2) * (k1 * k1 + 4 * (w1 * w1)) + 2 * ((w1 * w2) * uu),
                  (v1 * v1) * (c2 * c2 + 4 * (v2 * v2)) + (v2 * v2) * (c1 * c1 + 4 * (v1 * v1)) + 2 * ((v1 * v2) * uu))
  {
    hide Red, Eq;
    OneReduced(cv, k2, w1, w2, v1, v2, c2);
    OneReduced(cv, k1, w2, w1, v2, v1, c1);
    EqMul(cv.q, w1, v1, w2, v2);
    EqRefl(cv.q, uu);
    EqRefl(cv.q, 2);
    EqMul(cv.q, w1 * w2, v1 * v2, uu, uu);
    EqMul(cv.q, 2, 2, (w1 * w2) * uu, (v1 * v2) * uu);
    var a, b := (w1 * w1) * (k2 * k2 + 4 * (w2 * w2)), (w2 * w2) * (k1 * k1 + 4 * (w1 * w1));
    var a', b' := (v1 * v1) * (c2 * c2 + 4 * (v2 * v2)), (v2 * v2) * (c1 * c1 + 4 * (v1 * v1));
    EqAdd(cv.q, a, a', b, b');
    EqAdd(cv.q, a + b, a' + b', 2 * ((w1 * w2) * uu), 2 * ((v1 * v2) * uu));
  }

  lemma OneReduced(cv: Curve, k: int, w1: int, w2: int, v1: int, v2: int, c: int)
    requires Eq(cv.q, w1, v1) && Eq(cv.q, w2, v2) && Eq(cv.q, k, c)
    ensures Eq(cv.q, (w1 * w1) * (k * k + 4 * (w2 * w2)), (v1 * v1) * (c * c + 4 * (v2 * v2)))
  {
    hide Red, Eq;
    EqMul(cv.q, w1, v1, w1, v1);
    EqMul(cv.q, w2, v2, w2, v2);
    EqMul(cv.q, k, c, k, c);
    EqRefl(cv.q, 4);
    EqMul(cv.q, 4, 4, w2 * w2, v2 * v2);
    EqAdd(cv.q, k * k, c * c, 4 * (w2 * w2), 4 * (v2 * v2));
    EqMul(cv.q, w1 * w1, v1 * v1, k * k + 4 * (w2 * w2), c * c + 4 * (v2 * v2));
  }

  lemma AddOnCurve(cv: Curve, p: Point, q: Point)
    requires OnCurve(cv, p) && OnCurve(cv, q)
    ensures OnCurve(cv, Add(cv, p, q))
  {
    hide Red, Eq, OnCurve, HasFactors, Add;
    var e, f, g, h := p.x * q.y + q.x * p.y, p.z * q.z - cv.d * p.t * q.t, p.z * q.z + cv.d * p.t * q.t, p.y * q.y + p.x * q.x;
    SumEquation(cv, p, q);
    AddFactors(cv, p, q);
    SixteenTimes(cv, e, f, g, h);
    FactorsOnCurve(cv, Add(cv, p, q), 2 * e, 2 * f, 2 * g, 2 * h);
  }

  lemma SixteenTimes(cv: Curve, e: int, f: int, g: int, h: int)
    requires Eq(cv.q, (g * h) * (g * h) - (e * f) * (e * f), (f * g) * (f * g) + cv.d * ((e * h) * (e * h)))
    ensures Eq(cv.q, ((2 * g) * (2 * h)) * ((2 * g) * (2 * h)) - ((2 * e) * (2 * f)) * ((2 * e) * (2 * f)),
                  ((2 * f) * (2 * g)) * ((2 * f) * (2 * g)) + cv.d * (((2 * e) * (2 * h)) * ((2 * e) * (2 * h))))
  {
    hide Red, Eq;
    var l, r := (g * h) * (g * h) - (e * f) * (e * f), (f * g) * (f * g) + cv.d * ((e * h) * (e * h));
    FourTimes(g, h);
    FourTimes(e, f);
    FourTimes(f, g);
    FourTimes(e, h);
    EqRefl(cv.q, 16);
    EqMul(cv.q, 16, 16, l, r);
    Pull(cv.d, 16, (e * h) * (e * h));
  }

  lemma FourTimes(a: int, b: int)
    ensures ((2 * a) * (2 * b)) * ((2 * a) * (2 * b)) == 16 * ((a * b) * (a * b))
  {
    assert (2 * a) * (2 * b) == 4 * (a * b);
    SameSquare((2 * a) * (2 * b), 4 * (a * b));
    Swap(4, a * b, 4, a * b);
  }

  // ------------------------------------------- points without their scale

  lemma ScaledOnCurve(cv: Curve, r: Point, s: Point, l: int)
    requires Scaled(cv, r, s, l) && OnCurve(cv, s)
    ensures OnCurve(cv, r)
  {
    hide Red, Eq;
    ScaledPair(cv, r.x, s.x, r.y, s.y, l, l);
    ScaledPair(cv, r.z, s.z, r.t, s.t, l, l);
    ScaledPair(cv, r.x, s.x, r.x, s.x, l, l);
    ScaledPair(cv, r.y, s.y, r.y, s.y, l, l);
    ScaledPair(cv, r.z, s.z, r.z, s.z, l, l);
    ScaledPair(cv, r.t, s.t, r.t, s.t, l, l);
    EqRefl(cv.q, l * l);
    EqRefl(cv.q, cv.d);
    EqMul(cv.q, l * l, l * l, s.x * s.y, s.z * s.t);
    EqTrans(cv.q, r.x * r.y, (l * l) * (s.x * s.y), (l * l) * (s.z * s.t));
    Meet(cv, r.x * r.y, (l * l) * (s.z * s.t), r.z * r.t);
    var k, c := s.y * s.y - s.x * s.x, s.z * s.z + cv.d * (s.t * s.t);
    EqMul(cv.q, l * l, l * l, k, c);
    EqAdd(cv.q, r.y * r.y, (l * l) * (s.y * s.y), r.x * r.x, (l * l) * (s.x * s.x));
    EqMul(cv.q, cv.d, cv.d, r.t * r.t, (l * l) * (s.t * s.t));
    EqAdd(cv.q, r.z * r.z, (l * l) * (s.z * s.z), cv.d * (r.t * r.t), cv.d * ((l * l) * (s.t * s.t)));
    Pull(cv.d, l * l, s.t * s.t);
    Dist(l * l, 0, s.y * s.y, s.x * s.x);
    Dist(l * l, 0, s.z * s.z, cv.d * (s.t * s.t));
    EqTrans(cv.q, r.y * r.y - r.x * r.x, (l * l) * k, (l * l) * c);
    Meet(cv, r.y * r.y - r.x * r.x, (l * l) * c, r.z * r.z + cv.d * (r.t * r.t));
  }

  lemma ScaledPair(cv: Curve, a: int, b: int, c: int, d: int, l: int, m: int)
    requires Eq(cv.q, a, l * b) && Eq(cv.q, c, m * d)
    ensures Eq(cv.q, a * c, (l * m) * (b * d))
  {
    hide Red, Eq;
    EqMul(cv.q, a, l * b, c, m * d);
    Swap(l, b, m, d);
  }

  lemma ScaledBack(cv: Curve, r: Point, s: Point, l: int, m: int)
    requires Scaled(cv, r, s, l) && Inverse(cv, l, m)
    ensures Scaled(cv, s, r, m)
  {
    hide Red, Eq;
    BackOne(cv, r.x, s.x, l, m);
    BackOne(cv, r.y, s.y, l, m);
    BackOne(cv, r.z, s.z, l, m);
    BackOne(cv, r.t, s.t, l, m);
  }

  lemma BackOne(cv: Curve, a: int, b: int, l: int, m: int)
    requires Eq(cv.q, a, l * b) && Eq(cv.q, l * m, 1)
    ensures Eq(cv.q, b, m * a)
  {
    hide Red, Eq;
    EqRefl(cv.q, m);
    EqRefl(cv.q, b);
    EqMul(cv.q, m, m, a, l * b);
    EqMul(cv.q, l * m, 1, b, b);
    assert m * (l * b) == (l * m) * b;
    EqTrans(cv.q, m * a, (l * m) * b, b);
    EqSym(cv.q, m * a, b);
  }

  lemma ScaledOn(cv: Curve, r: Point, s: Point, t: Point, l: int, m: int)
    requires Scaled(cv, r, s, l) && Scaled(cv, s, t, m)
    ensures Scaled(cv, r, t, l * m)
  {
    hide Red, Eq;
    OnOne(cv, r.x, s.x, t.x, l, m);
    OnOne(cv, r.y, s.y, t.y, l, m);
    OnOne(cv, r.z, s.z, t.z, l, m);
    OnOne(cv, r.t, s.t, t.t, l, m);
  }

  lemma OnOne(cv: Curve, a: int, b: int, c: int, l: int, m: int)
    requires Eq(cv.q, a, l * b) && Eq(cv.q, b, m * c)
    ensures Eq(cv.q, a, (l * m) * c)
  {
    hide Red, Eq;
    EqRefl(cv.q, l);
    EqMul(cv.q, l, l, b, m * c);
    assert l * (m * c) == (l * m) * c;
    EqTrans(cv.q, a, l * b, (l * m) * c);
  }

  lemma InverseProduct(cv: Curve, l: int, m: int, l': int, m': int)
    requires Inverse(cv, l, m) && Inverse(cv, l', m')
    ensures Inverse(cv, l * l', m * m') && Inverse(cv, m, l)
  {
    hide Red, Eq;
    EqMul(cv.q, l * m, 1, l' * m', 1);
    Swap(l, m, l', m');
  }

  lemma SameSymmetric(cv: Curve, r: Point, s: Point)
    requires Same(cv, r, s)
    ensures Same(cv, s, r)
  {
    hide Red, Eq, Scaled;
    var l, m :| Inverse(cv, l, m) && Scaled(cv, r, s, l);
    ScaledBack(cv, r, s, l, m);
    InverseProduct(cv, l, m, l, m);
  }

  lemma SameTransitive(cv: Curve, r: Point, s: Point, t: Point)
    requires Same(cv, r, s) && Same(cv, s, t)
    ensures Same(cv, r, t)
  {
    hide Red, Eq, Scaled, Inverse;
    var l, m :| Inverse(cv, l, m) && Scaled(cv, r, s, l);
    var l', m' :| Inverse(cv, l', m') && Scaled(cv, s, t, l');
    ScaledOn(cv, r, s, t, l, l');
    InverseProduct(cv, l, m, l', m');
  }

  lemma SameOnCurve(cv: Curve, r: Point, s: Point)
    requires Same(cv, r, s) && OnCurve(cv, s)
    ensures OnCurve(cv, r)
  {
    hide Red, Eq, Scaled, Inverse;
    var l, m :| Inverse(cv, l, m) && Scaled(cv, r, s, l);
    ScaledOnCurve(cv, r, s, l);
  }

  /** -4 can be divided by, if the modulus is one more than a multiple of four. */
  lemma MinusFour(cv: Curve)
    requires cv.q % 4 == 1
    ensures Inverse(cv, -4, (cv.q - 1) / 4)
  {
    assert -4 * ((cv.q - 1) / 4) == 1 - cv.q;
    EqBy(cv.q, 1 - cv.q, 1, -1);
  }

  /** Doubling a point is adding it to itself. */
  lemma DoubleSame(cv: Curve, p: Point)
    requires OnCurve(cv, p) && cv.q % 4 == 1
    ensures Same(cv, Add(cv, p, p), Double(cv, p)) && OnCurve(cv, Double(cv, p))
  {
    hide Red, Eq, Scaled, Inverse, Add, Double, OnCurve;
    DoubleIsSelfAddition(cv, p);
    MinusFour(cv);
    AddOnCurve(cv, p, p);
    SameSymmetric(cv, Add(cv, p, p), Double(cv, p));
    SameOnCurve(cv, Double(cv, p), Add(cv, p, p));
  }

  /** The unified sum does not see the scale of its arguments. */
  lemma AddScaled(cv: Curve, r: Point, s: Point, q: Point, l: int)
    requires Scaled(cv, r, s, l)
    ensures Scaled(cv, Add(cv, r, q), Add(cv, s, q), l * l)
  {
    hide Red, Eq, HasFactors, Add, Scaled;
    AddFactors(cv, r, q);
    AddFactors(cv, s, q);
    ScaledHalves(cv, r, s, q, l);
    Rescaled(cv, Add(cv, r, q), Add(cv, s, q),
             2 * (r.x * q.y + q.x * r.y), 2 * (r.z * q.z - cv.d * r.t * q.t), 2 * (r.z * q.z + cv.d * r.t * q.t), 2 * (r.y * q.y + r.x * q.x),
             2 * (s.x * q.y + q.x * s.y), 2 * (s.z * q.z - cv.d * s.t * q.t), 2 * (s.z * q.z + cv.d * s.t * q.t), 2 * (s.y * q.y + s.x * q.x), l);
  }

  lemma Rescaled(cv: Curve, r: Point, s: Point, e: int, f: int, g: int, h: int, e': int, f': int, g': int, h': int, l: int)
    requires HasFactors(cv, r, e, f, g, h) && HasFactors(cv, s, e', f', g', h')
    requires Eq(cv.q, e, l * e') && Eq(cv.q, f, l * f') && Eq(cv.q, g, l * g') && Eq(cv.q, h, l * h')
    ensures Scaled(cv, r, s, l * l)
  {
    hide Red, Eq, HasFactors, Scaled;
    FactorsEq(cv, r, e, f, g, h, l * e', l * f', l * g', l * h');
    ScaledFactors(cv, r, s, e', f', g', h', l, l);
  }

  lemma ScaledHalves(cv: Curve, r: Point, s: Point, q: Point, l: int)
    requires Scaled(cv, r, s, l)
    ensures Eq(cv.q, 2 * (r.x * q.y + q.x * r.y), l * (2 * (s.x * q.y + q.x * s.y)))
    ensures Eq(cv.q, 2 * (r.z * q.z - cv.d * r.t * q.t), l * (2 * (s.z * q.z - cv.d * s.t * q.t)))
    ensures Eq(cv.q, 2 * (r.z * q.z + cv.d * r.t * q.t), l * (2 * (s.z * q.z + cv.d * s.t * q.t)))
    ensures Eq(cv.q, 2 * (r.y * q.y + r.x * q.x), l * (2 * (s.y * q.y + s.x * q.x)))
  {
    hide Red, Eq;
    ScaledTerm(cv, r.x, s.x, q.y, l);
    ScaledTerm(cv, r.y, s.y, q.x, l);
    ScaledTerm(cv, r.z, s.z, q.z, l);
    ScaledTerm(cv, r.y, s.y, q.y, l);
    ScaledTerm(cv, r.x, s.x, q.x, l);
    ScaledTerm(cv, r.t, s.t, cv.d * q.t, l);
    assert cv.d * r.t * q.t == r.t * (cv.d * q.t) && cv.d * s.t * q.t == s.t * (cv.d * q.t);
    ScaledSum(cv, r.x * q.y, q.x * r.y, s.x * q.y, q.x * s.y, l);
    ScaledSum(cv, r.z * q.z, cv.d * r.t * q.t, s.z * q.z, cv.d * s.t * q.t, l);
    ScaledSum(cv, r.y * q.y, r.x * q.x, s.y * q.y, s.x * q.x, l);
  }

  lemma ScaledTerm(cv: Curve, a: int, b: int, c: int, l: int)
    requires Eq(cv.q, a, l * b)
    ensures Eq(cv.q, a * c, l * (b * c))
  {
    hide Red, Eq;
    EqRefl(cv.q, c);
    EqMul(cv.q, a, l * b, c, c);
    assert (l * b) * c == l * (b * c);
  }

  lemma ScaledSum(cv: Curve, a: int, b: int, a': int, b': int, l: int)
    requires Eq(cv.q, a, l * a') && Eq(cv.q, b, l * b')
    ensures Eq(cv.q, 2 * (a + b), l * (2 * (a' + b'))) && Eq(cv.q, 2 * (a - b), l * (2 * (a' - b')))
  {
    hide Red, Eq;
    EqRefl(cv.q, 2);
    EqAdd(cv.q, a, l * a', b, l * b');
    EqMul(cv.q, 2, 2, a + b, l * a' + l * b');
    EqMul(cv.q, 2, 2, a - b, l * a' - l * b');
    assert 2 * (l * a' + l * b') == l * (2 * (a' + b')) && 2 * (l * a' - l * b') == l * (2 * (a' - b'));
  }

  lemma AddCommutes(cv: Curve, p: Point, q: Point)
    ensures Same(cv, Add(cv, p, q), Add(cv, q, p))
  {
    hide Red, Eq, HasFactors, Add, Scaled, Inverse, Same;
    AddFactors(cv, p, q);
    AddFactors(cv, q, p);
    EqRefl(cv.q, 1);
    var e, f, g, h := 2 * (p.x * q.y + q.x * p.y), 2 * (p.z * q.z - cv.d * p.t * q.t), 2 * (p.z * q.z + cv.d * p.t * q.t), 2 * (p.y * q.y + p.x * q.x);
    assert cv.d * p.t * q.t == cv.d * q.t * p.t;
    ScaledFactors(cv, Add(cv, p, q), Add(cv, q, p), e, f, g, h, 1, 1);
    OneIsUnit(cv);
    SameBy(cv, Add(cv, p, q), Add(cv, q, p), 1, 1);
  }

  lemma OneIsUnit(cv: Curve)
    ensures Inverse(cv, 1, 1)
  {
    EqRefl(cv.q, 1);
  }

  /** Equal summands have equal sums. */
  lemma AddSame(cv: Curve, r: Point, s: Point, u: Point, v: Point)
    requires Same(cv, r, s) && Same(cv, u, v)
    ensures Same(cv, Add(cv, r, u), Add(cv, s, v))
  {
    hide Red, Eq, Scaled, Inverse, Add;
    var l, m :| Inverse(cv, l, m) && Scaled(cv, r, s, l);
    var l', m' :| Inverse(cv, l', m') && Scaled(cv, u, v, l');
    AddScaled(cv, r, s, u, l);
    AddScaled(cv, u, v, s, l');
    InverseProduct(cv, l, m, l, m);
    InverseProduct(cv, l', m', l', m');
    SameBy(cv, Add(cv, r, u), Add(cv, s, u), l * l, m * m);
    SameBy(cv, Add(cv, u, s), Add(cv, v, s), l' * l', m' * m');
    AddCommutes(cv, s, u);
    AddCommutes(cv, v, s);
    SameTransitive(cv, Add(cv, r, u), Add(cv, s, u), Add(cv, u, s));
    SameTransitive(cv, Add(cv, r, u), Add(cv, u, s), Add(cv, v, s));
    SameTransitive(cv, Add(cv, r, u), Add(cv, v, s), Add(cv, s, v));
  }

  /** The neutral element. */
  lemma ZeroIsNeutral(cv: Curve, p: Point)
    requires OnCurve(cv, p)
    ensures forall m :: Inverse(cv, 4 * p.z, m) ==> Same(cv, Add(cv, p, ZERO), p)
  {
    hide Red, Eq, HasFactors, Add, Scaled, Inverse, Same;
    AddFactors(cv, p, ZERO);
    CurveSides(cv, p);
    forall m | Inverse(cv, 4 * p.z, m) ensures Same(cv, Add(cv, p, ZERO), p) {
      NeutralScale(cv, p, Add(cv, p, ZERO));
      SameBy(cv, Add(cv, p, ZERO), p, 4 * p.z, m);
    }
  }

  lemma SameBy(cv: Curve, r: Point, s: Point, l: int, m: int)
    requires Inverse(cv, l, m) && Scaled(cv, r, s, l)
    ensures Same(cv, r, s)
  {
  }

  lemma NeutralScale(cv: Curve, p: Point, r: Point)
    requires HasFactors(cv, r, 2 * (p.x * 1 + 0 * p.y), 2 * (p.z * 1 - cv.d * p.t * 0), 2 * (p.z * 1 + cv.d * p.t * 0), 2 * (p.y * 1 + p.x * 0))
    requires Eq(cv.q, p.x * p.y, p.z * p.t)
    ensures Scaled(cv, r, p, 4 * p.z)
  {
    hide Red, Eq;
    EqRefl(cv.q, 4);
    EqMul(cv.q, 4, 4, p.x * p.y, p.z * p.t);
    assert (2 * p.x) * (2 * p.z) == (4 * p.z) * p.x && (2 * p.z) * (2 * p.y) == (4 * p.z) * p.y;
    assert (2 * p.z) * (2 * p.z) == (4 * p.z) * p.z;
    assert (2 * p.x) * (2 * p.y) == 4 * (p.x * p.y) && 4 * (p.z * p.t) == (4 * p.z) * p.t;
    EqTrans(cv.q, r.t, 4 * (p.x * p.y), (4 * p.z) * p.t);
  }

  // ------------------------------------------------------- affine points

  function FromAffine(cv: Curve, x: int, y: int): Point {
    Point(Red(cv, x), Red(cv, y), 1, Red(cv, x * y))
  }

  /** The curve in affine coordinates. */
  predicate IsOnCurve(cv: Curve, x: int, y: int) {
    Red(cv, -x * x + y * y - 1 - cv.d * x * x * y * y) == 0
  }

  /** A point satisfies the affine equation exactly if its extended form is on the
      curve. */
  lemma AffineOnCurve(cv: Curve, x: int, y: int)
    ensures IsOnCurve(cv, x, y) <==> OnCurve(cv, FromAffine(cv, x, y))
  {
    hide Red, Eq;
    var r, t := FromAffine(cv, x, y), x * y;
    RedEq(cv, x);
    RedEq(cv, y);
    RedEq(cv, t);
    EqMul(cv.q, r.x, x, r.y, y);
    Meet(cv, r.x * r.y, t, r.t);
    EqMul(cv.q, r.x, x, r.x, x);
    EqMul(cv.q, r.y, y, r.y, y);
    EqMul(cv.q, r.t, t, r.t, t);
    EqRefl(cv.q, cv.d);
    EqRefl(cv.q, 1);
    EqMul(cv.q, cv.d, cv.d, r.t * r.t, t * t);
    EqAdd(cv.q, r.y * r.y, y * y, r.x * r.x, x * x);
    EqAdd(cv.q, 1, 1, cv.d * (r.t * r.t), cv.d * (t * t));
    AffineForm(cv, x, y);
    EqIsSameRemainder(cv.q, r.y * r.y - r.x * r.x, y * y - x * x);
    EqIsSameRemainder(cv.q, 1 + cv.d * (r.t * r.t), 1 + cv.d * (t * t));
    EqIsSameRemainder(cv.q, r.y * r.y - r.x * r.x, 1 + cv.d * (r.t * r.t));
    EqIsSameRemainder(cv.q, y * y - x * x, 1 + cv.d * (t * t));
  }

  lemma AffineForm(cv: Curve, x: int, y: int)
    ensures IsOnCurve(cv, x, y) <==> Eq(cv.q, y * y - x * x, 1 + cv.d * ((x * y) * (x * y)))
  {
    Swap(x, y, x, y);
    assert cv.d * x * x * y * y == cv.d * ((x * x) * (y * y));
    assert -x * x == -(x * x);
  }

  /** The base point, and what the curve constant stands for. */
  const BX := 15112221349535400772501151409588531511454012693041857206046113283949847762202
  const BY := 46316835694926478169428394003475163141307993866256225615783033603165251855960

  lemma BaseOnCurve()
    ensures IsOnCurve(ED25519, BX, BY) && Eq(ED25519.q, 121666 * ED25519.d, -121665) && Eq(ED25519.q, 5 * BY, 4)
    ensures ED25519.q % 4 == 1
  {
  }
}
