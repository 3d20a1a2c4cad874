/** Points of the twisted Edwards curve of Ed25519, in extended coordinates
    x = X/Z, y = Y/Z, x*y = T/Z. */
module Edwards {
  import opened Congruence

  type Modulus = m: nat | m > 0 witness 1

  /** The curve -x*x + y*y = 1 + d*x*x*y*y over the integers modulo q. What is proved
      holds for every modulus and every constant, up to a remark on the modulus. */
  datatype Curve = Curve(q: Modulus, d: int)

  /** 2^255 - 19, and -121665/121666 */
  const ED25519 := Curve(0x7fffffffffffffffffffffffffffffffffffffffffffffffffffffffffffffed,
                         -4513249062541557337682894930092624173785641285191125241628941591882900924598840740)

  /** Reduction. */
  function Red(cv: Curve, a: int): int {
    a % cv.q
  }

  lemma RedEq(cv: Curve, a: int)
    ensures Eq(cv.q, Red(cv, a), a)
  {
    EqMod(cv.q, a);
  }

  datatype Point = Point(x: int, y: int, z: int, t: int)

  const ZERO := Point(0, 1, 1, 0)

  function Double(cv: Curve, p: Point): Point {
    var a := Red(cv, p.x * p.x);
    var b := Red(cv, p.y * p.y);
    var c := Red(cv, 2 * p.z * p.z);
    var d := Red(cv, -a);
    var j := Red(cv, p.x + p.y);
    var e := Red(cv, j * j - a - b);
    var g := Red(cv, d + b);
    var f := Red(cv, g - c);
    var h := Red(cv, d - b);
    Point(Red(cv, e * f), Red(cv, g * h), Red(cv, f * g), Red(cv, e * h))
  }

  /** The unified sum. */
  function Add(cv: Curve, p: Point, q: Point): Point {
    var a := Red(cv, Red(cv, p.y - p.x) * Red(cv, q.y - q.x));
    var b := Red(cv, Red(cv, p.y + p.x) * Red(cv, q.y + q.x));
    var c := Red(cv, p.t * (2 * cv.d) * q.t);
    var d := Red(cv, p.z * 2 * q.z);
    var e := Red(cv, b - a);
    var f := Red(cv, d - c);
    var g := Red(cv, d + c);
    var h := Red(cv, b + a);
    Point(Red(cv, e * f), Red(cv, g * h), Red(cv, f * g), Red(cv, e * h))
  }

  /** The sum of two different points, which is faster. */
  function AddNonUnified(cv: Curve, p: Point, q: Point): Point {
    var a := Red(cv, (p.y - p.x) * (q.y + q.x));
    var b := Red(cv, (p.y + p.x) * (q.y - q.x));
    var c := Red(cv, p.z * 2 * q.t);
    var d := Red(cv, p.t * 2 * q.z);
    var e := Red(cv, d + c);
    var f := Red(cv, b - a);
    var g := Red(cv, b + a);
    var h := Red(cv, d - c);
    Point(Red(cv, e * f), Red(cv, g * h), Red(cv, f * g), Red(cv, e * h))
  }

  // -------------------------------------------------- the four factors

  /** All three formulas have this shape. */
  predicate HasFactors(cv: Curve, r: Point, e: int, f: int, g: int, h: int) {
    Eq(cv.q, r.x, e * f) && Eq(cv.q, r.y, g * h) && Eq(cv.q, r.z, f * g) && Eq(cv.q, r.t, e * h)
  }

  lemma Factors(cv: Curve, r: Point, e: int, f: int, g: int, h: int, e': int, f': int, g': int, h': int)
    requires r == Point(Red(cv, e * f), Red(cv, g * h), Red(cv, f * g), Red(cv, e * h))
    requires Eq(cv.q, e, e') && Eq(cv.q, f, f') && Eq(cv.q, g, g') && Eq(cv.q, h, h')
    ensures HasFactors(cv, r, e', f', g', h')
  {
    hide Red, Eq;
    Product(cv, e, f, e', f');
    Product(cv, g, h, g', h');
    Product(cv, f, g, f', g');
    Product(cv, e, h, e', h');
  }

  lemma Product(cv: Curve, a: int, b: int, a': int, b': int)
    requires Eq(cv.q, a, a') && Eq(cv.q, b, b')
    ensures Eq(cv.q, Red(cv, a * b), a' * b')
  {
    hide Red, Eq;
    RedEq(cv, a * b);
    EqMul(cv.q, a, a', b, b');
    EqTrans(cv.q, Red(cv, a * b), a * b, a' * b');
  }

  lemma Sum(cv: Curve, a: int, b: int, a': int, b': int)
    requires Eq(cv.q, a, a') && Eq(cv.q, b, b')
    ensures Eq(cv.q, Red(cv, a + b), a' + b') && Eq(cv.q, Red(cv, a - b), a' - b')
  {
    hide Red, Eq;
    EqAdd(cv.q, a, a', b, b');
    RedEq(cv, a + b);
    RedEq(cv, a - b);
    EqTrans(cv.q, Red(cv, a + b), a + b, a' + b');
    EqTrans(cv.q, Red(cv, a - b), a - b, a' - b');
  }

  lemma AddFactors(cv: Curve, p: Point, q: Point)
    ensures HasFactors(cv, Add(cv, p, q), 2 * (p.x * q.y + q.x * p.y), 2 * (p.z * q.z - cv.d * p.t * q.t),
                       2 * (p.z * q.z + cv.d * p.t * q.t), 2 * (p.y * q.y + p.x * q.x))
  {
    hide HasFactors, Add;
    AddProducts(cv, p, q);
    AddIdentities(cv, p.x, p.y, p.z, p.t, q.x, q.y, q.z, q.t);
  }

  lemma AddProducts(cv: Curve, p: Point, q: Point)
    ensures var a, b, c, d := (p.y - p.x) * (q.y - q.x), (p.y + p.x) * (q.y + q.x), p.t * (2 * cv.d) * q.t, p.z * 2 * q.z;
      HasFactors(cv, Add(cv, p, q), b - a, d - c, d + c, b + a)
  {
    hide Red, Eq, HasFactors;
    var l1, l2, r1, r2 := p.y - p.x, q.y - q.x, p.y + p.x, q.y + q.x;
    var c, d := p.t * (2 * cv.d) * q.t, p.z * 2 * q.z;
    RedEq(cv, l1);
    RedEq(cv, l2);
    RedEq(cv, r1);
    RedEq(cv, r2);
    RedEq(cv, c);
    RedEq(cv, d);
    Product(cv, Red(cv, l1), Red(cv, l2), l1, l2);
    Product(cv, Red(cv, r1), Red(cv, r2), r1, r2);
    Assembled(cv, Add(cv, p, q), Red(cv, Red(cv, l1) * Red(cv, l2)), Red(cv, Red(cv, r1) * Red(cv, r2)), Red(cv, c), Red(cv, d), l1 * l2, r1 * r2, c, d);
  }

  lemma Assembled(cv: Curve, r: Point, a: int, b: int, c: int, d: int, a': int, b': int, c': int, d': int)
    requires var e, f, g, h := Red(cv, b - a), Red(cv, d - c), Red(cv, d + c), Red(cv, b + a);
      r == Point(Red(cv, e * f), Red(cv, g * h), Red(cv, f * g), Red(cv, e * h))
    requires Eq(cv.q, a, a') && Eq(cv.q, b, b') && Eq(cv.q, c, c') && Eq(cv.q, d, d')
    ensures HasFactors(cv, r, b' - a', d' - c', d' + c', b' + a')
  {
    hide Red, Eq, HasFactors;
    Sum(cv, b, a, b', a');
    Sum(cv, d, c, d', c');
    Factors(cv, r, Red(cv, b - a), Red(cv, d - c), Red(cv, d + c), Red(cv, b + a), b' - a', d' - c', d' + c', b' + a');
  }

  lemma AddIdentities(cv: Curve, x1: int, y1: int, z1: int, t1: int, x2: int, y2: int, z2: int, t2: int)
    ensures (y1 + x1) * (y2 + x2) - (y1 - x1) * (y2 - x2) == 2 * (x1 * y2 + x2 * y1)
    ensures (y1 + x1) * (y2 + x2) + (y1 - x1) * (y2 - x2) == 2 * (y1 * y2 + x1 * x2)
    ensures z1 * 2 * z2 - t1 * (2 * cv.d) * t2 == 2 * (z1 * z2 - cv.d * t1 * t2)
    ensures z1 * 2 * z2 + t1 * (2 * cv.d) * t2 == 2 * (z1 * z2 + cv.d * t1 * t2)
  {
  }

  lemma DoubleFactors(cv: Curve, p: Point)
    ensures HasFactors(cv, Double(cv, p), 2 * (p.x * p.y), p.y * p.y - p.x * p.x - 2 * (p.z * p.z), p.y * p.y - p.x * p.x, -(p.x * p.x) - p.y * p.y)
  {
    hide Red, Eq, HasFactors;
    var x2, y2, z2, s := p.x * p.x, p.y * p.y, 2 * p.z * p.z, p.x + p.y;
    RedEq(cv, x2);
    RedEq(cv, y2);
    RedEq(cv, z2);
    RedEq(cv, s);
    EqMul(cv.q, Red(cv, s), s, Red(cv, s), s);
    DoubleFromSquares(cv, Double(cv, p), Red(cv, x2), Red(cv, y2), Red(cv, z2), Red(cv, s) * Red(cv, s), x2, y2, z2, s * s);
    Square(p.x, p.y);
    assert z2 == 2 * (p.z * p.z);
  }

  lemma Square(x: int, y: int)
    ensures (x + y) * (x + y) - x * x - y * y == 2 * (x * y)
  {
  }

  lemma DoubleFromSquares(cv: Curve, r: Point, a: int, b: int, c: int, jj: int, x2: int, y2: int, z2: int, ss: int)
    requires Eq(cv.q, a, x2) && Eq(cv.q, b, y2) && Eq(cv.q, c, z2) && Eq(cv.q, jj, ss)
    requires var d := Red(cv, -a);
      var e, g, h := Red(cv, jj - a - b), Red(cv, d + b), Red(cv, d - b);
      var f := Red(cv, g - c);
      r == Point(Red(cv, e * f), Red(cv, g * h), Red(cv, f * g), Red(cv, e * h))
    ensures HasFactors(cv, r, ss - x2 - y2, y2 - x2 - z2, y2 - x2, -x2 - y2)
  {
    hide Red, Eq, HasFactors;
    var d := Red(cv, -a);
    EqRefl(cv.q, 0);
    Sum(cv, 0, a, 0, x2);
    EqAdd(cv.q, jj, ss, a, x2);
    Sum(cv, jj - a, b, ss - x2, y2);
    Sum(cv, d, b, -x2, y2);
    Sum(cv, Red(cv, d + b), c, y2 - x2, z2);
    Factors(cv, r, Red(cv, jj - a - b), Red(cv, Red(cv, d + b) - c), Red(cv, d + b), Red(cv, d - b), ss - x2 - y2, y2 - x2 - z2, y2 - x2, -x2 - y2);
  }

  lemma AddNonUnifiedFactors(cv: Curve, p: Point, q: Point)
    ensures HasFactors(cv, AddNonUnified(cv, p, q), 2 * (p.t * q.z + p.z * q.t), 2 * (p.x * q.y - p.y * q.x),
                       2 * (p.y * q.y - p.x * q.x), 2 * (p.t * q.z - p.z * q.t))
  {
    hide Red, Eq, HasFactors;
    var a', b' := (p.y - p.x) * (q.y + q.x), (p.y + p.x) * (q.y - q.x);
    var c', d' := p.z * 2 * q.t, p.t * 2 * q.z;
    RedEq(cv, a');
    RedEq(cv, b');
    RedEq(cv, c');
    RedEq(cv, d');
    Sum(cv, Red(cv, d'), Red(cv, c'), d', c');
    Sum(cv, Red(cv, b'), Red(cv, a'), b', a');
    NonUnifiedIdentities(p.x, p.y, p.z, p.t, q.x, q.y, q.z, q.t);
    Factors(cv, AddNonUnified(cv, p, q), Red(cv, Red(cv, d') + Red(cv, c')), Red(cv, Red(cv, b') - Red(cv, a')), Red(cv, Red(cv, b') + Red(cv, a')), Red(cv, Red(cv, d') - Red(cv, c')),
            d' + c', b' - a', b' + a', d' - c');
  }

  lemma NonUnifiedIdentities(x1: int, y1: int, z1: int, t1: int, x2: int, y2: int, z2: int, t2: int)
    ensures (y1 + x1) * (y2 - x2) - (y1 - x1) * (y2 + x2) == 2 * (x1 * y2 - y1 * x2)
    ensures (y1 + x1) * (y2 - x2) + (y1 - x1) * (y2 + x2) == 2 * (y1 * y2 - x1 * x2)
    ensures t1 * 2 * z2 + z1 * 2 * t2 == 2 * (t1 * z2 + z1 * t2)
    ensures t1 * 2 * z2 - z1 * 2 * t2 == 2 * (t1 * z2 - z1 * t2)
  {
  }

  // ------------------------------------------------------------ the curve

  /** x*y = t, and y*y - x*x = 1 + cv.d*t*t, without denominators. */
  predicate OnCurve(cv: Curve, p: Point) {
    Eq(cv.q, p.x * p.y, p.z * p.t) && Eq(cv.q, p.y * p.y - p.x * p.x, p.z * p.z + cv.d * (p.t * p.t))
  }

  /** `r` is `s` with all coordinates multiplied by `l`. */
  predicate Scaled(cv: Curve, r: Point, s: Point, l: int) {
    Eq(cv.q, r.x, l * s.x) && Eq(cv.q, r.y, l * s.y) && Eq(cv.q, r.z, l * s.z) && Eq(cv.q, r.t, l * s.t)
  }

  /** `l` can be divided by. */
  predicate Inverse(cv: Curve, l: int, m: int) {
    Eq(cv.q, l * m, 1)
  }

  /** The same point of the plane. */
  ghost predicate Same(cv: Curve, r: Point, s: Point) {
    exists l, m :: Inverse(cv, l, m) && Scaled(cv, r, s, l)
  }

  lemma FactorsEq(cv: Curve, r: Point, e: int, f: int, g: int, h: int, e': int, f': int, g': int, h': int)
    requires HasFactors(cv, r, e, f, g, h)
    requires Eq(cv.q, e, e') && Eq(cv.q, f, f') && Eq(cv.q, g, g') && Eq(cv.q, h, h')
    ensures HasFactors(cv, r, e', f', g', h')
  {
    hide Red, Eq;
    EqMul(cv.q, e, e', f, f');
    EqMul(cv.q, g, g', h, h');
    EqMul(cv.q, f, f', g, g');
    EqMul(cv.q, e, e', h, h');
    EqTrans(cv.q, r.x, e * f, e' * f');
    EqTrans(cv.q, r.y, g * h, g' * h');
    EqTrans(cv.q, r.z, f * g, f' * g');
    EqTrans(cv.q, r.t, e * h, e' * h');
  }

  lemma ScaledFactors(cv: Curve, r: Point, s: Point, e: int, f: int, g: int, h: int, l: int, m: int)
    requires HasFactors(cv, r, l * e, m * f, l * g, m * h) && HasFactors(cv, s, e, f, g, h)
    ensures Scaled(cv, r, s, l * m)
  {
    hide Red, Eq;
    ScaledProduct(cv, r.x, s.x, l * e, m * f, e, f, l * m);
    ScaledProduct(cv, r.y, s.y, l * g, m * h, g, h, l * m);
    ScaledProduct(cv, r.z, s.z, m * f, l * g, f, g, l * m);
    ScaledProduct(cv, r.t, s.t, l * e, m * h, e, h, l * m);
  }

  lemma ScaledProduct(cv: Curve, a: int, b: int, u: int, v: int, e: int, f: int, l: int)
    requires Eq(cv.q, a, u * v) && Eq(cv.q, b, e * f) && u * v == l * (e * f)
    ensures Eq(cv.q, a, l * b)
  {
    hide Red, Eq;
    EqRefl(cv.q, l);
    EqMul(cv.q, l, l, b, e * f);
    EqSym(cv.q, l * b, l * (e * f));
    EqTrans(cv.q, a, l * (e * f), l * b);
  }

  /** The two sides of the curve equation, in a form that does not mention points. */
  lemma CurveSides(cv: Curve, p: Point)
    requires OnCurve(cv, p)
    ensures Eq(cv.q, p.x * p.y, p.z * p.t) && Eq(cv.q, p.y * p.y - p.x * p.x, p.z * p.z + cv.d * (p.t * p.t))
    ensures Eq(cv.q, p.z * p.z + cv.d * (p.t * p.t), p.y * p.y - p.x * p.x)
  {
    EqSym(cv.q, p.y * p.y - p.x * p.x, p.z * p.z + cv.d * (p.t * p.t));
  }

  /** Doubling is adding a point to itself with the unified formula, up to the factor -4
      that extended coordinates do not see. */
  lemma DoubleIsSelfAddition(cv: Curve, p: Point)
    requires OnCurve(cv, p)
    ensures Scaled(cv, Add(cv, p, p), Double(cv, p), -4)
  {
    hide Red, Eq, OnCurve, HasFactors, Scaled, Add, Double;
    CurveSides(cv, p);
    AddFactors(cv, p, p);
    DoubleFactors(cv, p);
    var k, c := p.y * p.y - p.x * p.x, p.z * p.z + cv.d * (p.t * p.t);
    var e, f, h := 2 * (p.x * p.y), k - 2 * (p.z * p.z), -(p.x * p.x) - p.y * p.y;
    EqRefl(cv.q, -2);
    EqRefl(cv.q, 2);
    EqRefl(cv.q, 4 * (p.z * p.z));
    EqMul(cv.q, -2, -2, c, k);
    EqMul(cv.q, 2, 2, c, k);
    EqAdd(cv.q, -2 * c, -2 * k, 4 * (p.z * p.z), 4 * (p.z * p.z));
    EqRefl(cv.q, 2 * e);
    EqRefl(cv.q, -2 * h);
    SelfIdentities(cv, p.x, p.y, p.z, p.t);
    FactorsEq(cv, Add(cv, p, p), 2 * e, -2 * c + 4 * (p.z * p.z), 2 * c, -2 * h, 2 * e, -2 * f, 2 * k, -2 * h);
    ScaledFactors(cv, Add(cv, p, p), Double(cv, p), e, f, k, h, 2, -2);
  }

  lemma SelfIdentities(cv: Curve, x: int, y: int, z: int, t: int)
    ensures 2 * (x * y + x * y) == 2 * (2 * (x * y)) && 2 * (y * y + x * x) == -2 * (-(x * x) - y * y)
    ensures 2 * (z * z - cv.d * t * t) == -2 * (z * z + cv.d * (t * t)) + 4 * (z * z)
    ensures 2 * (z * z + cv.d * t * t) == 2 * (z * z + cv.d * (t * t))
    ensures -2 * (y * y - x * x - 2 * (z * z)) == -2 * (y * y - x * x) + 4 * (z * z)
  {
    assert cv.d * t * t == cv.d * (t * t);
  }

  // ---------------------------------------- non-unified against unified

  lemma Swap(a: int, b: int, c: int, d: int)
    ensures (a * b) * (c * d) == (a * c) * (b * d)
  {
    assert (a * b) * (c * d) == a * (b * (c * d));
    assert b * (c * d) == c * (b * d);
    assert a * (c * (b * d)) == (a * c) * (b * d);
  }

  lemma Dist(a: int, b: int, c: int, d: int)
    ensures (a + b) * (c + d) == a * c + a * d + b * c + b * d
    ensures (a - b) * (c - d) == a * c - a * d - b * c + b * d
    ensures (a + b) * (c - d) == a * c - a * d + b * c - b * d
  {
  }

  /** Products of the coordinates of two points, rearranged. */
  lemma Rearranged(c: int, x1: int, y1: int, x2: int, y2: int)
    ensures (x1 * y2 + x2 * y1) * (y1 * y2 + c * (x1 * x2)) == (x1 * y1) * (y2 * y2 + c * (x2 * x2)) + (x2 * y2) * (y1 * y1 + c * (x1 * x1))
    ensures (x1 * y2 - x2 * y1) * (y1 * y2 - c * (x1 * x2)) == (x1 * y1) * (y2 * y2 + c * (x2 * x2)) - (x2 * y2) * (y1 * y1 + c * (x1 * x1))
  {
    var p, r, u, v := x1 * y2, x2 * y1, y1 * y2, c * (x1 * x2);
    Dist(p, r, u, v);
    Swap(x1, y2, y1, y2);
    Swap(x2, y1, y2, y1);
    Pull(c, x1 * y2, x1 * x2);
    Pull(c, x2 * y1, x1 * x2);
    Pull(c, x1 * y1, x2 * x2);
    Pull(c, x2 * y2, x1 * x1);
    Swap(x1, y2, x1, x2);
    Swap(x2, y1, x2, x1);
    Swap(x1, x1, x2, y2);
    assert (x1 * y2) * (x1 * x2) == (x2 * y2) * (x1 * x1);
    assert (x2 * y1) * (x1 * x2) == (x1 * y1) * (x2 * x2);
  }

  lemma Pull(c: int, a: int, b: int)
    ensures a * (c * b) == c * (a * b)
  {
  }

  lemma NumeratorIdentities(x1: int, y1: int, x2: int, y2: int)
    ensures (x1 * y2 + x2 * y1) * (y1 * y2 - x1 * x2) == (x1 * y1) * (y2 * y2 - x2 * x2) + (x2 * y2) * (y1 * y1 - x1 * x1)
    ensures (y1 * y2 + x1 * x2) * (x1 * y2 - y1 * x2) == (x1 * y1) * (y2 * y2 - x2 * x2) - (x2 * y2) * (y1 * y1 - x1 * x1)
  {
    Rearranged(-1, x1, y1, x2, y2);
  }

  lemma DenominatorIdentities(d: int, z1: int, t1: int, z2: int, t2: int)
    ensures (t1 * z2 + z1 * t2) * (z1 * z2 + d * t1 * t2) == (z1 * t1) * (z2 * z2 + d * (t2 * t2)) + (z2 * t2) * (z1 * z1 + d * (t1 * t1))
    ensures (t1 * z2 - z1 * t2) * (z1 * z2 - d * t1 * t2) == (z1 * t1) * (z2 * z2 + d * (t2 * t2)) - (z2 * t2) * (z1 * z1 + d * (t1 * t1))
  {
    Rearranged(d, t1, z1, t2, z2);
    Grouped(d, t1, t2);
  }

  lemma Grouped(d: int, a: int, b: int)
    ensures d * a * b == d * (a * b)
  {
  }

  lemma CrossRatios(cv: Curve, p: Point, q: Point)
    requires OnCurve(cv, p) && OnCurve(cv, q)
    ensures Eq(cv.q, (p.t * q.z + p.z * q.t) * (p.z * q.z + cv.d * p.t * q.t), (p.x * q.y + q.x * p.y) * (p.y * q.y - p.x * q.x))
    ensures Eq(cv.q, (p.t * q.z - p.z * q.t) * (p.z * q.z - cv.d * p.t * q.t), (p.y * q.y + p.x * q.x) * (p.x * q.y - p.y * q.x))
  {
    hide Red, Eq, OnCurve;
    CurveSides(cv, p);
    CurveSides(cv, q);
    NumeratorIdentities(p.x, p.y, q.x, q.y);
    DenominatorIdentities(cv.d, p.z, p.t, q.z, q.t);
    var w1, w2, v1, v2 := p.x * p.y, q.x * q.y, p.z * p.t, q.z * q.t;
    var k1, k2 := p.y * p.y - p.x * p.x, q.y * q.y - q.x * q.x;
    var c1, c2 := p.z * p.z + cv.d * (p.t * p.t), q.z * q.z + cv.d * (q.t * q.t);
    EqSym(cv.q, w1, v1);
    EqSym(cv.q, w2, v2);
    EqMul(cv.q, v1, w1, c2, k2);
    EqMul(cv.q, v2, w2, c1, k1);
    EqAdd(cv.q, v1 * c2, w1 * k2, v2 * c1, w2 * k1);
  }

  lemma Shuffle(cv: Curve, a: int, b: int, c: int, d: int, u: int, v: int, l: int, r: int)
    requires Eq(cv.q, a, b) && Eq(cv.q, c, d) && b * d == u * l && v == u * r && Eq(cv.q, l, r)
    ensures Eq(cv.q, a * c, v)
  {
    hide Red, Eq;
    EqMul(cv.q, a, b, c, d);
    EqRefl(cv.q, u);
    EqMul(cv.q, u, u, l, r);
    EqTrans(cv.q, a * c, u * l, v);
  }

  /** If the ratios agree, so do the points, denominators aside. */
  lemma CrossFactors(cv: Curve, r: Point, s: Point, e: int, f: int, g: int, h: int, e': int, f': int, g': int, h': int)
    requires HasFactors(cv, r, e, f, g, h) && HasFactors(cv, s, e', f', g', h')
    requires Eq(cv.q, e * g', e' * g) && Eq(cv.q, h * f', h' * f)
    ensures Eq(cv.q, r.x * s.z, s.x * r.z) && Eq(cv.q, r.y * s.z, s.y * r.z) && Eq(cv.q, r.t * s.z, s.t * r.z)
  {
    hide Red, Eq;
    Flip(cv, r, s, e, f, g, h, e', f', g', h');
    EqMul(cv.q, s.x, e' * f', r.z, f * g);
    EqMul(cv.q, s.y, g' * h', r.z, f * g);
    EqMul(cv.q, s.t, e' * h', r.z, f * g);
    EqMul(cv.q, e * g', e' * g, h * f', h' * f);
    ProductIdentities(e, f, g, h, e', f', g', h');
    Shuffle(cv, r.x, e * f, s.z, f' * g', f * f', (e' * f') * (f * g), e * g', e' * g);
    Shuffle(cv, r.y, g * h, s.z, f' * g', g * g', (g' * h') * (f * g), h * f', h' * f);
    Shuffle(cv, r.t, e * h, s.z, f' * g', 1, (e' * h') * (f * g), (e * g') * (h * f'), (e' * g) * (h' * f));
    Meet(cv, r.x * s.z, (e' * f') * (f * g), s.x * r.z);
    Meet(cv, r.y * s.z, (g' * h') * (f * g), s.y * r.z);
    Meet(cv, r.t * s.z, (e' * h') * (f * g), s.t * r.z);
  }

  lemma Flip(cv: Curve, r: Point, s: Point, e: int, f: int, g: int, h: int, e': int, f': int, g': int, h': int)
    requires HasFactors(cv, r, e, f, g, h) && HasFactors(cv, s, e', f', g', h')
    ensures Eq(cv.q, r.x, e * f) && Eq(cv.q, r.y, g * h) && Eq(cv.q, r.z, f * g) && Eq(cv.q, r.t, e * h)
    ensures Eq(cv.q, s.x, e' * f') && Eq(cv.q, s.y, g' * h') && Eq(cv.q, s.z, f' * g') && Eq(cv.q, s.t, e' * h')
  {
  }

  lemma ProductIdentities(e: int, f: int, g: int, h: int, e': int, f': int, g': int, h': int)
    ensures (e * f) * (f' * g') == (f * f') * (e * g') && (e' * f') * (f * g) == (f * f') * (e' * g)
    ensures (g * h) * (f' * g') == (g * g') * (h * f') && (g' * h') * (f * g) == (g * g') * (h' * f)
    ensures (e * h) * (f' * g') == (e * g') * (h * f') && (e' * h') * (f * g) == (e' * g) * (h' * f)
  {
    Swap(f, e, f', g');
    Swap(f', e', f, g);
    Swap(g, h, g', f');
    Swap(g', h', g, f);
    Swap(e, h, g', f');
    Swap(e', h', g, f);
  }

  lemma Meet(cv: Curve, a: int, b: int, c: int)
    requires Eq(cv.q, a, b) && Eq(cv.q, c, b)
    ensures Eq(cv.q, a, c)
  {
    hide Red, Eq;
    EqSym(cv.q, c, b);
    EqTrans(cv.q, a, b, c);
  }

  /** The fast sum is the unified one, wherever neither denominator vanishes. */
  lemma NonUnifiedAgrees(cv: Curve, p: Point, q: Point)
    requires OnCurve(cv, p) && OnCurve(cv, q)
    ensures var r, s := AddNonUnified(cv, p, q), Add(cv, p, q);
      Eq(cv.q, r.x * s.z, s.x * r.z) && Eq(cv.q, r.y * s.z, s.y * r.z) && Eq(cv.q, r.t * s.z, s.t * r.z)
  {
    hide Red, Eq, OnCurve, HasFactors, Add, AddNonUnified;
    AddFactors(cv, p, q);
    AddNonUnifiedFactors(cv, p, q);
    CrossRatios(cv, p, q);
    var e, f, g, h := p.t * q.z + p.z * q.t, p.x * q.y - p.y * q.x, p.y * q.y - p.x * q.x, p.t * q.z - p.z * q.t;
    var e', f', g', h' := p.x * q.y + q.x * p.y, p.z * q.z - cv.d * p.t * q.t, p.z * q.z + cv.d * p.t * q.t, p.y * q.y + p.x * q.x;
    Twice(cv, e, g', e', g);
    Twice(cv, h, f', h', f);
    CrossFactors(cv, AddNonUnified(cv, p, q), Add(cv, p, q), 2 * e, 2 * f, 2 * g, 2 * h, 2 * e', 2 * f', 2 * g', 2 * h');
  }

  lemma Twice(cv: Curve, a: int, b: int, c: int, d: int)
    requires Eq(cv.q, a * b, c * d)
    ensures Eq(cv.q, (2 * a) * (2 * b), (2 * c) * (2 * d))
  {
    hide Red, Eq;
    EqRefl(cv.q, 4);
    EqMul(cv.q, 4, 4, a * b, c * d);
    assert (2 * a) * (2 * b) == 4 * (a * b) && (2 * c) * (2 * d) == 4 * (c * d);
  }
}
