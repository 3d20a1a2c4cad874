/** Integers modulo m. */
module Congruence {

  predicate Eq(m: nat, a: int, b: int)
    requires m > 0
  {
    (a - b) % m == 0
  }

  lemma MultipleVanishes(m: nat, k: int)
    requires m > 0
    ensures (m * k) % m == 0
  {
    if k >= 0 {
      Multiple(m, k);
    } else {
      Multiple(m, -k);
      assert m * k == -(m * -k);
      NegatedVanishes(m, m * -k);
    }
  }

  lemma {:induction false} Multiple(m: nat, k: nat)
    requires m > 0
    ensures (m * k) % m == 0
  {
    if k > 0 {
      Multiple(m, k - 1);
      assert m * k == m * (k - 1) + m;
      ShiftMod(m, m * (k - 1));
    }
  }

  lemma ShiftMod(m: nat, a: int)
    requires m > 0
    ensures (a + m) % m == a % m
  {
    var q, r := a / m, a % m;
    assert a + m == m * (q + 1) + r by {
      assert m * (q + 1) == m * q + m;
    }
    UniqueRemainder(m, a + m, q + 1, r);
  }

  lemma UniqueRemainder(m: nat, a: int, q: int, r: int)
    requires m > 0 && a == m * q + r && 0 <= r < m
    ensures a % m == r && a / m == q
  {
    var q', r' := a / m, a % m;
    assert m * (q - q') == m * q - m * q' && m * (q' - q) == m * q' - m * q;
    if q > q' {
      Grows(m, q - q');
    } else if q < q' {
      Grows(m, q' - q);
    }
  }

  lemma Grows(m: nat, k: int)
    requires k >= 1
    ensures m * k >= m
  {
    assert m * k == m + m * (k - 1);
  }

  lemma NegatedVanishes(m: nat, a: int)
    requires m > 0 && a % m == 0
    ensures (-a) % m == 0
  {
    var q := a / m;
    assert -a == m * -q + 0;
    UniqueRemainder(m, -a, -q, 0);
  }

  /** The multiple by which two congruent numbers differ. */
  function Quotient(m: nat, a: int, b: int): (k: int)
    requires m > 0 && Eq(m, a, b)
    ensures a == b + m * k
  {
    (a - b) / m
  }

  lemma EqBy(m: nat, a: int, b: int, k: int)
    requires m > 0 && a == b + m * k
    ensures Eq(m, a, b)
  {
    MultipleVanishes(m, k);
  }

  lemma EqRefl(m: nat, a: int)
    requires m > 0
    ensures Eq(m, a, a)
  {
    EqBy(m, a, a, 0);
  }

  lemma EqSym(m: nat, a: int, b: int)
    requires m > 0 && Eq(m, a, b)
    ensures Eq(m, b, a)
  {
    NegatedVanishes(m, a - b);
  }

  lemma EqTrans(m: nat, a: int, b: int, c: int)
    requires m > 0 && Eq(m, a, b) && Eq(m, b, c)
    ensures Eq(m, a, c)
  {
    var k, l := Quotient(m, a, b), Quotient(m, b, c);
    assert m * k + m * l == m * (k + l);
    EqBy(m, a, c, k + l);
  }

  lemma EqAdd(m: nat, a: int, b: int, c: int, d: int)
    requires m > 0 && Eq(m, a, b) && Eq(m, c, d)
    ensures Eq(m, a + c, b + d) && Eq(m, a - c, b - d)
  {
    var k, l := Quotient(m, a, b), Quotient(m, c, d);
    assert m * k + m * l == m * (k + l) && m * k - m * l == m * (k - l);
    EqBy(m, a + c, b + d, k + l);
    EqBy(m, a - c, b - d, k - l);
  }

  lemma EqMul(m: nat, a: int, b: int, c: int, d: int)
    requires m > 0 && Eq(m, a, b) && Eq(m, c, d)
    ensures Eq(m, a * c, b * d)
  {
    var k, l := Quotient(m, a, b), Quotient(m, c, d);
    var j := k * c + b * l;
    assert a * c - b * d == (a - b) * c + b * (c - d);
    assert (m * k) * c == m * (k * c) && b * (m * l) == m * (b * l);
    assert m * j == m * (k * c) + m * (b * l);
    EqBy(m, a * c, b * d, j);
  }

  /** Reduction does not leave the class. */
  lemma EqMod(m: nat, a: int)
    requires m > 0
    ensures Eq(m, a % m, a)
  {
    var q := a / m;
    assert a % m == a + m * -q by {
      assert a == m * q + a % m;
      assert m * -q == -(m * q);
    }
    EqBy(m, a % m, a, -q);
  }

  /** Congruent numbers have the same remainder, and conversely. */
  lemma EqIsSameRemainder(m: nat, a: int, b: int)
    requires m > 0
    ensures Eq(m, a, b) <==> a % m == b % m
  {
    var q := b / m;
    if Eq(m, a, b) {
      var k := Quotient(m, a, b);
      assert a == m * (q + k) + b % m by {
        assert m * (q + k) == m * q + m * k;
      }
      UniqueRemainder(m, a, q + k, b % m);
    }
    if a % m == b % m {
      var p := a / m;
      assert a - b == m * p - m * q == m * (p - q);
      EqBy(m, a, b, p - q);
    }
  }
}
