/** Congruence modulo a positive modulus, the arithmetic under the signature equations. */
module Congruence {

  ghost predicate IsMultiple(a: int, b: int, k: int, q: int) {
    a - b == k * q
  }

  ghost predicate Cong(q: int, a: int, b: int) {
    exists k: int :: IsMultiple(a, b, k, q)
  }

  lemma Witness(q: int, a: int, b: int, k: int)
    requires a - b == k * q
    ensures Cong(q, a, b)
  {
    assert IsMultiple(a, b, k, q);
  }

  lemma Refl(q: int, a: int)
    ensures Cong(q, a, a)
  {
    Witness(q, a, a, 0);
  }

  lemma Sym(q: int, a: int, b: int)
    requires Cong(q, a, b)
    ensures Cong(q, b, a)
  {
    var k :| IsMultiple(a, b, k, q);
    Witness(q, b, a, -k);
  }

  lemma Trans(q: int, a: int, b: int, d: int)
    requires Cong(q, a, b) && Cong(q, b, d)
    ensures Cong(q, a, d)
  {
    var k :| IsMultiple(a, b, k, q);
    var l :| IsMultiple(b, d, l, q);
    assert a - d == (k + l) * q;
    Witness(q, a, d, k + l);
  }

  lemma Add(q: int, a: int, b: int, d: int, e: int)
    requires Cong(q, a, b) && Cong(q, d, e)
    ensures Cong(q, a + d, b + e)
  {
    var k :| IsMultiple(a, b, k, q);
    var l :| IsMultiple(d, e, l, q);
    assert (a + d) - (b + e) == (k + l) * q;
    Witness(q, a + d, b + e, k + l);
  }

  lemma Scale(q: int, m: int, a: int, b: int)
    requires Cong(q, a, b)
    ensures Cong(q, m * a, m * b)
  {
    var k :| IsMultiple(a, b, k, q);
    calc {
      m * a - m * b;
      m * (a - b);
      m * (k * q);
      (m * k) * q;
    }
    Witness(q, m * a, m * b, m * k);
  }

  lemma Reduce(q: int, a: int)
    requires q > 0
    ensures Cong(q, a % q, a)
  {
    assert a % q - a == (-(a / q)) * q;
    Witness(q, a % q, a, -(a / q));
  }

  /** If `a` is `x` shifted by `d`, it is any `y` exactly if `d` makes up the difference. */
  lemma Shift(q: int, a: int, x: int, d: int, y: int)
    requires Cong(q, a, x + d)
    ensures Cong(q, a, y) <==> Cong(q, d, y - x)
  {
    Refl(q, x);
    Refl(q, -x);
    if Cong(q, a, y) {
      Sym(q, a, x + d);
      Trans(q, x + d, a, y);
      Add(q, x + d, y, -x, -x);
    }
    if Cong(q, d, y - x) {
      Add(q, d, y - x, x, x);
      Trans(q, a, x + d, y);
    }
  }

  lemma MultipleIsFar(k: int, q: int)
    requires q > 0
    ensures k == 0 || k * q >= q || k * q <= -q
  {
    if k >= 1 {
      assert k * q == (k - 1) * q + q;
    } else if k <= -1 {
      assert k * q == (k + 1) * q - q;
    }
  }

  /** Two canonical representatives of the same class are equal. */
  lemma Canonical(q: int, a: int, b: int)
    requires 0 <= a < q && 0 <= b < q && Cong(q, a, b)
    ensures a == b
  {
    var k :| IsMultiple(a, b, k, q);
    MultipleIsFar(k, q);
  }

  /** Congruence is equality of remainders. */
  lemma SameRemainder(q: int, a: int, b: int)
    requires q > 0
    ensures Cong(q, a, b) <==> a % q == b % q
  {
    Reduce(q, a);
    Reduce(q, b);
    if Cong(q, a, b) {
      Trans(q, a % q, a, b);
      Sym(q, b % q, b);
      Trans(q, a % q, b, b % q);
      Canonical(q, a % q, b % q);
    }
    if a % q == b % q {
      Sym(q, a % q, a);
      Trans(q, a, a % q, b);
    }
  }
}
