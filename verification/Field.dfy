/**
 Arithmetic modulo a prime `p`.

 Two integers are congruent when they leave the same remainder, so congruence
 is an equality and needs no symmetry or transitivity lemma; what has to be
 proved is that sums and products respect it, that every non-zero residue has
 one inverse, and that a non-zero factor can be cancelled.
 */
module Field {

  ghost predicate Prime(p: int)
    ensures Prime(p) ==> p > 1
  {
    p > 1 && forall d :: 1 < d < p ==> p % d != 0
  }

  ghost predicate Cong(a: int, b: int, p: int)
    requires p > 0
  {
    a % p == b % p
  }

  // ---- Congruence ----

  lemma MulBound(p: int, d: int)
    requires p > 0
    ensures d >= 1 ==> p * d >= p
    ensures d <= -1 ==> p * d <= -p
  {
    if d >= 1 {
      assert p * (d - 1) >= 0;
    } else if d <= -1 {
      assert p * (-1 - d) >= 0;
    }
  }

  lemma ModUnique(a: int, q: int, r: int, p: int)
    requires p > 0 && a == q * p + r && 0 <= r < p
    ensures a % p == r
  {
    var d := a / p - q;
    assert a == p * (a / p) + a % p;
    assert p * d == r - a % p by {
      assert p * d == p * (a / p) - p * q;
    }
    MulBound(p, d);
  }

  lemma CongByWitness(a: int, b: int, k: int, p: int)
    requires p > 0 && a == b + k * p
    ensures Cong(a, b, p)
  {
    assert a == (b / p + k) * p + b % p by {
      assert b == p * (b / p) + b % p;
      assert (b / p + k) * p == p * (b / p) + k * p;
    }
    ModUnique(a, b / p + k, b % p, p);
  }

  lemma Witness(a: int, b: int, p: int) returns (k: int)
    requires p > 0 && Cong(a, b, p)
    ensures a == b + k * p
  {
    k := a / p - b / p;
    assert k * p == p * (a / p) - p * (b / p);
  }

  lemma CongMod(a: int, p: int)
    requires p > 0
    ensures Cong(a % p, a, p) && 0 <= a % p < p
  {
    CongByWitness(a % p, a, -(a / p), p);
  }

  lemma CongAdd(a: int, a': int, b: int, b': int, p: int)
    requires p > 0 && Cong(a, a', p) && Cong(b, b', p)
    ensures Cong(a + b, a' + b', p)
  {
    var j := Witness(a, a', p);
    var k := Witness(b, b', p);
    assert (j + k) * p == j * p + k * p;
    CongByWitness(a + b, a' + b', j + k, p);
  }

  lemma CongScale(c: int, a: int, a': int, p: int)
    requires p > 0 && Cong(a, a', p)
    ensures Cong(c * a, c * a', p)
  {
    var k := Witness(a, a', p);
    assert c * a == c * a' + (c * k) * p by { assert c * (a' + k * p) == c * a' + c * (k * p); }
    CongByWitness(c * a, c * a', c * k, p);
  }

  lemma CongMul(a: int, a': int, b: int, b': int, p: int)
    requires p > 0 && Cong(a, a', p) && Cong(b, b', p)
    ensures Cong(a * b, a' * b', p)
  {
    CongScale(a, b, b', p);
    CongScale(b', a, a', p);
    assert b' * a == a * b' && b' * a' == a' * b';
  }

  /** A divisor of two numbers divides every combination of them. */
  lemma DividesCombination(d: int, u: int, a: int, v: int, b: int)
    requires d > 0 && a % d == 0 && b % d == 0
    ensures (u * a + v * b) % d == 0
  {
    ModUnique(0, 0, 0, d);
    CongScale(u, a, 0, d);
    CongScale(v, b, 0, d);
    assert u * 0 == 0 && v * 0 == 0;
    CongAdd(u * a, 0, v * b, 0, d);
  }

  lemma ZeroIffDivides(a: int, b: int, p: int)
    requires p > 0
    ensures Cong(a, b, p) <==> (a - b) % p == 0
  {
    if Cong(a, b, p) {
      var k := Witness(a, b, p);
      CongByWitness(a - b, 0, k, p);
    }
    if (a - b) % p == 0 {
      CongByWitness(a, b, (a - b) / p, p);
    }
  }

  // ---- Greatest common divisor and Bezout coefficients ----

  function Gcd(a: nat, b: nat): (g: nat)
    decreases b
  {
    if b == 0 then a else Gcd(b, a % b)
  }

  lemma {:induction false} GcdDivides(a: nat, b: nat)
    requires a > 0 || b > 0
    ensures Gcd(a, b) > 0 && a % Gcd(a, b) == 0 && b % Gcd(a, b) == 0
    decreases b
  {
    var g := Gcd(a, b);
    if b == 0 {
      CongByWitness(a, 0, 1, a);
      CongByWitness(0, 0, 0, a);
    } else {
      GcdDivides(b, a % b);
      assert a == (a / b) * b + 1 * (a % b);
      DividesCombination(g, a / b, b, 1, a % b);
    }
  }

  /** Every common divisor divides the gcd. */
  lemma {:induction false} GcdGreatest(a: nat, b: nat, d: int)
    requires d > 0 && a % d == 0 && b % d == 0
    ensures Gcd(a, b) % d == 0
    decreases b
  {
    if b != 0 {
      assert a % b == 1 * a + (-(a / b)) * b;
      DividesCombination(d, 1, a, -(a / b), b);
      GcdGreatest(b, a % b, d);
    }
  }

  /** The gcd has exactly the common divisors of its arguments as its divisors. */
  lemma GcdExactly(a: nat, b: nat, d: int)
    requires d > 0 && (a > 0 || b > 0)
    ensures a % d == 0 && b % d == 0 <==> Gcd(a, b) % d == 0
  {
    var g := Gcd(a, b);
    GcdDivides(a, b);
    if a % d == 0 && b % d == 0 {
      GcdGreatest(a, b, d);
    }
    if g % d == 0 {
      DividesMultiple(d, g, a);
      DividesMultiple(d, g, b);
    }
  }

  lemma DividesMultiple(d: int, g: int, n: int)
    requires d > 0 && g > 0 && g % d == 0 && n % g == 0
    ensures n % d == 0
  {
    var q := n / g;
    assert n == q * g + 0 * g;
    DividesCombination(d, q, g, 0, g);
  }

  lemma GcdWithPrime(a: int, p: int)
    requires Prime(p) && 0 < a < p
    ensures Gcd(a, p) == 1
  {
    GcdDivides(a, p);
    var g := Gcd(a, p);
    if g > a {
      ModUnique(a, 0, a, g);
    }
  }

  lemma {:induction false} Bezout(a: nat, b: nat) returns (x: int, y: int)
    ensures x * a + y * b == Gcd(a, b)
    decreases b
  {
    if b == 0 {
      x, y := 1, 0;
    } else {
      var u, v := Bezout(b, a % b);
      var q := a / b;
      x, y := v, u - v * q;
      assert v * (a % b) == v * a - v * q * b by {
        assert a % b == a - b * q;
        assert v * (a - b * q) == v * a - v * (b * q);
      }
      assert (u - v * q) * b == u * b - v * q * b;
    }
  }

  // ---- Inverses ----

  ghost predicate IsInverse(a: int, x: int, p: int)
    requires p > 0
  {
    0 <= x < p && (a * x) % p == 1
  }

  lemma InverseExists(a: int, p: int)
    requires Prime(p) && a % p != 0
    ensures exists x :: IsInverse(a, x, p)
  {
    var r := a % p;
    GcdWithPrime(r, p);
    var u, v := Bezout(r, p);
    var x := u % p;
    CongMod(u, p);
    CongMod(a, p);
    CongMul(a, r, x, u, p);
    assert r * u == 1 + (-v) * p;
    CongByWitness(r * u, 1, -v, p);
    ModUnique(1, 0, 1, p);
    assert IsInverse(a, x, p);
  }

  lemma InverseUnique(a: int, x: int, y: int, p: int)
    requires p > 1 && IsInverse(a, x, p) && IsInverse(a, y, p)
    ensures x == y
  {
    // x == (a * y) * x == (a * x) * y == y modulo p
    ModUnique(1, 0, 1, p);
    CongScale(y, a * x, 1, p);
    CongScale(x, a * y, 1, p);
    Rotate(a, x, y);
    ModUnique(x, 0, x, p);
    ModUnique(y, 0, y, p);
  }

  lemma Rotate(a: int, x: int, y: int)
    ensures y * (a * x) == x * (a * y)
  {
  }

  /** The inverse as the reconstruction uses it: 0 stands in where there is none. */
  ghost function Inverse(a: int, p: int): (x: int)
    requires Prime(p)
    ensures 0 <= x < p
    ensures a % p != 0 ==> IsInverse(a, x, p)
    ensures a % p == 0 ==> x == 0
  {
    if a % p == 0 then 0
    else
      InverseExists(a, p);
      var x :| IsInverse(a, x, p);
      x
  }

  lemma Cancel(d: int, a: int, b: int, p: int)
    requires Prime(p) && d % p != 0 && Cong(d * a, d * b, p)
    ensures Cong(a, b, p)
  {
    var x := Inverse(d, p);
    ModUnique(1, 0, 1, p);
    CongScale(x, d * a, d * b, p);
    CongMul(d * x, 1, a, a, p);
    CongMul(d * x, 1, b, b, p);
    assert x * (d * a) == (d * x) * a && x * (d * b) == (d * x) * b;
  }

  /** The field has no zero divisors. */
  lemma ProductNonZero(a: int, b: int, p: int)
    requires Prime(p) && a % p != 0 && b % p != 0
    ensures (a * b) % p != 0
  {
    if (a * b) % p == 0 {
      ModUnique(0, 0, 0, p);
      assert a * 0 == 0;
      Cancel(a, b, 0, p);
    }
  }

  /** Inverses of congruent numbers agree. */
  lemma InverseRespects(a: int, b: int, p: int)
    requires Prime(p) && Cong(a, b, p)
    ensures Inverse(a, p) == Inverse(b, p)
  {
    if a % p != 0 {
      var x := Inverse(a, p);
      CongMul(a, b, x, x, p);
      InverseUnique(b, x, Inverse(b, p), p);
    }
  }
}
