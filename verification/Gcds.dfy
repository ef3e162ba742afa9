// Greatest common divisors, with Bezout coefficients.
module Gcds {

  function Gcd(a: nat, b: nat): (d: nat)
    requires a > 0 || b > 0
    ensures d > 0
    decreases b
  {
    if b == 0 then a else Gcd(b, a % b)
  }

  // Coefficients for b and the rest m give some for a = q * b + m and b.
  lemma Coefficients(x: int, y: int, q: int, b: int, m: int)
    ensures y * (q * b + m) + (x - q * y) * b == x * b + y * m
  {
    assert y * (q * b + m) == y * (q * b) + y * m;
    assert (x - q * y) * b == x * b - (q * y) * b;
    assert y * (q * b) == (q * y) * b;
  }

  lemma {:induction false} Bezout(a: nat, b: nat) returns (x: int, y: int)
    requires a > 0 || b > 0
    ensures x * a + y * b == Gcd(a, b)
    decreases b
  {
    if b == 0 {
      x, y := 1, 0;
    } else {
      var q := a / b;
      var x', y' := Bezout(b, a % b);
      assert a == q * b + a % b;
      Coefficients(x', y', q, b, a % b);
      x, y := y', x' - q * y';
    }
  }

  predicate Divides(d: nat, a: int)
    requires d > 0
  {
    a % d == 0
  }

  lemma DividesMultiple(d: nat, a: int, k: int)
    requires d > 0 && a == k * d
    ensures Divides(d, a)
  {
    ModUnique(a, d, k, 0);
  }

  lemma ScaleAtLeast(t: int, m: nat)
    requires t >= 1
    ensures t * m >= m
  {
  }

  lemma ModUnique(a: int, m: nat, q: int, r: nat)
    requires m > 0 && a == q * m + r && r < m
    ensures a % m == r
  {
    var q', r' := a / m, a % m;
    assert a == q' * m + r';
    Spread(q, q', m);
    if q > q' {
      ScaleAtLeast(q - q', m);
    } else if q < q' {
      ScaleAtLeast(q' - q, m);
    }
  }

  lemma Spread(q: int, q': int, m: nat)
    ensures (q - q') * m == q * m - q' * m && (q' - q) * m == q' * m - q * m
  {
  }

  lemma NotDivided(d: nat, a: int)
    requires 0 < a < d
    ensures !Divides(d, a)
  {
    ModUnique(a, d, 0, a);
  }

  lemma DividesSum(d: nat, a: int, b: int)
    requires d > 0 && Divides(d, a) && Divides(d, b)
    ensures Divides(d, a + b) && Divides(d, a - b)
  {
    var i, j := a / d, b / d;
    assert a == i * d && b == j * d;
    assert a + b == (i + j) * d && a - b == (i - j) * d;
    DividesMultiple(d, a + b, i + j);
    DividesMultiple(d, a - b, i - j);
  }

  lemma {:induction false} GcdDivides(a: nat, b: nat)
    requires a > 0 || b > 0
    ensures Divides(Gcd(a, b), a) && Divides(Gcd(a, b), b)
    decreases b
  {
    var d := Gcd(a, b);
    if b == 0 {
      DividesMultiple(d, a, 1);
      DividesMultiple(d, b, 0);
    } else {
      GcdDivides(b, a % b);
      var q, i, j := a / b, b / d, (a % b) / d;
      assert b == i * d && a % b == j * d;
      assert a == q * b + a % b;
      assert q * b == q * i * d;
      assert a == (q * i + j) * d;
      DividesMultiple(d, a, q * i + j);
    }
  }

  // Adding p over and over, modulo p + g, meets g - gcd(p, g).
  lemma MultipleReaches(p: nat, g: nat) returns (k: nat)
    requires p > 0 && g > 0
    ensures Gcd(p, g) <= g && (k * p) % (p + g) == g - Gcd(p, g)
  {
    var d, m := Gcd(p, g), p + g;
    GcdDivides(p, g);
    assert d <= g by {
      if d > g {
        ModUnique(g, d, 0, g);
      }
    }
    var x, y := Bezout(p, g);
    var w := y - 1 - x;
    var q := w / m;
    k := w % m;
    assert w == q * m + k;
    ReachIdentity(p, g, x, y, q, k, d);
    ModUnique(k * p, m, y - 1 - q * p, g - d);
  }

  lemma ReachIdentity(p: nat, g: nat, x: int, y: int, q: int, k: nat, d: nat)
    requires x * p + y * g == d && y - 1 - x == q * (p + g) + k
    ensures k * p == (y - 1 - q * p) * (p + g) + (g - d)
  {
    var z := q * p;
    assert k == y - 1 - x - q * p - q * g;
    assert k * p == y * p - p - x * p - z * p - (q * g) * p;
    assert (q * g) * p == z * g;
    assert (y - 1 - z) * (p + g) == (y - 1 - z) * p + (y - 1 - z) * g;
    assert (y - 1 - z) * p == y * p - p - z * p;
    assert (y - 1 - z) * g == y * g - g - z * g;
  }
}
