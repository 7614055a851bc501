/** Integer facts the solver needs one at a time: products, cancellation, quotients and gcds. */
module Arith {

  lemma MulMono(g: int, x: int, y: int)
    requires g >= 0 && x <= y
    ensures g * x <= g * y
  {
  }

  lemma MulCancelLt(g: int, x: int, y: int)
    requires g > 0 && g * x < g * y
    ensures x < y
  {
    if y <= x {
      MulMono(g, y, x);
    }
  }

  lemma MulCancel(g: int, x: int, y: int)
    requires g > 0 && g * x == g * y
    ensures x == y
  {
    assert g * (x + 1) == g * x + g && g * (y + 1) == g * y + g;
    MulCancelLt(g, x, y + 1);
    MulCancelLt(g, y, x + 1);
  }

  lemma MulPos(a: int, b: int)
    requires a > 0 && b > 0
    ensures a * b > 0
  {
  }

  lemma MulAssoc(a: int, b: int, c: int)
    ensures a * (b * c) == (a * b) * c
  {
  }

  lemma MulSwap(a: int, b: int, c: int)
    ensures a * (b * c) == b * (a * c)
  {
  }

  lemma Distrib(a: int, b: int, c: int)
    ensures a * (b + c) == a * b + a * c
  {
  }

  /** A positive product has positive factors once one is known not to be negative. */
  lemma FactorPos(g: nat, k: int)
    requires g * k > 0
    ensures g > 0 && k > 0
  {
    if k <= 0 {
      MulMono(g, k, 0);
    }
  }

  lemma DivisorOfOne(d: nat, k: int)
    requires d * k == 1
    ensures d == 1
  {
    FactorPos(d, k);
    MulMono(d, 1, k);
  }

  lemma DivUnique(n: nat, d: nat, q: int, r: nat)
    requires r < d && n == d * q + r
    ensures n / d == q && n % d == r
  {
    var q' := n / d;
    assert n == d * q' + n % d;
    Distrib(d, q, 1);
    Distrib(d, q', 1);
    MulCancelLt(d, q, q' + 1);
    MulCancelLt(d, q', q + 1);
  }

  lemma DivTwice(n: nat, d: nat, e: nat)
    requires d > 0 && e > 0
    ensures d * e > 0 && n / d / e == n / (d * e)
  {
    var q, r := n / d, n % d;
    var s, t := q / e, q % e;
    MulPos(d, e);
    assert n == d * q + r && q == e * s + t;
    assert n == (d * e) * s + (d * t + r) by {
      Distrib(d, e * s, t);
      MulAssoc(d, e, s);
    }
    assert 0 <= d * t + r < d * e by {
      MulMono(d, t + 1, e);
      Distrib(d, t, 1);
      MulMono(d, 0, t);
    }
    DivUnique(n, d * e, s, d * t + r);
  }

  lemma DivScaled(g: nat, p: nat, q: nat)
    requires g > 0 && q > 0
    ensures g * q > 0 && (g * p) / (g * q) == p / q
  {
    var s, r := p / q, p % q;
    MulPos(g, q);
    assert g * p == (g * q) * s + g * r by {
      Distrib(g, q * s, r);
      MulAssoc(g, q, s);
    }
    assert 0 <= g * r < g * q by {
      MulMono(g, r + 1, q);
      Distrib(g, r, 1);
      MulMono(g, 0, r);
    }
    DivUnique(g * p, g * q, s, g * r);
  }

  lemma DivMonotone(n: nat, m: nat, d: nat)
    requires n <= m && d > 0
    ensures n / d <= m / d
  {
    var q, q' := n / d, m / d;
    assert d * q <= n && m < d * q' + d;
    Distrib(d, q', 1);
    MulCancelLt(d, q, q' + 1);
  }

  // ---------------------------------------------------------------------
  // Greatest common divisors
  // ---------------------------------------------------------------------

  function Gcd(a: nat, b: nat): nat
    decreases b
  {
    if b == 0 then a else Gcd(b, a % b)
  }

  function Combination(a: int, x: int, b: int, y: int): int {
    a * x + b * y
  }

  /** Some integer combination of a and b is one: they share no factor. */
  ghost predicate Coprime(a: int, b: int) {
    exists x: int, y: int :: Combination(a, x, b, y) == 1
  }

  /** The gcd is an integer combination of its arguments. */
  lemma {:induction false} Bezout(a: nat, b: nat) returns (x: int, y: int)
    ensures Combination(a, x, b, y) == Gcd(a, b)
    decreases b
  {
    if b == 0 {
      x, y := 1, 0;
    } else {
      var p, q := Bezout(b, a % b);
      var k := a / b;
      x, y := q, p - k * q;
      BezoutStep(a, b, k, a % b, p, q);
    }
  }

  lemma BezoutStep(a: int, b: int, k: int, r: int, p: int, q: int)
    requires a == b * k + r
    ensures Combination(a, q, b, p - k * q) == Combination(b, p, r, q)
  {
    Distrib(q, b * k, r);
    Distrib(b, p, -(k * q));
    MulSwap(b, k, q);
    assert q * (b * k) == b * (k * q) by {
      MulSwap(q, b, k);
      assert q * k == k * q;
    }
  }

  /** One step of the algorithm. */
  lemma Euclid(a: nat, b: nat) returns (n: nat, r: nat)
    requires b > 0
    ensures a == b * n + r && r < b && Gcd(a, b) == Gcd(b, r)
  {
    n, r := a / b, a % b;
  }

  lemma {:induction false} GcdDivides(a: nat, b: nat) returns (k: nat, l: nat)
    requires a > 0 || b > 0
    ensures Gcd(a, b) > 0
    ensures a == Gcd(a, b) * k && b == Gcd(a, b) * l
    decreases b
  {
    if b == 0 {
      k, l := 1, 0;
    } else {
      var n, r := Euclid(a, b);
      var p, q := GcdDivides(b, r);
      k, l := DividesStep(Gcd(b, r), n, p, q, a, b);
    }
  }

  lemma DividesStep(g: nat, n: nat, p: nat, q: nat, a: nat, b: nat) returns (k: nat, l: nat)
    requires a == b * n + g * q && b == g * p
    ensures a == g * k && b == g * l
  {
    Distrib(g, n * p, q);
    MulSwap(g, n, p);
    assert b * n == n * (g * p);
    MulMono(n, 0, p);
    k, l := n * p + q, p;
  }

  lemma GcdPositive(a: nat, b: nat) returns (k: nat, l: nat)
    requires a > 0 && b > 0
    ensures 0 < Gcd(a, b) <= a
    ensures k > 0 && l > 0 && a == Gcd(a, b) * k && b == Gcd(a, b) * l
  {
    k, l := GcdDivides(a, b);
    FactorPos(Gcd(a, b), k);
    FactorPos(Gcd(a, b), l);
    MulMono(Gcd(a, b), 1, k);
  }

  lemma CombinationScaled(g: int, p: int, x: int, q: int, y: int)
    ensures Combination(g * p, x, g * q, y) == g * Combination(p, x, q, y)
  {
    MulAssoc(g, p, x);
    MulAssoc(g, q, y);
    Distrib(g, p * x, q * y);
  }

  lemma GcdCoprime(a: nat, b: nat)
    requires Gcd(a, b) == 1
    ensures Coprime(a, b)
  {
    var x, y := Bezout(a, b);
  }

  lemma CoprimeSymmetric(a: int, b: int)
    requires Coprime(a, b)
    ensures Coprime(b, a)
  {
    var x, y :| Combination(a, x, b, y) == 1;
    assert Combination(b, y, a, x) == 1;
  }

  /** Dividing one side keeps a pair coprime. */
  lemma CoprimeDivisor(h: int, a: int, d: int)
    requires Coprime(h * a, d)
    ensures Coprime(a, d)
  {
    var x, y :| Combination(h * a, x, d, y) == 1;
    assert Combination(a, h * x, d, y) == 1 by {
      MulSwap(a, h, x);
      MulAssoc(h, a, x);
    }
  }

  lemma CoprimeDivisorRight(h: int, a: int, d: int)
    requires Coprime(a, h * d)
    ensures Coprime(a, d)
  {
    CoprimeSymmetric(a, h * d);
    CoprimeDivisor(h, d, a);
    CoprimeSymmetric(d, a);
  }

  /** A product of numbers coprime to d is coprime to d. */
  lemma CoprimeProduct(a: int, b: int, d: int)
    requires Coprime(a, d) && Coprime(b, d)
    ensures Coprime(a * b, d)
  {
    var x, y :| Combination(a, x, d, y) == 1;
    var u, v :| Combination(b, u, d, v) == 1;
    ProductCombination(a, b, d, x, y, u, v);
    assert Combination(a * b, x * u, d, a * x * v + y) == 1;
  }

  lemma ProductCombination(a: int, b: int, d: int, x: int, y: int, u: int, v: int)
    requires a * x + d * y == 1 && b * u + d * v == 1
    ensures (a * b) * (x * u) + d * (a * x * v + y) == 1
  {
    var s := a * x;
    assert (a * b) * (x * u) == s * (b * u);
    assert d * (s * v + y) == s * (d * v) + d * y;
    assert s * (b * u) + s * (d * v) == s * (b * u + d * v) == s;
  }

  /** Scaling a coprime pair by g gives it gcd g. */
  lemma GcdOfScaled(g: nat, p: nat, q: nat)
    requires g > 0 && g * q > 0 && Coprime(p, q)
    ensures Gcd(g * p, g * q) == g
  {
    var k, l := GcdDivides(g * p, g * q);
    var G := Gcd(g * p, g * q);
    var x, y :| Combination(p, x, q, y) == 1;
    CombinationScaled(g, p, x, q, y);
    CombinationScaled(G, k, x, l, y);
    var m := Combination(k, x, l, y);
    assert g == G * m;
    var u, v := Bezout(g * p, g * q);
    CombinationScaled(g, p, u, q, v);
    var n := Combination(p, u, q, v);
    assert G == g * n;
    MulAssoc(g, n, m);
    MulCancel(g, 1, n * m);
    FactorPos(g, n);
    DivisorOfOne(n, m);
  }

  lemma QuotientsCoprime(a: nat, b: nat, k: nat, l: nat)
    requires Gcd(a, b) > 0 && a == Gcd(a, b) * k && b == Gcd(a, b) * l
    ensures Coprime(k, l)
  {
    var g := Gcd(a, b);
    var x, y := Bezout(a, b);
    CombinationScaled(g, k, x, l, y);
    MulCancel(g, Combination(k, x, l, y), 1);
  }
}
