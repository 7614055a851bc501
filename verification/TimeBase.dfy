/** Media time: rational time bases and the overflow-checked rescale of `av/types.go`. */
module TimeBase {
  import opened Basics
  import opened Arith

  const MAX_INT64: int := 0x7fff_ffff_ffff_ffff
  const MIN_INT64: int := -0x8000_0000_0000_0000

  /** A 64-bit machine integer: every assignment to one is checked to fit. */
  type int64 = x: int | MIN_INT64 <= x <= MAX_INT64

  const SECOND: int64 := 1_000_000_000

  datatype Base = Base(num: int64, den: int64) {
    predicate Valid() {
      num > 0 && den > 0
    }
  }

  datatype Timestamp = Timestamp(value: int64, base: Base)

  datatype MediaDuration = MediaDuration(value: int64, base: Base)

  const NANOSECONDS := Base(1, SECOND)

  function Abs(x: int): nat {
    if x < 0 then -x else x
  }

  // ---------------------------------------------------------------------
  // The reference: one exact fraction, reduced once
  // ---------------------------------------------------------------------

  function Numerator(value: int64, from: Base, to: Base): nat
    requires from.Valid() && to.Valid()
  {
    MulMono(from.num, 0, Abs(value));
    MulMono(to.den, 0, Abs(value) * from.num);
    Abs(value) * from.num * to.den
  }

  function Denominator(from: Base, to: Base): (d: nat)
    requires from.Valid() && to.Valid()
    ensures d > 0
  {
    MulPos(from.den, to.num);
    from.den * to.num
  }

  /** The numerator of the exact quotient |value| * from / to in lowest terms. */
  function LowestNumerator(value: int64, from: Base, to: Base): nat
    requires from.Valid() && to.Valid()
  {
    var n, d := Numerator(value, from, to), Denominator(from, to);
    GcdNotZero(n, d);
    n / Gcd(n, d)
  }

  /** The exact quotient, truncated. */
  function Quotient(value: int64, from: Base, to: Base): nat
    requires from.Valid() && to.Valid()
  {
    Numerator(value, from, to) / Denominator(from, to)
  }

  lemma GcdNotZero(n: nat, d: nat)
    requires d > 0
    ensures Gcd(n, d) > 0
  {
    var k, l := GcdDivides(n, d);
  }

  predicate Rescalable(value: int64, from: Base, to: Base) {
    from.Valid() && to.Valid() && value != MIN_INT64 && LowestNumerator(value, from, to) <= MAX_INT64
  }

  /** The exact quotient truncated toward zero, when its reduced numerator fits. */
  function Rescaled(value: int64, from: Base, to: Base): (r: Option<int64>)
    ensures r.Some? <==> Rescalable(value, from, to)
    ensures r.Some? ==> r.value != MIN_INT64
  {
    if !Rescalable(value, from, to) then None else
      var q: int := Quotient(value, from, to);
      QuotientFits(value, from, to);
      Some(if value < 0 then -q else q)
  }

  lemma QuotientFits(value: int64, from: Base, to: Base)
    requires Rescalable(value, from, to)
    ensures Quotient(value, from, to) <= MAX_INT64
  {
    QuotientBelowLowest(Numerator(value, from, to), Denominator(from, to));
  }

  lemma QuotientBelowLowest(n: nat, d: nat)
    requires d > 0
    ensures Gcd(n, d) > 0 && n / d <= n / Gcd(n, d)
  {
    var k, l := GcdDivides(n, d);
    var g := Gcd(n, d);
    FactorPos(g, l);
    DivScaled(g, k, l);
    DivUnique(n, g, k, 0);
    DivAtMost(k, l);
  }

  lemma DivAtMost(k: nat, l: nat)
    requires l > 0
    ensures k / l <= k
  {
    MulMono(k / l, 1, l);
    assert k == l * (k / l) + k % l;
  }

  /** r is value * from / to truncated toward zero, cross-multiplied, with the sign of value. */
  ghost predicate Truncates(r: int, value: int, from: Base, to: Base) {
    && Abs(r) * to.num * from.den <= Abs(value) * from.num * to.den < (Abs(r) + 1) * to.num * from.den
    && (value >= 0 ==> r >= 0) && (value <= 0 ==> r <= 0)
  }

  /** n/d is |value| * from / to in lowest terms. */
  ghost predicate InLowestTerms(n: nat, d: nat, value: int, from: Base, to: Base) {
    d > 0 && Coprime(n, d) && n * from.den * to.num == d * Abs(value) * from.num * to.den
  }

  lemma RescaledTruncates(value: int64, from: Base, to: Base)
    requires Rescaled(value, from, to).Some?
    ensures Truncates(Rescaled(value, from, to).value, value, from, to)
  {
    var n, d: int, q: int := Numerator(value, from, to), Denominator(from, to), Quotient(value, from, to);
    assert n == d * q + n % d;
    Distrib(d, q, 1);
    assert q * to.num * from.den == d * q by {
      MulAssoc(q, to.num, from.den);
    }
    assert (q + 1) * to.num * from.den == d * (q + 1) by {
      MulAssoc(q + 1, to.num, from.den);
    }
  }

  /** Two coprime pairs with equal cross products have equal numerators. */
  lemma SameLowest(n: nat, d: int, k: nat, l: int)
    requires Coprime(n, d) && Coprime(k, l) && n * l == d * k
    ensures n == k
  {
    var x, y :| Combination(n, x, d, y) == 1;
    var x', y' :| Combination(k, x', l, y') == 1;
    MultipleByBezout(n, d, k, l, x, y);
    MultipleByBezout(k, l, n, d, x', y');
    DivideEachOther(n, k, Combination(k, x, l, y), Combination(n, x', d, y'));
  }

  lemma MultipleByBezout(n: int, d: int, k: int, l: int, x: int, y: int)
    requires Combination(n, x, d, y) == 1 && n * l == d * k
    ensures k == n * Combination(k, x, l, y)
  {
    Distrib(k, n * x, d * y);
    assert k * (n * x) == n * (k * x);
    assert k * (d * y) == (d * k) * y == (n * l) * y == n * (l * y);
    Distrib(n, k * x, l * y);
  }

  lemma DivideEachOther(n: nat, k: nat, w: int, u: int)
    requires k == n * w && n == k * u
    ensures n == k
  {
    if k > 0 && n > 0 {
      FactorPos(n, w);
      FactorPos(k, u);
      MulMono(n, 1, w);
      MulMono(k, 1, u);
    }
  }

  /** The rescale is refused exactly when that numerator is too large. */
  lemma RescaledIffFits(value: int64, from: Base, to: Base, n: nat, d: nat)
    requires from.Valid() && to.Valid() && value != MIN_INT64 && InLowestTerms(n, d, value, from, to)
    ensures Rescaled(value, from, to).Some? <==> n <= MAX_INT64
  {
    var N, D := Numerator(value, from, to), Denominator(from, to);
    var k, l := GcdDivides(N, D);
    var g := Gcd(N, D);
    QuotientsCoprime(N, D, k, l);
    DivUnique(N, g, k, 0);
    CrossCancel(n, d, N, D, g, k, l, Abs(value), from, to);
    SameLowest(n, d, k, l);
  }

  lemma CrossCancel(n: int, d: int, N: int, D: int, g: int, k: int, l: int, v: int, from: Base, to: Base)
    requires g > 0 && N == v * from.num * to.den == g * k && D == from.den * to.num == g * l
    requires n * from.den * to.num == d * v * from.num * to.den
    ensures n * l == d * k
  {
    assert n * D == d * N by {
      MulAssoc(n, from.den, to.num);
      CrossProducts(d, v, from.num, to.den);
    }
    assert n * (g * l) == g * (n * l) && d * (g * k) == g * (d * k);
    MulCancel(g, n * l, d * k);
  }

  lemma CrossProducts(d: int, v: int, a: int, b: int)
    ensures d * v * a * b == d * (v * a * b)
  {
    MulAssoc(d, v, a);
    MulAssoc(d, v * a, b);
  }

  // ---------------------------------------------------------------------
  // The code: six pairwise reductions and two checked products
  // ---------------------------------------------------------------------

  /** Go's `%`: the remainder takes the sign of the dividend. */
  function Rem(a: int, b: int): (r: int)
    requires b != 0
    ensures Abs(r) == Abs(a) % Abs(b)
  {
    if a < 0 then -(Abs(a) % Abs(b)) else a % Abs(b)
  }

  method GcdInt64(a0: int64, b0: int64) returns (g: int64)
    ensures Gcd(Abs(a0), Abs(b0)) <= MAX_INT64 ==> g == Gcd(Abs(a0), Abs(b0))
  {
    var a: int64, b: int64 := a0, b0;
    while b != 0
      invariant Gcd(Abs(a), Abs(b)) == Gcd(Abs(a0), Abs(b0))
      decreases Abs(b)
    {
      a, b := b, Rem(a, b);
    }
    if a < 0 {
      // negating the smallest integer wraps to itself
      g := if a == MIN_INT64 then MIN_INT64 else -a;
    } else {
      g := a;
    }
  }

  /** Both numbers lose the same factor h. */
  ghost predicate ReducedBy(h: nat, a: int, b: int, a': int, b': int) {
    h > 0 && a == h * a' && b == h * b'
  }

  method ReducePair(a: int64, b: int64) returns (a': int64, b': int64, ghost h: nat)
    requires a > 0 && b > 0
    ensures a' > 0 && b' > 0
    ensures ReducedBy(h, a, b, a', b')
    ensures Coprime(a', b')
  {
    ghost var k, l := GcdPositive(a, b);
    var g := GcdInt64(a, b);
    if g <= 1 {
      GcdCoprime(a, b);
      a', b', h := a, b, 1;
      return;
    }
    DivUnique(a, g, k, 0);
    DivUnique(b, g, l, 0);
    MulMono(k, 1, g);
    MulMono(l, 1, g);
    QuotientsCoprime(a, b, k, l);
    a', b', h := a / g, b / g, g;
  }

  method CheckedMul(a: int64, b: int64) returns (r: Option<int64>)
    requires a >= 0 && b >= 0
    ensures r == if a * b <= MAX_INT64 then Some(a * b) else None
  {
    if a == 0 || b == 0 {
      return Some(0);
    }
    ghost var q := MAX_INT64 / b;
    assert b * q <= MAX_INT64 < b * q + b;
    Distrib(b, q, 1);
    if a > MAX_INT64 / b {
      MulMono(b, q + 1, a);
      return None;
    }
    MulMono(b, a, q);
    MulPos(a, b);
    r := Some(a * b);
  }

  /** A fraction P/Q written with the common factor g: numerator a*x, denominator d*z. */
  ghost predicate Fraction(P: int, Q: int, g: int, a: int, x: int, d: int, z: int) {
    g > 0 && P == g * (a * x) && Q == g * (d * z)
  }

  lemma FactorOut(P: int, Q: int, g: int, h: nat, a: int, x: int, d: int, z: int, a': int, d': int)
    requires Fraction(P, Q, g, a, x, d, z) && ReducedBy(h, a, d, a', d')
    ensures Fraction(P, Q, g * h, a', x, d', z)
  {
    MulPos(g, h);
    MulAssoc(h, a', x);
    MulAssoc(g, h, a' * x);
    MulAssoc(h, d', z);
    MulAssoc(g, h, d' * z);
  }

  lemma FractionTurn(P: int, Q: int, g: int, a: int, b: int, c: int, d: int, e: int)
    requires Fraction(P, Q, g, a, b * c, d, e)
    ensures Fraction(P, Q, g, a, b * c, e, d)
    ensures Fraction(P, Q, g, b, a * c, d, e)
    ensures Fraction(P, Q, g, b, a * c, e, d)
    ensures Fraction(P, Q, g, c, a * b, d, e)
  {
    MulSwap(a, b, c);
    assert a * (b * c) == c * (a * b);
  }

  /** One numerator factor reduced against both denominator factors. */
  method ReduceAgainst(a: int64, d: int64, e: int64, ghost P: int, ghost Q: int, ghost g: int, ghost b: int, ghost c: int)
    returns (a': int64, d': int64, e': int64, ghost g': int, ghost h: nat, ghost k: nat)
    requires a > 0 && d > 0 && e > 0
    requires Fraction(P, Q, g, a, b * c, d, e)
    ensures a' > 0 && d' > 0 && e' > 0
    ensures Fraction(P, Q, g', a', b * c, d', e')
    ensures Coprime(a', d') && Coprime(a', e')
    ensures d == h * d' && e == k * e'
  {
    var a1;
    a1, d', h := ReducePair(a, d);
    FactorOut(P, Q, g, h, a, b * c, d, e, a1, d');
    FractionTurn(P, Q, g * h, a1, b, c, d', e);
    a', e', k := ReducePair(a1, e);
    FactorOut(P, Q, g * h, k, a1, b * c, e, d', a', e');
    FractionTurn(P, Q, g * h * k, a', b, c, e', d');
    CoprimeDivisor(k, a', d');
    g' := g * h * k;
  }

  /** The six `reducePair` calls: the fraction is unchanged and ends in lowest terms. */
  method ReduceAll(a: int64, b: int64, c: int64, d: int64, e: int64)
    returns (a': int64, b': int64, c': int64, d': int64, e': int64, ghost g: nat)
    requires a > 0 && b > 0 && c > 0 && d > 0 && e > 0
    ensures a' > 0 && b' > 0 && c' > 0 && d' > 0 && e' > 0
    ensures Fraction(a * b * c, d * e, g, a' * b', c', d', e')
    ensures Coprime(a' * b' * c', d' * e')
  {
    ghost var P, Q := a * b * c, d * e;
    assert Fraction(P, Q, 1, a, b * c, d, e) by {
      MulAssoc(a, b, c);
    }
    var d1, e1, d2, e2;
    ghost var g1, h, k;
    a', d1, e1, g1, h, k := ReduceAgainst(a, d, e, P, Q, 1, b, c);
    FractionTurn(P, Q, g1, a', b, c, d1, e1);
    b', d2, e2, g1, h, k := ReduceAgainst(b, d1, e1, P, Q, g1, a', c);
    CoprimeDivisorRight(h, a', d2);
    CoprimeDivisorRight(k, a', e2);
    FractionTurn(P, Q, g1, b', a', c, d2, e2);
    assert b' * a' == a' * b';
    ghost var g2;
    c', d', e', g2, h, k := ReduceAgainst(c, d2, e2, P, Q, g1, a', b');
    g := g2;
    CoprimeDivisorRight(h, a', d');
    CoprimeDivisorRight(h, b', d');
    CoprimeDivisorRight(k, a', e');
    CoprimeDivisorRight(k, b', e');
    AllCoprime(a', b', c', d', e');
  }

  lemma AllCoprime(a: int, b: int, c: int, d: int, e: int)
    requires Coprime(a, d) && Coprime(b, d) && Coprime(c, d)
    requires Coprime(a, e) && Coprime(b, e) && Coprime(c, e)
    ensures Coprime(a * b * c, d * e)
  {
    CoprimeProduct(a, b, d);
    CoprimeProduct(a * b, c, d);
    CoprimeProduct(a, b, e);
    CoprimeProduct(a * b, c, e);
    CoprimeSymmetric(a * b * c, d);
    CoprimeSymmetric(a * b * c, e);
    CoprimeProduct(d, e, a * b * c);
    CoprimeSymmetric(d * e, a * b * c);
  }

  /** A coprime form of the fraction gives both the reduced numerator and the quotient. */
  lemma LowestForm(value: int64, from: Base, to: Base, g: nat, n: nat, d: nat, e: nat)
    requires from.Valid() && to.Valid() && g > 0 && d > 0 && e > 0
    requires Numerator(value, from, to) == g * n && Denominator(from, to) == g * (d * e)
    requires Coprime(n, d * e)
    ensures LowestNumerator(value, from, to) == n
    ensures Quotient(value, from, to) == n / d / e
  {
    MulPos(d, e);
    GcdOfScaled(g, n, d * e);
    DivUnique(g * n, g, n, 0);
    DivScaled(g, n, d * e);
    DivTwice(n, d, e);
  }

  lemma RescaledIs(value: int64, from: Base, to: Base, g: nat, a: nat, b: nat, c: nat, d: nat, e: nat)
    requires from.Valid() && to.Valid() && value != MIN_INT64 && d > 0 && e > 0
    requires Fraction(Numerator(value, from, to), Denominator(from, to), g, a * b, c, d, e)
    requires a * b * c > 0 && Coprime(a * b * c, d * e)
    ensures Rescaled(value, from, to).Some? <==> a * b * c <= MAX_INT64
    ensures a * b * c <= MAX_INT64 ==>
              Rescaled(value, from, to).value == if value < 0 then -(a * b * c / d / e) else a * b * c / d / e
  {
    LowestForm(value, from, to, g, a * b * c, d, e);
  }

  /** `RescaleValue`: exact, and refused exactly when the reduced numerator does not fit. */
  method RescaleValue(value: int64, from: Base, to: Base) returns (r: Option<int64>)
    ensures r == Rescaled(value, from, to)
    ensures r.Some? ==> from.Valid() && to.Valid() && value != MIN_INT64 && Truncates(r.value, value, from, to)
    ensures from.Valid() && to.Valid() && value != MIN_INT64 ==>
      forall n: nat, d: nat :: InLowestTerms(n, d, value, from, to) ==> (r.Some? <==> n <= MAX_INT64)
  {
    r := RescaleExactly(value, from, to);
    if r.Some? {
      RescaledTruncates(value, from, to);
    }
    if from.Valid() && to.Valid() && value != MIN_INT64 {
      forall n: nat, d: nat | InLowestTerms(n, d, value, from, to)
        ensures r.Some? <==> n <= MAX_INT64
      {
        RescaledIffFits(value, from, to, n, d);
      }
    }
  }

  /** Its body, against the reference fraction. */
  method RescaleExactly(value: int64, from: Base, to: Base) returns (r: Option<int64>)
    ensures r == Rescaled(value, from, to)
  {
    if !from.Valid() || !to.Valid() {
      return None;
    }
    if value == 0 {
      ZeroRescales(from, to);
      return Some(0);
    }
    var negative := value < 0;
    if negative && value == MIN_INT64 {
      return None;
    }
    var magnitude: int64 := if negative then -value else value;
    var a, b, c, d, e, g := ReduceAll(magnitude, from.num, to.den, from.den, to.num);
    var quotient := CheckedQuotient(a, b, c, d, e);
    RescaledIs(value, from, to, g, a, b, c, d, e);
    if quotient.None? {
      return None;
    }
    r := Some(if negative then -quotient.value else quotient.value);
  }

  /** The two checked products and the two divisions that end `RescaleValue`. */
  method CheckedQuotient(a: int64, b: int64, c: int64, d: int64, e: int64) returns (r: Option<int64>)
    requires a > 0 && b > 0 && c > 0 && d > 0 && e > 0
    ensures a * b * c > 0
    ensures r == if a * b * c <= MAX_INT64 then Some(a * b * c / d / e) else None
    ensures r.Some? ==> 0 <= r.value
  {
    MulPos(a, b);
    MulPos(a * b, c);
    var product := CheckedMul(a, b);
    if product.None? {
      MulMono(a * b, 1, c);
      return None;
    }
    var numerator := CheckedMul(product.value, c);
    if numerator.None? {
      return None;
    }
    DivAtMost(numerator.value, d);
    DivAtMost(numerator.value / d, e);
    r := Some(numerator.value / d / e);
  }

  lemma ZeroRescales(from: Base, to: Base)
    requires from.Valid() && to.Valid()
    ensures Rescaled(0, from, to) == Some(0)
  {
    var d := Denominator(from, to);
    assert Numerator(0, from, to) == 0;
    GcdNotZero(0, d);
    DivUnique(0, Gcd(0, d), 0, 0);
    DivUnique(0, d, 0, 0);
  }

  // ---------------------------------------------------------------------
  // Laws of rescaling
  // ---------------------------------------------------------------------

  /** Rescaling is odd: a negated value rescales to the negated result, or both are refused. */
  lemma RescaleOdd(value: int64, from: Base, to: Base)
    requires value != MIN_INT64
    ensures Rescaled(-value, from, to)
            == match Rescaled(value, from, to) case None => None case Some(v) => Some(-v)
  {
    if from.Valid() && to.Valid() {
      assert Numerator(-value, from, to) == Numerator(value, from, to);
      if value == 0 {
        ZeroRescales(from, to);
      }
    }
  }

  /** Rescaling is monotone on the values it accepts. */
  lemma RescaleMonotone(v: int64, w: int64, from: Base, to: Base)
    requires v <= w
    requires Rescalable(v, from, to) && Rescalable(w, from, to)
    ensures Rescaled(v, from, to).value <= Rescaled(w, from, to).value
  {
    var q: int, q': int := Quotient(v, from, to), Quotient(w, from, to);
    QuotientMonotone(v, w, from, to);
    QuotientMonotone(w, v, from, to);
    assert Rescaled(v, from, to).value == if v < 0 then -q else q;
    assert Rescaled(w, from, to).value == if w < 0 then -q' else q';
  }

  lemma QuotientMonotone(v: int64, w: int64, from: Base, to: Base)
    requires from.Valid() && to.Valid()
    ensures Abs(v) <= Abs(w) ==> Quotient(v, from, to) <= Quotient(w, from, to)
  {
    if Abs(v) <= Abs(w) {
      NumeratorMonotone(v, w, from, to);
      DivMonotone(Numerator(v, from, to), Numerator(w, from, to), Denominator(from, to));
    }
  }

  lemma NumeratorMonotone(v: int64, w: int64, from: Base, to: Base)
    requires from.Valid() && to.Valid() && Abs(v) <= Abs(w)
    ensures Numerator(v, from, to) <= Numerator(w, from, to)
  {
    MulMono(from.num, Abs(v), Abs(w));
    MulMono(to.den, Abs(v) * from.num, Abs(w) * from.num);
  }

  ghost predicate RescalesExactly(value: int64, from: Base, to: Base) {
    Rescalable(value, from, to) && Numerator(value, from, to) % Denominator(from, to) == 0
  }

  /** A rescale that loses nothing is undone by the reverse rescale. */
  lemma RescaleRoundTrip(value: int64, from: Base, to: Base)
    requires RescalesExactly(value, from, to)
    ensures Rescaled(Rescaled(value, from, to).value, to, from) == Some(value)
  {
    var d := Denominator(from, to);
    var q := Numerator(value, from, to) / d;
    var r := Rescaled(value, from, to).value;
    var d' := Denominator(to, from);
    assert Numerator(value, from, to) == d * q;
    ReverseNumerator(Abs(value), from.num, from.den, to.num, to.den, q);
    assert Numerator(r, to, from) == d' * Abs(value);
    IntegerLowest(d', Abs(value));
    if r == 0 {
      assert Numerator(r, to, from) == 0;
      ZeroProduct(d', Abs(value));
    }
  }

  lemma ReverseNumerator(v: nat, fn: int, fd: int, tn: int, td: int, q: nat)
    requires v * fn * td == (fd * tn) * q
    ensures q * tn * fd == (td * fn) * v
  {
    assert q * tn * fd == (fd * tn) * q by {
      MulAssoc(q, tn, fd);
    }
    assert v * fn * td == (td * fn) * v by {
      MulAssoc(v, fn, td);
    }
  }

  lemma ZeroProduct(d: nat, v: nat)
    requires d > 0 && d * v == 0
    ensures v == 0
  {
    MulCancel(d, v, 0);
  }

  lemma IntegerLowest(d: nat, v: nat)
    requires d > 0
    ensures Gcd(d * v, d) == d && (d * v) / d == v
  {
    assert Combination(v, 0, 1, 1) == 1;
    assert d * 1 == d;
    GcdOfScaled(d, v, 1);
    DivUnique(d * v, d, v, 0);
  }

  // ---------------------------------------------------------------------
  // Conversions the join reads
  // ---------------------------------------------------------------------

  function TimestampNS(t: Timestamp): Option<int64> {
    Rescaled(t.value, t.base, NANOSECONDS)
  }

  function DurationNS(d: MediaDuration): Option<int64> {
    Rescaled(d.value, d.base, NANOSECONDS)
  }

  method CheckedSub(a: int64, b: int64) returns (r: Option<int64>)
    ensures r == if MIN_INT64 <= a - b <= MAX_INT64 then Some(a - b) else None
  {
    if b > 0 && a < MIN_INT64 + b {
      return None;
    }
    if b < 0 && a > MAX_INT64 + b {
      return None;
    }
    r := Some(a - b);
  }

  /** `Timestamp.Sub`: the difference in t's base, refused when either step does not fit. */
  method Sub(t: Timestamp, previous: Timestamp) returns (r: Option<MediaDuration>)
    ensures r.Some? <==> (
              && Rescalable(previous.value, previous.base, t.base)
              && MIN_INT64 <= t.value - Rescaled(previous.value, previous.base, t.base).value <= MAX_INT64)
    ensures r.Some? ==> (
              && r.value.base == t.base
              && r.value.value + Rescaled(previous.value, previous.base, t.base).value == t.value)
  {
    var value := RescaleValue(previous.value, previous.base, t.base);
    if value.None? {
      return None;
    }
    var delta := CheckedSub(t.value, value.value);
    if delta.None? {
      return None;
    }
    r := Some(MediaDuration(delta.value, t.base));
  }
}
