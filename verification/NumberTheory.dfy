/** Divisibility, greatest common divisors and primes, over the mathematical integers. */
module NumberTheory {
  import opened Arith

  predicate Divides(d: nat, n: int)
    requires d > 0
  {
    n % d == 0
  }

  lemma Multiple(d: nat, k: int)
    requires d > 0
    ensures Divides(d, k * d) && Divides(d, d * k)
  {
    ModMultiple(k, d);
    assert k * d == d * k;
  }

  lemma Quotient(d: nat, n: int) returns (k: int)
    requires d > 0 && Divides(d, n)
    ensures n == k * d && k == n / d
  {
    k := n / d;
    DivModBasic(n, d);
  }

  lemma Factor(d: nat, n: int) returns (k: int)
    requires d > 0 && Divides(d, n)
    ensures n == k * d
  {
    k := Quotient(d, n);
  }

  lemma DividesSum(d: nat, a: int, b: int)
    requires d > 0 && Divides(d, a) && Divides(d, b)
    ensures Divides(d, a + b) && Divides(d, a - b)
  {
    var k := Quotient(d, a);
    var l := Quotient(d, b);
    Distribute(k, l, d);
    Multiple(d, k + l);
    Multiple(d, k - l);
  }

  lemma DividesTimes(d: nat, a: int, m: int)
    requires d > 0 && Divides(d, a)
    ensures Divides(d, m * a) && Divides(d, a * m)
  {
    var k := Quotient(d, a);
    assert m * a == (m * k) * d && a * m == m * a;
    Multiple(d, m * k);
  }

  lemma DividesTransitive(d: nat, e: nat, n: int)
    requires d > 0 && e > 0 && Divides(d, e) && Divides(e, n)
    ensures Divides(d, n)
  {
    var k := Quotient(e, n);
    DividesTimes(d, e, k);
  }

  /** Both sides may be multiplied by the same number, and cancelled. */
  lemma DividesScaled(d: nat, n: int, m: nat)
    requires d > 0 && m > 0
    ensures d * m > 0 && (Divides(d, n) <==> Divides(d * m, n * m))
  {
    MulLe(1, d, m);
    if Divides(d, n) {
      var k := Quotient(d, n);
      assert n * m == k * (d * m);
      Multiple(d * m, k);
    }
    if Divides(d * m, n * m) {
      var k := Quotient(d * m, n * m);
      Cancel(n, k * d, m);
      Multiple(d, k);
    }
  }

  lemma Cancel(a: int, b: int, m: int)
    requires m != 0 && a * m == b * m
    ensures a == b
  {
    Distribute(a, b, m);
  }

  lemma DivisorIsSmaller(d: nat, n: nat)
    requires d > 0 && n > 0 && Divides(d, n)
    ensures d <= n
  {
    var k := Quotient(d, n);
    if k <= 0 { MulLe(k, 0, d); }
    MulLe(1, k, d);
  }

  // ------------------------------------------------------------ greatest common divisor

  function Gcd(a: nat, b: nat): nat
    decreases b
  {
    if b == 0 then a else Gcd(b, a % b)
  }

  lemma {:induction false} Bezout(a: nat, b: nat) returns (s: int, t: int)
    ensures s * a + t * b == Gcd(a, b)
    decreases b
  {
    if b == 0 {
      s, t := 1, 0;
    } else {
      var s', t' := Bezout(b, a % b);
      s, t := t', s' - t' * (a / b);
      DivModBasic(a, b);
      assert t' * (a / b * b) == t' * (a / b) * b;
      assert t' * (a % b) == t' * a - t' * (a / b * b);
      Distribute(s', t' * (a / b), b);
    }
  }

  lemma {:induction false} GcdDivides(a: nat, b: nat)
    requires a > 0 || b > 0
    ensures Gcd(a, b) > 0 && Divides(Gcd(a, b), a) && Divides(Gcd(a, b), b)
    decreases b
  {
    if b == 0 {
      Multiple(a, 1);
      Multiple(a, 0);
    } else {
      GcdDivides(b, a % b);
      var g := Gcd(a, b);
      DividesTimes(g, b, a / b);
      DivModBasic(a, b);
      DividesSum(g, a / b * b, a % b);
    }
  }

  predicate Coprime(a: nat, b: nat) {
    Gcd(a, b) == 1
  }

  lemma CoprimeFromBezout(a: nat, b: nat, s: int, t: int)
    requires s * a + t * b == 1
    ensures Coprime(a, b)
  {
    GcdDivides(a, b);
    var g := Gcd(a, b);
    DividesTimes(g, a, s);
    DividesTimes(g, b, t);
    DividesSum(g, s * a, t * b);
    DivisorIsSmaller(g, 1);
  }

  lemma CoprimeCommutes(a: nat, b: nat)
    requires Coprime(a, b)
    ensures Coprime(b, a)
  {
    var s, t := Bezout(a, b);
    CoprimeFromBezout(b, a, t, s);
  }

  lemma CoprimeProduct(a: nat, b: nat, x: nat)
    requires Coprime(a, x) && Coprime(b, x)
    ensures a * b >= 0 && Coprime(a * b, x)
  {
    MulLe(0, a, b);
    var s, t := Bezout(a, x);
    var s', t' := Bezout(b, x);
    ProductOfCombinations(a, b, x, s, t, s', t');
    CoprimeFromBezout(a * b, x, s * s', s * a * t' + t * (s' * b) + t * (t' * x));
  }

  lemma ProductOfCombinations(a: int, b: int, x: int, s: int, t: int, s': int, t': int)
    requires s * a + t * x == 1 && s' * b + t' * x == 1
    ensures (s * s') * (a * b) + (s * a * t' + t * (s' * b) + t * (t' * x)) * x == 1
  {
    var p, q, p', q' := s * a, t * x, s' * b, t' * x;
    assert (p + q) * (p' + q') == 1;
    assert (p + q) * (p' + q') == p * p' + p * q' + q * p' + q * q';
    assert p * p' == (s * s') * (a * b);
    assert p * q' == (s * a * t') * x;
    assert q * p' == (t * (s' * b)) * x;
    assert q * q' == (t * (t' * x)) * x;
    var u, v, w := s * a * t', t * (s' * b), t * (t' * x);
    assert (u + v + w) * x == u * x + v * x + w * x;
  }

  /** A divisor coprime to one factor divides the other. */
  lemma CoprimeCancels(d: nat, a: nat, b: int)
    requires d > 0 && Coprime(d, a) && Divides(d, a * b)
    ensures Divides(d, b)
  {
    var s, t := Bezout(d, a);
    assert b == b * (s * d + t * a);
    assert b * (s * d + t * a) == (b * s) * d + t * (a * b);
    Multiple(d, b * s);
    DividesTimes(d, a * b, t);
    DividesSum(d, (b * s) * d, t * (a * b));
  }

  /** Coprime divisors divide together. */
  lemma CoprimeDivisors(d: nat, e: nat, n: int)
    requires d > 0 && e > 0 && Coprime(d, e) && Divides(d, n) && Divides(e, n)
    ensures d * e > 0 && Divides(d * e, n)
  {
    var k := Quotient(e, n);
    assert k * e == e * k;
    CoprimeCancels(d, e, k);
    DividesScaled(d, k, e);
  }

  // ------------------------------------------------------------ primes

  predicate Prime(n: int) {
    n >= 2 && forall d :: 2 <= d < n ==> n % d != 0
  }

  lemma PrimeCoprime(p: nat, x: nat)
    requires Prime(p)
    ensures Coprime(p, x) <==> !Divides(p, x)
  {
    GcdDivides(p, x);
    var g := Gcd(p, x);
    DivisorIsSmaller(g, p);
    if g == 1 && Divides(p, x) {
      var s, t := Bezout(p, x);
      Multiple(p, s);
      DividesTimes(p, x, t);
      DividesSum(p, s * p, t * x);
      DivisorIsSmaller(p, 1);
    }
  }

  /** Euclid's lemma. */
  lemma PrimeDividesProduct(p: nat, a: nat, b: nat)
    requires Prime(p) && Divides(p, a * b)
    ensures Divides(p, a) || Divides(p, b)
  {
    PrimeCoprime(p, a);
    if !Divides(p, a) { CoprimeCancels(p, a, b); }
  }

  lemma {:induction false} HasPrimeDivisor(n: nat) returns (p: nat)
    requires n >= 2
    ensures Prime(p) && p <= n && Divides(p, n)
  {
    if Prime(n) {
      p := n;
      Multiple(n, 1);
    } else {
      var d :| 2 <= d < n && n % d == 0;
      p := HasPrimeDivisor(d);
      DividesTransitive(p, d, n);
    }
  }

  function Factorial(n: nat): (f: nat)
    ensures f > 0
  {
    if n == 0 then 1 else n * Factorial(n - 1)
  }

  lemma {:induction false} DividesFactorial(d: nat, n: nat)
    requires 1 <= d <= n
    ensures Divides(d, Factorial(n))
  {
    if d == n {
      Multiple(d, Factorial(n - 1));
    } else {
      DividesFactorial(d, n - 1);
      DividesTimes(d, Factorial(n - 1), n);
    }
  }

  /** There is no largest prime. */
  lemma PrimeAbove(n: nat) returns (p: nat)
    ensures Prime(p) && p > n
  {
    p := HasPrimeDivisor(Factorial(n) + 1);
    if p <= n {
      DividesFactorial(p, n);
      DividesSum(p, Factorial(n) + 1, Factorial(n));
      DivisorIsSmaller(p, 1);
    }
  }

  // ------------------------------------------------------------ powers

  lemma {:induction false} PowerCoprime(p: nat, n: nat, x: nat)
    requires p >= 1 && Coprime(p, x)
    ensures Power(p, n) >= 1 && Coprime(Power(p, n), x)
  {
    PowerPositive(p, n);
    if n == 0 {
      CoprimeFromBezout(1, x, 1, 0);
    } else {
      PowerCoprime(p, n - 1, x);
      CoprimeProduct(p, Power(p, n - 1), x);
    }
  }
}
