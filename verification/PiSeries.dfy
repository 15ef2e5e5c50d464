/** All primes together: the fractional sum of `digits` in firmware/archive/pi.c is a partial-fraction decomposition. */
module PiSeries {
  import opened Arith
  import opened NumberTheory
  import opened PiArithmetic
  import opened PiTerms
  import opened PiDigits

  /** The partial sum of k * k! / (2k-1)!! over k <= n, times (2n-1)!!. */
  function Scaled(n: nat): int {
    if n == 0 then 0 else Scaled(n - 1) * (2 * n - 1) + n * Factorial(n)
  }

  /** The power of p in (2N-1)!!. */
  function PrimePart(p: nat, N: nat): (q: nat)
    requires p >= 2
    ensures q > 0
  {
    PowerPositive(p, OddOrd(p, N));
    Power(p, OddOrd(p, N))
  }

  /** One power of a fewer factors than 2k-1 has. */
  lemma PartGrows(a: nat, k: nat)
    requires a >= 2 && k >= 1
    ensures Divides(PrimePart(a, k), PrimePart(a, k - 1) * (2 * k - 1))
  {
    hide Strip, Ord, Power, Divides;
    StripOrd(2 * k - 1, a);
    PowerSum(a, OddOrd(a, k - 1), Ord(2 * k - 1, a));
    Reorder(PrimePart(a, k - 1), Strip(2 * k - 1, a), Power(a, Ord(2 * k - 1, a)));
    Multiple(PrimePart(a, k), Strip(2 * k - 1, a));
  }

  lemma Reorder(p: int, s: int, o: int)
    ensures p * (s * o) == s * (p * o)
  {
  }

  /** Summed over k, the terms still differ from the series by a fraction without a in its denominator. */
  lemma {:induction false} TermsSum(a: nat, vmax: nat, terms: seq<int>)
    requires a >= 2 && AllTerms(a, vmax, terms)
    ensures var n, av := |terms|, Power(a, vmax);
            av * PrimePart(a, n) > 0 && Divides(av * PrimePart(a, n), Sum(terms) * OddFactorial(n) - Scaled(n) * av)
  {
    hide Power, OddOrd, IsTerm, Divides;
    var n, av := |terms|, Power(a, vmax);
    PowerPositive(a, vmax);
    MulLe(1, av, PrimePart(a, n));
    if n == 0 {
      Multiple(av * PrimePart(a, 0), 0);
    } else {
      var rest := terms[..n - 1];
      TermsSum(a, vmax, rest);
      TermHolds(a, vmax, n, terms[n - 1]);
      PartGrows(a, n);
      OneMoreTerm(av, PrimePart(a, n - 1), PrimePart(a, n), 2 * n - 1, Sum(rest), OddFactorial(n - 1), Scaled(n - 1),
                  terms[n - 1], n * Factorial(n));
    }
  }

  lemma TermHolds(a: nat, vmax: nat, k: nat, x: int)
    requires a >= 2 && IsTerm(a, vmax, k, x)
    ensures var m := Power(a, vmax) * PrimePart(a, k);
            m > 0 && Divides(m, x * OddFactorial(k) - k * Factorial(k) * Power(a, vmax))
  {
  }

  lemma OneMoreTerm(av: nat, p: nat, q: nat, o: nat, sum: int, of: int, sc: int, x: int, f: int)
    requires av > 0 && p > 0 && q > 0 && av * p > 0 && av * q > 0
    requires Divides(av * p, sum * of - sc * av) && Divides(av * q, x * (o * of) - f * av) && Divides(q, p * o)
    ensures Divides(av * q, (sum + x) * (o * of) - (sc * o + f) * av)
  {
    hide Divides;
    var d := sum * of - sc * av;
    var k := Quotient(av * p, d);
    var l := Quotient(q, p * o);
    TimesOdd(k, av, p, o, l, q);
    Multiple(av * q, k * l);
    DividesSum(av * q, d * o, x * (o * of) - f * av);
    Collect(sum, of, sc, av, o, x, f);
  }

  lemma TimesOdd(k: int, av: int, p: int, o: int, l: int, q: int)
    requires p * o == l * q
    ensures (k * (av * p)) * o == (k * l) * (av * q)
  {
    assert (k * (av * p)) * o == k * av * (p * o);
    assert k * av * (l * q) == (k * l) * (av * q);
  }

  lemma Collect(sum: int, of: int, sc: int, av: int, o: int, x: int, f: int)
    ensures (sum * of - sc * av) * o + (x * (o * of) - f * av) == (sum + x) * (o * of) - (sc * o + f) * av
  {
    assert (sum * of - sc * av) * o == sum * (o * of) - sc * o * av;
  }

  // ------------------------------------------------------------ one prime's share of the sum

  /** (2N-1)!! divided by the prime power av. */
  lemma OddDividesOddFactorial(d: nat, n: nat)
    requires d % 2 == 1 && 1 <= d <= 2 * n
    ensures Divides(d, OddFactorial(n))
    decreases n
  {
    if d == 2 * n - 1 {
      Multiple(d, OddFactorial(n - 1));
    } else {
      OddDividesOddFactorial(d, n - 1);
      DividesTimes(d, OddFactorial(n - 1), 2 * n - 1);
    }
  }

  /** s / a^vmax, in units of 1 / (2N-1)!!, agrees with the series as far as a is concerned. */
  lemma ShareOfPrime(a: nat, vmax: nat, terms: seq<int>, s0: int, t: int, T: int, s: int) returns (w: int)
    requires a >= 3 && a % 2 == 1 && AllTerms(a, vmax, terms) && Power(a, vmax) <= 2 * |terms| && Power(a, vmax) > 0
    requires Congruent(Power(a, vmax), s0, Sum(terms)) && Congruent(Power(a, vmax), t, T)
    requires Congruent(Power(a, vmax), s, s0 * t)
    ensures OddFactorial(|terms|) == w * Power(a, vmax)
    ensures Divides(PrimePart(a, |terms|), s * w - T * Scaled(|terms|))
  {
    hide Power, OddOrd, IsTerm, Divides, AllTerms, Sum, Scaled;
    var n, av := |terms|, Power(a, vmax);
    var q := PrimePart(a, n);
    OddPower(a, vmax);
    OddDividesOddFactorial(av, n);
    w := Quotient(av, OddFactorial(n));
    TermsSum(a, vmax, terms);
    CongruentProduct(av, s0, Sum(terms), t, T);
    CongruentTransitive(av, s, s0 * t, Sum(terms) * T);
    PartDivides(a, n);
    Share(av, q, w, s, Sum(terms), T, Scaled(n));
  }

  lemma PartDivides(a: nat, n: nat)
    requires a >= 2
    ensures Divides(PrimePart(a, n), OddFactorial(n))
  {
    FactorialSplits(a, n);
    Multiple(PrimePart(a, n), Den(a, n));
  }

  lemma Share(av: nat, q: nat, w: int, s: int, sum: int, T: int, sc: int)
    requires av > 0 && q > 0 && av * q > 0
    requires Divides(av * q, sum * (w * av) - sc * av) && Congruent(av, s, sum * T) && Divides(q, w * av)
    ensures Divides(q, s * w - T * sc)
  {
    hide Divides;
    CancelFactor(av, q, sum, w, sc);
    var k := Factor(av, s - sum * T);
    Combine(q, w * av, sum * w - sc, k, T);
    ShareProduct(k, av, sum, T, w, sc);
  }

  lemma CancelFactor(av: nat, q: nat, sum: int, w: int, sc: int)
    requires av > 0 && q > 0 && av * q > 0 && Divides(av * q, sum * (w * av) - sc * av)
    ensures Divides(q, sum * w - sc)
  {
    hide Divides;
    calc {
      sum * (w * av) - sc * av;
      { Associate(sum, w, av); }
      sum * w * av - sc * av;
      { Distribute(sum * w, sc, av); }
      (sum * w - sc) * av;
    }
    Commute(av, q);
    DividesScaled(q, sum * w - sc, av);
  }

  lemma Combine(q: nat, a: int, b: int, k: int, l: int)
    requires q > 0 && Divides(q, a) && Divides(q, b)
    ensures Divides(q, k * a + l * b)
  {
    hide Divides;
    DividesTimes(q, a, k);
    DividesTimes(q, b, l);
    DividesSum(q, k * a, l * b);
  }

  lemma ShareProduct(k: int, av: int, sum: int, T: int, w: int, sc: int)
    ensures (k * av + sum * T) * w - T * sc == k * (w * av) + T * (sum * w - sc)
  {
    calc {
      (k * av + sum * T) * w - T * sc;
      { Distribute(k * av, sum * T, w); }
      k * av * w + sum * T * w - T * sc;
      { Associate(k, av, w); Commute(av, w); }
      k * (w * av) + sum * T * w - T * sc;
      { Commute(sum, T); Associate(T, sum, w); }
      k * (w * av) + T * (sum * w) - T * sc;
      { DistributeLeft(T, sum * w, sc); }
      k * (w * av) + T * (sum * w - sc);
    }
  }

  /** For another prime the share vanishes. */
  lemma OtherPrimes(p: nat, a: nat, vmax: nat, n: nat, w: int)
    requires Prime(p) && Prime(a) && p != a && Power(a, vmax) > 0 && OddFactorial(n) == w * Power(a, vmax)
    ensures Divides(PrimePart(p, n), w)
  {
    hide Power, OddOrd;
    PartDivides(p, n);
    DistinctPrimes(p, a);
    PowerCoprime(p, OddOrd(p, n), a);
    CoprimeCommutes(PrimePart(p, n), a);
    PowerCoprime(a, vmax, PrimePart(p, n));
    CoprimeCommutes(Power(a, vmax), PrimePart(p, n));
    assert w * Power(a, vmax) == Power(a, vmax) * w;
    CoprimeCancels(PrimePart(p, n), Power(a, vmax), w);
  }

  lemma DistinctPrimes(p: nat, a: nat)
    requires Prime(p) && Prime(a) && p != a
    ensures Coprime(p, a)
  {
    PrimeCoprime(p, a);
    if Divides(p, a) { DivisorIsSmaller(p, a); }
  }

  // ------------------------------------------------------------ from every prime power to the product

  /** A number is the power of a prime in it times a smaller number coprime to that power. */
  lemma SplitPrime(m: nat, p: nat) returns (rest: nat, e: nat)
    requires m > 0 && Prime(p) && Divides(p, m)
    ensures 0 < rest < m && Power(p, e) > 0 && m == rest * Power(p, e)
    ensures Divides(rest, m) && Divides(Power(p, e), m) && Coprime(rest, Power(p, e))
  {
    rest, e := Strip(m, p), Ord(m, p);
    assert e > 0;
    StripOrd(m, p);
    hide *;
    PowerAtLeast(p, e);
    SmallerFactor(rest, Power(p, e));
    Multiple(Power(p, e), rest);
    Multiple(rest, Power(p, e));
    PrimeCoprime(p, rest);
    PowerCoprime(p, e, rest);
    CoprimeCommutes(Power(p, e), rest);
  }

  lemma SmallerFactor(a: int, b: int)
    requires a > 0 && b >= 2
    ensures a < a * b
  {
    MulLe(2, b, a);
    Commute(a, b);
  }

  /** If every prime power that divides m divides x, then m divides x. */
  lemma {:induction false} PrimePowersSuffice(m: nat, x: int)
    requires m > 0
    requires forall p: nat, j: nat :: Prime(p) && Power(p, j) > 0 && Divides(Power(p, j), m) ==> Divides(Power(p, j), x)
    ensures Divides(m, x)
    decreases m
  {
    hide Power, Prime, Coprime, Divides;
    if m == 1 {
      Multiple(1, x);
    } else {
      var p := HasPrimeDivisor(m);
      var rest, e := SplitPrime(m, p);
      forall q: nat, j: nat | Prime(q) && Power(q, j) > 0 && Divides(Power(q, j), rest) ensures Divides(Power(q, j), x) {
        DividesTransitive(Power(q, j), rest, m);
      }
      PrimePowersSuffice(rest, x);
      CoprimeDivisors(rest, Power(p, e), x);
    }
  }

  /** A prime that divides (2n-1)!! is odd and at most 2n-1. */
  lemma {:induction false} PrimesOfOddFactorial(p: nat, n: nat)
    requires Prime(p) && Divides(p, OddFactorial(n))
    ensures p % 2 == 1 && p < 2 * n
  {
    if n == 0 {
      DivisorIsSmaller(p, 1);
    } else {
      PrimeDividesProduct(p, 2 * n - 1, OddFactorial(n - 1));
      if Divides(p, 2 * n - 1) {
        DivisorIsSmaller(p, 2 * n - 1);
        if p % 2 == 0 { EvenDivisor(2 * n - 1, p); }
      } else {
        PrimesOfOddFactorial(p, n - 1);
      }
    }
  }

  /** A power of p that divides (2n-1)!! divides its p-part. */
  lemma PowerInPart(p: nat, j: nat, n: nat)
    requires Prime(p) && Power(p, j) > 0 && Divides(Power(p, j), OddFactorial(n))
    ensures Divides(Power(p, j), PrimePart(p, n))
  {
    hide Divides, OddOrd, Den;
    var e := OddOrd(p, n);
    if j <= e {
      PowerSum(p, j, e - j);
      Multiple(Power(p, j), Power(p, e - j));
    } else {
      FactorialSplits(p, n);
      PowerSum(p, j - e, e);
      PowerPositive(p, e);
      PowerPositive(p, j - e);
      DividesScaled(Power(p, j - e), Den(p, n), Power(p, e));
      Multiple(p, Power(p, j - e - 1));
      assert Power(p, j - e) == p * Power(p, j - e - 1);
      DividesTransitive(p, Power(p, j - e), Den(p, n));
      DenCoprime(p, n);
      PrimeCoprime(p, Den(p, n));
    }
  }

  predicate OddPrime(p: nat) {
    p >= 3 && Prime(p) && p % 2 == 1
  }

  /** Enough: x is divisible by the p-part of (2n-1)!! for every odd prime p. */
  lemma PartsSuffice(n: nat, x: int)
    requires forall p: nat :: OddPrime(p) ==> Divides(PrimePart(p, n), x)
    ensures Divides(OddFactorial(n), x)
  {
    hide PrimePart;
    forall p: nat, j: nat | Prime(p) && Power(p, j) > 0 && Divides(Power(p, j), OddFactorial(n))
      ensures Divides(Power(p, j), x)
    {
      if j == 0 {
        Multiple(1, x);
      } else {
        Multiple(p, Power(p, j - 1));
        DividesTransitive(p, Power(p, j), OddFactorial(n));
        PrimesOfOddFactorial(p, n);
        PowerInPart(p, j, n);
        DividesTransitive(Power(p, j), PrimePart(p, n), x);
      }
    }
    PrimePowersSuffice(OddFactorial(n), x);
  }

  // ------------------------------------------------------------ the loop over the primes

  /** Primes below a have contributed to W, the others have not. */
  ghost predicate Contributed(N: nat, a: nat, W: int, target: int) {
    forall p: nat :: OddPrime(p) ==> Divides(PrimePart(p, N), if p < a then W - target else W)
  }

  lemma Contribute(N: nat, a: nat, a': nat, vmax: nat, W: int, target: int, s: int, w: int)
    requires OddPrime(a) && Contributed(N, a, W, target) && Power(a, vmax) > 0
    requires OddFactorial(N) == w * Power(a, vmax) && Divides(PrimePart(a, N), s * w - target)
    requires a' > a && forall k: nat :: a < k < a' ==> !Prime(k)
    ensures Contributed(N, a', W + s * w, target)
  {
    hide PrimePart, Prime, Power, Divides, OddFactorial;
    forall p: nat | OddPrime(p) ensures Divides(PrimePart(p, N), if p < a' then W + s * w - target else W + s * w) {
      ContributeAt(N, p, a, vmax, W, target, s, w);
    }
  }

  /** What the share of a does to the prime p. */
  lemma ContributeAt(N: nat, p: nat, a: nat, vmax: nat, W: int, target: int, s: int, w: int)
    requires OddPrime(a) && OddPrime(p) && Power(a, vmax) > 0 && OddFactorial(N) == w * Power(a, vmax)
    requires Divides(PrimePart(p, N), if p < a then W - target else W)
    requires Divides(PrimePart(a, N), s * w - target)
    ensures Divides(PrimePart(p, N), if p <= a then W + s * w - target else W + s * w)
  {
    hide PrimePart, Prime, Power, Divides, OddFactorial;
    if p == a {
      DividesSum(PrimePart(p, N), W, s * w - target);
      assert W + (s * w - target) == W + s * w - target;
    } else {
      OtherPrimes(p, a, vmax, N, w);
      DividesTimes(PrimePart(p, N), w, s);
      DividesSum(PrimePart(p, N), if p < a then W - target else W, s * w);
      assert W - target + s * w == W + s * w - target;
    }
  }

  lemma NothingContributed(N: nat, target: int)
    ensures Contributed(N, 3, 0, target)
  {
    forall p: nat | OddPrime(p) ensures p >= 3 && Divides(PrimePart(p, N), 0) {
      Multiple(PrimePart(p, N), 0);
    }
  }

  lemma AllContributed(N: nat, a: nat, W: int, target: int)
    requires Contributed(N, a, W, target) && a > 2 * N
    ensures Divides(OddFactorial(N), W - target)
  {
    forall p: nat | OddPrime(p) ensures Divides(PrimePart(p, N), W - target) {
      if p >= a {
        NoFactor(p, N);
        Multiple(1, W - target);
      }
    }
    PartsSuffice(N, W - target);
  }

  lemma {:induction false} NoFactor(p: nat, n: nat)
    requires p >= 2 && p > 2 * n
    ensures PrimePart(p, n) == 1
  {
    if n > 0 {
      NoFactor(p, n - 1);
      PowerPositive(p, OddOrd(p, n - 1));
      if (2 * n - 1) % p == 0 { DivisorIsSmaller(p, 2 * n - 1); }
    }
  }

  // ------------------------------------------------------------ the sum itself

  function Frac(x: real): (f: real)
    ensures 0.0 <= f < 1.0
  {
    x - x.Floor as real
  }

  lemma FracUnique(x: real, y: real, z: int)
    requires 0.0 <= x < 1.0 && x == y - z as real
    ensures x == Frac(y)
  {
    var f := y.Floor;
    assert f as real <= y < f as real + 1.0;
    assert f as real - z as real == (f - z) as real;
    assert -1.0 < (f - z) as real < 1.0;
  }

  /** The series whose digits are wanted: the sum of k * k! / (2k-1)!! for k up to n. */
  function Series(n: nat): real {
    if n == 0 then 0.0 else Series(n - 1) + (n * Factorial(n)) as real / OddFactorial(n) as real
  }

  lemma {:induction false} SeriesScaled(n: nat)
    ensures Series(n) * OddFactorial(n) as real == Scaled(n) as real
  {
    hide Series, OddFactorial, Scaled, Factorial;
    SeriesUnfold(n);
    if n > 0 {
      SeriesScaled(n - 1);
      RealStep(Series(n - 1), Scaled(n - 1), OddFactorial(n - 1), 2 * n - 1, n * Factorial(n));
    }
  }

  lemma SeriesUnfold(n: nat)
    ensures if n == 0 then Series(n) == 0.0 && Scaled(n) == 0
            else Series(n) == Series(n - 1) + (n * Factorial(n)) as real / OddFactorial(n) as real
                 && Scaled(n) == Scaled(n - 1) * (2 * n - 1) + n * Factorial(n)
                 && OddFactorial(n) == (2 * n - 1) * OddFactorial(n - 1)
  {
  }

  lemma RealStep(series: real, scaled: int, of: int, o: int, f: int)
    requires of > 0 && o > 0 && series * of as real == scaled as real && o * of > 0
    ensures (series + f as real / (o * of) as real) * (o * of) as real == (scaled * o + f) as real
  {
    var x, y := o as real, of as real;
    assert (o * of) as real == x * y;
    assert (scaled * o) as real == scaled as real * x;
    DivideBack(f as real, x * y);
    assert series * (x * y) == series * y * x;
  }

  lemma DivideBack(x: real, y: real)
    requires y != 0.0
    ensures x / y * y == x
  {
  }

  /** The largest vmax with a^vmax up to the limit: what the source computes with logarithms. */
  function FloorLog(a: nat, limit: nat): (v: nat)
    requires a >= 2 && limit >= 1
  {
    if limit < a then 0 else QuotientShrinks(limit, a); 1 + FloorLog(a, limit / a)
  }

  lemma QuotientShrinks(limit: nat, a: nat)
    requires a >= 2 && limit >= a
    ensures 1 <= limit / a < limit
  {
    DivModBasic(limit, a);
    if limit / a <= 0 { MulLe(limit / a, 0, a); }
    MulLe(2, a, limit / a);
  }

  lemma {:induction false} FloorLogIsLargest(a: nat, limit: nat)
    requires a >= 2 && limit >= 1
    ensures IsLargestPower(a, FloorLog(a, limit), limit)
    decreases limit
  {
    if limit < a {
      assert Power(a, 1) == a * Power(a, 0);
    } else {
      QuotientShrinks(limit, a);
      var q := limit / a;
      FloorLogIsLargest(a, q);
      DivModBasic(limit, a);
      ScaleBounds(a, FloorLog(a, q), q, limit);
    }
  }

  lemma ScaleBounds(a: nat, v: nat, q: nat, limit: nat)
    requires a >= 2 && IsLargestPower(a, v, q) && q * a <= limit < q * a + a
    ensures IsLargestPower(a, v + 1, limit)
  {
    var x, y := Power(a, v), Power(a, v + 1);
    assert y == a * x && Power(a, v + 2) == a * y;
    hide Power;
    MulLe(x, q, a);
    MulLe(q + 1, y, a);
    Distribute(q, 1, a);
  }

  /** The body of the loop over the primes. */
  method AddPrime(n: nat, N: nat, a: nat, sum0: real) returns (sum: real, ghost s: int, ghost w: int, ghost floor: int)
    requires n >= 1 && OddPrime(a) && a <= 2 * N
    ensures 0.0 <= sum < 1.0
    ensures var av := Power(a, FloorLog(a, 2 * N)); av > 0 && OddFactorial(N) == w * av
    ensures Divides(PrimePart(a, N), s * w - Power(10, n - 1) * Scaled(N))
    ensures sum * OddFactorial(N) as real
         == sum0 * OddFactorial(N) as real + (s * w) as real - floor as real * OddFactorial(N) as real
  {
    hide Power, Prime, Scaled, Frac, OddFactorial, IsLargestPower, AllTerms, Congruent, PrimePart, FloorLog, MulMod, Sum, Divides;
    var vmax := FloorLog(a, 2 * N);
    FloorLogIsLargest(a, 2 * N);
    var s0, av, terms := Residue(a, vmax, N);
    var t := PowMod(10, n - 1, av);
    PowModCongruent(t, n - 1, av);
    var r := MulMod(s0, t, av);
    TruncModCongruent(s0 * t, av);
    ProductIsMulMod(s0, t, av);
    WithinLimit(a, vmax, 2 * N);
    w := ShareOfPrime(a, vmax, terms, s0, t, Power(10, n - 1), r);
    s := r;
    floor := (sum0 + r as real / av as real).Floor;
    AddShare(sum0, r, av, w, OddFactorial(N), floor);
    sum := Frac(sum0 + r as real / av as real);
  }

  lemma ProductIsMulMod(a: int, b: int, m: nat)
    requires m > 0
    ensures MulMod(a, b, m) == TruncMod(a * b, m)
  {
  }

  /** 10^(n-1) times the partial series. */
  function Wanted(n: nat, N: nat): real
    requires n >= 1
  {
    Power(10, n - 1) as real * Series(N)
  }

  /** sum is W / M less a whole number. */
  predicate SumAt(sum: real, M: int, W: int, z: int) {
    0.0 <= sum < 1.0 && sum * M as real == W as real - z as real * M as real
  }

  lemma SumAdvances(sum0: real, sum: real, M: int, W: int, z: int, x: int, floor: int)
    requires SumAt(sum0, M, W, z) && 0.0 <= sum < 1.0
    requires sum * M as real == sum0 * M as real + x as real - floor as real * M as real
    ensures SumAt(sum, M, W + x, z + floor)
  {
    SumReals(W, x, z, floor, M as real);
  }

  /** `digits` over exact reals: whatever n and N, nine decimal digits of the fractional part of 10^(n-1) times the
      partial series. */
  method Digits(n: nat, N: nat) returns (d: int)
    requires n >= 1
    ensures d == (Frac(Wanted(n, N)) * 1000000000.0).Floor
  {
    hide Power, Prime, Scaled, Series, Frac, OddFactorial, IsLargestPower, PrimePart, FloorLog, Contributed, Divides, Accepted, SumAt,
         Wanted;
    var sum := 0.0;
    var a := 3;
    ghost var T := Power(10, n - 1);
    ghost var M := OddFactorial(N);
    ghost var target, W, z := T * Scaled(N), 0, 0;
    NothingContributed(N, target);
    ThreeIsPrime();
    NothingSummed(M);
    while a <= 2 * N
      invariant OddPrime(a) && Contributed(N, a, W, target)
      invariant SumAt(sum, M, W, z)
      decreases 2 * N - a
    {
      ghost var before, sum0, s, w, floor := a, sum, 0, 0, 0;
      sum, s, w, floor := AddPrime(n, N, a, sum);
      a := NextPrime(a);
      NextAcceptedIsNextPrime(before, a);
      Contribute(N, before, a, FloorLog(before, 2 * N), W, target, s, w);
      SumAdvances(sum0, sum, M, W, z, s * w, floor);
      W, z := W + s * w, z + floor;
    }
    AllContributed(N, a, W, target);
    Finish(sum, M, W, z, n, N);
    d := (sum * 1000000000.0).Floor;
  }

  lemma SumReals(W: int, x: int, z: int, f: int, m: real)
    ensures (W + x) as real - (z + f) as real * m == W as real - z as real * m + x as real - f as real * m
  {
  }

  lemma NothingSummed(M: int)
    ensures SumAt(0.0, M, 0, 0)
  {
  }

  lemma ThreeIsPrime()
    ensures OddPrime(3)
  {
  }

  lemma WithinLimit(a: nat, vmax: nat, limit: nat)
    requires IsLargestPower(a, vmax, limit)
    ensures Power(a, vmax) <= limit
  {
  }

  lemma PowModCongruent(t: int, e: nat, m: nat)
    requires m > 0 && (e == 0 ==> t == 1) && (e > 0 ==> Congruent(m, t, Power(10, e)))
    ensures Congruent(m, t, Power(10, e))
  {
    CongruentBasics(m, 1);
  }

  lemma AddShare(sum: real, s: int, av: nat, w: int, M: nat, floor: int)
    requires av > 0 && M == w * av && floor == (sum + s as real / av as real).Floor
    ensures Frac(sum + s as real / av as real) * M as real == sum * M as real + (s * w) as real - floor as real * M as real
  {
    var x := s as real / av as real;
    assert M as real == w as real * av as real;
    DivideBack(s as real, av as real);
    assert x * (w as real * av as real) == x * av as real * w as real;
    assert (s * w) as real == s as real * w as real;
  }

  lemma Finish(sum: real, M: nat, W: int, z: int, n: nat, N: nat)
    requires n >= 1 && M == OddFactorial(N) && Divides(M, W - Power(10, n - 1) * Scaled(N)) && SumAt(sum, M, W, z)
    ensures sum == Frac(Wanted(n, N))
  {
    hide Frac, Series, Scaled, OddFactorial, Power;
    SeriesScaled(N);
    var T := Power(10, n - 1);
    var k := Quotient(M, W - T * Scaled(N));
    var m := M as real;
    assert W as real == T as real * Scaled(N) as real + k as real * m by {
      assert (k * M) as real == k as real * m;
      assert (T * Scaled(N)) as real == T as real * Scaled(N) as real;
    }
    var y := Wanted(n, N);
    assert y * m == T as real * (Series(N) * m);
    assert sum * m == (y + k as real - z as real) * m;
    CancelReal(sum, y + k as real - z as real, m);
    FracUnique(sum, y, z - k);
  }

  lemma CancelReal(x: real, y: real, m: real)
    requires m > 0.0 && x * m == y * m
    ensures x == y
  {
    assert x == x * m / m;
    assert y == y * m / m;
  }
}
