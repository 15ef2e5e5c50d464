/** The digit-by-digit square root of archive/FPU/FSQRTf.v, up to rounding. */
module SquareRoot {
  import opened Arith

  const BITS25: int := 0x200_0000
  const BITS26: int := 0x400_0000
  const BITS28: int := 0x1000_0000

  /** The working registers x, q (26 bits each) and ac (28 bits). */
  datatype Work = Work(ac: int, x: int, q: int)

  /** test = ac - {q, 2'b01} in 28 bits; its top bit decides. */
  function Test(w: Work): int {
    (w.ac - (4 * w.q + 1)) % BITS28
  }

  /** acNext, xNext and qNext; {acNext, xNext} is {r[25:0], x, 2'b0} split at bit 26. */
  function RootStep(w: Work): Work {
    var t := Test(w);
    var keep := t < BITS28 / 2;
    var r := if keep then t else w.ac;
    Work(r % BITS26 * 4 + w.x / 0x100_0000, w.x % 0x100_0000 * 4,
         if keep then w.q % BITS25 * 2 + 1 else w.q * 2 % BITS26)
  }

  /** {ac, x} = {26'b0, sqrtSig, 2'b0}, q = 0. */
  function RootStart(sig: int): Work {
    Work(sig / 0x100_0000, sig % 0x100_0000 * 4, 0)
  }

  function RootSteps(w: Work, k: nat): Work {
    if k == 0 then w else RootStep(RootSteps(w, k - 1))
  }

  /** q is the floor of the square root of r. */
  predicate IsRoot(q: int, r: int) {
    0 <= q && q * q <= r < (q + 1) * (q + 1)
  }

  // ------------------------------------------------------------ the loop invariant

  /** The bits not yet consumed, as the 26-bit register that holds them after k steps. */
  function Rest(sig: int, k: nat): int {
    if k == 0 then sig else Rest(sig, k - 1) % 0x100_0000 * 4
  }

  /** The radicand bits consumed after k steps. */
  function Radicand(sig: int, k: nat): int {
    if k == 0 then 0 else 4 * Radicand(sig, k - 1) + Rest(sig, k - 1) / 0x100_0000
  }

  /** After k steps: q is the root of the bits consumed, ac the remainder with the next bit pair behind it. */
  predicate RootInv(w: Work, sig: int, k: nat) {
    && IsRoot(w.q, Radicand(sig, k))
    && w.ac == 4 * (Radicand(sig, k) - w.q * w.q) + Rest(sig, k) / 0x100_0000
    && w.x == Rest(sig, k + 1)
    && 0 <= Rest(sig, k) < BITS26
  }

  /** The comparison of the step, over unbounded integers: (2q + 1)^2 against the extended radicand. */
  lemma Digit(q: int, r: int, pair: int)
    requires IsRoot(q, r) && 0 <= pair < 4
    ensures var t := 4 * (r - q * q) + pair - (4 * q + 1);
            && t == (4 * r + pair) - (2 * q + 1) * (2 * q + 1)
            && 0 <= r - q * q <= 2 * q
            && (if t >= 0 then IsRoot(2 * q + 1, 4 * r + pair) else IsRoot(2 * q, 4 * r + pair))
  {
    assert (2 * q + 1) * (2 * q + 1) == 4 * (q * q) + 4 * q + 1;
    assert (2 * q + 2) * (2 * q + 2) == 4 * ((q + 1) * (q + 1));
    assert (q + 1) * (q + 1) == q * q + 2 * q + 1;
    assert (2 * q) * (2 * q) == 4 * (q * q);
  }

  /** While q stays below 2^24 no register overflows and the sign test is exact. */
  lemma StepIsExact(w: Work)
    requires 0 <= w.q < 0x100_0000 && 0 <= w.ac <= 8 * w.q + 3
    ensures var t := w.ac - (4 * w.q + 1);
            RootStep(w) ==
            if t >= 0 then Work(4 * t + w.x / 0x100_0000, w.x % 0x100_0000 * 4, 2 * w.q + 1)
            else Work(4 * w.ac + w.x / 0x100_0000, w.x % 0x100_0000 * 4, 2 * w.q)
  {
  }

  lemma StepKeepsRoot(w: Work, sig: int, k: nat)
    requires RootInv(w, sig, k) && w.q < 0x100_0000
    ensures RootInv(RootStep(w), sig, k + 1)
  {
    hide IsRoot, RootStep, Radicand, Rest;
    NonNegative(w.q, Radicand(sig, k));
    Digit(w.q, Radicand(sig, k), Rest(sig, k) / 0x100_0000);
    StepIsExact(w);
    RadicandStep(sig, k);
    RestStep(sig, k);
    Squares(w.q);
  }

  lemma NonNegative(q: int, r: int)
    requires IsRoot(q, r)
    ensures q >= 0
  {
  }

  lemma Squares(q: int)
    ensures (2 * q) * (2 * q) == 4 * (q * q) && (2 * q + 1) * (2 * q + 1) == 4 * (q * q) + 4 * q + 1
  {
  }

  lemma RadicandStep(sig: int, k: nat)
    ensures Radicand(sig, k + 1) == 4 * Radicand(sig, k) + Rest(sig, k) / 0x100_0000
  {
  }

  lemma RestStep(sig: int, k: nat)
    requires 0 <= Rest(sig, k) < BITS26
    ensures Rest(sig, k + 1) == Rest(sig, k) % 0x100_0000 * 4 && 0 <= Rest(sig, k + 1) < BITS26
    ensures Rest(sig, k + 2) == Rest(sig, k + 1) % 0x100_0000 * 4
  {
  }

  /** Two bits of the 26-bit radicand are consumed a step, then zeros. */
  lemma {:induction false} RadicandIsPrefix(sig: int, k: nat)
    requires 0 <= sig < BITS26
    ensures 0 <= Rest(sig, k) < BITS26
    ensures Radicand(sig, k) * BITS26 + Rest(sig, k) == sig * Pow2(2 * k)
  {
    hide Radicand, Rest, Pow2;
    NothingConsumed(sig);
    if k > 0 {
      RadicandIsPrefix(sig, k - 1);
      RadicandStep(sig, k - 1);
      RestStep(sig, k - 1);
      var p, r, t := Pow2(2 * (k - 1)), Radicand(sig, k - 1), Rest(sig, k - 1);
      calc {
        Radicand(sig, k) * BITS26 + Rest(sig, k);
        (4 * r + t / 0x100_0000) * BITS26 + t % 0x100_0000 * 4;
        4 * (r * BITS26 + t);
        4 * (sig * p);
        { QuadrupleProduct(sig, p); }
        sig * (4 * p);
        { Pow2Square(k); }
        sig * Pow2(2 * k);
      }
    }
  }

  lemma NothingConsumed(sig: int)
    ensures Radicand(sig, 0) == 0 && Rest(sig, 0) == sig && Pow2(0) == 1
  {
  }

  lemma QuadrupleProduct(a: int, b: int)
    ensures 4 * (a * b) == a * (4 * b)
  {
  }

  /** Twenty-five steps consume the whole radicand and twenty-four zero bits. */
  lemma FullRadicand(sig: int, k: nat)
    requires 0 <= sig < BITS26 && k == 25
    ensures Radicand(sig, k) == sig * 0x100_0000
  {
    RadicandIsPrefix(sig, k);
    Pow2Fifty(2 * k);
    DivModUnique(sig * 0x4_0000_0000_0000, BITS26, Radicand(sig, k), Rest(sig, k));
    DivModUnique(sig * 0x4_0000_0000_0000, BITS26, sig * 0x100_0000, 0);
  }

  lemma Pow2Fifty(n: nat)
    requires n == 50
    ensures Pow2(n) == 0x4_0000_0000_0000
  {
    assert Pow2(10) == 1024;
    assert Pow2(20) == 0x10_0000;
    assert Pow2(30) == 0x4000_0000;
    assert Pow2(40) == 0x100_0000_0000;
  }

  lemma {:induction false} Pow2Monotone(m: nat, n: nat)
    requires m <= n
    ensures Pow2(m) <= Pow2(n)
    decreases n
  {
    if m < n { Pow2Monotone(m, n - 1); }
  }

  /** A prefix of a 25-bit radicand stays below 2^48 for twenty-four steps. */
  lemma RadicandStaysSmall(sig: int, k: nat)
    requires 0 <= sig < BITS25 && k <= 24
    ensures Radicand(sig, k) < 0x1_0000_0000_0000
  {
    hide Radicand, Rest, Pow2;
    RadicandIsPrefix(sig, k);
    Pow2Monotone(2 * k, 48);
    Pow2Fifty(50);
    Pow2Square(25);
    MulLe(Pow2(2 * k), 0x1_0000_0000_0000, sig);
    Commute(sig, Pow2(2 * k));
  }

  /** So does its root below 2^24. */
  lemma RootStaysSmall(q: int, sig: int, k: nat)
    requires 0 <= sig < BITS25 && k <= 24 && IsRoot(q, Radicand(sig, k))
    ensures q < 0x100_0000
  {
    hide Radicand;
    RadicandStaysSmall(sig, k);
    if q >= 0x100_0000 { SquareLe(0x100_0000, q); }
  }

  lemma SquareLe(a: int, b: int)
    requires 0 <= a <= b
    ensures a * a <= b * b
  {
    MulLe(a, b, a);
    MulLe(a, b, b);
  }

  lemma {:induction false} RootInvariant(sig: int, k: nat)
    requires 0 <= sig < BITS25 && k <= 25
    ensures RootInv(RootSteps(RootStart(sig), k), sig, k)
  {
    if k > 0 {
      RootInvariant(sig, k - 1);
      var w := RootSteps(RootStart(sig), k - 1);
      RootStaysSmall(w.q, sig, k - 1);
      StepKeepsRoot(w, sig, k - 1);
    }
  }

  /** After twenty-five steps q is the floor of the square root of sqrtSig * 2^24 and ac[27:2] its exact remainder. */
  lemma RootIsFloor(sig: int, k: nat)
    requires 0 <= sig < BITS25 && k == 25
    ensures var w := RootSteps(RootStart(sig), k);
            && IsRoot(w.q, sig * 0x100_0000)
            && w.ac / 4 == sig * 0x100_0000 - w.q * w.q
  {
    hide RootSteps, RootStart;
    RootInvariant(sig, k);
    FullRadicand(sig, k);
    RadicandIsPrefix(sig, k);
  }
}
