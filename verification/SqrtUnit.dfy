/** The clocked square-root unit: operand screening, twenty-five root steps, and the hand-over to rounding. */
module SqrtUnit {
  import Arith
  import opened Words
  import opened SquareRoot

  /** Inputs of one clock.  `propagate` and `infinite` are the class tests (NaN or zero, infinity);
      `round` stands for the FRound instance, giving sigOut (24 bits) and expOut. */
  datatype SqrtIn = SqrtIn(
    enable: bool, reset: bool, rs1: Word, exp: int, sig: int, rm: int, propagate: bool, infinite: bool,
    round: (int, int) -> Rounded)

  datatype Rounded = Rounded(sig: Sig, exp: int)

  type Sig = x: int | 0 <= x < 0x100_0000

  datatype SqrtState = SqrtState(counter: nat, special: bool, out: Word, expIn: int, work: Work, rootIn: int)

  const SQRT_CYCLES: nat := 26

  /** {1'b0, rs1Sig_i, 1'b0} >> rs1Exp_i[0] */
  function SqrtSig(i: SqrtIn): int {
    if i.exp % 2 == 0 then i.sig * 2 else i.sig
  }

  /** Upper 24 bits of the root, 26 bits of remainder. */
  function RootIn(exp: int, w: Work): int {
    (if exp % 2 == 0 then w.q / 2 else w.q) % 0x100_0000 * BITS26 + w.ac / 4
  }

  /** Overflow goes to infinity, or to the largest number when rounding toward zero or down. */
  function Infinity(rm: int): Word {
    if rm == 1 || rm == 2 then 0x7F7F_FFFF else 0x7F80_0000
  }

  /** The result word: zero, subnormal, overflow or normal. */
  function Pack(rm: int, r: Rounded): Word {
    if r.sig == 0 then (if rm == 2 then 0x8000_0000 else 0)
    else if r.exp < -126 then r.sig % 0x80_0000
    else if r.exp > 127 then Infinity(rm)
    else (r.exp + 127) % 256 * 0x80_0000 + r.sig % 0x80_0000
  }

  /** A non-zero result is positive, and in the normal range its fields are the rounded exponent and fraction. */
  lemma PackFields(rm: int, r: Rounded)
    requires r.sig != 0
    ensures var w := Pack(rm, r);
            && w < 0x8000_0000
            && (-126 <= r.exp <= 127 ==> w / 0x80_0000 - 127 == r.exp && w % 0x80_0000 == r.sig % 0x80_0000)
            && (r.exp < -126 ==> w / 0x80_0000 == 0) && (r.exp > 127 ==> w / 0x80_0000 >= 254)
  {
  }

  function SqrtNext(s: SqrtState, i: SqrtIn): SqrtState {
    if !i.enable then s.(counter := 0)
    else if s.counter == 0 && !i.reset then
      if i.propagate then s.(special := true, counter := 1, out := i.rs1)
      else if i.rs1 >= 0x8000_0000 then s.(special := true, counter := 1, out := 0xFFC0_0000)
      else if i.infinite then s.(special := true, counter := 1, out := i.rs1)
      else SqrtState(SQRT_CYCLES, false, 0, i.exp / 2, RootStart(SqrtSig(i)), s.rootIn)
    else if s.counter > 2 then
      var n := RootStep(s.work);
      s.(counter := s.counter - 1, work := n, out := n.q % MODULUS)
    else if s.counter > 1 then
      s.(counter := s.counter - 1, rootIn := RootIn(i.exp, RootStep(s.work)))
    else if s.counter > 0 then
      s.(counter := s.counter - 1, out := if s.special then s.out else Pack(i.rm, i.round(s.rootIn, s.expIn)), special := false)
    else s
  }

  /** The unit as registers updated in place at each clock edge. */
  class Unit {
    var counter: nat
    var special: bool
    var out: Word
    var expIn: int
    var ac: int
    var x: int
    var q: int
    var rootIn: int

    constructor (s: SqrtState)
      ensures Snapshot() == s
    {
      counter, special, out, expIn, rootIn := s.counter, s.special, s.out, s.expIn, s.rootIn;
      ac, x, q := s.work.ac, s.work.x, s.work.q;
    }

    function Snapshot(): SqrtState
      reads this
    {
      SqrtState(counter, special, out, expIn, Work(ac, x, q), rootIn)
    }

    method Clock(i: SqrtIn)
      modifies this
      ensures Snapshot() == SqrtNext(old(Snapshot()), i)
    {
      var n := RootStep(Work(ac, x, q));
      if !i.enable {
        counter := 0;
      } else if counter == 0 && !i.reset {
        special := true;
        counter := 1;
        out := 0;
        if i.propagate {
          out := i.rs1;
        } else if i.rs1 >= 0x8000_0000 {
          out := 0xFFC0_0000;
        } else if i.infinite {
          out := i.rs1;
        } else {
          special := false;
          counter := SQRT_CYCLES;
          expIn := i.exp / 2;
          q := 0;
          var sqrtSig := SqrtSig(i);
          ac, x := sqrtSig / 0x100_0000, sqrtSig % 0x100_0000 * 4;
        }
      } else if counter > 2 {
        counter := counter - 1;
        x, ac, q := n.x, n.ac, n.q;
        out := n.q % MODULUS;
      } else if counter > 1 {
        counter := counter - 1;
        rootIn := RootIn(i.exp, n);
      } else if counter > 0 {
        counter := counter - 1;
        if !special {
          var r := i.round(rootIn, expIn);
          if r.sig == 0 {
            out := if i.rm == 2 then 0x8000_0000 else 0;
          } else if r.exp < -126 {
            out := r.sig % 0x80_0000;
          } else if r.exp > 127 {
            out := Infinity(i.rm);
          } else {
            var qExp := r.exp + 127;
            out := qExp % 256 * 0x80_0000 + r.sig % 0x80_0000;
          }
        }
        special := false;
      }
    }
  }

  function SqrtRun(s: SqrtState, i: SqrtIn, n: nat): SqrtState {
    if n == 0 then s else SqrtNext(SqrtRun(s, i, n - 1), i)
  }

  /** A positive finite operand, held while the unit is enabled. */
  predicate Regular(i: SqrtIn) {
    i.enable && !i.reset && !i.propagate && !i.infinite && i.rs1 < 0x8000_0000 && 0 <= i.sig < 0x100_0000
  }

  lemma {:induction false} Iterating(s: SqrtState, i: SqrtIn, n: nat)
    requires s.counter == 0 && Regular(i) && 1 <= n <= 25
    ensures var r := SqrtRun(s, i, n);
            && r.counter == 27 - n && !r.special && r.expIn == i.exp / 2
            && r.work == RootSteps(RootStart(SqrtSig(i)), n - 1) && r.out == r.work.q % MODULUS
  {
    hide RootStep, RootStart, RootIn;
    if n == 1 {
      assert SqrtRun(s, i, 0) == s;
      StartsAtZero(SqrtSig(i));
    } else {
      Iterating(s, i, n - 1);
    }
  }

  lemma StartsAtZero(sig: int)
    ensures RootStart(sig).q == 0
  {
  }

  /** While it works the unit shows the digits found so far: after n clocks the floor root of the first n - 1 bit pairs. */
  lemma SqrtShowsDigits(s: SqrtState, i: SqrtIn, n: nat)
    requires s.counter == 0 && Regular(i) && 1 <= n <= 25
    ensures IsRoot(SqrtRun(s, i, n).out, SqrtSig(i) * Arith.Pow2(2 * (n - 1)) / BITS26)
  {
    hide RootStep, RootSteps, RootStart, RootIn, IsRoot, Radicand, Rest, SqrtRun;
    var sig := SqrtSig(i);
    Iterating(s, i, n);
    RootInvariant(sig, n - 1);
    var w := RootSteps(RootStart(sig), n - 1);
    RootStaysSmall(w.q, sig, n - 1);
    NonNegative(w.q, Radicand(sig, n - 1));
    RadicandIsPrefix(sig, n - 1);
    Arith.DivModUnique(sig * Arith.Pow2(2 * (n - 1)), BITS26, Radicand(sig, n - 1), Rest(sig, n - 1));
  }

  /** Disabling the unit for a clock abandons whatever it was doing; the next operand is taken as from idle. */
  lemma SqrtAbandons(s: SqrtState, j: SqrtIn, i: SqrtIn)
    requires !j.enable && Regular(i)
    ensures var t := SqrtRun(SqrtNext(s, j), i, 26);
            t.counter == 1 && IsRoot(t.rootIn / BITS26, if i.exp % 2 == 0 then i.sig * 0x80_0000 else i.sig * 0x100_0000)
  {
    hide RootStep, RootStart, IsRoot, RootIn, IsSquare, SqrtRun;
    SqrtHandsOver(SqrtNext(s, j), i, 26);
  }

  /** Halving a floor root gives the floor root of a quarter of the radicand. */
  lemma HalfRoot(q: int, r: int)
    requires IsRoot(q, 4 * r)
    ensures IsRoot(q / 2, r)
  {
    var h := q / 2;
    SquareLe(2 * h, q);
    SquareLe(q + 1, 2 * h + 2);
    Quadruple(h);
    Quadruple(h + 1);
  }

  lemma Quadruple(h: int)
    ensures (2 * h) * (2 * h) == 4 * (h * h)
  {
  }

  lemma RootBelow(q: int, r: int, b: int)
    requires IsRoot(q, r) && b >= 0 && r < b * b
    ensures q < b
  {
    if q >= b { SquareLe(b, q); }
  }

  lemma RemainderRange(q: int, r: int)
    requires IsRoot(q, r)
    ensures 0 <= r - q * q <= 2 * q
  {
    assert (q + 1) * (q + 1) == q * q + 2 * q + 1;
  }

  predicate IsSquare(r: int) {
    exists k: nat | k <= r :: k * k == r
  }

  /** The remainder vanishes exactly on perfect squares. */
  lemma ExactRoot(q: int, r: int)
    requires IsRoot(q, r)
    ensures q * q == r <==> IsSquare(r)
  {
    if q * q == r {
      assert q <= r by { if q > 0 { Arith.MulLe(1, q, q); } }
    }
    if k: nat :| k <= r && k * k == r {
      if k < q { SquareLe(k + 1, q); assert (k + 1) * (k + 1) == k * k + 2 * k + 1; }
      if k > q { SquareLe(q + 1, k); }
    }
  }

  /** Nothing is lost when root and remainder are packed into 24 and 26 bits. */
  lemma PackedFields(exp: int, w: Work)
    requires 0 <= w.ac / 4 < BITS26 && 0 <= (if exp % 2 == 0 then w.q / 2 else w.q) < 0x100_0000
    ensures RootIn(exp, w) / BITS26 == (if exp % 2 == 0 then w.q / 2 else w.q)
    ensures RootIn(exp, w) % BITS26 == w.ac / 4
  {
  }

  /** Twenty-six clocks after an operand is taken, the rounding input holds the floor root (of sig * 2^24 when the
      exponent is odd, of sig * 2^23 when it is even) over the remainder of the 25-bit root, which is zero
      exactly when the radicand is a perfect square. */
  lemma SqrtHandsOver(s: SqrtState, i: SqrtIn, n: nat)
    requires s.counter == 0 && Regular(i) && n == 26
    ensures var r := SqrtRun(s, i, n);
            var root, rem := r.rootIn / BITS26, r.rootIn % BITS26;
            && r.counter == 1 && !r.special && r.expIn == i.exp / 2
            && IsRoot(root, if i.exp % 2 == 0 then i.sig * 0x80_0000 else i.sig * 0x100_0000)
            && (rem == 0 <==> IsSquare(SqrtSig(i) * 0x100_0000))
            && (i.exp % 2 != 0 ==> rem == i.sig * 0x100_0000 - root * root)
  {
    hide RootStep, RootStart, IsRoot, RootIn, IsSquare;
    Iterating(s, i, n - 1);
    var sig := SqrtSig(i);
    var w := RootSteps(RootStart(sig), n - 1);
    assert w == RootStep(RootSteps(RootStart(sig), n - 2));
    assert SqrtRun(s, i, n).rootIn == RootIn(i.exp, w);
    RootIsFloor(sig, n - 1);
    var r := sig * 0x100_0000;
    RemainderRange(w.q, r);
    ExactRoot(w.q, r);
    RootBelow(w.q, r, 0x200_0000);
    PackedRoot(i, w);
    PackedFields(i.exp, w);
  }

  lemma PackedRoot(i: SqrtIn, w: Work)
    requires Regular(i) && IsRoot(w.q, SqrtSig(i) * 0x100_0000)
    ensures var h := if i.exp % 2 == 0 then w.q / 2 else w.q;
            && 0 <= h < 0x100_0000
            && IsRoot(h, if i.exp % 2 == 0 then i.sig * 0x80_0000 else i.sig * 0x100_0000)
  {
    hide IsRoot;
    NonNegative(w.q, SqrtSig(i) * 0x100_0000);
    if i.exp % 2 == 0 {
      HalfRoot(w.q, i.sig * 0x80_0000);
      RootBelow(w.q / 2, i.sig * 0x80_0000, 0x100_0000);
    } else {
      RootBelow(w.q, i.sig * 0x100_0000, 0x100_0000);
    }
  }

  /** Twenty-seven clocks after an operand is taken the unit is idle again and shows the rounded root: zero, a positive
      normal number with the rounded exponent and fraction, a subnormal, or on overflow infinity or the largest number. */
  lemma SqrtResult(s: SqrtState, i: SqrtIn, n: nat)
    requires s.counter == 0 && Regular(i) && n == 27
    ensures var h := SqrtRun(s, i, 26).rootIn; var r := i.round(h, i.exp / 2); var t := SqrtRun(s, i, n);
            && IsRoot(h / BITS26, if i.exp % 2 == 0 then i.sig * 0x80_0000 else i.sig * 0x100_0000)
            && (h % BITS26 == 0 <==> IsSquare(SqrtSig(i) * 0x100_0000))
            && t.counter == 0
            && (r.sig == 0 ==> t.out == if i.rm == 2 then 0x8000_0000 else 0)
            && (r.sig != 0 && -126 <= r.exp <= 127 ==>
                  t.out < 0x8000_0000 && t.out / 0x80_0000 == r.exp + 127 && t.out % 0x80_0000 == r.sig % 0x80_0000)
            && (r.sig != 0 && r.exp < -126 ==> t.out == r.sig % 0x80_0000)
            && (r.sig != 0 && r.exp > 127 ==> t.out == if i.rm == 1 || i.rm == 2 then 0x7F7F_FFFF else 0x7F80_0000)
  {
    hide RootStep, RootStart, IsRoot, RootIn, IsSquare, SqrtRun;
    SqrtHandsOver(s, i, n - 1);
    RunStep(s, i, n);
    var r := i.round(SqrtRun(s, i, 26).rootIn, i.exp / 2);
    if r.sig != 0 { PackFields(i.rm, r); }
  }

  lemma RunStep(s: SqrtState, i: SqrtIn, n: nat)
    requires n > 0
    ensures SqrtRun(s, i, n) == SqrtNext(SqrtRun(s, i, n - 1), i)
  {
    hide SqrtNext;
  }

  /** NaN, zero and infinity come back as they are, other negative operands as the quiet NaN, after two clocks. */
  lemma SqrtSpecial(s: SqrtState, i: SqrtIn, n: nat)
    requires s.counter == 0 && i.enable && !i.reset && n == 2
    requires i.propagate || i.infinite || i.rs1 >= 0x8000_0000
    ensures var t := SqrtRun(s, i, n);
            t.counter == 0 && t.out == if i.propagate || i.rs1 < 0x8000_0000 then i.rs1 else 0xFFC0_0000
  {
    hide RootStep, RootStart, RootIn, Pack;
    RunStep(s, i, 2);
    RunStep(s, i, 1);
    assert SqrtRun(s, i, 0) == s;
  }
}
