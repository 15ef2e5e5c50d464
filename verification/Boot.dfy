/** When holding reset for thirty-five clocks puts a powered-up machine into a state `Runs` starts from. */
module Boot {
  import opened Arith
  import opened Words
  import opened Decoder
  import opened Divider
  import opened Datapath
  import opened Pipeline
  import opened Runs

  /** A mask that shifts out one bit and leaves an even rest behind: its lowest set bit has a clear bit above it. */
  predicate Drains(msk: nat) {
    msk > 0 && if msk % 2 == 1 then msk / 2 % 2 == 0 else Drains(msk / 2)
  }

  /** EE_quotientMsk has no reset: while busy it must drain, while idle its low bit must be clear. */
  predicate NotWedged(e: DivReg) {
    if e.busy then Drains(e.msk) && e.msk < MODULUS else e.msk % 2 == 0
  }

  /** The divider starts a division, and reloads its mask, at the next edge. */
  predicate Starts(c: Core, s: State) {
    s.de.f.isDIV && !DataHazard(c, s) && !s.ee.busy && !s.ee.finished
  }

  /** The states from which reset recovers. */
  predicate Recovers(c: Core, s: State) {
    NotWedged(s.ee) || Starts(c, s)
  }

  function ResetRun(c: Core, s: State, ins: nat -> Input, n: nat): State {
    if n == 0 then s else Next(c, ResetRun(c, s, ins, n - 1), ins(n - 1))
  }

  predicate FrontHeld(s: State) {
    s.fe.fdNop && s.fe.pc == 0
  }

  predicate DecodeHeld(s: State) {
    FrontHeld(s) && s.de.nop && s.de.f == BUBBLE
  }

  predicate BackClear(s: State) {
    s.em.nop && !s.em.isLoad && !s.em.isStore && !s.em.isCSR && !s.em.correctPC && !s.em.wbEnable
  }

  /** Clocks until the divider is idle. */
  function Settling(e: DivReg): nat {
    if e.busy then Ticks(e) + 1 else if e.finished then 1 else 0
  }

  lemma {:induction false} OneHotDrains(m: nat)
    requires OneHot(m)
    ensures Drains(m)
    decreases m
  {
    if m > 1 { OneHotDrains(m / 2); }
  }

  /** A mask of at most n bits keeps the divider busy for at most n clocks. */
  lemma {:induction false} TicksBound(e: DivReg, n: nat)
    requires e.msk < Pow2(n)
    ensures Ticks(e) <= n
    decreases n
  {
    if e.busy && e.msk > 0 { TicksBound(DivTick(e), n - 1); }
  }

  lemma TicksOfWord(e: DivReg)
    requires e.msk < MODULUS
    ensures Ticks(e) <= 32
  {
    Pow2Table();
    TicksBound(e, 32);
  }

  /** One clock of the divider; a division begun with an odd mask is as good as any. */
  lemma DividerResetTick(c: Core, s: State)
    requires Recovers(c, s)
    ensures NotWedged(NextDivider(c, s)) && Settling(NextDivider(c, s)) <= 33
    ensures !s.de.f.isDIV ==> Settling(NextDivider(c, s)) <= if Settling(s.ee) > 0 then Settling(s.ee) - 1 else 0
  {
    hide Magnitude, SignOut, DataHazard;
    MaskOneHot();
    OneHotDrains(0x8000_0000);
    var e := NextDivider(c, s);
    if e.busy { TicksOfWord(e); }
    if s.ee.busy { assert Ticks(s.ee) == 1 + Ticks(DivTick(s.ee)); }
  }

  lemma ResetTick(c: Core, s: State, i: Input)
    requires i.reset
    ensures var n := Next(c, s, i);
            && n.ee == NextDivider(c, s) && FrontHeld(n) && n.regs == seq(32, _ => 0)
            && (FrontHeld(s) ==> DecodeHeld(n))
            && (DecodeHeld(s) ==> BackClear(n))
            && (BackClear(s) ==> n.mw.nop && !n.mw.wbEnable)
  {
    hide ExecResult, FetchPC, PCCorrection, StoreRam, FlagsOf, NextDivider;
  }

  lemma {:induction false} ResetProgress(c: Core, s: State, ins: nat -> Input, n: nat)
    requires Recovers(c, s) && n >= 1 && forall k: nat | k < n :: ins(k).reset
    ensures var r := ResetRun(c, s, ins, n);
            && NotWedged(r.ee) && FrontHeld(r) && r.regs == seq(32, _ => 0)
            && (n >= 2 ==> DecodeHeld(r) && Settling(r.ee) <= if n <= 35 then 35 - n else 0)
            && (n >= 3 ==> BackClear(r))
            && (n >= 4 ==> r.mw.nop && !r.mw.wbEnable)
  {
    hide Next, NextDivider, NotWedged, FrontHeld, DecodeHeld, BackClear, Starts;
    var p := ResetRun(c, s, ins, n - 1);
    if n > 1 { ResetProgress(c, s, ins, n - 1); }
    ResetTick(c, p, ins(n - 1));
    DividerResetTick(c, p);
    if n > 2 { NoDivision(p); }
  }

  lemma NoDivision(s: State)
    requires DecodeHeld(s)
    ensures !s.de.f.isDIV
  {
  }

  // ------------------------------------------------------------ the states that never recover

  /** Not idle, and bound to stay so: nothing but the start of a division writes the mask of an idle divider. */
  predicate Stuck(e: DivReg) {
    if e.busy then !Drains(e.msk) else e.msk % 2 == 1 && e.finished
  }

  lemma StuckTick(c: Core, s: State)
    requires s.ee.msk < MODULUS
    requires Stuck(s.ee) || !Recovers(c, s)
    ensures Stuck(NextDivider(c, s)) && NextDivider(c, s).msk < MODULUS
  {
    hide Magnitude, SignOut, DataHazard;
  }

  /** Whatever the inputs, with or without reset. */
  lemma {:induction false} NeverRecovers(c: Core, s: State, ins: nat -> Input, n: nat)
    requires s.ee.msk < MODULUS && !Recovers(c, s)
    ensures var e := ResetRun(c, s, ins, n).ee;
            e.msk < MODULUS && !DividerIdle(e) && (n > 0 ==> Stuck(e))
  {
    hide Next, NextDivider;
    if n == 0 {
      assert !NotWedged(s.ee);
    } else {
      NeverRecovers(c, s, ins, n - 1);
      var p := ResetRun(c, s, ins, n - 1);
      StuckTick(c, p);
      NextDividerOf(c, p, ins(n - 1));
    }
  }

  lemma NextDividerOf(c: Core, s: State, i: Input)
    ensures Next(c, s, i).ee == NextDivider(c, s)
  {
  }

  // ------------------------------------------------------------ the exact condition

  /** Thirty-five clocks of reset, or more, empty a machine exactly when its divider recovers; from any other state it
      is never idle again.  The registers are zero in either case. */
  lemma ResetBoots(c: Core, s: State, ins: nat -> Input, n: nat)
    requires s.ee.msk < MODULUS && n >= 35 && forall k: nat | k < n :: ins(k).reset
    ensures Booted(ResetRun(c, s, ins, n)) <==> Recovers(c, s)
    ensures ResetRun(c, s, ins, n).regs == seq(32, _ => 0)
  {
    hide Next, Recovers, NotWedged;
    if Recovers(c, s) {
      ResetProgress(c, s, ins, n);
      BootedWhenSettled(ResetRun(c, s, ins, n));
    } else {
      NeverRecovers(c, s, ins, n);
    }
    ResetTick(c, ResetRun(c, s, ins, n - 1), ins(n - 1));
  }

  lemma BootedWhenSettled(r: State)
    requires NotWedged(r.ee) && DecodeHeld(r) && Settling(r.ee) == 0 && BackClear(r) && r.mw.nop && !r.mw.wbEnable
    ensures Booted(r)
  {
  }

  /** At power-up EE_divBusy and EE_divFinished are clear: reset then boots the machine exactly when the low bit of the
      uninitialised mask is clear, or the uninitialised DE stage starts a division. */
  lemma PowerUpBoots(c: Core, s: State, ins: nat -> Input, n: nat)
    requires !s.ee.busy && !s.ee.finished && s.ee.msk < MODULUS
    requires n >= 35 && forall k: nat | k < n :: ins(k).reset
    ensures Booted(ResetRun(c, s, ins, n)) <==> s.ee.msk % 2 == 0 || (s.de.f.isDIV && !DataHazard(c, s))
  {
    hide ResetRun, Booted, DataHazard;
    ResetBoots(c, s, ins, n);
  }

  /** With an empty DE stage and a mask of 1 at power-up, no reset ever boots the machine. */
  lemma PowerUpWedges(c: Core, s: State, ins: nat -> Input, n: nat)
    requires s.ee == DivReg(0, 0, 0, 1, false, false, false) && s.de.f == BUBBLE
    ensures !Booted(ResetRun(c, s, ins, n))
  {
    hide ResetRun, DataHazard;
    NeverRecovers(c, s, ins, n);
  }
}
