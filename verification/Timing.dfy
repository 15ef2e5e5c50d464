/** Exactly how long a run takes, and that it never stops making progress. */
module Timing {
  import opened Words
  import opened Divider
  import opened Datapath
  import opened Pipeline
  import opened Refinement
  import opened Runs

  /** What has cost extra clocks so far: divisions that reached the execute stage, mispredictions
      corrected, and data-hazard bubbles inserted. */
  datatype Costs = Costs(divides: nat, redirects: nat, hazards: nat)

  function CostsUpTo(c: Core, w: World, s0: State, t: nat): Costs {
    if t == 0 then Costs(0, 0, 0)
    else
      var m := Run(c, w, s0, t - 1);
      var k := CostsUpTo(c, w, s0, t - 1);
      var n := Run(c, w, s0, t);
      Costs(k.divides + Bit((m.s.de.nop || Issue(m.s)) && n.s.de.f.isDIV),
            k.redirects + Bit(CorrectPC(c, m.s)),
            k.hazards + Bit(DataHazard(c, m.s)))
  }

  /** Clocks before the next instruction can leave the execute stage, as far as DE and FD tell. */
  function Owed(s: State): nat {
    if s.de.nop then (if s.fe.fdNop then 2 else 1)
    else if s.ee.busy then Ticks(s.ee)
    else if s.de.f.isDIV && !s.ee.finished then 33
    else 0
  }

  lemma OwedBusy(c: Core, s: State, a: Arch, i: Input, xm: Word, xe: Word)
    requires Inv(c, s, a, xm) && AluBusy(s) && Clean(i, xm, xe)
    ensures !s.de.nop && !Next(c, s, i).de.nop && Owed(Next(c, s, i)) + 1 == Owed(s)
    ensures !CorrectPC(c, s) && !DataHazard(c, s)
  {
    hide ExecResult, FetchPC, PCCorrection, PredictedNext, StoreRam, Magnitude, SignOut;
    DivideStarts(c, s, a, xm);
    DivisionLength(s.de.d.f3, ERs1(s), ERs2(s));
    assert Next(c, s, i).de == s.de;
    MaskOneHot();
    if s.ee.busy {
      assert Ticks(s.ee) == 1 + Ticks(DivTick(s.ee));
      assert NextDivider(c, s) == DivTick(s.ee);
    } else {
      assert NextDivider(c, s) == DivStart(s.de.d.f3, ERs1(s), ERs2(s));
    }
  }

  lemma OwedBubble(c: Core, s: State, a: Arch, i: Input, xm: Word, xe: Word)
    requires Inv(c, s, a, xm) && s.de.nop && Clean(i, xm, xe)
    ensures Owed(Next(c, s, i)) + 1 == Owed(s) + 33 * Bit(Next(c, s, i).de.f.isDIV)
    ensures Next(c, s, i).de.nop ==> !Next(c, s, i).de.f.isDIV
    ensures !CorrectPC(c, s) && !DataHazard(c, s)
  {
    hide ExecResult, FetchPC, PCCorrection, PredictedNext, StoreRam;
    assert !Stall(c, s, i);
  }

  lemma OwedIssue(c: Core, s: State, a: Arch, i: Input, xm: Word, xe: Word)
    requires Inv(c, s, a, xm) && Issue(s) && Clean(i, xm, xe)
    ensures Owed(Next(c, s, i)) == 2 * Bit(CorrectPC(c, s)) + Bit(DataHazard(c, s)) + 33 * Bit(Next(c, s, i).de.f.isDIV)
    ensures Owed(s) == 0
  {
    hide ExecResult, FetchPC, PCCorrection, PredictedNext, StoreRam;
    BranchResolution(c, s, a, xm);
    assert !NextDivider(c, s).busy && !NextDivider(c, s).finished;
  }

  /** Every clock is accounted for: up to the boot delay of two and the debt of the instruction in DE, the clocks
      elapsed are one per instruction executed, 33 more per division, two per misprediction, one per hazard. */
  lemma {:induction false} CycleAccount(c: Core, w: World, s0: State, t: nat)
    requires Booted(s0) && StaysInRom(c, w, s0, t)
    ensures var m, k := Run(c, w, s0, t), CostsUpTo(c, w, s0, t);
            t + Owed(m.s) == m.issued + 33 * k.divides + 2 * (k.redirects + 1) + k.hazards
  {
    hide RunInv, Run, StaysInRom, Owed;
    if t == 0 {
      AccountStart(c, w, s0);
    } else {
      StaysShorter(c, w, s0, t);
      CycleAccount(c, w, s0, t - 1);
      RunInvariant(c, w, s0, t - 1);
      AccountTick(c, w, s0, t);
    }
  }

  lemma AccountStart(c: Core, w: World, s0: State)
    requires Booted(s0)
    ensures Run(c, w, s0, 0).issued == 0 && Owed(Run(c, w, s0, 0).s) == 2
  {
  }

  lemma AccountTick(c: Core, w: World, s0: State, t: nat)
    requires t > 0 && RunInv(c, w, s0, Run(c, w, s0, t - 1))
    ensures var m, n := Run(c, w, s0, t - 1), Run(c, w, s0, t);
            var k, l := CostsUpTo(c, w, s0, t - 1), CostsUpTo(c, w, s0, t);
            && n.issued == m.issued + Bit(Issue(m.s))
            && 1 + Owed(n.s) + 33 * k.divides + 2 * k.redirects + k.hazards
               == Owed(m.s) + Bit(Issue(m.s)) + 33 * l.divides + 2 * l.redirects + l.hazards
  {
    hide Inv, Next, Spec, Owed, Behind, AluBusy;
    var m := Run(c, w, s0, t - 1);
    var a := Spec(c, w, s0, m.issued);
    var i := InputAt(w, t - 1, m.issued);
    var xm, xe := Last(w, m.issued), w.ext(m.issued);
    if m.s.de.nop {
      OwedBubble(c, m.s, a, i, xm, xe);
    } else if AluBusy(m.s) {
      OwedBusy(c, m.s, a, i, xm, xe);
    } else {
      OwedIssue(c, m.s, a, i, xm, xe);
    }
  }

  // ------------------------------------------------------------ progress

  /** An upper bound on the wait for the next instruction to leave the execute stage. */
  function Wait(s: State): nat {
    Owed(s) + if s.de.nop then 33 else 0
  }

  lemma {:induction false} WaitElapses(c: Core, w: World, s0: State, t: nat) returns (u: nat)
    requires Booted(s0) && StaysInRom(c, w, s0, t + Wait(Run(c, w, s0, t).s))
    ensures t <= u <= t + Wait(Run(c, w, s0, t).s) && Issue(Run(c, w, s0, u).s)
    decreases Wait(Run(c, w, s0, t).s)
  {
    var m := Run(c, w, s0, t);
    RunInvariant(c, w, s0, t);
    u := t;
    if !Issue(m.s) {
      WaitShrinks(c, w, s0, t);
      u := WaitElapses(c, w, s0, t + 1);
    }
  }

  lemma WaitShrinks(c: Core, w: World, s0: State, t: nat)
    requires RunInv(c, w, s0, Run(c, w, s0, t)) && !Issue(Run(c, w, s0, t).s)
    ensures Wait(Run(c, w, s0, t + 1).s) < Wait(Run(c, w, s0, t).s)
  {
    hide Inv, Next, Spec, Owed, Behind, AluBusy;
    var m := Run(c, w, s0, t);
    var a := Spec(c, w, s0, m.issued);
    var i := InputAt(w, t, m.issued);
    var xm, xe := Last(w, m.issued), w.ext(m.issued);
    if m.s.de.nop {
      OwedBubble(c, m.s, a, i, xm, xe);
    } else {
      OwedBusy(c, m.s, a, i, xm, xe);
    }
  }

  lemma {:induction false} RetiredGrows(c: Core, w: World, s0: State, t: nat, u: nat)
    requires t <= u
    ensures Run(c, w, s0, t).retired <= Run(c, w, s0, u).retired
    decreases u
  {
    hide Next;
    if t < u { RetiredGrows(c, w, s0, t, u - 1); }
  }

  /** From every reachable state another instruction retires within thirty-eight clocks. */
  lemma KeepsRetiring(c: Core, w: World, s0: State, t: nat)
    requires Booted(s0) && StaysInRom(c, w, s0, t + 38)
    ensures Run(c, w, s0, t + 38).retired > Run(c, w, s0, t).retired
  {
    hide Run, Spec, RunInv, Owed;
    RunInvariant(c, w, s0, t);
    WaitBound(c, w, s0, t);
    var u := WaitElapses(c, w, s0, t);
    StageOccupancy(c, w, s0, u);
    RetiresTwoClocksLater(c, w, s0, u + 1);
    RetiredGrows(c, w, s0, u + 3, t + 38);
    IssuedGrows(c, w, s0, t, u);
    RetiredAtMostIssued(c, w, s0, t);
  }

  lemma RetiredAtMostIssued(c: Core, w: World, s0: State, t: nat)
    requires RunInv(c, w, s0, Run(c, w, s0, t))
    ensures Run(c, w, s0, t).retired <= Run(c, w, s0, t).issued
  {
  }

  lemma WaitBound(c: Core, w: World, s0: State, t: nat)
    requires RunInv(c, w, s0, Run(c, w, s0, t))
    ensures Wait(Run(c, w, s0, t).s) <= 35
  {
    hide Run, Spec, Behind;
  }
}
