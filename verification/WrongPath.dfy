/** What is fetched off the correct path has no influence on anything: two machines whose ROMs agree
    only on the instructions actually executed, and whose wild fetches return different noise, behave alike. */
module WrongPath {
  import opened Words
  import opened Datapath
  import opened Pipeline
  import opened Refinement
  import opened Runs

  /** Equal but for the contents of empty latches, of a doomed FD, and of an idle divider. */
  predicate Twins(s1: State, s2: State) {
    && s1.ras == s2.ras && s1.bht == s2.bht && s1.hist == s2.hist
    && s1.regs == s2.regs && s1.mem == s2.mem && s1.io == s2.io
    && s1.fe.fdNop == s2.fe.fdNop
    && s1.de.nop == s2.de.nop && (!s1.de.nop ==> s1.de == s2.de)
    && s1.em.nop == s2.em.nop && (!s1.em.nop ==> s1.em == s2.em)
    && s1.mw.nop == s2.mw.nop && (!s1.mw.nop ==> s1.mw == s2.mw)
    && s1.ee.busy == s2.ee.busy && s1.ee.finished == s2.ee.finished
    && (s1.ee.busy || s1.ee.finished ==> s1.ee == s2.ee)
  }

  ghost predicate SameUnits(c1: Core, c2: Core) {
    c2 == c1.(rom := c2.rom)
  }

  /** A valid FD on the correct path holds the next instruction of the sequential execution. */
  lemma FdHoldsNext(c: Core, s: State, a: Arch, x: Word)
    requires Inv(c, s, a, x) && InRom(c, a.pc) && InRom(c, NextPc(c, a))
    ensures s.de.nop && !s.fe.fdNop ==> s.fe.fdPc == a.pc && D(c, s) == Fetched(c, a)
    ensures Issue(s) && !CorrectPC(c, s) && !s.de.f.isEBREAK ==>
              s.fe.fdPc == NextPc(c, a) && D(c, s) == c.decode(c.rom[WordIndex(NextPc(c, a))])
  {
    if Issue(s) { BranchResolution(c, s, a, x); }
  }

  lemma ExecuteAlike(c1: Core, c2: Core, s1: State, s2: State)
    requires SameUnits(c1, c2) && Twins(s1, s2) && !s1.de.nop
    requires s1.em.nop ==> !s1.em.wbEnable && !s2.em.wbEnable
    requires s1.mw.nop ==> !s1.mw.wbEnable && !s2.mw.wbEnable
    ensures ERs1(s1) == ERs1(s2) && ERs2(s1) == ERs2(s2)
    ensures CorrectPC(c1, s1) == CorrectPC(c2, s2) && TakeBranch(c1, s1) == TakeBranch(c2, s2)
    ensures AluBusy(s1) == AluBusy(s2)
  {
  }

  lemma BackEndAlike(c1: Core, c2: Core, s1: State, s2: State, i1: Input, i2: Input, a: Arch, xm: Word, xe: Word)
    requires SameUnits(c1, c2) && Twins(s1, s2) && Inv(c1, s1, a, xm) && Inv(c2, s2, a, xm)
    requires Clean(i1, xm, xe) && Clean(i2, xm, xe)
    ensures NextRegs(s1, i1) == NextRegs(s2, i2) && NextRam(c1, s1) == NextRam(c2, s2) && NextIo(s1) == NextIo(s2)
    ensures var m1, m2 := NextMem(c1, s1, i1), NextMem(c2, s2, i2); m1.nop == m2.nop && (!m1.nop ==> m1 == m2)
    ensures var m1, m2 := NextExec(c1, s1, i1), NextExec(c2, s2, i2); m1.nop == m2.nop && (!m1.nop ==> m1 == m2)
  {
    if !s1.de.nop { ExecuteAlike(c1, c2, s1, s2); }
  }

  lemma DividerAlike(c1: Core, c2: Core, s1: State, s2: State, i1: Input, i2: Input, a: Arch, xm: Word)
    requires SameUnits(c1, c2) && Twins(s1, s2) && Inv(c1, s1, a, xm) && Inv(c2, s2, a, xm)
    requires DataHazard(c1, s1) == DataHazard(c2, s2)
    ensures var e1, e2 := NextDivider(c1, s1), NextDivider(c2, s2);
            e1.busy == e2.busy && e1.finished == e2.finished && (e1.busy || e1.finished ==> e1 == e2)
  {
    if !s1.de.nop { ExecuteAlike(c1, c2, s1, s2); }
  }

  /** One clock keeps two such machines alike, although they may fetch different words. */
  lemma TwinTick(c1: Core, c2: Core, s1: State, s2: State, i1: Input, i2: Input, a: Arch, xm: Word, xe: Word)
    requires SameUnits(c1, c2) && Twins(s1, s2) && Inv(c1, s1, a, xm) && Inv(c2, s2, a, xm)
    requires Clean(i1, xm, xe) && Clean(i2, xm, xe)
    requires InRom(c1, a.pc) && InRom(c2, a.pc) && Fetched(c1, a) == Fetched(c2, a)
    requires NextPc(c1, a) == NextPc(c2, a) && InRom(c1, NextPc(c1, a)) && InRom(c2, NextPc(c1, a))
    requires c1.rom[WordIndex(NextPc(c1, a))] == c2.rom[WordIndex(NextPc(c1, a))]
    ensures Twins(Next(c1, s1, i1), Next(c2, s2, i2))
  {
    FdHoldsNext(c1, s1, a, xm);
    FdHoldsNext(c2, s2, a, xm);
    if !s1.de.nop { ExecuteAlike(c1, c2, s1, s2); }
    if AluBusy(s1) { DivideStarts(c1, s1, a, xm); }
    if Issue(s1) { BranchResolution(c1, s1, a, xm); BranchResolution(c2, s2, a, xm); }
    BackEndAlike(c1, c2, s1, s2, i1, i2, a, xm, xe);
    FrontEndAlike(c1, c2, s1, s2, i1, i2, a, xm, xe);
    DividerAlike(c1, c2, s1, s2, i1, i2, a, xm);
  }

  lemma FrontEndAlike(c1: Core, c2: Core, s1: State, s2: State, i1: Input, i2: Input, a: Arch, xm: Word, xe: Word)
    requires SameUnits(c1, c2) && Twins(s1, s2) && Inv(c1, s1, a, xm) && Inv(c2, s2, a, xm)
    requires Clean(i1, xm, xe) && Clean(i2, xm, xe)
    requires InRom(c1, a.pc) && InRom(c2, a.pc) && Fetched(c1, a) == Fetched(c2, a)
    requires NextPc(c1, a) == NextPc(c2, a) && InRom(c1, NextPc(c1, a)) && InRom(c2, NextPc(c1, a))
    requires c1.rom[WordIndex(NextPc(c1, a))] == c2.rom[WordIndex(NextPc(c1, a))]
    ensures DataHazard(c1, s1) == DataHazard(c2, s2)
    ensures NextRas(c1, s1, i1) == NextRas(c2, s2, i2)
    ensures NextHist(c1, s1) == NextHist(c2, s2) && NextBht(c1, s1) == NextBht(c2, s2)
    ensures NextFetch(c1, s1, i1).fdNop == NextFetch(c2, s2, i2).fdNop
    ensures var e1, e2 := NextDecode(c1, s1, i1), NextDecode(c2, s2, i2); e1.nop == e2.nop && (!e1.nop ==> e1 == e2)
  {
    hide ExecResult, StoreRam, RasStep, FetchPC, PredictedNext, Drained, DividerOk;
    FdHoldsNext(c1, s1, a, xm);
    FdHoldsNext(c2, s2, a, xm);
    if !s1.de.nop { ExecuteAlike(c1, c2, s1, s2); }
    if AluBusy(s1) { DivideStarts(c1, s1, a, xm); }
    if Issue(s1) { BranchResolution(c1, s1, a, xm); BranchResolution(c2, s2, a, xm); }
  }

  /** The two ROMs hold the same instruction wherever the sequential execution goes. */
  ghost predicate SamePath(c1: Core, c2: Core, w: World, s0: State, t: nat) {
    forall n: nat | n <= t ::
      var i := WordIndex(Spec(c1, w, s0, n).pc);
      i < |c1.rom| && i < |c2.rom| && c1.rom[i] == c2.rom[i]
  }

  lemma StepAlike(c1: Core, c2: Core, a: Arch, x: Word)
    requires SameUnits(c1, c2) && InRom(c1, a.pc) && InRom(c2, a.pc)
    requires c1.rom[WordIndex(a.pc)] == c2.rom[WordIndex(a.pc)]
    ensures Fetched(c1, a) == Fetched(c2, a) && NextPc(c1, a) == NextPc(c2, a) && Step(c1, a, x) == Step(c2, a, x)
  {
  }

  lemma {:induction false} SpecAlike(c1: Core, c2: Core, w1: World, w2: World, s1: State, s2: State, t: nat, n: nat)
    requires SameUnits(c1, c2) && w1.ext == w2.ext && InitialArch(s1) == InitialArch(s2)
    requires SamePath(c1, c2, w1, s1, t) && n <= t
    ensures Spec(c1, w1, s1, n) == Spec(c2, w2, s2, n)
    decreases n
  {
    hide Step;
    if n > 0 {
      SpecAlike(c1, c2, w1, w2, s1, s2, t, n - 1);
      StepAlike(c1, c2, Spec(c1, w1, s1, n - 1), w1.ext(n - 1));
      SpecStep(c1, w1, s1, n - 1);
      SpecStep(c2, w2, s2, n - 1);
    }
  }

  lemma RunTick(c1: Core, c2: Core, w1: World, w2: World, s1: State, s2: State, t: nat, m1: Sim, m2: Sim)
    requires SameUnits(c1, c2) && w1.ext == w2.ext && InitialArch(s1) == InitialArch(s2)
    requires SamePath(c1, c2, w1, s1, t + 1)
    requires RunInv(c1, w1, s1, m1) && RunInv(c2, w2, s2, m2) && m1.issued <= t
    requires m1.issued == m2.issued && m1.retired == m2.retired && Twins(m1.s, m2.s)
    ensures var n1, n2 := Tick(c1, w1, t, m1), Tick(c2, w2, t, m2);
            n1.issued == n2.issued && n1.retired == n2.retired && Twins(n1.s, n2.s)
  {
    hide Inv, Next, Spec, Step, Behind, Twins, SameUnits;
    var n := m1.issued;
    var a := Spec(c1, w1, s1, n);
    SpecAlike(c1, c2, w1, w2, s1, s2, t + 1, n);
    SpecAlike(c1, c2, w1, w2, s1, s2, t + 1, n + 1);
    SpecStep(c1, w1, s1, n);
    StepAlike(c1, c2, a, w1.ext(n));
    TwinTick(c1, c2, m1.s, m2.s, InputAt(w1, t, n), InputAt(w2, t, n), a, Last(w1, n), w1.ext(n));
    SameCounts(c1, c2, m1.s, m2.s, a, Last(w1, n));
  }

  lemma SameCounts(c1: Core, c2: Core, s1: State, s2: State, a: Arch, x: Word)
    requires Twins(s1, s2) && Inv(c1, s1, a, x) && Inv(c2, s2, a, x)
    ensures Issue(s1) == Issue(s2) && s1.mw.nop == s2.mw.nop
  {
  }

  /** Whatever a wrong-path fetch returns, from noise or from ROM words that are never executed, registers,
      memory, I/O, return stack, branch history table, history register and timing stay the same for ever. */
  lemma {:induction false} WrongPathLeavesNoTrace(
      c1: Core, c2: Core, w1: World, w2: World, s1: State, s2: State, t: nat)
    requires SameUnits(c1, c2) && w1.ext == w2.ext && SamePath(c1, c2, w1, s1, t)
    requires Booted(s1) && Booted(s2) && Twins(s1, s2)
    ensures var m1, m2 := Run(c1, w1, s1, t), Run(c2, w2, s2, t);
            && m1.issued == m2.issued && m1.retired == m2.retired
            && m1.s.regs == m2.s.regs && m1.s.mem == m2.s.mem && m1.s.io == m2.s.io
            && m1.s.ras == m2.s.ras && m1.s.bht == m2.s.bht && m1.s.hist == m2.s.hist
            && Twins(m1.s, m2.s)
  {
    hide Tick, RunInv, Spec, SameUnits;
    if t > 0 {
      WrongPathLeavesNoTrace(c1, c2, w1, w2, s1, s2, t - 1);
      PathsStay(c1, c2, w1, w2, s1, s2, t);
      RunInvariant(c1, w1, s1, t - 1);
      RunInvariant(c2, w2, s2, t - 1);
      RunTick(c1, c2, w1, w2, s1, s2, t - 1, Run(c1, w1, s1, t - 1), Run(c2, w2, s2, t - 1));
    }
  }

  lemma PathsStay(c1: Core, c2: Core, w1: World, w2: World, s1: State, s2: State, t: nat)
    requires SameUnits(c1, c2) && w1.ext == w2.ext && InitialArch(s1) == InitialArch(s2)
    requires t > 0 && SamePath(c1, c2, w1, s1, t)
    ensures StaysInRom(c1, w1, s1, t - 1) && StaysInRom(c2, w2, s2, t - 1)
  {
    hide Spec;
    forall n: nat | n <= t
      ensures InRom(c2, Spec(c2, w2, s2, n).pc)
    {
      SpecAlike(c1, c2, w1, w2, s1, s2, t, n);
    }
  }
}
