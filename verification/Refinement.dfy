/** The pipeline refines the sequential machine, clock by clock. */
module Refinement {
  import opened Words
  import opened Decoder
  import opened Divider
  import opened Datapath
  import opened Pipeline

  // ------------------------------------------------------------ abstraction: drain the back end

  function DrainedRegs(c: Core, s: State, x: Word): Regs {
    WriteBack(WriteBack(s.regs, s.mw.wbEnable, s.mw.rd, s.mw.data), s.em.wbEnable, s.em.rd, MWbData(c, s.em, x, x))
  }

  /** The architectural state once MW and EM have drained; `x` answers the EM instruction. */
  function Drained(c: Core, s: State, pc: Word, x: Word): Arch {
    Arch(pc, DrainedRegs(c, s, x), NextRam(c, s), NextIo(s))
  }

  /** The DE instruction leaves the execute stage at the next edge. */
  predicate Issue(s: State) {
    !s.de.nop && !AluBusy(s)
  }

  // ------------------------------------------------------------ invariant

  predicate FetchedFrom(c: Core, s: State) {
    && (InRom(c, s.fe.fdPc) ==> s.fe.fdInstr == c.rom[WordIndex(s.fe.fdPc)])
    && s.fe.pc == Add(s.fe.fdPc, 4)
  }

  /** Where fetch went after the instruction now in DE. */
  function PredictedNext(de: DecodeReg): Word {
    if de.f.isJAL then Add(de.pc, de.d.jimm)
    else if de.f.isJALR then de.predictRA
    else if de.f.isBranch && de.predictBranch then Add(de.pc, de.d.bimm)
    else Add(de.pc, 4)
  }

  /** The divider, `busy` clocks into the division of the DE instruction (or idle). */
  predicate DividerOk(s: State, a: Arch) {
    var start := DivStart(s.de.d.f3, Read(a.regs, s.de.d.rs1), Read(a.regs, s.de.d.rs2));
    if !s.de.f.isDIV || (!s.ee.busy && !s.ee.finished) then
      !s.ee.busy && !s.ee.finished && s.ee.msk % 2 == 0
    else
      Finish(s.ee) == Finish(start) && (if s.ee.busy then !s.ee.finished && OneHot(s.ee.msk) && Ticks(s.ee) <= 32 else s.ee.msk == 0)
  }

  /** Latches, interlocks and the fetch stream, relative to the next instruction to execute. */
  predicate ControlOk(c: Core, s: State, a: Arch) {
    && (s.em.nop ==> !s.em.isLoad && !s.em.isStore && !s.em.isCSR && !s.em.correctPC && !s.em.wbEnable)
    && (s.mw.nop ==> !s.mw.wbEnable)
    && (s.em.wbEnable ==> s.em.rd != 0)
    && (s.mw.wbEnable ==> s.mw.rd != 0)
    && (if s.de.nop then
          && s.de.f == BUBBLE
          && (if !s.fe.fdNop then s.fe.fdPc == a.pc && FetchedFrom(c, s) && !s.em.correctPC
              else if s.em.correctPC then s.em.pcCorrection == a.pc
              else s.fe.pc == a.pc)
        else
          && s.de.pc == a.pc && s.de.d == Fetched(c, a) && s.de.f == FlagsOf(s.de.d)
          && !s.fe.fdNop && !s.em.correctPC
          && (!s.de.f.isEBREAK ==> s.fe.fdPc == PredictedNext(s.de) && FetchedFrom(c, s))
          && (s.em.isLoad || s.em.isCSR ==>
                && (ReadsRs1(s.de.d) ==> s.de.d.rs1 != s.em.rd)
                && (ReadsRs2(s.de.d) ==> s.de.d.rs2 != s.em.rd))
          && (s.de.f.isLoad ==> !s.em.isStore))
  }

  /** `a` is the sequential state before the next instruction to execute. */
  predicate Inv(c: Core, s: State, a: Arch, x: Word) {
    && Drained(c, s, a.pc, x) == a
    && ControlOk(c, s, a)
    && DividerOk(s, a)
  }

  // ------------------------------------------------------------ operands

  /** Forwarding delivers the sequential machine's register value. */
  lemma OperandAgreement(c: Core, s: State, a: Arch, x: Word)
    requires Inv(c, s, a, x) && !s.de.nop
    ensures ReadsRs1(s.de.d) ==> ERs1(s) == Read(a.regs, s.de.d.rs1)
    ensures ReadsRs2(s.de.d) ==> ERs2(s) == Read(a.regs, s.de.d.rs2)
  {
  }

  // ------------------------------------------------------------ one clock

  /** A clean clock: no reset, and `xm`, `xe` answer the instructions in EM and DE. */
  predicate Clean(i: Input, xm: Word, xe: Word) {
    !i.reset && i.ioRead == xm && i.csrRead == xm && i.dmem == xe
  }

  /** While the divider holds DE, the rest of the machine drains and nothing else moves. */
  lemma DivideTick(c: Core, s: State, a: Arch, i: Input, xm: Word, xe: Word)
    requires Inv(c, s, a, xm) && AluBusy(s) && Clean(i, xm, xe)
    ensures Inv(c, Next(c, s, i), a, xm)
    ensures !s.de.nop && !Next(c, s, i).de.nop
  {
    hide ExecResult, FetchPC, PCCorrection, PredictedNext, StoreRam, Magnitude, SignOut, JalrTarget, TakeBranch, Even,
         NextRas, NextBht, NextHist, PredictPC, PCPrediction, OrBit;
    MaskOneHot();
    DivideStarts(c, s, a, xm);
    DivisionLength(s.de.d.f3, ERs1(s), ERs2(s));
    var n := Next(c, s, i);
    assert n.de == s.de && n.fe == s.fe;
  }

  lemma DivideStarts(c: Core, s: State, a: Arch, x: Word)
    requires Inv(c, s, a, x) && AluBusy(s)
    ensures s.de.f.isDIV && !s.de.nop && !s.de.f.isJALR && !s.de.f.isBranch && !s.de.f.isEBREAK
    ensures !s.de.f.isLoad && !s.de.f.isStore && !s.de.f.isCSR
    ensures ERs1(s) == Read(a.regs, s.de.d.rs1) || s.ee.busy
    ensures ERs2(s) == Read(a.regs, s.de.d.rs2) || s.ee.busy
  {
    OperandAgreement(c, s, a, x);
  }

  /** The value travelling down the pipe from DE is the one the sequential machine writes. */
  lemma ResultAgreement(c: Core, s: State, a: Arch, i: Input, xm: Word, xe: Word)
    requires Inv(c, s, a, xm) && Issue(s) && Clean(i, xm, xe)
    ensures s.de.f.wbEnable ==> MWbData(c, NextExec(c, s, i), xe, xe) == RdValue(c, a, xe)
  {
    hide DivOut, JalrTarget, CorrectPC, PCCorrection, PredictedNext, StoreRam, Even, DataHazard, NextRegs,
         FetchedFrom, Forward, ERs1, ERs2;
    OperandAgreement(c, s, a, xm);
    assert s.de.f.isDIV ==> s.ee == Finish(DivStart(s.de.d.f3, Read(a.regs, s.de.d.rs1), Read(a.regs, s.de.d.rs2)));
    assert s.de.f.isLoad ==> s.mem == a.mem;
  }

  /** Registers, memory and I/O after the DE instruction has left the execute stage. */
  lemma IssueEffects(c: Core, s: State, a: Arch, i: Input, xm: Word, xe: Word)
    requires Inv(c, s, a, xm) && Issue(s) && Clean(i, xm, xe)
    ensures Drained(c, Next(c, s, i), NextPc(c, a), xe) == Step(c, a, xe)
  {
    hide Finish, DivStart, DivOut, JalrTarget, CorrectPC, PCCorrection, PredictedNext, Even, DataHazard, FetchedFrom,
         NextFetch, NextDecode, NextDivider, NextRas, NextBht, NextHist, RdValue, MWbData, ExecResult, Forward, ERs1, ERs2;
    var n := Next(c, s, i);
    OperandAgreement(c, s, a, xm);
    ResultAgreement(c, s, a, i, xm, xe);
    assert WriteBack(n.regs, n.mw.wbEnable, n.mw.rd, n.mw.data) == a.regs;
    assert n.mem == a.mem && n.io == a.io;
  }

  /** Either fetch is already where the sequential machine goes next, or the correction sends it there. */
  lemma BranchResolution(c: Core, s: State, a: Arch, x: Word)
    requires Inv(c, s, a, x) && Issue(s)
    ensures CorrectPC(c, s) ==> PCCorrection(s) == NextPc(c, a)
    ensures !CorrectPC(c, s) && !s.de.f.isEBREAK ==> PredictedNext(s.de) == NextPc(c, a)
    ensures s.de.f.isEBREAK ==> a.pc == NextPc(c, a)
    ensures CorrectPC(c, s) ==> !DataHazard(c, s) && !s.de.f.isEBREAK
  {
    OperandAgreement(c, s, a, x);
  }

  lemma IssueDivider(c: Core, s: State, a: Arch, i: Input, xm: Word, xe: Word)
    requires Inv(c, s, a, xm) && Issue(s) && Clean(i, xm, xe)
    ensures DividerOk(Next(c, s, i), Step(c, a, xe))
  {
    assert s.de.f.isDIV ==> !s.de.f.isEBREAK;
    var e := NextDivider(c, s);
    assert !e.busy && !e.finished && e.msk % 2 == 0;
  }

  /** Prediction, correction and interlocks leave the front end on the path the sequential machine takes. */
  lemma IssueControl(c: Core, s: State, a: Arch, i: Input, xm: Word, xe: Word)
    requires Inv(c, s, a, xm) && Issue(s) && Clean(i, xm, xe) && InRom(c, NextPc(c, a))
    ensures ControlOk(c, Next(c, s, i), Step(c, a, xe))
  {
    hide DividerOk, Drained, Finish, DivStart, RdValue, ExecResult, NextRegs, NextRam, NextIo, NextRas, NextBht, NextHist,
         NextDivider, JalrTarget, Forward, ERs1, ERs2, MWbData, StoreRam;
    BranchResolution(c, s, a, xm);
    var n := Next(c, s, i);
    if CorrectPC(c, s) {
      assert n.em.pcCorrection == NextPc(c, a);
    } else if s.de.f.isEBREAK {
      assert n.de == s.de;
    } else if DataHazard(c, s) {
      assert n.fe.fdPc == NextPc(c, a);
    } else {
      assert n.de.pc == NextPc(c, a) && n.de.d == Fetched(c, Step(c, a, xe));
    }
  }

  /** The DE instruction executes exactly as the sequential machine executes it. */
  lemma IssueTick(c: Core, s: State, a: Arch, i: Input, xm: Word, xe: Word)
    requires Inv(c, s, a, xm) && Issue(s) && Clean(i, xm, xe) && InRom(c, NextPc(c, a))
    ensures Inv(c, Next(c, s, i), Step(c, a, xe), xe)
  {
    IssueEffects(c, s, a, i, xm, xe);
    IssueControl(c, s, a, i, xm, xe);
    IssueDivider(c, s, a, i, xm, xe);
  }

  /** An empty DE stage changes nothing but the drained back end. */
  lemma BubbleTick(c: Core, s: State, a: Arch, i: Input, xm: Word, xe: Word)
    requires Inv(c, s, a, xm) && s.de.nop && Clean(i, xm, xe) && InRom(c, a.pc)
    ensures Inv(c, Next(c, s, i), a, xm)
  {
  }
}
