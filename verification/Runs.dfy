/** Whole runs of the pipeline: registers, memory and I/O follow the sequential machine. */
module Runs {
  import opened Words
  import opened Decoder
  import opened Divider
  import opened Datapath
  import opened Pipeline
  import opened Refinement

  /** The surroundings: `noise(t)` is read outside the instruction array at clock t, and `ext(k)`
      answers whatever instruction k reads from a CSR, from I/O, or beyond the data array. */
  datatype World = World(noise: nat -> Word, ext: nat -> Word)

  /** The machine with two counters: instructions that left the execute stage, and
      instructions that left the pipe (csrInstStep_o pulses). */
  datatype Sim = Sim(s: State, issued: nat, retired: nat)

  function Bit(b: bool): nat {
    if b then 1 else 0
  }

  /** The answer to the instruction in EM, which is the last one issued. */
  function Last(w: World, issued: nat): Word {
    w.ext(if issued == 0 then 0 else issued - 1)
  }

  function InputAt(w: World, t: nat, issued: nat): Input {
    Input(false, w.noise(t), w.ext(issued), Last(w, issued), Last(w, issued))
  }

  function Tick(c: Core, w: World, t: nat, m: Sim): Sim {
    Sim(Next(c, m.s, InputAt(w, t, m.issued)), m.issued + Bit(Issue(m.s)), m.retired + Bit(!m.s.mw.nop))
  }

  function Run(c: Core, w: World, s0: State, t: nat): Sim {
    if t == 0 then Sim(s0, 0, 0) else Tick(c, w, t - 1, Run(c, w, s0, t - 1))
  }

  predicate DividerIdle(e: DivReg) {
    !e.busy && !e.finished && e.msk % 2 == 0
  }

  /** The state a reset leaves behind: empty stages, idle divider, PC 0; predictors, return stack,
      data latches and memory hold anything. */
  predicate Booted(s: State) {
    && s.fe.pc == 0 && s.fe.fdNop
    && s.de.nop && s.de.f == BUBBLE
    && s.em.nop && !s.em.isLoad && !s.em.isStore && !s.em.isCSR && !s.em.correctPC && !s.em.wbEnable
    && s.mw.nop && !s.mw.wbEnable
    && DividerIdle(s.ee)
  }

  function InitialArch(s0: State): Arch {
    Arch(0, s0.regs, s0.mem, s0.io)
  }

  /** The sequential machine started from the same memory. */
  function Spec(c: Core, w: World, s0: State, n: nat): Arch {
    Ref(c, InitialArch(s0), w.ext, n)
  }

  /** The program does not run out of the instruction array within `t` instructions. */
  predicate StaysInRom(c: Core, w: World, s0: State, t: nat) {
    forall n: nat | n <= t :: InRom(c, Spec(c, w, s0, n).pc)
  }

  /** Issued instructions still in MW or EM. */
  function InFlight(s: State): nat {
    Bit(!s.em.nop) + Bit(!s.mw.nop)
  }

  /** Register file and memory are those of two sequential states the machine has already passed. */
  predicate Behind(s: State, retired: Arch, stored: Arch) {
    && s.regs == retired.regs
    && WriteBack(s.regs, s.mw.wbEnable, s.mw.rd, s.mw.data) == stored.regs
    && s.mem == stored.mem && s.io == stored.io
    && (!s.em.nop ==> s.em.pc == stored.pc)
    && (!s.mw.nop ==> s.mw.pc == retired.pc)
  }

  /** The sequential state whose stores have reached memory: EM is the only stage between it and DE. */
  function Stored(m: Sim): int {
    m.issued - Bit(!m.s.em.nop)
  }

  ghost predicate RunInv(c: Core, w: World, s0: State, m: Sim) {
    && m.retired + InFlight(m.s) == m.issued
    && Inv(c, m.s, Spec(c, w, s0, m.issued), Last(w, m.issued))
    && Behind(m.s, Spec(c, w, s0, m.retired), Spec(c, w, s0, Stored(m)))
  }

  lemma BehindTick(c: Core, s: State, a: Arch, retired: Arch, stored: Arch, i: Input, xm: Word, xe: Word)
    requires Inv(c, s, a, xm) && Clean(i, xm, xe) && Behind(s, retired, stored)
    ensures Behind(Next(c, s, i), stored, a)
    ensures Next(c, s, i).em.nop == !Issue(s) && Next(c, s, i).mw.nop == s.em.nop
  {
  }

  lemma SpecStep(c: Core, w: World, s0: State, n: nat)
    ensures Spec(c, w, s0, n + 1) == Step(c, Spec(c, w, s0, n), w.ext(n))
    ensures Step(c, Spec(c, w, s0, n), w.ext(n)).pc == NextPc(c, Spec(c, w, s0, n))
  {
  }

  lemma InvTick(c: Core, w: World, s0: State, t: nat, m: Sim)
    requires Inv(c, m.s, Spec(c, w, s0, m.issued), Last(w, m.issued))
    requires InRom(c, Spec(c, w, s0, m.issued).pc) && InRom(c, Spec(c, w, s0, m.issued + 1).pc)
    ensures Inv(c, Tick(c, w, t, m).s, Spec(c, w, s0, Tick(c, w, t, m).issued), Last(w, Tick(c, w, t, m).issued))
  {
    hide Inv, Next, Spec, Step, InRom;
    var a := Spec(c, w, s0, m.issued);
    var i := InputAt(w, t, m.issued);
    var xm, xe := Last(w, m.issued), w.ext(m.issued);
    SpecStep(c, w, s0, m.issued);
    if m.s.de.nop {
      BubbleTick(c, m.s, a, i, xm, xe);
    } else if AluBusy(m.s) {
      DivideTick(c, m.s, a, i, xm, xe);
    } else {
      IssueTick(c, m.s, a, i, xm, xe);
    }
  }

  lemma TickInv(c: Core, w: World, s0: State, t: nat, m: Sim)
    requires RunInv(c, w, s0, m) && m.issued <= t && StaysInRom(c, w, s0, t + 1)
    ensures RunInv(c, w, s0, Tick(c, w, t, m))
    ensures Tick(c, w, t, m).issued <= t + 1
  {
    hide Inv, Next, Spec, Issue;
    InvTick(c, w, s0, t, m);
    BehindTick(c, m.s, Spec(c, w, s0, m.issued), Spec(c, w, s0, m.retired), Spec(c, w, s0, Stored(m)),
               InputAt(w, t, m.issued), Last(w, m.issued), w.ext(m.issued));
  }

  lemma BootInv(c: Core, w: World, s0: State)
    requires Booted(s0)
    ensures RunInv(c, w, s0, Sim(s0, 0, 0))
  {
  }

  lemma {:induction false} RunInvariant(c: Core, w: World, s0: State, t: nat)
    requires Booted(s0) && StaysInRom(c, w, s0, t)
    ensures RunInv(c, w, s0, Run(c, w, s0, t)) && Run(c, w, s0, t).issued <= t
  {
    hide RunInv, Tick;
    if t == 0 {
      BootInv(c, w, s0);
    } else {
      RunInvariant(c, w, s0, t - 1);
      TickInv(c, w, s0, t - 1, Run(c, w, s0, t - 1));
    }
  }

  lemma StaysShorter(c: Core, w: World, s0: State, t: nat)
    requires t > 0 && StaysInRom(c, w, s0, t)
    ensures StaysInRom(c, w, s0, t - 1)
  {
  }

  // ------------------------------------------------------------ theorems about every run

  /** At every clock: the registers are those of the sequential machine after as many instructions as have
      retired, memory and I/O those after as many as have passed the memory stage, and DE, EM and MW hold
      consecutive instructions of the sequential execution, never a wrong-path one. */
  lemma PipelineRefines(c: Core, w: World, s0: State, t: nat)
    requires Booted(s0) && StaysInRom(c, w, s0, t)
    ensures var m := Run(c, w, s0, t);
            && m.retired <= Stored(m) <= m.issued <= t
            && m.s.regs == Spec(c, w, s0, m.retired).regs
            && m.s.mem == Spec(c, w, s0, Stored(m)).mem
            && m.s.io == Spec(c, w, s0, Stored(m)).io
            && (!m.s.de.nop ==> m.s.de.pc == Spec(c, w, s0, m.issued).pc)
            && (!m.s.em.nop ==> Stored(m) == m.issued - 1 && m.s.em.pc == Spec(c, w, s0, m.issued - 1).pc)
            && (!m.s.mw.nop ==> m.retired == Stored(m) - 1 && m.s.mw.pc == Spec(c, w, s0, m.retired).pc)
  {
    hide Run, Spec;
    RunInvariant(c, w, s0, t);
  }

  /** Forwarding always delivers the sequential machine's operands to the instruction in DE. */
  lemma OperandsOfEveryRun(c: Core, w: World, s0: State, t: nat)
    requires Booted(s0) && StaysInRom(c, w, s0, t)
    ensures var m := Run(c, w, s0, t);
            var regs := Spec(c, w, s0, m.issued).regs;
            !m.s.de.nop ==>
              && (ReadsRs1(m.s.de.d) ==> ERs1(m.s) == Read(regs, m.s.de.d.rs1))
              && (ReadsRs2(m.s.de.d) ==> ERs2(m.s) == Read(regs, m.s.de.d.rs2))
  {
    hide Run, Spec;
    RunInvariant(c, w, s0, t);
    var m := Run(c, w, s0, t);
    if !m.s.de.nop { OperandAgreement(c, m.s, Spec(c, w, s0, m.issued), Last(w, m.issued)); }
  }

  /** Whenever a load stands in the execute stage, where it reads, the memory already holds every older store and no
      younger one, although stores write a stage later. */
  lemma LoadsSeeEveryStore(c: Core, w: World, s0: State, t: nat)
    requires Booted(s0) && StaysInRom(c, w, s0, t)
    requires !Run(c, w, s0, t).s.de.nop && Run(c, w, s0, t).s.de.f.isLoad
    ensures var m := Run(c, w, s0, t);
            m.s.mem == Spec(c, w, s0, m.issued).mem && m.s.io == Spec(c, w, s0, m.issued).io
  {
    hide Run, Spec, Behind, DividerOk;
    RunInvariant(c, w, s0, t);
  }

  /** An instruction retires exactly two clocks after it leaves the execute stage. */
  lemma RetiresTwoClocksLater(c: Core, w: World, s0: State, t: nat)
    requires Booted(s0) && StaysInRom(c, w, s0, t + 2)
    ensures Run(c, w, s0, t + 2).retired == Run(c, w, s0, t).issued
  {
    hide Next, Spec, Inv, Behind;
    RunInvariant(c, w, s0, t + 2);
    StageOccupancy(c, w, s0, t);
    StageOccupancy(c, w, s0, t + 1);
  }

  lemma StageOccupancy(c: Core, w: World, s0: State, t: nat)
    requires Booted(s0) && StaysInRom(c, w, s0, t + 1)
    ensures var m, n := Run(c, w, s0, t), Run(c, w, s0, t + 1);
            n.s.em.nop == !Issue(m.s) && n.s.mw.nop == m.s.em.nop && n.issued == m.issued + Bit(Issue(m.s))
  {
    hide Spec, Inv, NextFetch, NextDecode, NextRam;
    RunInvariant(c, w, s0, t);
  }

  lemma {:induction false} IssuedGrows(c: Core, w: World, s0: State, t: nat, u: nat)
    requires t <= u
    ensures Run(c, w, s0, t).issued <= Run(c, w, s0, u).issued
    decreases u
  {
    hide Next;
    if t < u { IssuedGrows(c, w, s0, t, u - 1); }
  }

  // ------------------------------------------------------------ halting

  predicate AtEbreak(c: Core, a: Arch) {
    FlagsOf(Fetched(c, a)).isEBREAK
  }

  /** Like any SYSTEM instruction outside the CSR group, an EBREAK writes the ALU's result to rd: this leaves the
      registers alone exactly when rd is x0 or already holds that result. */
  predicate WritesNothingNew(c: Core, a: Arch) {
    var d := Fetched(c, a);
    d.rd == 0 || c.alu(d, Read(a.regs, d.rs1), d.iimm) == a.regs[d.rd]
  }

  lemma EbreakStep(c: Core, a: Arch, x: Word)
    requires AtEbreak(c, a)
    ensures var b := Step(c, a, x);
            && b.pc == a.pc && b.mem == a.mem && b.io == a.io && AtEbreak(c, b)
            && (b.regs == a.regs <==> WritesNothingNew(c, a))
  {
    var d := Fetched(c, a);
    var v := RdValue(c, a, x);
    if d.rd != 0 && v != a.regs[d.rd] {
      assert WriteBack(a.regs, true, d.rd, v)[d.rd] == v;
    }
  }

  /** The sequential machine stands at its EBREAK for ever. */
  lemma {:induction false} EbreakForever(c: Core, w: World, s0: State, n: nat, k: nat)
    requires n <= k && AtEbreak(c, Spec(c, w, s0, n))
    ensures var a, b := Spec(c, w, s0, n), Spec(c, w, s0, k);
            && b.pc == a.pc && b.mem == a.mem && b.io == a.io && AtEbreak(c, b)
            && (WritesNothingNew(c, a) ==> b == a)
    decreases k
  {
    hide Step, AtEbreak, Spec, WritesNothingNew;
    if n < k {
      EbreakForever(c, w, s0, n, k - 1);
      SpecStep(c, w, s0, k - 1);
      EbreakStep(c, Spec(c, w, s0, k - 1), w.ext(k - 1));
    }
  }

  /** A program that reaches an EBREAK inside the instruction array never leaves it. */
  lemma EbreakStaysInRom(c: Core, w: World, s0: State, t: nat, n: nat, u: nat)
    requires StaysInRom(c, w, s0, t) && n <= t && AtEbreak(c, Spec(c, w, s0, n))
    ensures StaysInRom(c, w, s0, u)
  {
    hide Spec, AtEbreak, InRom, WritesNothingNew;
    forall k: nat | k <= u ensures InRom(c, Spec(c, w, s0, k).pc) {
      if k > t { EbreakForever(c, w, s0, n, k); }
    }
  }

  /** An EBREAK in DE issues at every clock and stays there. */
  lemma EbreakHolds(c: Core, s: State, a: Arch, i: Input, xm: Word, xe: Word)
    requires Inv(c, s, a, xm) && Clean(i, xm, xe) && !s.de.nop && AtEbreak(c, a)
    ensures Issue(s) && s.de.f.isEBREAK && Next(c, s, i).de == s.de
  {
    hide ExecResult, FetchPC, Drained;
  }

  lemma EbreakClock(c: Core, w: World, s0: State, n: nat, t: nat)
    requires Booted(s0) && StaysInRom(c, w, s0, t) && !Run(c, w, s0, t).s.de.nop
    requires n <= Run(c, w, s0, t).issued && AtEbreak(c, Spec(c, w, s0, n))
    ensures Run(c, w, s0, t).s.de.f.isEBREAK
    ensures Run(c, w, s0, t + 1).issued == Run(c, w, s0, t).issued + 1 && !Run(c, w, s0, t + 1).s.de.nop
  {
    hide Spec, AtEbreak, Next, Inv, Behind, Issue, WritesNothingNew, StaysInRom, Booted;
    RunInvariant(c, w, s0, t);
    var m := Run(c, w, s0, t);
    EbreakForever(c, w, s0, n, m.issued);
    EbreakHolds(c, m.s, Spec(c, w, s0, m.issued), InputAt(w, t, m.issued), Last(w, m.issued), w.ext(m.issued));
  }

  lemma {:induction false} EbreakIssues(c: Core, w: World, s0: State, t: nat, k: nat)
    requires Booted(s0) && StaysInRom(c, w, s0, t)
    requires !Run(c, w, s0, t).s.de.nop && AtEbreak(c, Spec(c, w, s0, Run(c, w, s0, t).issued))
    ensures StaysInRom(c, w, s0, t + k) && Run(c, w, s0, t + k).issued == Run(c, w, s0, t).issued + k
    ensures !Run(c, w, s0, t + k).s.de.nop && Run(c, w, s0, t + k).s.de.f.isEBREAK
  {
    hide Spec, AtEbreak, Run, StaysInRom, Booted;
    var n := Run(c, w, s0, t).issued;
    IssuedByNow(c, w, s0, t);
    EbreakStaysInRom(c, w, s0, t, n, t + k);
    if k > 0 {
      EbreakIssues(c, w, s0, t, k - 1);
      EbreakClock(c, w, s0, n, t + k - 1);
    }
    EbreakClock(c, w, s0, n, t + k);
  }

  lemma IssuedByNow(c: Core, w: World, s0: State, t: nat)
    requires Booted(s0) && StaysInRom(c, w, s0, t)
    ensures Run(c, w, s0, t).issued <= t
  {
    hide Run, StaysInRom, Booted;
    RunInvariant(c, w, s0, t);
  }

  /** Once an EBREAK stands in the execute stage the pipeline holds it for ever.  From two clocks later memory and I/O
      are those of the sequential machine at that EBREAK, and the registers those after it has executed the EBREAK once
      more for every further clock. */
  lemma HaltsInTheSameState(c: Core, w: World, s0: State, t: nat, k: nat)
    requires Booted(s0) && StaysInRom(c, w, s0, t)
    requires !Run(c, w, s0, t).s.de.nop && AtEbreak(c, Spec(c, w, s0, Run(c, w, s0, t).issued))
    ensures var n := Run(c, w, s0, t).issued; var m := Run(c, w, s0, t + 2 + k);
            && m.retired == n + k && !m.s.de.nop && m.s.de.f.isEBREAK
            && m.s.regs == Spec(c, w, s0, n + k).regs
            && m.s.mem == Spec(c, w, s0, n).mem && m.s.io == Spec(c, w, s0, n).io
  {
    hide Run, Spec, AtEbreak, Step, StaysInRom, Booted, WritesNothingNew;
    var n := Run(c, w, s0, t).issued;
    EbreakIssues(c, w, s0, t, k);
    EbreakIssues(c, w, s0, t, k + 2);
    RetiresTwoClocksLater(c, w, s0, t + k);
    PipelineRefines(c, w, s0, t + k + 2);
    EbreakForever(c, w, s0, n, Stored(Run(c, w, s0, t + k + 2)));
  }

  /** So the halted registers are fixed exactly when the EBREAK writes nothing new. */
  lemma HaltedRegistersFixed(c: Core, w: World, s0: State, t: nat)
    requires Booted(s0) && StaysInRom(c, w, s0, t)
    requires !Run(c, w, s0, t).s.de.nop && AtEbreak(c, Spec(c, w, s0, Run(c, w, s0, t).issued))
    ensures var a := Spec(c, w, s0, Run(c, w, s0, t).issued);
            (forall u: nat | u >= t + 2 :: Run(c, w, s0, u).s.regs == a.regs) <==> WritesNothingNew(c, a)
  {
    hide Run, Spec, AtEbreak, Step, StaysInRom, Booted, WritesNothingNew;
    var n := Run(c, w, s0, t).issued;
    var a := Spec(c, w, s0, n);
    if WritesNothingNew(c, a) {
      forall u: nat | u >= t + 2 ensures Run(c, w, s0, u).s.regs == a.regs {
        HaltsInTheSameState(c, w, s0, t, u - t - 2);
        EbreakForever(c, w, s0, n, n + (u - t - 2));
      }
    } else {
      HaltsInTheSameState(c, w, s0, t, 1);
      SpecStep(c, w, s0, n);
      EbreakStep(c, a, w.ext(n));
      assert Run(c, w, s0, t + 3).s.regs != a.regs;
    }
  }
}
