/** The return address stack and the branch history register see exactly the correct-path instructions. */
module Predictors {
  import opened Arith
  import opened Words
  import opened Decoder
  import opened Datapath
  import opened Pipeline
  import opened Refinement
  import opened Runs

  /** The return address stack after the first n instructions of the sequential execution. */
  function RasAfter(c: Core, w: World, s0: State, n: nat): Ras {
    if n == 0 then s0.ras
    else
      var a := Spec(c, w, s0, n - 1);
      RasStep(RasAfter(c, w, s0, n - 1), Fetched(c, a), a.pc)
  }

  function Outcome(c: Core, a: Arch): bool {
    var d := Fetched(c, a);
    c.taken(d, Read(a.regs, d.rs1), Read(a.regs, d.rs2))
  }

  /** Two equal outcomes in a row make the two-bit counter predict that outcome, and from a saturated counter one
      different outcome does not change the prediction. */
  lemma CounterLearns(counter: Counter, taken: bool)
    ensures Saturate(Saturate(counter, taken), taken) >= 2 <==> taken
    ensures counter == (if taken then 3 else 0) ==> (Saturate(counter, !taken) >= 2 <==> taken)
  {
  }

  /** The table changes only in the entry a branch looked up when it was decoded, and only when that branch leaves the
      execute stage: by one towards the outcome, between 0 and 3. */
  lemma TableLearns(c: Core, s: State, i: Input, k: nat)
    requires k < 4096
    ensures var b: int, b': int := s.bht[k], Next(c, s, i).bht[k];
            if !AluBusy(s) && s.de.f.isBranch && k == s.de.bhtIndex then
              b' == if c.taken(s.de.d, ERs1(s), ERs2(s)) then Min(3, b + 1) else Max(0, b - 1)
            else b' == b
  {
    hide NextFetch, NextDecode, NextDivider, NextExec, NextRas, NextHist, ERs1, ERs2;
  }

  /** Where fetch goes after a word in FD that the decoder predicts to jump: a JAL and a branch whose counter is 2 or 3 to
      their targets, a JALR to the top of the return stack; other words and branches leave it alone. */
  lemma FetchFollowsPrediction(c: Core, s: State)
    requires !s.fe.fdNop
    ensures var d := c.decode(s.fe.fdInstr); var counter := s.bht[c.index(s.fe.fdPc, s.hist)];
            && (d.op == 27 ==> FetchPC(c, s) == (s.fe.fdPc + d.jimm) % 0x1_0000_0000)
            && (d.op == 25 ==> FetchPC(c, s) == s.ras.r0)
            && (d.op == 24 && counter >= 2 ==> FetchPC(c, s) == (s.fe.fdPc + d.bimm) % 0x1_0000_0000)
            && (d.op != 25 && d.op != 27 && (d.op == 24 ==> counter < 2) ==>
                  FetchPC(c, s) == if s.em.correctPC then s.em.pcCorrection else s.fe.pc)
  {
  }

  lemma LatchesPrediction(c: Core, s: State, i: Input)
    ensures var n := Next(c, s, i).de; var k := c.index(s.fe.fdPc, s.hist);
            !n.nop ==> (n.pc == s.fe.fdPc && n.bhtIndex == k && n.predictBranch == (s.bht[k] >= 2)) || n == s.de
  {
    hide NextFetch, NextDivider, NextExec, NextRas, NextHist, NextBht, AluBusy, CorrectPC, DataHazard, FlagsOf;
  }

  /** The prediction a branch carries, and the entry it will teach, are those its counter gave in the clock in which it
      was decoded. */
  lemma {:induction false} PredictionOfEveryRun(c: Core, w: World, s0: State, t: nat) returns (u: nat)
    requires Booted(s0) && StaysInRom(c, w, s0, t) && !Run(c, w, s0, t).s.de.nop
    ensures u < t
    ensures var de, s := Run(c, w, s0, t).s.de, Run(c, w, s0, u).s; var k := c.index(de.pc, s.hist);
            de.bhtIndex == k && de.predictBranch == (s.bht[k] >= 2)
  {
    hide Next, Spec, Booted;
    BootEmpty(s0);
    var p := Run(c, w, s0, t - 1);
    LatchesPrediction(c, p.s, InputAt(w, t - 1, p.issued));
    u := t - 1;
    var n, k := Run(c, w, s0, t).s.de, c.index(p.s.fe.fdPc, p.s.hist);
    if !(n.pc == p.s.fe.fdPc && n.bhtIndex == k && n.predictBranch == (p.s.bht[k] >= 2)) {
      u := PredictionOfEveryRun(c, w, s0, t - 1);
    }
  }

  lemma BootEmpty(s0: State)
    requires Booted(s0)
    ensures s0.de.nop
  {
  }

  /** The history register after n instructions: the last nine branch outcomes, newest on top. */
  function HistAfter(c: Core, w: World, s0: State, n: nat): History {
    if n == 0 then s0.hist
    else
      var a := Spec(c, w, s0, n - 1);
      var h := HistAfter(c, w, s0, n - 1);
      if FlagsOf(Fetched(c, a)).isBranch then (if Outcome(c, a) then 256 else 0) + h / 2 else h
  }

  /** Instructions decoded so far: those issued, and the one in DE. */
  function Decoded(m: Sim): nat {
    m.issued + Bit(!m.s.de.nop)
  }

  ghost predicate PredictorInv(c: Core, w: World, s0: State, m: Sim) {
    && m.s.ras == RasAfter(c, w, s0, Decoded(m))
    && m.s.hist == HistAfter(c, w, s0, m.issued)
    && (!m.s.de.nop ==> m.s.de.predictRA == RasAfter(c, w, s0, m.issued).r0)
  }

  /** One clock of the return address stack, relative to the next instructions to execute. */
  lemma RasTick(c: Core, s: State, a: Arch, i: Input, xm: Word, xe: Word)
    requires Inv(c, s, a, xm) && Clean(i, xm, xe) && InRom(c, a.pc) && InRom(c, NextPc(c, a))
    ensures var n := Next(c, s, i);
            var b := Step(c, a, xe);
            if s.de.nop then
              if n.de.nop then n.ras == s.ras
              else n.ras == RasStep(s.ras, Fetched(c, a), a.pc) && n.de.predictRA == s.ras.r0
            else if AluBusy(s) then n.ras == s.ras && n.de == s.de
            else if n.de.nop then n.ras == s.ras
            else n.ras == RasStep(s.ras, Fetched(c, b), b.pc) && n.de.predictRA == (if s.de.f.isEBREAK then s.de.predictRA else s.ras.r0)
  {
    if s.de.nop {
      assert !Stall(c, s, i);
    } else if !AluBusy(s) {
      BranchResolution(c, s, a, xm);
    }
  }

  lemma HistTick(c: Core, s: State, a: Arch, i: Input, xm: Word, xe: Word)
    requires Inv(c, s, a, xm) && Clean(i, xm, xe)
    ensures Next(c, s, i).hist ==
            if Issue(s) && FlagsOf(Fetched(c, a)).isBranch then (if Outcome(c, a) then 256 else 0) + s.hist / 2
            else s.hist
  {
    if !s.de.nop { OperandAgreement(c, s, a, xm); }
    if AluBusy(s) { DivideStarts(c, s, a, xm); }
  }

  lemma PredictorTick(c: Core, w: World, s0: State, t: nat, m: Sim)
    requires RunInv(c, w, s0, m) && PredictorInv(c, w, s0, m)
    requires InRom(c, Spec(c, w, s0, m.issued).pc) && InRom(c, Spec(c, w, s0, m.issued + 1).pc)
    ensures PredictorInv(c, w, s0, Tick(c, w, t, m))
  {
    hide Inv, Next, Spec, Step, InRom, RasStep, Behind, Outcome;
    var a := Spec(c, w, s0, m.issued);
    var i := InputAt(w, t, m.issued);
    var xm, xe := Last(w, m.issued), w.ext(m.issued);
    SpecStep(c, w, s0, m.issued);
    RasTick(c, m.s, a, i, xm, xe);
    HistTick(c, m.s, a, i, xm, xe);
    EbreakKeepsRas(c, m.s, a, xm, RasAfter(c, w, s0, m.issued));
    BusyKeepsDe(c, m.s, i, a, xm, xe);
  }

  lemma EbreakKeepsRas(c: Core, s: State, a: Arch, x: Word, r: Ras)
    requires Inv(c, s, a, x)
    ensures !s.de.nop && s.de.f.isEBREAK ==> RasStep(r, Fetched(c, a), a.pc) == r
  {
  }

  lemma BusyKeepsDe(c: Core, s: State, i: Input, a: Arch, xm: Word, xe: Word)
    requires Inv(c, s, a, xm) && Clean(i, xm, xe)
    ensures AluBusy(s) ==> !s.de.nop && Next(c, s, i).de == s.de
  {
    if AluBusy(s) { DivideStarts(c, s, a, xm); }
  }

  lemma {:induction false} PredictorRun(c: Core, w: World, s0: State, t: nat)
    requires Booted(s0) && StaysInRom(c, w, s0, t)
    ensures PredictorInv(c, w, s0, Run(c, w, s0, t))
  {
    hide RunInv, Tick, StaysInRom, PredictorInv;
    if t == 0 {
      PredictorBoot(c, w, s0);
    } else {
      StaysShorter(c, w, s0, t);
      PredictorRun(c, w, s0, t - 1);
      RunInvariant(c, w, s0, t - 1);
      PredictorStep(c, w, s0, t);
    }
  }

  lemma PredictorBoot(c: Core, w: World, s0: State)
    requires Booted(s0)
    ensures PredictorInv(c, w, s0, Run(c, w, s0, 0))
  {
  }

  /** At every clock the return stack is that of the instructions decoded on the sequential path and the
      history register that of the branches executed on it: wrong-path instructions leave no trace in either. */
  lemma PredictorsFollowThePath(c: Core, w: World, s0: State, t: nat)
    requires Booted(s0) && StaysInRom(c, w, s0, t)
    ensures var m := Run(c, w, s0, t);
            && m.s.ras == RasAfter(c, w, s0, Decoded(m))
            && m.s.hist == HistAfter(c, w, s0, m.issued)
            && (!m.s.de.nop ==> m.s.de.predictRA == RasAfter(c, w, s0, m.issued).r0)
  {
    hide Run;
    PredictorRun(c, w, s0, t);
  }

  lemma PredictorStep(c: Core, w: World, s0: State, t: nat)
    requires t > 0 && StaysInRom(c, w, s0, t)
    requires var m := Run(c, w, s0, t - 1);
             RunInv(c, w, s0, m) && PredictorInv(c, w, s0, m) && m.issued <= t - 1
    ensures PredictorInv(c, w, s0, Run(c, w, s0, t))
  {
    hide RunInv, PredictorInv, Tick, Spec;
    PredictorTick(c, w, s0, t - 1, Run(c, w, s0, t - 1));
  }

  // ------------------------------------------------------------ a bounded stack

  predicate IsCall(d: Dec) {
    (d.op == JAL || d.op == JALR) && d.rd == 1
  }

  predicate IsReturn(d: Dec) {
    d.op == JALR && d.rd == 0 && (d.rs1 == 1 || d.rs1 == 5)
  }

  /** The unbounded call stack a program builds: innermost return address first. */
  function CallStack(c: Core, w: World, s0: State, n: nat): seq<Word> {
    if n == 0 then []
    else
      var a := Spec(c, w, s0, n - 1);
      var st := CallStack(c, w, s0, n - 1);
      StackStep(st, Fetched(c, a), a.pc)
  }

  function StackStep(st: seq<Word>, d: Dec, pc: Word): seq<Word> {
    if IsCall(d) then [Add(pc, 4)] + st else if IsReturn(d) && st != [] then st[1..] else st
  }

  /** How many entries of the four are known to be right: saturating at four on a call, one less on a return. */
  function Known(c: Core, w: World, s0: State, n: nat): nat {
    if n == 0 then 0
    else
      KnownStep(Known(c, w, s0, n - 1), Fetched(c, Spec(c, w, s0, n - 1)))
  }

  function KnownStep(k: nat, d: Dec): nat {
    if IsCall(d) then (if k < 4 then k + 1 else 4) else if IsReturn(d) then (if k > 0 then k - 1 else 0) else k
  }

  function Entries(r: Ras): seq<Word> {
    [r.r0, r.r1, r.r2, r.r3]
  }

  lemma RasStepKeepsTop(r: Ras, st: seq<Word>, k: nat, d: Dec, pc: Word)
    requires k <= 4 && k <= |st| && Entries(r)[..k] == st[..k]
    ensures var k', st' := KnownStep(k, d), StackStep(st, d, pc);
            k' <= 4 && k' <= |st'| && Entries(RasStep(r, d, pc))[..k'] == st'[..k']
  {
    assert forall j | 0 <= j < k :: Entries(r)[j] == Entries(r)[..k][j] == st[..k][j] == st[j];
  }

  /** The known entries are the top of the program's own call stack. */
  lemma {:induction false} RasIsTopOfCallStack(c: Core, w: World, s0: State, n: nat)
    ensures var k := Known(c, w, s0, n);
            && k <= 4 && k <= |CallStack(c, w, s0, n)|
            && Entries(RasAfter(c, w, s0, n))[..k] == CallStack(c, w, s0, n)[..k]
  {
    hide Spec, RasStep, KnownStep, StackStep, Fetched, Entries;
    if n > 0 {
      RasIsTopOfCallStack(c, w, s0, n - 1);
      var a := Spec(c, w, s0, n - 1);
      RasStepKeepsTop(RasAfter(c, w, s0, n - 1), CallStack(c, w, s0, n - 1), Known(c, w, s0, n - 1), Fetched(c, a), a.pc);
    }
  }

  /** A return that goes back to its caller, while its entry is still known, is never corrected. */
  lemma NestedReturnsArePredicted(c: Core, w: World, s0: State, t: nat)
    requires Booted(s0) && StaysInRom(c, w, s0, t)
    requires var m := Run(c, w, s0, t);
             && Issue(m.s) && IsReturn(m.s.de.d) && Known(c, w, s0, m.issued) > 0
             && |CallStack(c, w, s0, m.issued)| > 0
             && NextPc(c, Spec(c, w, s0, m.issued)) == CallStack(c, w, s0, m.issued)[0]
    ensures !CorrectPC(c, Run(c, w, s0, t).s)
  {
    hide Spec, Known, CallStack, RasAfter, Behind, Run;
    var m := Run(c, w, s0, t);
    PredictorsFollowThePath(c, w, s0, t);
    RunInvariant(c, w, s0, t);
    RasIsTopOfCallStack(c, w, s0, m.issued);
    BranchResolution(c, m.s, Spec(c, w, s0, m.issued), Last(w, m.issued));
    assert Entries(RasAfter(c, w, s0, m.issued))[..Known(c, w, s0, m.issued)][0] == CallStack(c, w, s0, m.issued)[0];
  }
}
