/** The sequential processor executes one reference instruction every three or four clocks, so on RV32I
    programs pipeline and sequential processor go through the same architectural states. */
module Agreement {
  import opened Arith
  import opened Words
  import opened Decoder
  import opened Divider
  import opened Datapath
  import opened Alu
  import opened Lanes
  import opened Sequential
  import opened Pipeline
  import opened Runs

  /** D_bhtIndex: PC[13:2] xor the history shifted up to the top of twelve bits. */
  function Index(pc: Word, h: History): BhtIndex {
    Xor(pc / 4 % 4096, h * 8) % 4096
  }

  /** Bit k of the index is PC bit k + 2, exclusive-or history bit k - 3 in the upper nine places. */
  lemma IndexBits(pc: Word, h: History, k: nat)
    requires k < 12
    ensures BitOf(Index(pc, h), k) == (BitOf(pc, k + 2) != (k >= 3 && BitOf(h, k - 3)))
  {
    hide BitOf, Pow2, Xor;
    TwelveBits();
    BitOfRemainder(Xor(pc / 4 % 4096, h * 8), 12, k);
    BitwiseMeans(pc / 4 % 4096, h * 8, k);
    BitOfRemainder(pc / 4, 12, k);
    NextBit(pc, k + 1);
    NextBit(pc / 2, k);
    HistoryBit(h, k);
  }

  lemma TwelveBits()
    ensures Pow2(12) == 4096
  {
  }

  lemma HistoryBit(h: int, k: nat)
    ensures BitOf(h * 8, k) == (k >= 3 && BitOf(h, k - 3))
  {
    hide BitOf;
    NextBit(h * 8, 0);
    NextBit(h * 4, 0);
    NextBit(h * 2, 0);
    if k > 0 { NextBit(h * 8, k - 1); }
    if k > 1 { NextBit(h * 4, k - 2); }
    if k > 2 { NextBit(h * 2, k - 3); }
  }

  function AluRtl(d: Dec, a: Word, b: Word): Word {
    if FlagsOf(d).isRV32M then MulOut(d.f3, a, b) else AluPipe(d, a, b)
  }

  /** The pipeline's own units. */
  function RtlCore(rom: Rom): Core {
    Core(rom, (i: Word) => Decode(i),
         (d: Dec, a: Word, b: Word) => AluRtl(d, a, b), (d: Dec, a: Word, b: Word) => Taken(d, a, b),
         (f3: int, addr: Word, w: Word) => LoadWord(f3, addr, w),
         (f3: int, addr: Word, v: Word, w: Word) => StoreWord(f3, addr, v, w),
         (pc: Word, h: History) => Index(pc, h))
  }

  /** Instructions that write the base ALU's result. */
  predicate WritesAlu(d: Dec) {
    var f := FlagsOf(d);
    !(f.isLUI || f.isAUIPC || f.isJAL || f.isJALR || f.isBranch || f.isLoad || f.isStore || f.isCSR)
  }

  /** What the two processors must agree on before they can execute an instruction alike: a full-width
      opcode or one neither knows, no multiply or divide, no left shift of a negative operand with inst[30] set, one reading of EBREAK, word
      loads from I/O, and stores to I/O whose lanes carry the operand unchanged. */
  predicate Common(instr: Word, rs1: Word, rs2: Word) {
    var d := Decode(instr);
    var f := FlagsOf(d);
    && (instr % 4 == 3 || !Classed(d.op))
    && !f.isRV32M
    && (WritesAlu(d) ==> !OddShift(d, rs1, AluIn2(f, d, rs2)))
    && f.isEBREAK == SeqEbreak(instr)
    && (f.isLoad && IsIO(DataAddr(f, d, rs1)) ==> !IsByte(d.f3) && !IsHalf(d.f3))
    && (f.isStore && IsIO(DataAddr(f, d, rs1)) ==> LanesCarry(DataAddr(f, d, rs1), rs2))
  }

  /** The byte lanes a store's address moves hold equal bytes. */
  predicate LanesCarry(addr: Word, v: Word) {
    var a0, a1 := addr % 2 == 1, addr / 2 % 2 == 1;
    && (a0 ==> ByteOf(v, 1) == ByteOf(v, 0) && ByteOf(v, 3) == ByteOf(v, 0))
    && (a1 ==> ByteOf(v, 2) == ByteOf(v, 0))
    && (a1 && !a0 ==> ByteOf(v, 3) == ByteOf(v, 1))
  }

  predicate CommonAt(rom: Rom, a: Arch) {
    InRom(RtlCore(rom), a.pc) &&
    var i := rom[WordIndex(a.pc)];
    Common(i, Read(a.regs, Decode(i).rs1), Read(a.regs, Decode(i).rs2))
  }

  function View(s: SeqState): Arch {
    Arch(s.pc, s.regs, s.mem, s.io)
  }

  /** Clocks the sequential processor spends on the instruction at a.pc. */
  function Clocks(rom: Rom, a: Arch): nat {
    if Is(rom[WordIndex(a.pc) % ROM_WORDS], LOAD) then 4 else 3
  }

  function SeqRun(rom: Rom, s: SeqState, x: Word, n: nat): SeqState {
    if n == 0 then s else SeqNext(rom, SeqRun(rom, s, x, n - 1), x)
  }

  /** The state in Execute, with the operands latched. */
  lemma ReachesExecute(rom: Rom, s: SeqState, x: Word)
    requires s.phase == FetchInstr
    ensures var e := SeqRun(rom, s, x, 2);
            var i := rom[WordIndex(s.pc) % ROM_WORDS];
            && e.phase == Execute && e.instr == i && View(e) == View(s)
            && e.rs1 == Read(s.regs, Decode(i).rs1) && e.rs2 == Read(s.regs, Decode(i).rs2)
  {
    hide Decode, WriteBackData, LoadStoreAddr;
    var f := SeqNext(rom, s, x);
    assert SeqRun(rom, s, x, 1) == SeqNext(rom, SeqRun(rom, s, x, 0), x);
    assert f.phase == WaitInstr && View(f) == View(s);
    assert SeqRun(rom, s, x, 2) == SeqNext(rom, f, x);
  }

  lemma LowSeven(i: Word)
    ensures i % 128 == 4 * (i / 4 % 32) + i % 4
  {
  }

  lemma DecodedOp(i: Word)
    ensures Decode(i).op == i / 4 % 32
  {
  }

  lemma OpcodeBits(i: Word, op: int)
    ensures Is(i, op) <==> i % 4 == 3 && Decode(i).op == op
  {
    hide Decode;
    LowSeven(i);
    DecodedOp(i);
  }

  /** Opcodes that steer anything but the ALU's second operand away from the immediate form. */
  predicate Classed(op: int) {
    || op == LUI || op == AUIPC || op == JAL || op == JALR || op == BRANCH
    || op == LOAD || op == STORE || op == ALUR || op == SYSTEM
  }

  /** The sequential machine compares seven opcode bits, the pipeline the upper five. */
  predicate SameClasses(i: Word) {
    var d := Decode(i);
    && Is(i, LUI) == (d.op == LUI) && Is(i, AUIPC) == (d.op == AUIPC) && Is(i, JAL) == (d.op == JAL)
    && Is(i, JALR) == (d.op == JALR) && Is(i, BRANCH) == (d.op == BRANCH) && Is(i, LOAD) == (d.op == LOAD)
    && Is(i, STORE) == (d.op == STORE) && Is(i, ALUR) == (d.op == ALUR) && Is(i, SYSTEM) == (d.op == SYSTEM)
  }

  /** They part exactly on the words whose low two bits are not 11 and whose upper five name one of nine classes: the
      pipeline executes those as that class, the sequential machine as an immediate ALU operation. */
  lemma OpcodeAgreement(i: Word)
    ensures SameClasses(i) <==> i % 4 == 3 || !Classed(Decode(i).op)
  {
    hide Decode, Is;
    OpcodeBits(i, LUI);
    OpcodeBits(i, AUIPC);
    OpcodeBits(i, JAL);
    OpcodeBits(i, JALR);
    OpcodeBits(i, BRANCH);
    OpcodeBits(i, LOAD);
    OpcodeBits(i, STORE);
    OpcodeBits(i, ALUR);
    OpcodeBits(i, SYSTEM);
  }

  /** The word 0x6c is a jump to the pipeline only. */
  lemma OpcodeDiffers()
    ensures var i: Word := 0x6c; FlagsOf(Decode(i)).isJAL && !Is(i, JAL)
  {
    hide Decode;
    DecodedOp(0x6c);
  }

  lemma SameAlu(s: SeqState)
    requires SameClasses(s.instr)
    ensures var d := Decode(s.instr);
            var f := FlagsOf(d);
            !OddShift(d, s.rs1, In2(s)) && !f.isRV32M ==> SeqAlu(s) == AluRtl(d, s.rs1, In2(s))
    ensures In2(s) == AluIn2(FlagsOf(Decode(s.instr)), Decode(s.instr), s.rs2)
  {
    hide Decode, AluPipe, AluSeq, MulOut, Minus33;
    var d := Decode(s.instr);
    AlusAgree(d, s.rs1, In2(s));
    AluZero(d, s.rs1, In2(s));
  }

  lemma AluZero(d: Dec, a: Word, b: Word)
    ensures d.f3 == 0 ==> AluSeq(d, a, b) == if Bit30(d) && d.op == ALUR then Minus33(a, b) % MODULUS else Add(a, b)
  {
  }

  /** The sequential processor in its Execute state, holding the instruction at its PC. */
  predicate Executing(rom: Rom, e: SeqState) {
    var d := Decode(e.instr);
    && e.phase == Execute && CommonAt(rom, View(e)) && e.instr == rom[WordIndex(e.pc)]
    && e.rs1 == Read(e.regs, d.rs1) && e.rs2 == Read(e.regs, d.rs2)
  }

  lemma FetchedIs(rom: Rom, e: SeqState)
    requires Executing(rom, e)
    ensures Fetched(RtlCore(rom), View(e)) == Decode(e.instr) && SameClasses(e.instr)
  {
    hide Decode, AluRtl, Taken, LoadWord, StoreWord, Index, SameClasses, Classed, Is;
    OpcodeAgreement(e.instr);
  }

  lemma SamePc(rom: Rom, e: SeqState)
    requires Executing(rom, e)
    ensures (if SeqEbreak(e.instr) then e.pc else SeqNextPC(e)) == NextPc(RtlCore(rom), View(e))
  {
    hide Decode, AluRtl, Taken, LoadWord, StoreWord, Index, Fetched, SeqEbreak, Is;
    FetchedIs(rom, e);
    SameAlu(e);
  }

  lemma SameAddress(rom: Rom, e: SeqState)
    requires Executing(rom, e)
    ensures LoadStoreAddr(e) == DataAddr(FlagsOf(Decode(e.instr)), Decode(e.instr), e.rs1)
  {
    hide Decode, Is;
    FetchedIs(rom, e);
  }

  lemma SameStores(rom: Rom, e: SeqState, x: Word)
    requires Executing(rom, e)
    ensures SeqRam(e) == Step(RtlCore(rom), View(e), x).mem
    ensures SeqIo(e) == Step(RtlCore(rom), View(e), x).io
  {
    hide Decode, AluRtl, Taken, StoreWord, Index, Fetched, Is, NextPc, RdValue, LoadStoreAddr, DataAddr, StoreData, LanesCarry;
    FetchedIs(rom, e);
    SameAddress(rom, e);
    IoStoreAgreement(LoadStoreAddr(e), e.rs2);
  }

  /** The pipeline puts a store's operand on the I/O bus as it is, the sequential machine after its byte lanes: the two
      words are equal exactly when the moved lanes hold equal bytes, as they do for every word-aligned address. */
  lemma IoStoreAgreement(addr: Word, v: Word)
    ensures StoreData(addr, v) == v <==> LanesCarry(addr, v)
    ensures addr % 4 == 0 ==> LanesCarry(addr, v)
  {
    hide ByteOf, Join;
    LowBits(addr);
    FromBytes(v);
    var a0, a1 := addr % 2 == 1, addr / 2 % 2 == 1;
    JoinBytes(ByteOf(v, 0), if a0 then ByteOf(v, 0) else ByteOf(v, 1), if a1 then ByteOf(v, 0) else ByteOf(v, 2),
              if a0 then ByteOf(v, 0) else if a1 then ByteOf(v, 1) else ByteOf(v, 3));
  }

  /** The pipeline takes a word read from I/O as it is, the sequential machine passes it through its byte lanes: the
      same for every answer exactly when the load is neither a byte nor a half-word. */
  lemma IoLoadAgreement(f3: int, addr: Word)
    ensures (forall x: Word :: LoadWord(f3, addr, x) == x) <==> !IsByte(f3) && !IsHalf(f3)
  {
    if IsByte(f3) || IsHalf(f3) { IoLoadDiffers(f3, addr); }
  }

  /** The answer 0x10000 always shows the difference. */
  lemma IoLoadDiffers(f3: int, addr: Word)
    requires IsByte(f3) || IsHalf(f3)
    ensures LoadWord(f3, addr, 0x1_0000) != 0x1_0000
  {
  }

  lemma SameValue(rom: Rom, e: SeqState, x: Word)
    requires Executing(rom, e) && !Is(e.instr, LOAD) && !Is(e.instr, STORE) && !Is(e.instr, BRANCH)
    ensures WriteBackData(e, x) == RdValue(RtlCore(rom), View(e), x)
  {
    hide Decode, AluRtl, Taken, LoadWord, StoreWord, Index, Fetched, Is, SeqAlu;
    FetchedIs(rom, e);
    SameAlu(e);
  }

  /** Any instruction but a load: Execute is its last clock. */
  lemma ExecutesInOneStep(rom: Rom, e: SeqState, x: Word)
    requires Executing(rom, e) && !Is(e.instr, LOAD)
    ensures SeqNext(rom, e, x).phase == FetchInstr
    ensures View(SeqNext(rom, e, x)) == Step(RtlCore(rom), View(e), x)
  {
    hide Decode, AluRtl, Taken, LoadWord, StoreWord, Index, Fetched, Is, SeqAlu, NextPc, RdValue, SeqRam, SeqIo,
         WriteBackData, SeqEbreak, SeqNextPC;
    FetchedIs(rom, e);
    SamePc(rom, e);
    SameStores(rom, e, x);
    if !Is(e.instr, STORE) && !Is(e.instr, BRANCH) { SameValue(rom, e, x); }
  }

  /** A load: Execute writes a stale value into rd, WaitData the right one over it. */
  lemma LoadsInTwoSteps(rom: Rom, e: SeqState, x: Word)
    requires Executing(rom, e) && Is(e.instr, LOAD)
    ensures var t := SeqNext(rom, SeqNext(rom, e, x), x);
            t.phase == FetchInstr && View(t) == Step(RtlCore(rom), View(e), x)
  {
    hide Decode, AluRtl, Taken, StoreWord, Index, Fetched, Is, SeqAlu, NextPc, SeqNextPC, SeqEbreak;
    FetchedIs(rom, e);
    SamePc(rom, e);
    SameStores(rom, e, x);
    SameAddress(rom, e);
    var m := SeqNext(rom, e, x);
    assert m.phase == WaitData && m.instr == e.instr && m.rs1 == e.rs1;
    assert LoadStoreAddr(m) == LoadStoreAddr(e);
    assert WriteBackData(m, x) == RdValue(RtlCore(rom), View(e), x);
    var d := Decode(e.instr);
    var v := WriteBackData(e, x);
    var r := RdValue(RtlCore(rom), View(e), x);
    WriteTwice(e.regs, d.rd, v, r);
  }

  lemma WriteTwice(regs: Regs, rd: Reg, v: Word, r: Word)
    ensures WriteBack(WriteBack(regs, true, rd, v), true, rd, r) == WriteBack(regs, true, rd, r)
  {
  }

  /** One instruction of the sequential processor is one step of the reference. */
  lemma InstructionAgrees(rom: Rom, s: SeqState, x: Word)
    requires s.phase == FetchInstr && CommonAt(rom, View(s))
    ensures var t := SeqRun(rom, s, x, Clocks(rom, View(s)));
            t.phase == FetchInstr && View(t) == Step(RtlCore(rom), View(s), x)
  {
    hide Decode, Step, Common, SeqNext;
    ReachesExecute(rom, s, x);
    var e := SeqRun(rom, s, x, 2);
    assert Executing(rom, e);
    assert SeqRun(rom, s, x, 3) == SeqNext(rom, e, x);
    if Is(e.instr, LOAD) {
      LoadsInTwoSteps(rom, e, x);
      assert SeqRun(rom, s, x, 4) == SeqNext(rom, SeqRun(rom, s, x, 3), x);
    } else {
      ExecutesInOneStep(rom, e, x);
    }
  }

  // ------------------------------------------------------------ whole runs

  /** The sequential processor about to fetch instruction n. */
  function SeqAt(rom: Rom, ext: nat -> Word, s0: SeqState, n: nat): SeqState {
    if n == 0 then s0
    else
      var s := SeqAt(rom, ext, s0, n - 1);
      SeqRun(rom, s, ext(n - 1), Clocks(rom, View(s)))
  }

  /** Every instruction up to number t is one both processors understand alike. */
  ghost predicate CommonProgram(rom: Rom, ext: nat -> Word, a0: Arch, t: nat) {
    forall n: nat | n <= t :: CommonAt(rom, Ref(RtlCore(rom), a0, ext, n))
  }

  lemma {:induction false} SequentialFollowsReference(rom: Rom, ext: nat -> Word, s0: SeqState, t: nat, n: nat)
    requires s0.phase == FetchInstr && CommonProgram(rom, ext, View(s0), t) && n <= t
    ensures var s := SeqAt(rom, ext, s0, n);
            s.phase == FetchInstr && View(s) == Ref(RtlCore(rom), View(s0), ext, n)
    decreases n
  {
    hide CommonAt, Step, SeqRun, Clocks;
    if n > 0 {
      SequentialFollowsReference(rom, ext, s0, t, n - 1);
      InstructionAgrees(rom, SeqAt(rom, ext, s0, n - 1), ext(n - 1));
    }
  }

  lemma CommonStaysInRom(rom: Rom, w: World, p0: State, t: nat)
    requires CommonProgram(rom, w.ext, InitialArch(p0), t)
    ensures StaysInRom(RtlCore(rom), w, p0, t)
  {
    hide Common, Ref;
  }

  /** The fast machine refines the simple one: at every clock of the pipeline, its registers are those the
      sequential processor has after as many instructions as the pipeline has retired, and its memory and I/O
      those after as many as have passed the memory stage. */
  lemma PipelineAgreesWithSequential(rom: Rom, w: World, p0: State, s0: SeqState, t: nat)
    requires Booted(p0) && s0.phase == FetchInstr && View(s0) == InitialArch(p0)
    requires CommonProgram(rom, w.ext, View(s0), t)
    ensures var m := Run(RtlCore(rom), w, p0, t);
            && m.retired <= Stored(m) <= t
            && m.s.regs == SeqAt(rom, w.ext, s0, m.retired).regs
            && m.s.mem == SeqAt(rom, w.ext, s0, Stored(m)).mem
            && m.s.io == SeqAt(rom, w.ext, s0, Stored(m)).io
  {
    hide Run, Ref, CommonProgram, Booted, SeqAt, RtlCore;
    CommonStaysInRom(rom, w, p0, t);
    PipelineRefines(RtlCore(rom), w, p0, t);
    var m := Run(RtlCore(rom), w, p0, t);
    SequentialFollowsReference(rom, w.ext, s0, t, m.retired);
    SequentialFollowsReference(rom, w.ext, s0, t, Stored(m));
  }

  /** Reset takes the sequential machine, wherever it stands, to the start of the program the booted pipeline runs. */
  lemma ResetsMeet(p0: State, s: SeqState)
    requires Booted(p0) && s.regs == p0.regs && s.mem == p0.mem && s.io == p0.io
    ensures SeqReset(s).phase == FetchInstr && View(SeqReset(s)) == InitialArch(p0) && SeqReset(s).pc == p0.fe.pc
  {
  }

  // ------------------------------------------------------------ the M extension, which only the pipeline has

  /** Chapter 7 of the RISC-V Unprivileged ISA, MULHSU (funct3 2) excepted. */
  function IsaM(f3: int, a: Word, b: Word): Word {
    match f3
    case 0 => (a * b) % MODULUS
    case 1 => High(Signed(a) * Signed(b))
    case 3 => High(a * b)
    case _ => IsaDivide(f3, a, b)
  }

  /** Multiplies and divides deliver what the ISA prescribes. */
  lemma MExtensionIsIsa(rom: Rom, a: Arch, x: Word)
    requires var d := Fetched(RtlCore(rom), a); FlagsOf(d).isRV32M && d.f3 != 2 && 0 <= d.f3 < 8
    ensures var d := Fetched(RtlCore(rom), a);
            RdValue(RtlCore(rom), a, x) == IsaM(d.f3, Read(a.regs, d.rs1), Read(a.regs, d.rs2))
  {
    hide Decode, MulOut, IsaDivide, Fetched, High;
    var d := Fetched(RtlCore(rom), a);
    var rs1, rs2 := Read(a.regs, d.rs1), Read(a.regs, d.rs2);
    MultiplyIsIsa(rs1, rs2);
    if d.f3 >= 4 { QuotientIsIsa(d.f3, rs1, rs2); }
  }

  /** The sequential machine has no M extension: 2 * 3 (MUL) it adds. */
  lemma MExtensionDiffers(d: Dec)
    requires d.op == ALUR && d.f3 == 0 && d.f7 == 1
    ensures AluRtl(d, 2, 3) == 6 && AluSeq(d, 2, 3) == 5
  {
  }

  // ------------------------------------------------------------ where the two part

  /** The two decoders read a SYSTEM word with funct3 0 differently exactly when inst[20] is set, inst[22]
      clear, and the upper twelve bits are not 1. */
  lemma EbreakAgreement(i: Word)
    requires Is(i, SYSTEM) && Decode(i).f3 == 0
    ensures var d := Decode(i);
            FlagsOf(d).isEBREAK == SeqEbreak(i) <==> !(d.rs2 % 2 == 1 && d.rs2 / 4 % 2 == 0 && d.csr != 1)
  {
    hide Decode, Is;
    LowSeven(i);
    SystemLowBits(i);
    OpcodeBits(i, SYSTEM);
    EbreakFields(i);
  }

  lemma SystemLowBits(i: Word)
    requires Is(i, SYSTEM)
    ensures i % 4 == 3
  {
    LowSeven(i);
  }

  lemma EbreakFields(i: Word)
    ensures var d := Decode(i); (d.iimm == 1 <==> d.csr == 1) && (d.csr == 1 ==> d.rs2 == 1)
  {
    hide Decode;
    var u := i / 0x10_0000;
    CsrFields(i);
    assert u % 4096 == 1 ==> u % 32 == 1;
  }

  lemma CsrFields(i: Word)
    ensures var d := Decode(i); var u := i / 0x10_0000;
            d.iimm == SignExtend(u % 4096, 2048) && d.csr == u % 4096 && d.rs2 == u % 32
  {
  }

  lemma FunctField(i: Word)
    ensures var d := Decode(i); d.f3 == i / 0x1000 % 8 && d.rd == i / 0x80 % 32 && d.rs1 == i / 0x8000 % 32
  {
  }

  /** 0x12100073 (SFENCE.VMA x0, x1) halts the pipeline but not the sequential processor. */
  lemma EbreakDiffers()
    ensures var i: Word := 0x1210_0073;
            Is(i, SYSTEM) && Decode(i).f3 == 0 && FlagsOf(Decode(i)).isEBREAK && !SeqEbreak(i)
  {
    hide Decode, FlagsOf;
    var i: Word := 0x1210_0073;
    FunctField(i);
    DecodedOp(i);
    CsrFields(i);
    EbreakFields(i);
    EbreakFlag(Decode(i));
  }

  lemma EbreakFlag(d: Dec)
    ensures FlagsOf(d).isEBREAK == (d.op == SYSTEM && d.f3 == 0 && d.rs2 % 2 == 1 && d.rs2 / 4 % 2 == 0)
  {
  }

  // ------------------------------------------------------------ halting

  /** An EBREAK the two decoders read alike halts the sequential machine, whatever the registers hold. */
  lemma EbreakHaltsSequential(rom: Rom, s: SeqState, x: Word)
    requires s.phase == FetchInstr && CommonAt(rom, View(s)) && AtEbreak(RtlCore(rom), View(s))
    ensures SeqRun(rom, s, x, Clocks(rom, View(s))).halt
  {
    hide Decode, Common, SeqNext, FlagsOf;
    ReachesExecute(rom, s, x);
    var e := SeqRun(rom, s, x, 2);
    assert Executing(rom, e);
    FetchedIs(rom, e);
    EbreakIsCommon(rom, e);
    assert SeqRun(rom, s, x, 3) == SeqNext(rom, e, x);
    ExecuteHalts(rom, e, x);
  }

  lemma EbreakIsCommon(rom: Rom, e: SeqState)
    requires Executing(rom, e) && FlagsOf(Decode(e.instr)).isEBREAK
    ensures SeqEbreak(e.instr) && !Is(e.instr, LOAD)
  {
    hide Decode;
  }

  lemma ExecuteHalts(rom: Rom, e: SeqState, x: Word)
    requires e.phase == Execute && SeqEbreak(e.instr)
    ensures SeqNext(rom, e, x).halt
  {
    hide SeqEbreak, Decode, SeqRegs, SeqRam, SeqIo, SeqRamOut, SeqNextPC;
  }

  /** No clock clears the halt flag. */
  lemma HaltStays(rom: Rom, s: SeqState, x: Word)
    requires s.halt
    ensures SeqNext(rom, s, x).halt
  {
    hide SeqEbreak, Decode, SeqRegs, SeqRam, SeqIo, SeqRamOut, SeqNextPC;
  }

  lemma {:induction false} HaltStaysRun(rom: Rom, s: SeqState, x: Word, n: nat)
    requires s.halt
    ensures SeqRun(rom, s, x, n).halt
  {
    hide SeqNext;
    if n > 0 {
      HaltStaysRun(rom, s, x, n - 1);
      HaltStays(rom, SeqRun(rom, s, x, n - 1), x);
    }
  }

  /** What makes an EBREAK common does not depend on the registers. */
  lemma CommonEbreak(i: Word, a1: Word, a2: Word, b1: Word, b2: Word)
    requires Common(i, a1, a2) && FlagsOf(Decode(i)).isEBREAK
    ensures Common(i, b1, b2)
  {
    hide Decode, SeqEbreak;
  }

  /** A common program that reaches an EBREAK stays common. */
  lemma EbreakStaysCommon(rom: Rom, w: World, p0: State, t: nat, n: nat, u: nat)
    requires CommonProgram(rom, w.ext, InitialArch(p0), t) && n <= t
    requires AtEbreak(RtlCore(rom), Spec(RtlCore(rom), w, p0, n))
    ensures CommonProgram(rom, w.ext, InitialArch(p0), u)
  {
    hide CommonAt, Ref, RtlCore, AtEbreak, WritesNothingNew;
    var c := RtlCore(rom);
    forall k: nat | k <= u ensures CommonAt(rom, Ref(c, InitialArch(p0), w.ext, k)) {
      if k > t {
        EbreakForever(c, w, p0, n, k);
        SameEbreak(rom, Spec(c, w, p0, n), Spec(c, w, p0, k));
      }
    }
  }

  lemma SameEbreak(rom: Rom, a: Arch, b: Arch)
    requires CommonAt(rom, a) && AtEbreak(RtlCore(rom), a) && b.pc == a.pc
    ensures CommonAt(rom, b)
  {
    hide Common, Decode, FlagsOf, AluRtl, Taken, LoadWord, StoreWord, Index;
    var i := rom[WordIndex(a.pc)];
    CommonEbreak(i, Read(a.regs, Decode(i).rs1), Read(a.regs, Decode(i).rs2),
                 Read(b.regs, Decode(i).rs1), Read(b.regs, Decode(i).rs2));
  }

  /** The sequential machine at an EBREAK: halted from its execution on, at the same PC, with the same memory and I/O,
      and with the same registers for ever when the EBREAK writes nothing new. */
  lemma {:induction false} SequentialHalts(rom: Rom, w: World, p0: State, s0: SeqState, t: nat, n: nat, k: nat)
    requires s0.phase == FetchInstr && View(s0) == InitialArch(p0)
    requires CommonProgram(rom, w.ext, View(s0), t) && n <= t && AtEbreak(RtlCore(rom), View(SeqAt(rom, w.ext, s0, n)))
    ensures var a, b := SeqAt(rom, w.ext, s0, n), SeqAt(rom, w.ext, s0, n + k);
            && View(b) == Spec(RtlCore(rom), w, p0, n + k) && b.phase == FetchInstr
            && b.pc == a.pc && b.mem == a.mem && b.io == a.io && (k > 0 ==> b.halt)
            && (WritesNothingNew(RtlCore(rom), View(a)) ==> b.regs == a.regs)
  {
    hide CommonAt, Step, SeqRun, Clocks, RtlCore, AtEbreak, WritesNothingNew, CommonProgram, Ref;
    var c := RtlCore(rom);
    SequentialFollowsReference(rom, w.ext, s0, t, n);
    EbreakStaysCommon(rom, w, p0, t, n, n + k);
    SequentialFollowsReference(rom, w.ext, s0, n + k, n + k);
    EbreakForever(c, w, p0, n, n + k);
    if k > 0 {
      SequentialHalts(rom, w, p0, s0, t, n, k - 1);
      var q := SeqAt(rom, w.ext, s0, n + k - 1);
      EbreakForever(c, w, p0, n, n + k - 1);
      CommonThere(rom, w.ext, View(s0), n + k, n + k - 1);
      EbreakHaltsSequential(rom, q, w.ext(n + k - 1));
    }
  }

  lemma CommonThere(rom: Rom, ext: nat -> Word, a0: Arch, t: nat, n: nat)
    requires CommonProgram(rom, ext, a0, t) && n <= t
    ensures CommonAt(rom, Ref(RtlCore(rom), a0, ext, n))
  {
  }

  /** EBREAK halts both machines in the same architectural state: once the pipeline holds it, from two clocks later and
      at every clock, registers, memory and I/O equal those of the sequential machine, halted at that EBREAK.  When the
      EBREAK writes nothing new they are for ever those the sequential machine had on reaching it. */
  lemma BothHalt(rom: Rom, w: World, p0: State, s0: SeqState, t: nat, k: nat)
    requires Booted(p0) && s0.phase == FetchInstr && View(s0) == InitialArch(p0)
    requires CommonProgram(rom, w.ext, View(s0), t)
    requires var m := Run(RtlCore(rom), w, p0, t);
             !m.s.de.nop && AtEbreak(RtlCore(rom), Spec(RtlCore(rom), w, p0, m.issued))
    ensures var n := Run(RtlCore(rom), w, p0, t).issued;
            var s := Run(RtlCore(rom), w, p0, t + 2 + k).s;
            var a, q := SeqAt(rom, w.ext, s0, n), SeqAt(rom, w.ext, s0, n + k);
            && s.de.f.isEBREAK && (k > 0 ==> q.halt) && q.pc == a.pc
            && s.regs == q.regs && s.mem == q.mem && s.io == q.io
            && (WritesNothingNew(RtlCore(rom), View(a)) ==> s.regs == a.regs && s.mem == a.mem && s.io == a.io)
  {
    hide Run, Ref, CommonProgram, Booted, SeqAt, RtlCore, AtEbreak, WritesNothingNew, StaysInRom;
    var c := RtlCore(rom);
    CommonStaysInRom(rom, w, p0, t);
    IssuedByNow(c, w, p0, t);
    var n := Run(c, w, p0, t).issued;
    SequentialFollowsReference(rom, w.ext, s0, t, n);
    SequentialHalts(rom, w, p0, s0, t, n, k);
    HaltsInTheSameState(c, w, p0, t, k);
  }

  /** 0x001080f3, an EBREAK with rd and rs1 x1, adds one to x1 whenever it is executed. */
  lemma EbreakCanWrite(rom: Rom, a: Arch)
    requires InRom(RtlCore(rom), a.pc) && rom[WordIndex(a.pc)] == 0x0010_80f3
    ensures AtEbreak(RtlCore(rom), a) && !WritesNothingNew(RtlCore(rom), a)
  {
    hide Decode, FlagsOf, AluPipe, MulOut, Taken, LoadWord, StoreWord, Index;
    var i: Word := 0x0010_80f3;
    FunctField(i);
    DecodedOp(i);
    CsrFields(i);
    EbreakFlag(Decode(i));
    EbreakAlu(Decode(i), a.regs[1], Decode(i).iimm);
  }

  lemma EbreakAlu(d: Dec, x: Word, b: Word)
    requires d.op == SYSTEM && d.f3 == 0
    ensures AluRtl(d, x, b) == Add(x, b)
  {
  }
}
