/** The reference machine, with the pipeline's own decoder, ALU, lanes and divider, executes every instruction as the ISA
    says; so does the pipeline, at every clock of every run. */
module IsaProof {
  import opened Arith
  import opened Words
  import opened Decoder
  import opened Encoding
  import opened Divider
  import opened Datapath
  import opened Alu
  import opened Lanes
  import opened Sequential
  import opened Pipeline
  import opened Refinement
  import opened Runs
  import opened Agreement
  import opened Isa

  /** The instruction at the program counter. */
  predicate At(rom: Rom, a: Arch, i: Instr) {
    WellFormed(i) && WordIndex(a.pc) < ROM_WORDS && rom[WordIndex(a.pc)] == Assemble(i) && NaturallyAligned(i, a)
  }

  function DecOf(i: Instr): Dec
    requires WellFormed(i)
  {
    Decode(Assemble(i))
  }

  lemma FetchedAt(rom: Rom, a: Arch, i: Instr)
    requires At(rom, a, i)
    ensures Fetched(RtlCore(rom), a) == DecOf(i)
  {
    hide Decode, Assemble, WellFormed, NaturallyAligned, AluRtl, Taken, LoadWord, StoreWord, Index;
  }

  /** The fixed fields of an assembled instruction. */
  lemma FixedFields(i: Instr)
    requires WellFormed(i)
    ensures var d, f := DecOf(i), Encoded(i);
            && (d.op, d.rd, d.f3, d.rs1, d.rs2, d.f7) == (f.op, f.rd, f.f3, f.rs1, f.rs2, f.f7) && d.csr == f.f7 * 32 + f.rs2
  {
    hide Decode, Layout, Encoded, WellFormed;
    EncodedInRange(i);
    FieldsDecoded(Encoded(i));
  }

  // ------------------------------------------------------------ from the parts to the whole effect

  lemma Conclude(rom: Rom, i: Instr, a: Arch, x: Word)
    requires At(rom, a, i) && !i.Store?
    requires var c := RtlCore(rom); var d := DecOf(i); var f := FlagsOf(d);
             && NextPc(c, a) == NextOf(i, a) && !f.isStore
             && (if Dest(i) != 0 then f.wbEnable && d.rd == Dest(i) && Result(i, a, x, RdValue(c, a, x)) else !f.wbEnable || d.rd == 0)
    ensures Effect(i, a, x, Step(RtlCore(rom), a, x))
  {
    hide RtlCore, NextPc, RdValue, FlagsOf, Decode, Result, NextOf, Dest, Read, WriteBack, Step, Assemble, WellFormed,
         NaturallyAligned;
    FetchedAt(rom, a, i);
    var c, d := RtlCore(rom), DecOf(i);
    var b := Step(c, a, x);
    StepParts(c, a, x);
    forall r: Reg ensures Read(b.regs, r) == if r != 0 && FlagsOf(d).wbEnable && r == d.rd then RdValue(c, a, x) else Read(a.regs, r) {
      ReadAfterWrite(a.regs, FlagsOf(d).wbEnable, d.rd, RdValue(c, a, x), r);
      ReadMeans(a.regs, r);
    }
  }

  lemma StepParts(c: Core, a: Arch, x: Word)
    ensures var f := FlagsOf(Fetched(c, a)); var b := Step(c, a, x);
            && b.pc == NextPc(c, a) && b.regs == WriteBack(a.regs, f.wbEnable, Fetched(c, a).rd, RdValue(c, a, x))
            && (!f.isStore ==> b.mem == a.mem && b.io == a.io)
  {
    hide NextPc, RdValue, Fetched, FlagsOf, Read;
  }

  lemma ReadMeans(regs: Regs, r: Reg)
    ensures Read(regs, r) == if r == 0 then 0 else regs[r]
  {
  }

  // ------------------------------------------------------------ class by class

  lemma UpperExecutes(rom: Rom, i: Instr, a: Arch, x: Word)
    requires At(rom, a, i) && (i.Lui? || i.Auipc?)
    ensures Effect(i, a, x, Step(RtlCore(rom), a, x))
  {
    hide Decode, Effect, Step, Layout, AluRtl, Taken, LoadWord, StoreWord, Index, Finish, DivStart;
    FetchedAt(rom, a, i);
    FixedFields(i);
    UTypeDecoded(if i.Lui? then 0x37 / 4 else 0x17 / 4, i.rd, i.imm);
    Conclude(rom, i, a, x);
  }

  lemma JumpExecutes(rom: Rom, i: Instr, a: Arch, x: Word)
    requires At(rom, a, i) && (i.Jal? || i.Jalr?)
    ensures Effect(i, a, x, Step(RtlCore(rom), a, x))
  {
    hide Decode, Effect, Step, Layout, AluRtl, Taken, LoadWord, StoreWord, Index, Finish, DivStart;
    FetchedAt(rom, a, i);
    FixedFields(i);
    if i.Jal? {
      JTypeDecoded(0x6F / 4, i.rd, i.off);
      AddWraps(a.pc, i.off);
    } else {
      ITypeDecoded(0x67 / 4, 0, i.rd, i.rs1, i.imm);
      AddWraps(Read(a.regs, i.rs1), i.imm);
    }
    Conclude(rom, i, a, x);
  }

  /** Adding a wrapped number is adding the number. */
  lemma AddWraps(a: Word, v: int)
    ensures Add(a, Wrap(v)) == Wrap(a + v)
  {
  }

  lemma BranchExecutes(rom: Rom, i: Instr, a: Arch, x: Word)
    requires At(rom, a, i) && i.Branch?
    ensures Effect(i, a, x, Step(RtlCore(rom), a, x))
  {
    hide Decode, Effect, Step, Layout, AluRtl, Taken, LoadWord, StoreWord, Index, Finish, DivStart, RdValue, Signed;
    FetchedAt(rom, a, i);
    FixedFields(i);
    BTypeDecoded(0x63 / 4, CondFunct3(i.cond), i.rs1, i.rs2, i.off);
    AddWraps(a.pc, i.off);
    TakenMeans(DecOf(i), Read(a.regs, i.rs1), Read(a.regs, i.rs2));
    Conclude(rom, i, a, x);
  }

  /** The base ALU against the operation an encoding stands for. */
  lemma AluComputes(d: Dec, op: Op, a: Word, b: Word)
    requires d.f3 == OpFunct3(op)
    requires d.f7 / 32 % 2 == (if op.SUB? || op.SRA? then 1 else 0) || (op.ADD? && d.op != 12) || op.SLT? || op.SLTU?
             || op.XOR? || op.OR? || op.AND?
    requires op.SUB? ==> d.op == 12
    ensures Computes(op, a, b, AluPipe(d, a, b))
  {
    hide AluPipe, Pow2, BitOf, Signed;
    AluMeans(d, a, b);
  }

  lemma RegisterExecutes(rom: Rom, i: Instr, a: Arch, x: Word)
    requires At(rom, a, i) && i.Register?
    ensures Effect(i, a, x, Step(RtlCore(rom), a, x))
  {
    hide Decode, Effect, Step, Layout, AluPipe, MulOut, Taken, LoadWord, StoreWord, Index, Finish, DivStart, Computes;
    FetchedAt(rom, a, i);
    FixedFields(i);
    AluComputes(DecOf(i), i.op, Read(a.regs, i.rs1), Read(a.regs, i.rs2));
    Conclude(rom, i, a, x);
  }

  lemma ImmediateFields(i: Instr)
    requires WellFormed(i) && i.Immediate?
    ensures var d := DecOf(i);
            && d.op == 4 && d.rd == i.rd && d.rs1 == i.rs1 && d.f3 == OpFunct3(i.op)
            && d.iimm == Wrap(if i.op.SRA? then 0x400 + i.imm else i.imm)
            && (IsShift(i.op) ==> d.f7 / 32 % 2 == (if i.op.SRA? then 1 else 0))
  {
    hide Decode, Layout, Wrap, OpFunct3, Assemble;
    FixedFields(i);
    Funct3InRange(i.op, MUL, EQUAL, BYTE);
    if IsShift(i.op) { ShiftFunct7(i.imm); }
    ITypeDecoded(0x13 / 4, OpFunct3(i.op), i.rd, i.rs1, if i.op.SRA? then 0x400 + i.imm else i.imm);
    AssembledIs(i);
  }

  lemma AssembledIs(i: Instr)
    requires WellFormed(i)
    ensures InRange(Encoded(i)) && Assemble(i) == Layout(Encoded(i))
  {
    EncodedInRange(i);
  }

  lemma ShiftFunct7(imm: int)
    requires 0 <= imm < 32
    ensures imm % 0x1000 / 32 == 0 && (0x400 + imm) % 0x1000 / 32 == 32
  {
  }

  lemma ImmediateComputes(i: Instr, a: Word)
    requires WellFormed(i) && i.Immediate?
    ensures var d := DecOf(i); Computes(i.op, a, Wrap(i.imm), AluPipe(d, a, d.iimm))
  {
    hide Decode, Layout, AluPipe, Computes;
    var d := DecOf(i);
    ImmediateFields(i);
    AluComputes(d, i.op, a, d.iimm);
    if IsShift(i.op) { ShiftAmount(i.op, a, d.iimm, Wrap(i.imm), AluPipe(d, a, d.iimm)); }
  }

  lemma ImmediateExecutes(rom: Rom, i: Instr, a: Arch, x: Word)
    requires At(rom, a, i) && i.Immediate?
    ensures Effect(i, a, x, Step(RtlCore(rom), a, x))
  {
    hide Decode, Effect, Step, Layout, AluPipe, MulOut, Taken, LoadWord, StoreWord, Index, Finish, DivStart, Computes, Wrap,
         IsShift, Assemble;
    FetchedAt(rom, a, i);
    ImmediateFields(i);
    ImmediateComputes(i, Read(a.regs, i.rs1));
    NextWord(a.pc);
    Conclude(rom, i, a, x);
  }

  lemma NextWord(pc: Word)
    ensures Add(pc, 4) == Wrap(pc + 4)
  {
  }

  /** Only the low five bits of a shift amount matter. */
  lemma ShiftAmount(op: Op, a: Word, b: Word, b': Word, r: Word)
    requires IsShift(op) && b % 32 == b' % 32 && Computes(op, a, b, r)
    ensures Computes(op, a, b', r)
  {
  }

  /** Where the pipeline's MULHSU conforms. */
  predicate Conforms(i: Instr, a: Arch) {
    i.MulDiv? && i.mop.MULHSU? && i.rd != 0 ==>
      var p, q := Read(a.regs, i.rs1), Read(a.regs, i.rs2);
      (if q >= 0x8000_0000 then p else 0) == (if p >= 0x8000_0000 then q else 0)
  }

  lemma MulDivExecutes(rom: Rom, i: Instr, a: Arch, x: Word)
    requires At(rom, a, i) && i.MulDiv?
    ensures Effect(i, a, x, Step(RtlCore(rom), a, x)) <==> Conforms(i, a)
  {
    hide Decode, Effect, Layout, AluPipe, MulOut, Taken, LoadWord, StoreWord, Index, IsaDivide, Quotient, High;
    FetchedAt(rom, a, i);
    FixedFields(i);
    var c := RtlCore(rom);
    var p, q := Read(a.regs, i.rs1), Read(a.regs, i.rs2);
    MultiplyIsIsa(p, q);
    MulhsuAgreement(p, q);
    if MulFunct3(i.mop) >= 4 { QuotientIsIsa(MulFunct3(i.mop), p, q); }
    MulDivValue(rom, i, a, x);
    if Conforms(i, a) {
      Conclude(rom, i, a, x);
    } else {
      ReadAfterWrite(a.regs, true, i.rd, RdValue(c, a, x), i.rd);
      NotIsa(i, a, x, Step(c, a, x));
    }
  }

  lemma MulDivValue(rom: Rom, i: Instr, a: Arch, x: Word)
    requires At(rom, a, i) && i.MulDiv?
    ensures var p, q := Read(a.regs, i.rs1), Read(a.regs, i.rs2); var f3 := MulFunct3(i.mop);
            RdValue(RtlCore(rom), a, x) == if f3 >= 4 then Quotient(f3, p, q) else MulOut(f3, p, q)
  {
    hide Decode, Layout, AluPipe, MulOut, Taken, LoadWord, StoreWord, Index, DivStart, Finish, DivOut;
    FetchedAt(rom, a, i);
    FixedFields(i);
  }

  lemma NotIsa(i: Instr, a: Arch, x: Word, b: Arch)
    requires Dest(i) != 0 && !Result(i, a, x, Read(b.regs, Dest(i)))
    ensures !Effect(i, a, x, b)
  {
    hide Result;
  }

  lemma SystemExecutes(rom: Rom, i: Instr, a: Arch, x: Word)
    requires At(rom, a, i) && (i.ReadCsr? || i.Fence? || i.Ebreak?)
    ensures Effect(i, a, x, Step(RtlCore(rom), a, x))
  {
    hide Decode, Effect, Step, Layout, AluRtl, Taken, LoadWord, StoreWord, Index, Finish, DivStart;
    FetchedAt(rom, a, i);
    FixedFields(i);
    Conclude(rom, i, a, x);
  }

  lemma IoBit(addr: Word)
    ensures IsIO(addr) == ToIo(addr)
  {
    assert Pow2(11) == 2048;
    PowerSum(2, 11, 11);
  }

  lemma LoadExecutes(rom: Rom, i: Instr, a: Arch, x: Word)
    requires At(rom, a, i) && i.Load?
    ensures Effect(i, a, x, Step(RtlCore(rom), a, x))
  {
    hide Decode, Effect, Step, Layout, AluRtl, Taken, LoadWord, StoreWord, Index, Finish, DivStart, Datum, IsIO, ToIo, Signed;
    FetchedAt(rom, a, i);
    FixedFields(i);
    ITypeDecoded(0x03 / 4, AccessFunct3(i.access), i.rd, i.rs1, i.imm);
    AddWraps(Read(a.regs, i.rs1), i.imm);
    var addr := AddressOf(i, a);
    IoBit(addr);
    LoadMeans(AccessFunct3(i.access), addr, if addr / 4 < |a.mem| then a.mem[addr / 4] else x);
    Conclude(rom, i, a, x);
  }

  // ------------------------------------------------------------ stores

  lemma StoreExecutes(rom: Rom, i: Instr, a: Arch, x: Word)
    requires At(rom, a, i) && i.Store?
    ensures Effect(i, a, x, Step(RtlCore(rom), a, x))
  {
    hide Decode, Layout, AluRtl, Taken, LoadWord, StoreWord, Index, RdValue, IsIO, ToIo, MemByte, Pow2;
    FetchedAt(rom, a, i);
    FixedFields(i);
    STypeDecoded(0x23 / 4, AccessFunct3(i.access), i.rs1, i.rs2, i.imm);
    AddWraps(Read(a.regs, i.rs1), i.imm);
    var addr, v := AddressOf(i, a), Read(a.regs, i.rs2);
    IoBit(addr);
    var b := Step(RtlCore(rom), a, x);
    if !ToIo(addr) {
      var f3, k := AccessFunct3(i.access), addr / 4;
      assert b.mem == if k < |a.mem| then a.mem[k := StoreWord(f3, addr, v, a.mem[k])] else a.mem;
      forall n: nat | n < 4 * |a.mem|
        ensures MemByte(b.mem, n) == if addr <= n < addr + SizeOf(i.access) then v / Pow2(8 * (n - addr)) % 0x100 else MemByte(a.mem, n)
      {
        ByteAfterStore(a.mem, b.mem, i.access, addr, v, n);
      }
    }
  }

  lemma ByteAfterStore(mem: seq<Word>, mem': seq<Word>, access: Access, addr: Word, v: Word, n: nat)
    requires access.BYTE? || access.HALF? || access.WORD?
    requires addr % SizeOf(access) == 0 && n < 4 * |mem|
    requires var k := addr / 4; mem' == if k < |mem| then mem[k := StoreWord(AccessFunct3(access), addr, v, mem[k])] else mem
    ensures MemByte(mem', n) == if addr <= n < addr + SizeOf(access) then v / Pow2(8 * (n - addr)) % 0x100 else MemByte(mem, n)
  {
    hide StoreWord, Pow2;
    var k := addr / 4;
    if k < |mem| && n / 4 == k {
      StoreDigits(AccessFunct3(access), addr, v, mem[k], n % 4);
      assert n % 4 - addr % 4 == n - addr;
    }
  }

  // ------------------------------------------------------------ every instruction

  /** For every RV32IM instruction, operands, memory and outside answer, one step of the reference has exactly the effect
      the ISA prescribes, if and only if it is not a MULHSU on which the pipeline's multiplier differs. */
  lemma StepIsIsa(rom: Rom, i: Instr, a: Arch, x: Word)
    requires At(rom, a, i)
    ensures Effect(i, a, x, Step(RtlCore(rom), a, x)) <==> Conforms(i, a)
  {
    hide At, Effect, Step, RtlCore;
    match i
    case Lui(_, _) => UpperExecutes(rom, i, a, x);
    case Auipc(_, _) => UpperExecutes(rom, i, a, x);
    case Jal(_, _) => JumpExecutes(rom, i, a, x);
    case Jalr(_, _, _) => JumpExecutes(rom, i, a, x);
    case Branch(_, _, _, _) => BranchExecutes(rom, i, a, x);
    case Load(_, _, _, _) => LoadExecutes(rom, i, a, x);
    case Store(_, _, _, _) => StoreExecutes(rom, i, a, x);
    case Immediate(_, _, _, _) => ImmediateExecutes(rom, i, a, x);
    case Register(_, _, _, _) => RegisterExecutes(rom, i, a, x);
    case MulDiv(_, _, _, _) => MulDivExecutes(rom, i, a, x);
    case ReadCsr(_, _) => SystemExecutes(rom, i, a, x);
    case Fence => SystemExecutes(rom, i, a, x);
    case Ebreak => SystemExecutes(rom, i, a, x);
  }

  // ------------------------------------------------------------ the pipeline

  /** What an instruction finds and leaves in the registers and memory of the pipeline when it issues at clock t: it
      writes memory two clocks later and registers three. */
  function Before(rom: Rom, w: World, p0: State, t: nat): Arch {
    var c := RtlCore(rom);
    Arch(Run(c, w, p0, t).s.de.pc, Run(c, w, p0, t + 2).s.regs, Run(c, w, p0, t + 1).s.mem, Run(c, w, p0, t + 1).s.io)
  }

  function After(rom: Rom, w: World, p0: State, t: nat, pc: Word): Arch {
    var c := RtlCore(rom);
    Arch(pc, Run(c, w, p0, t + 3).s.regs, Run(c, w, p0, t + 2).s.mem, Run(c, w, p0, t + 2).s.io)
  }

  lemma IssueWindow(rom: Rom, w: World, p0: State, t: nat)
    requires var c := RtlCore(rom);
             Booted(p0) && StaysInRom(c, w, p0, t + 3) && Issue(Run(c, w, p0, t).s)
    ensures var c := RtlCore(rom); var n := Run(c, w, p0, t).issued;
            && Before(rom, w, p0, t) == Spec(c, w, p0, n)
            && After(rom, w, p0, t, Spec(c, w, p0, n + 1).pc) == Spec(c, w, p0, n + 1)
  {
    var c := RtlCore(rom);
    hide Run, Spec, Booted, StaysInRom, Issue, RtlCore;
    IssueCounts(c, w, p0, t);
    PipelineRefines(c, w, p0, t);
    PipelineRefines(c, w, p0, t + 1);
    PipelineRefines(c, w, p0, t + 2);
    PipelineRefines(c, w, p0, t + 3);
    RetiresTwoClocksLater(c, w, p0, t);
    RetiresTwoClocksLater(c, w, p0, t + 1);
  }

  lemma IssueCounts(c: Core, w: World, p0: State, t: nat)
    requires Booted(p0) && StaysInRom(c, w, p0, t + 3) && Issue(Run(c, w, p0, t).s)
    ensures StaysInRom(c, w, p0, t) && StaysInRom(c, w, p0, t + 1) && StaysInRom(c, w, p0, t + 2)
    ensures var m, m1, m2 := Run(c, w, p0, t), Run(c, w, p0, t + 1), Run(c, w, p0, t + 2);
            !m.s.de.nop && m1.issued == m.issued + 1 && Stored(m1) == m.issued && Stored(m2) == m.issued + 1
  {
    hide Run, Spec, Booted;
    StageOccupancy(c, w, p0, t);
    StageOccupancy(c, w, p0, t + 1);
  }

  /** At every clock of every run: an instruction of RV32IM that issues changes the pipeline's registers, memory and I/O
      exactly as the ISA prescribes, if and only if the multiplier conforms on it. */
  lemma PipelineExecutesIsa(rom: Rom, w: World, p0: State, t: nat, i: Instr)
    requires var c := RtlCore(rom);
             Booted(p0) && StaysInRom(c, w, p0, t + 3) && Issue(Run(c, w, p0, t).s)
    requires At(rom, Before(rom, w, p0, t), i)
    ensures var n := Run(RtlCore(rom), w, p0, t).issued; var a := Before(rom, w, p0, t);
            Effect(i, a, w.ext(n), After(rom, w, p0, t, NextOf(i, a))) <==> Conforms(i, a)
  {
    var c := RtlCore(rom);
    hide Run, Spec, Booted, StaysInRom, Issue, RtlCore, At, Conforms, Step, Before, After;
    IssueWindow(rom, w, p0, t);
    var n := Run(c, w, p0, t).issued;
    var a := Before(rom, w, p0, t);
    SpecStep(c, w, p0, n);
    StepIsIsa(rom, i, a, w.ext(n));
    NextIsIsa(rom, i, a);
    AfterPc(rom, w, p0, t, Spec(c, w, p0, n + 1).pc);
  }

  lemma AfterPc(rom: Rom, w: World, p0: State, t: nat, pc: Word)
    ensures After(rom, w, p0, t, pc).pc == pc
  {
    hide Run, RtlCore;
  }

  /** The next program counter conforms for every instruction. */
  lemma NextIsIsa(rom: Rom, i: Instr, a: Arch)
    requires At(rom, a, i)
    ensures NextPc(RtlCore(rom), a) == NextOf(i, a)
  {
    hide Effect, At, RtlCore, NextPc, NextOf, Conforms;
    StepIsIsa(rom, i, a, 0);
    if !i.MulDiv? { EffectPc(rom, i, a); } else { MulDivNext(rom, i, a); }
  }

  lemma EffectPc(rom: Rom, i: Instr, a: Arch)
    requires !i.MulDiv? && At(rom, a, i) && (Effect(i, a, 0, Step(RtlCore(rom), a, 0)) <==> Conforms(i, a))
    ensures NextPc(RtlCore(rom), a) == NextOf(i, a)
  {
    hide At, RtlCore, NextPc, NextOf;
  }

  lemma MulDivNext(rom: Rom, i: Instr, a: Arch)
    requires i.MulDiv? && At(rom, a, i)
    ensures NextPc(RtlCore(rom), a) == NextOf(i, a)
  {
    hide Decode, Layout, AluRtl, Taken, LoadWord, StoreWord, Index;
    FetchedAt(rom, a, i);
    FixedFields(i);
  }

  /** The registers the decoder waits for: the operands, and in SYSTEM instructions and FENCE the fields in their places. */
  predicate WaitsFor(i: Instr, r: Reg) {
    match i
    case Lui(_, _) => false
    case Auipc(_, _) => false
    case Jal(_, _) => false
    case Jalr(_, rs1, _) => r == rs1
    case Load(_, _, rs1, _) => r == rs1
    case Immediate(_, _, rs1, _) => r == rs1
    case Branch(_, rs1, rs2, _) => r == rs1 || r == rs2
    case Store(_, rs1, rs2, _) => r == rs1 || r == rs2
    case Register(_, _, rs1, rs2) => r == rs1 || r == rs2
    case MulDiv(_, _, rs1, rs2) => r == rs1 || r == rs2
    case ReadCsr(_, csr) => r == 0 || r == csr % 32
    case Fence => r == 0
    case Ebreak => r == 0 || r == 1
  }

  /** The front end waits a clock for a hazard exactly when the instruction behind a load or CSR read names its
      destination as an operand, or a load stands behind a store. */
  lemma HazardExactly(rom: Rom, s: State, i: Instr)
    requires WellFormed(i) && s.fe.fdInstr == Assemble(i)
    ensures DataHazard(RtlCore(rom), s) <==>
              || (!s.fe.fdNop && (s.de.f.isLoad || s.de.f.isCSR) && WaitsFor(i, s.de.d.rd))
              || (i.Load? && s.de.f.isStore)
  {
    hide Decode, Assemble, WellFormed, AluRtl, Taken, LoadWord, StoreWord, Index;
    FixedFields(i);
    assert D(RtlCore(rom), s) == DecOf(i);
    OperandFields(i, DecOf(i), s.de.d.rd);
  }

  lemma OperandFields(i: Instr, d: Dec, r: Reg)
    requires WellFormed(i)
    requires var f := Encoded(i); (d.op, d.rs1, d.rs2) == (f.op, f.rs1, f.rs2)
    ensures (ReadsRs1(d) && d.rs1 == r) || (ReadsRs2(d) && d.rs2 == r) <==> WaitsFor(i, r)
    ensures d.op == LOAD <==> i.Load?
  {
  }

  /** The sequential machine, on the instructions it has in common with the pipeline. */
  lemma SequentialExecutesIsa(rom: Rom, s: SeqState, x: Word, i: Instr)
    requires s.phase == FetchInstr && CommonAt(rom, View(s)) && At(rom, View(s), i) && !i.MulDiv?
    ensures Effect(i, View(s), x, View(SeqRun(rom, s, x, Clocks(rom, View(s)))))
  {
    hide At, Effect, Step, RtlCore, CommonAt, SeqRun, Clocks;
    InstructionAgrees(rom, s, x);
    StepIsIsa(rom, i, View(s), x);
  }
}
