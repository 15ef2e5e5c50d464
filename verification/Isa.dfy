/** RV32IM as the RISC-V Unprivileged ISA (20191213) describes it, and the proof that the machine both processors are
    compared with is that machine. */
module Isa {
  import opened Arith
  import opened Words
  import opened Encoding
  import opened Divider
  import opened Datapath
  import opened Alu
  import opened Lanes

  datatype Op = ADD | SUB | SLL | SLT | SLTU | XOR | SRL | SRA | OR | AND
  datatype MulOp = MUL | MULH | MULHSU | MULHU | DIV | DIVU | REM | REMU
  datatype Cond = EQUAL | UNEQUAL | LESS | GREATER_EQUAL | LESS_UNSIGNED | GREATER_EQUAL_UNSIGNED
  datatype Access = BYTE | HALF | WORD | BYTE_UNSIGNED | HALF_UNSIGNED

  /** Upper immediates are given as their twenty bits, the others as signed numbers. */
  datatype Instr =
    | Lui(rd: Reg, imm: int)
    | Auipc(rd: Reg, imm: int)
    | Jal(rd: Reg, off: int)
    | Jalr(rd: Reg, rs1: Reg, imm: int)
    | Branch(cond: Cond, rs1: Reg, rs2: Reg, off: int)
    | Load(access: Access, rd: Reg, rs1: Reg, imm: int)
    | Store(access: Access, rs1: Reg, rs2: Reg, imm: int)
    | Immediate(op: Op, rd: Reg, rs1: Reg, imm: int)
    | Register(op: Op, rd: Reg, rs1: Reg, rs2: Reg)
    | MulDiv(mop: MulOp, rd: Reg, rs1: Reg, rs2: Reg)
    | ReadCsr(rd: Reg, csr: int)
    | Fence
    | Ebreak

  predicate IsShift(op: Op) {
    op.SLL? || op.SRL? || op.SRA?
  }

  predicate Short(imm: int) {
    -0x800 <= imm < 0x800
  }

  predicate WellFormed(i: Instr) {
    match i
    case Lui(_, imm) => 0 <= imm < 0x10_0000
    case Auipc(_, imm) => 0 <= imm < 0x10_0000
    case Jal(_, off) => -0x10_0000 <= off < 0x10_0000 && off % 2 == 0
    case Jalr(_, _, imm) => Short(imm)
    case Branch(_, _, _, off) => -0x1000 <= off < 0x1000 && off % 2 == 0
    case Load(_, _, _, imm) => Short(imm)
    case Store(access, _, _, imm) => Short(imm) && (access.BYTE? || access.HALF? || access.WORD?)
    case Immediate(op, _, _, imm) => if IsShift(op) then 0 <= imm < 32 else Short(imm) && !op.SUB?
    case ReadCsr(_, csr) => 0 <= csr < 0x1000
    case _ => true
  }

  // ------------------------------------------------------------ the encodings of chapter 24

  function OpFunct3(op: Op): int {
    match op
    case ADD => 0 case SUB => 0 case SLL => 1 case SLT => 2 case SLTU => 3
    case XOR => 4 case SRL => 5 case SRA => 5 case OR => 6 case AND => 7
  }

  function MulFunct3(op: MulOp): int {
    match op
    case MUL => 0 case MULH => 1 case MULHSU => 2 case MULHU => 3 case DIV => 4 case DIVU => 5 case REM => 6 case REMU => 7
  }

  function CondFunct3(cond: Cond): int {
    match cond
    case EQUAL => 0 case UNEQUAL => 1 case LESS => 4 case GREATER_EQUAL => 5
    case LESS_UNSIGNED => 6 case GREATER_EQUAL_UNSIGNED => 7
  }

  function AccessFunct3(access: Access): int {
    match access
    case BYTE => 0 case HALF => 1 case WORD => 2 case BYTE_UNSIGNED => 4 case HALF_UNSIGNED => 5
  }

  /** Opcodes are written with all seven bits and shifted. */
  function Encoded(i: Instr): Fields {
    match i
    case Lui(rd, imm) => UType(0x37 / 4, rd, imm)
    case Auipc(rd, imm) => UType(0x17 / 4, rd, imm)
    case Jal(rd, off) => JType(0x6F / 4, rd, off)
    case Jalr(rd, rs1, imm) => IType(0x67 / 4, 0, rd, rs1, imm)
    case Branch(cond, rs1, rs2, off) => BType(0x63 / 4, CondFunct3(cond), rs1, rs2, off)
    case Load(access, rd, rs1, imm) => IType(0x03 / 4, AccessFunct3(access), rd, rs1, imm)
    case Store(access, rs1, rs2, imm) => SType(0x23 / 4, AccessFunct3(access), rs1, rs2, imm)
    case Immediate(op, rd, rs1, imm) => IType(0x13 / 4, OpFunct3(op), rd, rs1, if op.SRA? then 0x400 + imm else imm)
    case Register(op, rd, rs1, rs2) => RType(0x33 / 4, OpFunct3(op), if op.SUB? || op.SRA? then 0x20 else 0, rd, rs1, rs2)
    case MulDiv(op, rd, rs1, rs2) => RType(0x33 / 4, MulFunct3(op), 1, rd, rs1, rs2)
    case ReadCsr(rd, csr) => IType(0x73 / 4, 2, rd, 0, csr)
    case Fence => IType(0x0F / 4, 0, 0, 0, 0xFF)
    case Ebreak => IType(0x73 / 4, 0, 0, 0, 1)
  }

  lemma Funct3InRange(op: Op, mop: MulOp, cond: Cond, access: Access)
    ensures 0 <= OpFunct3(op) < 8 && 0 <= MulFunct3(mop) < 8 && 0 <= CondFunct3(cond) < 8 && 0 <= AccessFunct3(access) < 8
  {
  }

  lemma EncodedInRange(i: Instr)
    requires WellFormed(i)
    ensures InRange(Encoded(i))
  {
    hide UType, IType, SType, BType, JType, OpFunct3, MulFunct3, CondFunct3, AccessFunct3;
    match i
    case Lui(rd, imm) => UpperInRange(0x37 / 4, rd, imm);
    case Auipc(rd, imm) => UpperInRange(0x17 / 4, rd, imm);
    case Jal(rd, off) => JTypeDecoded(0x6F / 4, rd, off);
    case Jalr(rd, rs1, imm) => ShortInRange(0x67 / 4, 0, rd, rs1, imm);
    case Branch(cond, rs1, rs2, off) =>
      Funct3InRange(ADD, MUL, cond, BYTE);
      BTypeDecoded(0x63 / 4, CondFunct3(cond), rs1, rs2, off);
    case Load(access, rd, rs1, imm) =>
      Funct3InRange(ADD, MUL, EQUAL, access);
      ShortInRange(0x03 / 4, AccessFunct3(access), rd, rs1, imm);
    case Store(access, rs1, rs2, imm) =>
      Funct3InRange(ADD, MUL, EQUAL, access);
      ShortInRange(0x23 / 4, AccessFunct3(access), rs1, rs2, imm);
    case Immediate(op, rd, rs1, imm) =>
      Funct3InRange(op, MUL, EQUAL, BYTE);
      ShortInRange(0x13 / 4, OpFunct3(op), rd, rs1, if op.SRA? then 0x400 + imm else imm);
    case Register(op, _, _, _) => Funct3InRange(op, MUL, EQUAL, BYTE);
    case MulDiv(op, _, _, _) => Funct3InRange(ADD, op, EQUAL, BYTE);
    case ReadCsr(rd, csr) => ShortInRange(0x73 / 4, 2, rd, 0, csr);
    case Fence => ShortInRange(0x0F / 4, 0, 0, 0, 0xFF);
    case Ebreak => ShortInRange(0x73 / 4, 0, 0, 0, 1);
  }

  function Assemble(i: Instr): Word
    requires WellFormed(i)
  {
    EncodedInRange(i);
    Layout(Encoded(i))
  }

  // ------------------------------------------------------------ what instructions do

  predicate Holds(cond: Cond, a: Word, b: Word) {
    match cond
    case EQUAL => a == b
    case UNEQUAL => a != b
    case LESS => Signed(a) < Signed(b)
    case GREATER_EQUAL => Signed(a) >= Signed(b)
    case LESS_UNSIGNED => a < b
    case GREATER_EQUAL_UNSIGNED => a >= b
  }

  /** r is the result of op. */
  predicate Computes(op: Op, a: Word, b: Word, r: Word) {
    match op
    case ADD => r == Wrap(a + b)
    case SUB => r == Wrap(a - b)
    case SLL => r == Wrap(a * Pow2(b % 32))
    case SLT => r == if Signed(a) < Signed(b) then 1 else 0
    case SLTU => r == if a < b then 1 else 0
    case XOR => forall k: nat | k < 32 :: BitOf(r, k) == (BitOf(a, k) != BitOf(b, k))
    case SRL => r == a / Pow2(b % 32)
    case SRA => Signed(r) == Signed(a) / Pow2(b % 32)
    case OR => forall k: nat | k < 32 :: BitOf(r, k) == (BitOf(a, k) || BitOf(b, k))
    case AND => forall k: nat | k < 32 :: BitOf(r, k) == (BitOf(a, k) && BitOf(b, k))
  }

  function Product(op: MulOp, a: Word, b: Word): Word {
    match op
    case MUL => Wrap(a * b)
    case MULH => High(Signed(a) * Signed(b))
    case MULHSU => High(Signed(a) * b)
    case MULHU => High(a * b)
    case DIV => IsaDivide(4, a, b)
    case DIVU => IsaDivide(5, a, b)
    case REM => IsaDivide(6, a, b)
    case REMU => IsaDivide(7, a, b)
  }

  /** The next program counter. */
  function NextOf(i: Instr, a: Arch): Word {
    match i
    case Jal(_, off) => Wrap(a.pc + off)
    case Jalr(_, rs1, imm) => var t := Wrap(Read(a.regs, rs1) + imm); t - t % 2
    case Branch(cond, rs1, rs2, off) => Wrap(a.pc + if Holds(cond, Read(a.regs, rs1), Read(a.regs, rs2)) then off else 4)
    case Ebreak => a.pc
    case _ => Wrap(a.pc + 4)
  }

  function Dest(i: Instr): Reg {
    match i
    case Branch(_, _, _, _) => 0
    case Store(_, _, _, _) => 0
    case Fence => 0
    case Ebreak => 0
    case _ => i.rd
  }

  function SizeOf(access: Access): nat {
    match access
    case WORD => 4
    case HALF => 2
    case HALF_UNSIGNED => 2
    case _ => 1
  }

  /** Bytes are numbered from the least significant end of each word. */
  function MemByte(mem: seq<Word>, n: nat): int
    requires n / 4 < |mem|
  {
    mem[n / 4] / Pow2(8 * (n % 4)) % 0x100
  }

  /** Address bit 22 selects I/O. */
  predicate ToIo(addr: Word) {
    BitOf(addr, 22)
  }

  function AddressOf(i: Instr, a: Arch): Word
    requires i.Load? || i.Store?
  {
    Wrap(Read(a.regs, i.rs1) + i.imm)
  }

  /** r is what a load delivers: the addressed bytes of the word there as a signed or unsigned number; from I/O, x. */
  predicate Loads(access: Access, a: Arch, addr: Word, x: Word, r: Word) {
    var w := if addr / 4 < |a.mem| then a.mem[addr / 4] else x;
    if ToIo(addr) then r == x
    else
      match access
      case BYTE => var b := Datum(w, addr, 1); Signed(r) == if b < 0x80 then b else b - 0x100
      case HALF => var h := Datum(w, addr, 2); Signed(r) == if h < 0x8000 then h else h - 0x1_0000
      case WORD => r == w
      case BYTE_UNSIGNED => r == Datum(w, addr, 1)
      case HALF_UNSIGNED => r == Datum(w, addr, 2)
  }

  /** r is what the instruction writes to its destination. */
  predicate Result(i: Instr, a: Arch, x: Word, r: Word) {
    match i
    case Lui(_, imm) => r == imm * 0x1000
    case Auipc(_, imm) => r == Wrap(a.pc + imm * 0x1000)
    case Jal(_, _) => r == Wrap(a.pc + 4)
    case Jalr(_, _, _) => r == Wrap(a.pc + 4)
    case Load(access, _, _, _) => Loads(access, a, AddressOf(i, a), x, r)
    case Immediate(op, _, rs1, imm) => Computes(op, Read(a.regs, rs1), Wrap(imm), r)
    case Register(op, _, rs1, rs2) => Computes(op, Read(a.regs, rs1), Read(a.regs, rs2), r)
    case MulDiv(op, _, rs1, rs2) => r == Product(op, Read(a.regs, rs1), Read(a.regs, rs2))
    case ReadCsr(_, _) => r == x
    case _ => true
  }

  /** Memory and I/O afterwards: a store replaces the addressed bytes and no other. */
  ghost predicate Stores(i: Instr, a: Arch, b: Arch) {
    && |b.mem| == |a.mem|
    && if !i.Store? then b.mem == a.mem && b.io == a.io
       else
         var addr, v := AddressOf(i, a), Read(a.regs, i.rs2);
         if ToIo(addr) then b.mem == a.mem && b.io == a.io + [IoWrite(addr, v)]
         else
           && b.io == a.io
           && forall n: nat | n < 4 * |a.mem| ::
                MemByte(b.mem, n) == if addr <= n < addr + SizeOf(i.access) then v / Pow2(8 * (n - addr)) % 0x100
                                     else MemByte(a.mem, n)
  }

  /** The whole effect of one instruction. */
  ghost predicate Effect(i: Instr, a: Arch, x: Word, b: Arch) {
    && b.pc == NextOf(i, a)
    && (forall r: Reg | r != Dest(i) :: Read(b.regs, r) == Read(a.regs, r))
    && (Dest(i) != 0 ==> Result(i, a, x, Read(b.regs, Dest(i))))
    && Stores(i, a, b)
  }

  /** Loads and stores are naturally aligned. */
  predicate NaturallyAligned(i: Instr, a: Arch) {
    i.Load? || i.Store? ==> AddressOf(i, a) % SizeOf(i.access) == 0
  }
}
