/** RV32I instructions and their meaning, as values.

`Decode` reads an instruction word as a term, and `Execute` is what that term does to the registers,
the program counter and memory. This is the reference the interpreter loop of cpu.h is proved against,
and the target of the assembler. The meanings follow sections 2.4 to 2.6 of the RISC-V Unprivileged ISA
(version 20191213) with the deviations of cpu.h: no alignment requirement, and the shift amount taken
from the low five bits of the immediate.
*/
module Isa {
  import opened Options
  import opened Words
  import opened Encode
  import opened Memory
  import opened Csr

  /** A register number; the five bits of a register field. */
  type Reg = bv5

  datatype AluOp = Add | Sub | Sll | Slt | Sltu | Xor | Srl | Sra | Or | And

  datatype Width = Byte | Half | Word {
    function Bytes(): (n: nat)
      ensures 1 <= n <= 4
    {
      match this case Byte => 1 case Half => 2 case Word => 4
    }
  }

  datatype Cond = Eq | Ne | Lt | Ge | Ltu | Geu

  datatype Instr =
    | Alu(op: AluOp, rd: Reg, rs1: Reg, rs2: Reg)
    | AluImm(op: AluOp, rd: Reg, rs1: Reg, imm: bv32)
    | Load(width: Width, signed: bool, rd: Reg, rs1: Reg, imm: bv32)
    | Store(width: Width, rs1: Reg, rs2: Reg, imm: bv32)
    | Branch(cond: Cond, rs1: Reg, rs2: Reg, imm: bv32)
    | Jal(rd: Reg, imm: bv32)
    | Jalr(rd: Reg, rs1: Reg, imm: bv32)
    | Lui(rd: Reg, imm: bv32)
    | Auipc(rd: Reg, imm: bv32)
    | Ecall
    | Ebreak
    | Mret
    | CsrAccess(funct3: bv32, rd: Reg, rs1: Reg, csr: bv32)
    | Illegal

  function RdOf(w: bv32): Reg { DecodeRd(w) as bv5 }
  function Rs1Of(w: bv32): Reg { DecodeRs1(w) as bv5 }
  function Rs2Of(w: bv32): Reg { DecodeRs2(w) as bv5 }

  /** The operation of an R-type word. */
  function AluOpOf(funct7: bv32, funct3: bv32): Option<AluOp> {
    if funct7 == 0x00 then
      if funct3 == 0 then Some(Add) else if funct3 == 1 then Some(Sll)
      else if funct3 == 2 then Some(Slt) else if funct3 == 3 then Some(Sltu)
      else if funct3 == 4 then Some(Xor) else if funct3 == 5 then Some(Srl)
      else if funct3 == 6 then Some(Or) else Some(And)
    else if funct7 == 0x20 then
      if funct3 == 0 then Some(Sub) else if funct3 == 5 then Some(Sra) else None
    else None
  }

  /** The operation of an I-type arithmetic word; funct7 only tells SRAI from SRLI. */
  function AluImmOpOf(funct7: bv32, funct3: bv32): AluOp {
    if funct3 == 0 then Add else if funct3 == 1 then Sll
    else if funct3 == 2 then Slt else if funct3 == 3 then Sltu
    else if funct3 == 4 then Xor else if funct3 == 5 then (if funct7 == 0x20 then Sra else Srl)
    else if funct3 == 6 then Or else And
  }

  function LoadOf(funct3: bv32): Option<(Width, bool)> {
    if funct3 == 0 then Some((Byte, true)) else if funct3 == 1 then Some((Half, true))
    else if funct3 == 2 then Some((Word, true)) else if funct3 == 4 then Some((Byte, false))
    else if funct3 == 5 then Some((Half, false)) else None
  }

  function StoreOf(funct3: bv32): Option<Width> {
    if funct3 == 0 then Some(Byte) else if funct3 == 1 then Some(Half)
    else if funct3 == 2 then Some(Word) else None
  }

  function CondOf(funct3: bv32): Option<Cond> {
    if funct3 == 0 then Some(Eq) else if funct3 == 1 then Some(Ne)
    else if funct3 == 4 then Some(Lt) else if funct3 == 5 then Some(Ge)
    else if funct3 == 6 then Some(Ltu) else if funct3 == 7 then Some(Geu) else None
  }

  function DecodeAlu(w: bv32): Instr {
    match AluOpOf(DecodeFunct7(w), DecodeFunct3(w))
    case Some(op) => Alu(op, RdOf(w), Rs1Of(w), Rs2Of(w))
    case None => Illegal
  }

  function DecodeAluImm(w: bv32): Instr {
    AluImm(AluImmOpOf(DecodeFunct7(w), DecodeFunct3(w)), RdOf(w), Rs1Of(w), DecodeImmI(w))
  }

  function DecodeLoad(w: bv32): Instr {
    match LoadOf(DecodeFunct3(w))
    case Some((width, signed)) => Load(width, signed, RdOf(w), Rs1Of(w), DecodeImmI(w))
    case None => Illegal
  }

  function DecodeStore(w: bv32): Instr {
    match StoreOf(DecodeFunct3(w))
    case Some(width) => Store(width, Rs1Of(w), Rs2Of(w), DecodeImmS(w))
    case None => Illegal
  }

  function DecodeBranch(w: bv32): Instr {
    match CondOf(DecodeFunct3(w))
    case Some(cond) => Branch(cond, Rs1Of(w), Rs2Of(w), DecodeImmB(w))
    case None => Illegal
  }

  function DecodeSystem(w: bv32): Instr {
    if w == 0x0000_0073 then Ecall
    else if w == 0x0010_0073 then Ebreak
    else if w == 0x3020_0073 then Mret
    else CsrAccess(DecodeFunct3(w), RdOf(w), Rs1Of(w), FieldI(w))
  }

  function Decode(w: bv32): Instr {
    var opcode := DecodeOpcode(w);
    if opcode == 0x33 then DecodeAlu(w)
    else if opcode == 0x13 then DecodeAluImm(w)
    else if opcode == 0x03 then DecodeLoad(w)
    else if opcode == 0x23 then DecodeStore(w)
    else if opcode == 0x63 then DecodeBranch(w)
    else if opcode == 0x6F then Jal(RdOf(w), DecodeImmJ(w))
    else if opcode == 0x67 then Jalr(RdOf(w), Rs1Of(w), DecodeImmI(w))
    else if opcode == 0x37 then Lui(RdOf(w), DecodeImmU(w))
    else if opcode == 0x17 then Auipc(RdOf(w), DecodeImmU(w))
    else if opcode == 0x73 then DecodeSystem(w)
    else Illegal
  }

  // ----- meaning -----

  /** Arithmetic on `int32_t` patterns, wrapping around. */
  function AluValue(op: AluOp, a: bv32, b: bv32): bv32 {
    match op
    case Add => Plus(a, b)
    case Sub => Minus(a, b)
    case Sll => ShiftLeft(a, b)
    case Slt => if SLess(a, b) then 1 else 0
    case Sltu => if ULess(a, b) then 1 else 0
    case Xor => BitXor(a, b)
    case Srl => ShiftRight(a, b)
    case Sra => ShiftRightArith(a, b)
    case Or => BitOr(a, b)
    case And => BitAnd(a, b)
  }

  predicate Taken(cond: Cond, a: bv32, b: bv32) {
    match cond
    case Eq => a == b
    case Ne => a != b
    case Lt => SLess(a, b)
    case Ge => !SLess(a, b)
    case Ltu => ULess(a, b)
    case Geu => !ULess(a, b)
  }

  /** The 32 registers; register 0 reads as zero. */
  type Regs = x: seq<bv32> | |x| == 32 witness seq(32, _ => 0)

  function Get(x: Regs, r: Reg): bv32 {
    if r == 0 then 0 else x[r as int]
  }

  function Set(x: Regs, r: Reg, v: bv32): Regs {
    if r == 0 then x else x[r as int := v]
  }

  function Widen8(b: bv8): bv32 { b as bv32 }
  function Widen16(b: bv16): bv32 { b as bv32 }

  /** What a load of a given width puts into the register. */
  function Loaded(m: seq<bv8>, addr: nat, width: Width, signed: bool): bv32 {
    match width
    case Byte => if signed then SignExt(Widen8(ByteAt(m, addr)), 0x80) else Widen8(ByteAt(m, addr))
    case Half => if signed then SignExt(Widen16(HalfAt(m, addr)), 0x8000) else Widen16(HalfAt(m, addr))
    case Word => WordAt(m, addr)
  }

  /** The bytes a store of a given width writes. */
  function Stored(v: bv32, width: Width): (bytes: seq<bv8>)
    ensures |bytes| == width.Bytes()
  {
    match width
    case Byte => [LowByte(v)]
    case Half => HalfBytes(LowHalf(v))
    case Word => WordBytes(v)
  }

  datatype MemWrite = NoWrite | PutBytes(addr: nat, bytes: seq<bv8>)

  /** What an instruction does: complete, trap, or act on the machine state (privileged instructions). */
  datatype Effect =
    | Retire(x: Regs, pc: bv32, write: MemWrite)
    | Trap(cause: bv32, tval: bv32)
    | System(w: bv32)
    | Stop

  /** The meaning of an instruction word `w` that decodes to `i`, for an access id `memId`. */
  function Execute(i: Instr, w: bv32, x: Regs, pc: bv32, mode: PrivMode, memId: int, m: seq<bv8>): Effect {
    var next := Plus(pc, 4);
    match i
    case Alu(op, rd, rs1, rs2) => Retire(Set(x, rd, AluValue(op, Get(x, rs1), Get(x, rs2))), next, NoWrite)
    case AluImm(op, rd, rs1, imm) => Retire(Set(x, rd, AluValue(op, Get(x, rs1), imm)), next, NoWrite)
    case Load(width, signed, rd, rs1, imm) =>
      var addr := Plus(Get(x, rs1), imm);
      if Check(Nat(addr), LOAD, memId).NoFault? then
        Retire(Set(x, rd, Loaded(m, Nat(addr), width, signed)), next, NoWrite)
      else Trap(LOAD_FAULT, addr)
    case Store(width, rs1, rs2, imm) =>
      var addr := Plus(Get(x, rs1), imm);
      if Check(Nat(addr), STORE, memId).NoFault? then
        Retire(x, next, PutBytes(Nat(addr), Stored(Get(x, rs2), width)))
      else Trap(STORE_FAULT, addr)
    case Branch(cond, rs1, rs2, imm) =>
      Retire(x, if Taken(cond, Get(x, rs1), Get(x, rs2)) then Plus(pc, imm) else next, NoWrite)
    case Jal(rd, imm) => Retire(Set(x, rd, next), Plus(pc, imm), NoWrite)
    case Jalr(rd, rs1, imm) => Retire(Set(x, rd, next), BitAnd(Plus(Get(x, rs1), imm), 0xFFFF_FFFE), NoWrite)
    case Lui(rd, imm) => Retire(Set(x, rd, imm), next, NoWrite)
    case Auipc(rd, imm) => Retire(Set(x, rd, Plus(pc, imm)), next, NoWrite)
    case Ecall => Trap(if mode == M then ECALL_M else ECALL_U, 0)
    case Ebreak => Trap(BREAKPOINT, pc)
    case Mret => if mode == M then System(w) else Trap(ILLEGAL_INSN, w)
    case CsrAccess(_, _, _, _) => if mode == M then System(w) else Trap(ILLEGAL_INSN, w)
    case Illegal => Trap(ILLEGAL_INSN, w)
  }

  function AccessId(mode: PrivMode, id: int): int {
    if mode == M then -1 else id
  }

  /** One instruction: fetch, the halt sentinels, decode, execute. */
  function Perform(x: Regs, pc: bv32, mode: PrivMode, id: int, m: seq<bv8>): Effect {
    var memId := AccessId(mode, id);
    if !Check(Nat(pc), LOAD, memId).NoFault? then Trap(INSN_FAULT, pc)
    else
      var w := WordAt(m, Nat(pc));
      if w == 0 || w == 0xFFFF_FFFF then Stop
      else Execute(Decode(w), w, x, pc, mode, memId, m)
  }

  function Apply(m: seq<bv8>, write: MemWrite): (r: seq<bv8>)
    ensures |r| == |m|
  {
    match write
    case NoWrite => m
    case PutBytes(addr, bytes) => if addr + |bytes| <= |m| then Put(m, addr, bytes) else m
  }

  lemma ApplyNothing(m: seq<bv8>)
    ensures Apply(m, NoWrite) == m
  {}
}
