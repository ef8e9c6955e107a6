/** Traps as a handler sees them, MRET, and the CSR instructions: what the machine-mode half of the interpreter does. */
module Privileged {
  import opened Options
  import opened Words
  import opened Encode
  import opened Memory
  import opened Csr
  import opened Isa
  import opened Cpu
  import opened Reach
  import opened Bits
  import opened Assembly
  import opened Decoding
  import opened Simulation

  // ----- what a trap records -----

  /** The next call raises an exception with this cause and value. */
  predicate Raises(h: HartView, m: seq<bv8>, cause: bv32, tval: bv32) {
    var r := Executed(h, m);
    !r.ok && r.h.mode == M && r.h.csr.mcause == cause && r.h.csr.mtval == tval && r.h.csr.mepc == h.pc
  }

  lemma VectorBytes(v: bv32)
    ensures var t := TrapVector(v);
            Byte0(t) == Byte0(v) & 0xFC && Byte1(t) == Byte1(v) && Byte2(t) == Byte2(v) && Byte3(t) == Byte3(v)
  {}

  lemma VectorByte(b: bv8)
    ensures Value8(b & 0xFC) == Value8(b) - Value8(b) % 4
  {}

  lemma VectorNumber(n: nat, t: nat, n0: nat, t0: nat, n1: nat, n2: nat, n3: nat)
    requires n == n0 + 0x100 * n1 + 0x1_0000 * n2 + 0x100_0000 * n3
    requires t == t0 + 0x100 * n1 + 0x1_0000 * n2 + 0x100_0000 * n3 && t0 == n0 - n0 % 4
    ensures t == n - n % 4
  {
    Arithmetic.Division(n, n0 / 4 + 0x40 * n1 + 0x4000 * n2 + 0x40_0000 * n3, n0 % 4, 4);
  }

  /** The trap vector is the value of mtvec rounded down to a multiple of four. */
  lemma VectorValue(v: bv32)
    ensures Nat(TrapVector(v)) == Nat(v) - Nat(v) % 4
  {
    hide Nat, Value8, TrapVector, Byte0, Byte1, Byte2, Byte3;
    var t := TrapVector(v);
    WordDigits(v);
    WordDigits(t);
    VectorBytes(v);
    VectorByte(Byte0(v));
    VectorNumber(Nat(v), Nat(t), Value8(Byte0(v)), Value8(Byte0(t)), Value8(Byte1(v)), Value8(Byte2(v)), Value8(Byte3(v)));
  }

  /**
   * After a trap a handler finds the program counter in mepc (0x341), the cause in mcause (0x342) and the value in mtval
   * (0x343), runs in machine mode at the trap vector with interrupts off, and finds every other register unchanged.
   */
  lemma TrapRecorded(h: HartView, cause: bv32, tval: bv32)
    ensures var t := h.Trapped(cause, tval);
            && t.csr.Read(0x341) == Some(h.pc) && t.csr.Read(0x342) == Some(cause) && t.csr.Read(0x343) == Some(tval)
            && t.mode == M && !t.csr.InterruptsEnabled() && Nat(t.pc) == Nat(h.csr.mtvec) - Nat(h.csr.mtvec) % 4
            && (forall addr: bv32 :: addr !in {0x300, 0x341, 0x342, 0x343} ==> t.csr.Read(addr) == h.csr.Read(addr))
            && t == h.(csr := t.csr, mode := M, pc := t.pc)
  {
    hide Nat, FromNat, TrapVector, StatusEnter, MieSet;
    EnterSavesEnable(h.csr.mstatus, h.mode == M);
    VectorValue(h.csr.mtvec);
  }

  // ----- causes -----

  /** In user mode: the number of the cause, by what the instruction is and where its operand lies; 0 if it completes. */
  function CauseNumber(i: Instr, x: Regs, id: int): bv32 {
    match i
    case Ecall => 8
    case Ebreak => 3
    case Illegal => 2
    case Mret => 2
    case CsrAccess(_, _, _, _) => 2
    case Load(_, _, _, rs1, imm) => if Check(Nat(Plus(Get(x, rs1), imm)), LOAD, id).NoFault? then 0 else 5
    case Store(_, rs1, _, imm) => if Check(Nat(Plus(Get(x, rs1), imm)), STORE, id).NoFault? then 0 else 7
    case _ => 0
  }

  /** The value that goes with it: the operand's address, the program counter or the word. */
  function TrapValue(i: Instr, w: bv32, x: Regs, pc: bv32): bv32 {
    match i
    case Ecall => 0
    case Ebreak => pc
    case Load(_, _, _, rs1, imm) => Plus(Get(x, rs1), imm)
    case Store(_, rs1, _, imm) => Plus(Get(x, rs1), imm)
    case _ => w
  }

  lemma ExecuteCauses(i: Instr, w: bv32, x: Regs, pc: bv32, id: int, m: seq<bv8>)
    ensures var e := Execute(i, w, x, pc, U, id, m);
            if CauseNumber(i, x, id) == 0 then e.Retire? else e == Trap(CauseNumber(i, x, id), TrapValue(i, w, x, pc))
  {
    hide Plus, Get, Set, AluValue, Taken, Loaded, Stored, BitAnd, Nat, Check;
  }

  /**
   * The causes of section 3.1.15 of the Privileged ISA: a pending interrupt that is enabled comes first with cause 7 and
   * the interrupt bit; then a fetch outside the slot with cause 1; then what the instruction itself raises.
   */
  lemma CausesRaised(h: HartView, m: seq<bv8>)
    requires h.mode == U
    ensures var fetched := Check(Nat(h.pc), LOAD, h.id).NoFault?;
            var w := WordAt(m, Nat(h.pc));
            var cause := CauseNumber(Decode(w), h.x, h.id);
            if h.timerPending && h.csr.InterruptsEnabled() then Raises(h, m, 0x8000_0007, 0)
            else if !fetched then Raises(h, m, 1, h.pc)
            else if w == 0 || w == 0xFFFF_FFFF then Executed(h, m) == StepResult(h.(state := Halted), m, false)
            else if cause != 0 then Raises(h, m, cause, TrapValue(Decode(w), w, h.x, h.pc))
            else Executed(h, m).ok
  {
    hide Nat, WordAt, Decode, Execute, Apply, TrapVector, StatusEnter, Check, CauseNumber, TrapValue;
    hide Csrs.InterruptsEnabled;
    var w := WordAt(m, Nat(h.pc));
    ExecuteCauses(Decode(w), w, h.x, h.pc, h.id, m);
  }

  /** In machine mode an ecall has cause 11, and a fetch faults only outside the array. */
  lemma MachineModeCauses(h: HartView, m: seq<bv8>)
    requires h.mode == M
    ensures Perform(h.x, h.pc, M, h.id, m) == Trap(1, h.pc) <==> Nat(h.pc) >= 0x10_0000
    ensures Nat(h.pc) < 0x10_0000 && WordAt(m, Nat(h.pc)) == ECALL ==> Raises(h, m, 11, 0)
  {
    hide Nat, WordAt, Decode, Execute, Apply, TrapVector, StatusEnter;
    WholeWords();
    var w := WordAt(m, Nat(h.pc));
    NoFetchCause(Decode(w), w, h.x, h.pc, m);
    EcallInMachineMode(h.x, h.pc, m);
  }

  lemma NoFetchCause(i: Instr, w: bv32, x: Regs, pc: bv32, m: seq<bv8>)
    ensures Execute(i, w, x, pc, M, -1, m).Trap? ==> Execute(i, w, x, pc, M, -1, m).cause != 1
  {
    hide Plus, Get, Set, AluValue, Taken, Loaded, Stored, BitAnd, Nat, Check;
  }

  lemma EcallInMachineMode(x: Regs, pc: bv32, m: seq<bv8>)
    ensures Execute(Instr.Ecall, ECALL, x, pc, M, -1, m) == Trap(11, 0)
  {}

  // ----- MRET -----

  /**
   * MRET undoes a trap, from whichever mode it came: the mode, the program counter and the interrupt enable are those
   * before the trap. It counts as a step and not as a cycle.
   */
  lemma ReturnUndoesTrap(h: HartView, cause: bv32, tval: bv32)
    ensures var r := MretView(h.Trapped(cause, tval));
            && r.mode == h.mode && r.pc == h.pc && r.x == h.x[0 := 0] && r.steps == h.steps + 1 && r.csr.cycle == h.csr.cycle
            && r.csr.InterruptsEnabled() == h.csr.InterruptsEnabled() && Outside(r.csr.mstatus) == Outside(h.csr.mstatus)
            && r.state == h.state && r.timerPending == h.timerPending
  {
    hide TrapVector, StatusEnter, StatusReturn, MieSet, MpieSet, Outside, PreviousField;
    var s := h.csr.mstatus;
    EnterSavesEnable(s, h.mode == M);
    EnterSavesMode(s);
    EnterFrame(s, h.mode == M);
    ReturnRestores(StatusEnter(s, h.mode == M));
    ReturnFrame(StatusEnter(s, h.mode == M));
  }

  // ----- CSR instructions -----

  /** The new value of the register: written, with bits set, or with bits cleared. */
  function CsrResult(op: CsrOp, was: bv32, operand: bv32): bv32 {
    match op
    case Rw => operand
    case Rs => BitOr(was, operand)
    case Rc => BitAnd(was, Complement(operand))
  }

  /** Bit by bit. */
  lemma CsrResultBits(op: CsrOp, was: bv32, operand: bv32, k: nat)
    ensures Bit(CsrResult(op, was, operand), k)
         == match op
            case Rw => Bit(operand, k)
            case Rs => if Bit(was, k) == 1 || Bit(operand, k) == 1 then 1 else 0
            case Rc => if Bit(was, k) == 1 && Bit(operand, k) == 0 then 1 else 0
  {
    hide Bit, BitOr, BitAnd, Complement;
    BitwiseBits(was, operand, k);
    AndNotBits(was, operand, k);
  }

  /** The operation by the low two bits of funct3, the operand by the third: the register, or the five bits of rs1. */
  lemma CsrUpdateMeans(funct3: bv32, was: bv32, a: bv32, imm: bv32)
    ensures CsrUpdate(funct3, was, a, imm)
         == match funct3
            case 1 => Some(CsrResult(Rw, was, a))
            case 2 => Some(CsrResult(Rs, was, a))
            case 3 => Some(CsrResult(Rc, was, a))
            case 5 => Some(CsrResult(Rw, was, imm))
            case 6 => Some(CsrResult(Rs, was, imm))
            case 7 => Some(CsrResult(Rc, was, imm))
            case _ => None
  {
    hide BitOr, BitAnd, Complement;
  }

  lemma CsrFields(op: CsrOp, rd: Reg, rs1: Reg, csr: bv32)
    ensures var w := InstructionWord(CsrReg(op, rd, rs1, csr));
            && FieldI(w) == csr & 0xFFF && RdOf(w) == rd && Rs1Of(w) == rs1
            && DecodeFunct3(w) == CsrFunct3(op) && DecodeSystem(w).CsrAccess?
  {
    hide EncodeI, DecodeImmI, FieldI, FitsI, Field, RdOf, Rs1Of, CsrFunct3, DecodeOpcode;
    var w := InstructionWord(CsrReg(op, rd, rs1, csr));
    CsrFunct3Known(op);
    assert Field7(OP_SYSTEM) && Field3(CsrFunct3(op));
    FieldsOfI(w, csr, rs1, CsrFunct3(op), rd, OP_SYSTEM);
    SystemFunct3(w);
  }

  /**
   * `csrrw`, `csrrs` and `csrrc` in machine mode: rd gets the old value of the register and the register its new one;
   * an address that cannot be read is an illegal instruction.
   */
  lemma CsrInstructionMeans(h: HartView, op: CsrOp, rd: Reg, rs1: Reg, csr: bv32)
    requires h.mode == M
    ensures SystemEffect(h, InstructionWord(CsrReg(op, rd, rs1, csr)))
         == match h.csr.Read(csr & 0xFFF)
            case None => Raise(Exception(2, InstructionWord(CsrReg(op, rd, rs1, csr))))
            case Some(was) =>
              Update(h.(csr := h.csr.Write(csr & 0xFFF, CsrResult(op, was, Get(h.x, rs1))), x := Set(h.x, rd, was)))
  {
    hide InstructionWord, DecodeFunct3, FieldI, RdOf, Rs1Of, Get, Set, BitOr, BitAnd, Complement, FromNat, DecodeSystem;
    hide Csrs.Read, Csrs.Write, Zimm;
    CsrFields(op, rd, rs1, csr);
  }

  /** The five bits of rs1 as an immediate. */
  lemma ZimmMeans(w: bv32)
    ensures Zimm(w) == DecodeRs1(w)
  {}

  /** Any CSR instruction word in machine mode, the immediate forms included. */
  lemma CsrWordMeans(h: HartView, w: bv32)
    requires h.mode == M && DecodeSystem(w).CsrAccess?
    ensures var funct3, rd, rs1, csr := DecodeFunct3(w), RdOf(w), Rs1Of(w), FieldI(w);
            match h.csr.Read(csr)
            case None => SystemEffect(h, w) == Raise(Exception(2, w))
            case Some(was) =>
              match CsrUpdate(funct3, was, Get(h.x, rs1), DecodeRs1(w))
              case None => SystemEffect(h, w) == Raise(Exception(2, w))
              case Some(v) => SystemEffect(h, w) == Update(h.(csr := h.csr.Write(csr, v), x := Set(h.x, rd, was)))
  {
    hide DecodeFunct3, FieldI, RdOf, Rs1Of, DecodeRs1, Get, Set, CsrUpdate, Csrs.Read, Csrs.Write, Zimm, DecodeSystem;
    ZimmMeans(w);
  }
}
