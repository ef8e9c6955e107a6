/** Forward simulation: assembled statements do what the source says. */
module Simulation {
  import opened Options
  import opened Words
  import opened Encode
  import opened Bits
  import opened Memory
  import opened Csr
  import opened Isa
  import opened Cpu
  import opened Assembly
  import opened TwoPass
  import opened Decoding

  // ----- the meaning of a statement -----

  predicate Negative(v: bv32) { v & 0x8000_0000 != 0 }

  predicate ZeroTaken(zero: ZeroCond, v: bv32) {
    match zero
    case Eqz => v == 0
    case Nez => v != 0
    case Lez => v == 0 || Negative(v)
    case Gez => !Negative(v)
    case Ltz => Negative(v)
    case Gtz => v != 0 && !Negative(v)
  }

  function Target(s: Stmt, labels: map<string, bv32>): bv32 {
    if Ref(s).Some? && Ref(s).value in labels then labels[Ref(s).value] else 0
  }

  /** The address after a statement at `pc`. */
  function NextAddress(pc: bv32, s: Stmt): bv32 {
    if Size(s) == 2 then Plus(Plus(pc, 4), 4) else Plus(pc, 4)
  }

  /** What a statement does, in its own terms. `memId` is the hart whose slot it may access. */
  function Meaning(s: Stmt, x: Regs, pc: bv32, memId: int, m: seq<bv8>, labels: map<string, bv32>): Effect {
    var next, target := NextAddress(pc, s), Target(s, labels);
    match s
    case Label(_) => Retire(x, pc, NoWrite)
    case Nop => Retire(x, next, NoWrite)
    case Ret => Retire(x, BitAnd(Get(x, 1), 0xFFFF_FFFE), NoWrite)
    case Mv(rd, rs) => Retire(Set(x, rd, Get(x, rs)), next, NoWrite)
    case Not(rd, rs) => Retire(Set(x, rd, Complement(Get(x, rs))), next, NoWrite)
    case Neg(rd, rs) => Retire(Set(x, rd, Minus(0, Get(x, rs))), next, NoWrite)
    case Li(rd, v) => Retire(Set(x, rd, v), next, NoWrite)
    case La(rd, _) => Retire(Set(x, rd, target), next, NoWrite)
    case J(_) => Retire(x, target, NoWrite)
    case Call(_) => Retire(Set(x, 1, next), target, NoWrite)
    case Jal(rd, _) => Retire(Set(x, rd, next), target, NoWrite)
    case BranchZero(zero, rs, _) => Retire(x, if ZeroTaken(zero, Get(x, rs)) then target else next, NoWrite)
    case Branch(cond, rs1, rs2, _) => Retire(x, if Taken(cond, Get(x, rs1), Get(x, rs2)) then target else next, NoWrite)
    case Op(op, rd, rs1, rs2) => Retire(Set(x, rd, AluValue(op, Get(x, rs1), Get(x, rs2))), next, NoWrite)
    case OpImm(op, rd, rs1, imm) => Retire(Set(x, rd, AluValue(op, Get(x, rs1), imm)), next, NoWrite)
    case Load(kind, rd, base, off) =>
      var addr := Plus(Get(x, base), off);
      if Check(Nat(addr), LOAD, memId).NoFault? then
        Retire(Set(x, rd, Loaded(m, Nat(addr), LoadShape(kind).0, LoadShape(kind).1)), next, NoWrite)
      else Trap(LOAD_FAULT, addr)
    case Store(width, src, base, off) =>
      var addr := Plus(Get(x, base), off);
      if Check(Nat(addr), STORE, memId).NoFault? then
        Retire(x, next, PutBytes(Nat(addr), Stored(Get(x, src), width)))
      else Trap(STORE_FAULT, addr)
    case Jalr(rd, rs1, imm) => Retire(Set(x, rd, next), BitAnd(Plus(Get(x, rs1), imm), 0xFFFF_FFFE), NoWrite)
    case Lui(rd, imm) => Retire(Set(x, rd, imm << 12), next, NoWrite)
    case Auipc(rd, imm) => Retire(Set(x, rd, Plus(pc, imm << 12)), next, NoWrite)
    case CsrReg(_, _, _, _) => Trap(ILLEGAL_INSN, InstructionWord(s))
    case Csrr(_, _) => Trap(ILLEGAL_INSN, InstructionWord(s))
    case Ecall => Trap(ECALL_U, 0)
    case Ebreak => Trap(BREAKPOINT, pc)
    case Mret => Trap(ILLEGAL_INSN, MRET)
    case Data(w) => if w == 0 || w == 0xFFFF_FFFF then Stop else Execute(Decode(w), w, x, pc, U, memId, m)
  }

  /** Operands other than labels that their formats can carry. */
  predicate OperandsFit(s: Stmt) {
    match s
    case Label(_) => false
    case OpImm(op, _, _, imm) => op == Sra || (FitsI(imm) && (op == Srl ==> !ReadsAsSrai(imm)))
    case Load(_, _, _, off) => FitsI(off)
    case Store(_, _, _, off) => FitsI(off)
    case Jalr(_, _, imm) => FitsI(imm)
    case _ => true
  }

  /** The statement is one the formats can carry at `pc`: its operands fit, and its label is defined and in reach. */
  predicate InRange(s: Stmt, pc: bv32, labels: map<string, bv32>) {
    && (Ref(s).Some? ==> Ref(s).value in labels)
    && OperandsFit(s)
    && (IsJump(s) ==> FitsJ(Minus(Target(s, labels), pc)))
    && (IsBranch(s) ==> FitsB(Minus(Target(s, labels), pc)))
  }

  // ----- one word at a time -----

  /** Executing the instruction a word decodes to. */
  function Exec(w: bv32, x: Regs, pc: bv32, memId: int, m: seq<bv8>): Effect {
    Execute(Decode(w), w, x, pc, U, memId, m)
  }

  lemma JalExec(rd: Reg, pc: bv32, target: bv32, x: Regs, memId: int, m: seq<bv8>)
    requires FitsJ(Minus(target, pc))
    ensures Exec(JalWord(rd, Minus(target, pc)), x, pc, memId, m) == Retire(Set(x, rd, Plus(pc, 4)), target, NoWrite)
  {
    hide Decode, JalWord, FitsJ, Get, Set, Plus, Minus;
    DecodeJalWord(rd, Minus(target, pc));
    BackToTarget(pc, target);
  }

  lemma BranchExec(cond: Cond, rs1: Reg, rs2: Reg, pc: bv32, target: bv32, x: Regs, memId: int, m: seq<bv8>)
    requires FitsB(Minus(target, pc))
    ensures Exec(BranchWord(cond, rs1, rs2, Minus(target, pc)), x, pc, memId, m)
         == Retire(x, if Taken(cond, Get(x, rs1), Get(x, rs2)) then target else Plus(pc, 4), NoWrite)
  {
    hide Decode, BranchWord, FitsB, Get, Set, Plus, Minus, Taken;
    DecodeBranchWord(cond, rs1, rs2, Minus(target, pc));
    BackToTarget(pc, target);
  }

  // Facts about words.

  lemma BackToTarget(pc: bv32, target: bv32)
    ensures Plus(pc, Minus(target, pc)) == target
  {
    hide Plus, Minus;
    PlusUnique(pc, Minus(target, pc), target);
  }

  lemma XorOnes(a: bv32)
    ensures BitXor(a, 0xFFFF_FFFF) == Complement(a)
  {}

  lemma BelowZero(v: bv32)
    ensures SLess(v, 0) <==> Negative(v)
  {
    hide Nat;
    NatRange(v);
    ZeroValue();
  }

  lemma AboveZero(v: bv32)
    ensures SLess(0, v) <==> v != 0 && !Negative(v)
  {
    hide Nat;
    NatRange(v);
    ZeroValue();
    if Nat(v) == 0 {
      NatInjective(v, 0);
    }
  }

  lemma SmallConstants()
    ensures FitsI(0) && FitsI(0xFFFF_FFFF)
  {}

  /** A comparison with zero is the branch it stands for. */
  lemma ZeroBranchTaken(zero: ZeroCond, rs: Reg, x: Regs)
    ensures var (cond, rs1, rs2) := ZeroBranch(zero, rs);
            Taken(cond, Get(x, rs1), Get(x, rs2)) <==> ZeroTaken(zero, Get(x, rs))
  {
    hide SLess, Negative, ULess;
    BelowZero(Get(x, rs));
    AboveZero(Get(x, rs));
  }

  /** The shift amount is the low five bits, so SRAI's extra bit does not matter. */
  lemma SraiAmount(a: bv32, imm: bv32)
    ensures AluValue(Sra, a, ImmField(Sra, imm)) == AluValue(Sra, a, imm)
  {
    hide ShiftRight, Complement, ImmField, Amount;
    SraiField(imm);
    ShiftsByAmount(a, imm);
    ShiftsByAmount(a, ImmField(Sra, imm));
    ShiftsByAmount(Complement(a), imm);
    ShiftsByAmount(Complement(a), ImmField(Sra, imm));
  }

  lemma SraiField(imm: bv32)
    ensures Amount(ImmField(Sra, imm)) == Amount(imm)
  {}

  // ----- one-word statements -----

  /** A word that is an instruction, and what it does. */
  predicate Performs(w: bv32, x: Regs, pc: bv32, memId: int, m: seq<bv8>, effect: Effect) {
    Decode(w) != Illegal && Exec(w, x, pc, memId, m) == effect
  }

  lemma PseudoPerforms(s: Stmt, x: Regs, pc: bv32, memId: int, m: seq<bv8>, labels: map<string, bv32>,
        offset: bv32, target: bv32)
    requires s.Nop? || s.Mv? || s.Not? || s.Neg? || s.Ret? || (s.Li? && FitsI(s.v))
    ensures WordsFor(s, offset, target) != []
    ensures Performs(WordsFor(s, offset, target)[0], x, pc, memId, m, Meaning(s, x, pc, memId, m, labels))
  {
    hide Decode, EncodeR, EncodeI, FitsI, Get, Set, Plus, Minus, BitAnd, BitXor, Complement, Field, InstructionWord;
    hide Target;
    SmallConstants();
    if s.Nop? {
      AddiPerforms(0, 0, 0, x, pc, memId, m);
      PlusZero(Get(x, 0));
      assert Set(x, 0, Get(x, 0)) == x by { SetZero(x, Get(x, 0)); }
    } else if s.Mv? {
      AddiPerforms(s.rd, s.rs, 0, x, pc, memId, m);
      PlusZero(Get(x, s.rs));
    } else if s.Not? {
      NotPerforms(s.rd, s.rs, x, pc, memId, m);
    } else if s.Neg? {
      NegPerforms(s.rd, s.rs, x, pc, memId, m);
    } else if s.Ret? {
      RetPerforms(x, pc, memId, m);
    } else {
      AddiPerforms(s.rd, 0, s.v, x, pc, memId, m);
      PlusZero(s.v);
      assert Get(x, 0) == 0 by { GetZero(x); }
    }
  }

  lemma GetZero(x: Regs)
    ensures Get(x, 0) == 0
  {}

  lemma SetZero(x: Regs, v: bv32)
    ensures Set(x, 0, v) == x
  {}

  lemma AddiPerforms(rd: Reg, rs1: Reg, imm: bv32, x: Regs, pc: bv32, memId: int, m: seq<bv8>)
    requires FitsI(imm)
    ensures Performs(AddiWord(rd, rs1, imm), x, pc, memId, m, Retire(Set(x, rd, Plus(Get(x, rs1), imm)), Plus(pc, 4), NoWrite))
  {
    hide Decode, EncodeI, FitsI, Get, Set, Plus, Field;
    DecodeOpImm(Add, rd, rs1, imm);
  }

  lemma NotPerforms(rd: Reg, rs: Reg, x: Regs, pc: bv32, memId: int, m: seq<bv8>)
    ensures Performs(EncodeI(0xFFFF_FFFF, Field(rs), F3_XOR, Field(rd), OP_I_ARITH), x, pc, memId, m,
                     Retire(Set(x, rd, Complement(Get(x, rs))), Plus(pc, 4), NoWrite))
  {
    hide Decode, EncodeI, FitsI, Get, Set, Plus, BitXor, Complement, Field;
    SmallConstants();
    DecodeOpImm(Xor, rd, rs, 0xFFFF_FFFF);
    XorOnes(Get(x, rs));
  }

  lemma NegPerforms(rd: Reg, rs: Reg, x: Regs, pc: bv32, memId: int, m: seq<bv8>)
    ensures Performs(EncodeR(F7_ALT, Field(rs), 0, F3_ADD_SUB, Field(rd), OP_R), x, pc, memId, m,
                     Retire(Set(x, rd, Minus(0, Get(x, rs))), Plus(pc, 4), NoWrite))
  {
    hide Decode, EncodeR, Get, Set, Plus, Minus;
    DecodeOp(Sub, rd, 0, rs);
    assert Field(0) == 0;
    GetZero(x);
  }

  lemma RetPerforms(x: Regs, pc: bv32, memId: int, m: seq<bv8>)
    ensures Performs(EncodeI(0, 1, F3_JALR, 0, OP_JALR), x, pc, memId, m, Retire(x, BitAnd(Get(x, 1), 0xFFFF_FFFE), NoWrite))
  {
    hide Decode, EncodeI, FitsI, Get, Set, Plus, BitAnd;
    SmallConstants();
    DecodeJalrWord(0, 1, 0);
    assert Field(0) == 0 && Field(1) == 1;
    PlusZero(Get(x, 1));
    SetZero(x, Plus(pc, 4));
  }

  lemma JumpPerforms(s: Stmt, x: Regs, pc: bv32, memId: int, m: seq<bv8>, labels: map<string, bv32>)
    requires IsJump(s) && InRange(s, pc, labels)
    ensures var target := Target(s, labels);
            && WordsFor(s, Minus(target, pc), target) != []
            && Performs(WordsFor(s, Minus(target, pc), target)[0], x, pc, memId, m, Meaning(s, x, pc, memId, m, labels))
  {
    hide Decode, Exec, JalWord, FitsJ, Set, Plus, Minus, Target, WordsFor, Meaning;
    JumpWord(s, Minus(Target(s, labels), pc), Target(s, labels));
    JalExec(JumpRd(s), pc, Target(s, labels), x, memId, m);
    DecodeJalWord(JumpRd(s), Minus(Target(s, labels), pc));
    JumpMeaning(s, x, pc, memId, m, labels);
  }

  lemma JumpMeaning(s: Stmt, x: Regs, pc: bv32, memId: int, m: seq<bv8>, labels: map<string, bv32>)
    requires IsJump(s)
    ensures Meaning(s, x, pc, memId, m, labels) == Retire(Set(x, JumpRd(s), Plus(pc, 4)), Target(s, labels), NoWrite)
  {
    hide Set, Plus, Target;
    SetZero(x, Plus(pc, 4));
  }

  lemma BranchPerforms(s: Stmt, x: Regs, pc: bv32, memId: int, m: seq<bv8>, labels: map<string, bv32>)
    requires IsBranch(s) && InRange(s, pc, labels)
    ensures var target := Target(s, labels);
            && WordsFor(s, Minus(target, pc), target) != []
            && Performs(WordsFor(s, Minus(target, pc), target)[0], x, pc, memId, m, Meaning(s, x, pc, memId, m, labels))
  {
    hide Decode, Exec, BranchWord, FitsB, Get, Plus, Minus, Taken, ZeroTaken, ZeroBranch, Target, WordsFor;
    var (cond, rs1, rs2) := BranchShape(s);
    CompareWord(s, Minus(Target(s, labels), pc), Target(s, labels));
    BranchExec(cond, rs1, rs2, pc, Target(s, labels), x, memId, m);
    DecodeBranchWord(cond, rs1, rs2, Minus(Target(s, labels), pc));
    if s.BranchZero? {
      ZeroBranchTaken(s.zero, s.rs, x);
    }
  }

  lemma OpPerforms(op: AluOp, rd: Reg, rs1: Reg, rs2: Reg, x: Regs, pc: bv32, memId: int, m: seq<bv8>)
    ensures Performs(EncodeR(Funct7(op), Field(rs2), Field(rs1), Funct3(op), Field(rd), OP_R), x, pc, memId, m,
                     Retire(Set(x, rd, AluValue(op, Get(x, rs1), Get(x, rs2))), Plus(pc, 4), NoWrite))
  {
    hide Decode, EncodeR, Get, Set, Plus, AluValue, Field, Funct3, Funct7;
    DecodeOp(op, rd, rs1, rs2);
  }

  lemma OpImmPerforms(op: ImmOp, rd: Reg, rs1: Reg, imm: bv32, x: Regs, pc: bv32, memId: int, m: seq<bv8>)
    requires op == Sra || (FitsI(imm) && (op == Srl ==> !ReadsAsSrai(imm)))
    ensures Performs(EncodeI(ImmField(op, imm), Field(rs1), Funct3(op), Field(rd), OP_I_ARITH), x, pc, memId, m,
                     Retire(Set(x, rd, AluValue(op, Get(x, rs1), imm)), Plus(pc, 4), NoWrite))
  {
    hide Decode, EncodeI, FitsI, Get, Set, Plus, AluValue, Field, Funct3, ReadsAsSrai;
    if op == Sra {
      DecodeSrai(rd, rs1, imm);
      SraiAmount(Get(x, rs1), imm);
    } else if op == Srl {
      DecodeSrli(rd, rs1, imm);
    } else {
      DecodeOpImm(op, rd, rs1, imm);
    }
  }

  lemma UpperPerforms(rd: Reg, imm: bv32, opcode: bv32, x: Regs, pc: bv32, memId: int, m: seq<bv8>)
    requires opcode == OP_LUI || opcode == OP_AUIPC
    ensures Performs(EncodeU(imm << 12, Field(rd), opcode), x, pc, memId, m,
                     Retire(Set(x, rd, if opcode == OP_LUI then imm << 12 else Plus(pc, imm << 12)), Plus(pc, 4), NoWrite))
  {
    hide Decode, EncodeU, Get, Set, Plus, Field;
    DecodeUpper(rd, imm, opcode);
  }

  lemma LoadPerforms(kind: LoadKind, rd: Reg, base: Reg, off: bv32, x: Regs, pc: bv32, memId: int, m: seq<bv8>)
    requires FitsI(off)
    ensures var addr := Plus(Get(x, base), off);
            Performs(EncodeI(off, Field(base), LoadFunct3(kind), Field(rd), OP_LOAD), x, pc, memId, m,
                     if Check(Nat(addr), LOAD, memId).NoFault? then
                       Retire(Set(x, rd, Loaded(m, Nat(addr), LoadShape(kind).0, LoadShape(kind).1)), Plus(pc, 4), NoWrite)
                     else Trap(LOAD_FAULT, addr))
  {
    hide Decode, EncodeI, FitsI, Get, Set, Plus, Nat, Check, Loaded, Field, LoadFunct3, LoadShape;
    DecodeLoadWord(kind, rd, base, off);
  }

  lemma StorePerforms(width: Width, src: Reg, base: Reg, off: bv32, x: Regs, pc: bv32, memId: int, m: seq<bv8>)
    requires FitsI(off)
    ensures var addr := Plus(Get(x, base), off);
            Performs(EncodeS(off, Field(src), Field(base), StoreFunct3(width), OP_STORE), x, pc, memId, m,
                     if Check(Nat(addr), STORE, memId).NoFault? then
                       Retire(x, Plus(pc, 4), PutBytes(Nat(addr), Stored(Get(x, src), width)))
                     else Trap(STORE_FAULT, addr))
  {
    hide Decode, EncodeS, FitsI, Get, Plus, Nat, Check, Stored, Field, StoreFunct3;
    DecodeStoreWord(width, src, base, off);
  }

  lemma JalrPerforms(rd: Reg, rs1: Reg, imm: bv32, x: Regs, pc: bv32, memId: int, m: seq<bv8>)
    requires FitsI(imm)
    ensures Performs(EncodeI(imm, Field(rs1), F3_JALR, Field(rd), OP_JALR), x, pc, memId, m,
                     Retire(Set(x, rd, Plus(pc, 4)), BitAnd(Plus(Get(x, rs1), imm), 0xFFFF_FFFE), NoWrite))
  {
    hide Decode, EncodeI, FitsI, Get, Set, Plus, BitAnd, Field;
    DecodeJalrWord(rd, rs1, imm);
  }

  lemma CsrDecodes(csr: bv32, rs1: Reg, funct3: bv32, rd: Reg)
    requires funct3 == 1 || funct3 == 2 || funct3 == 3
    ensures Decode(EncodeI(csr, Field(rs1), funct3, Field(rd), OP_SYSTEM)).CsrAccess?
  {
    hide EncodeI, DecodeImmI, FieldI, FitsI, Field, RdOf, Rs1Of;
    var w := EncodeI(csr, Field(rs1), funct3, Field(rd), OP_SYSTEM);
    assert Field7(OP_SYSTEM) && Field3(funct3);
    FieldsOfI(w, csr, rs1, funct3, rd, OP_SYSTEM);
    SystemFunct3(w);
  }

  lemma SystemFunct3(w: bv32)
    ensures w == ECALL || w == EBREAK || w == MRET ==> DecodeFunct3(w) == 0
  {}

  lemma CsrPerforms(csr: bv32, rs1: Reg, funct3: bv32, rd: Reg, x: Regs, pc: bv32, memId: int, m: seq<bv8>)
    requires funct3 == 1 || funct3 == 2 || funct3 == 3
    ensures var w := EncodeI(csr, Field(rs1), funct3, Field(rd), OP_SYSTEM);
            Performs(w, x, pc, memId, m, Trap(ILLEGAL_INSN, w))
  {
    hide Decode, EncodeI, Field;
    CsrDecodes(csr, rs1, funct3, rd);
  }

  lemma WholePerforms(x: Regs, pc: bv32, memId: int, m: seq<bv8>)
    ensures Performs(ECALL, x, pc, memId, m, Trap(ECALL_U, 0))
    ensures Performs(EBREAK, x, pc, memId, m, Trap(BREAKPOINT, pc))
    ensures Performs(MRET, x, pc, memId, m, Trap(ILLEGAL_INSN, MRET))
  {
    hide Decode;
    WholeWords();
  }

  /** Every instruction statement does what it says. */
  lemma InstructionPerforms(s: Stmt, x: Regs, pc: bv32, memId: int, m: seq<bv8>, labels: map<string, bv32>)
    requires Ref(s) == None && InRange(s, pc, labels) && !s.Data? && WordsFor(s, 0, 0) == [InstructionWord(s)]
    requires !(s.Nop? || s.Mv? || s.Not? || s.Neg? || s.Ret? || s.Li?)
    ensures Performs(InstructionWord(s), x, pc, memId, m, Meaning(s, x, pc, memId, m, labels))
  {
    hide Performs, WordsFor, EncodeR, EncodeI, EncodeS, EncodeU, FitsI, Get, Set, Plus, BitAnd, AluValue, Taken, Nat;
    hide Check, Loaded, Stored;
    hide Field, Funct3, Funct7, ImmField, ReadsAsSrai, LoadFunct3, StoreFunct3, LoadShape, Target;
    if s.Op? {
      OpPerforms(s.op, s.rd, s.rs1, s.rs2, x, pc, memId, m);
    } else if s.OpImm? {
      OpImmPerforms(s.immOp, s.rd, s.rs1, s.imm, x, pc, memId, m);
    } else if s.Load? {
      LoadPerforms(s.kind, s.rd, s.base, s.off, x, pc, memId, m);
    } else if s.Store? {
      StorePerforms(s.width, s.src, s.base, s.off, x, pc, memId, m);
    } else if s.Jalr? {
      JalrPerforms(s.rd, s.rs1, s.imm, x, pc, memId, m);
    } else if s.Lui? || s.Auipc? {
      UpperPerforms(s.rd, s.imm, if s.Lui? then OP_LUI else OP_AUIPC, x, pc, memId, m);
    } else {
      SystemPerforms(s, x, pc, memId, m, labels);
    }
  }

  lemma SystemPerforms(s: Stmt, x: Regs, pc: bv32, memId: int, m: seq<bv8>, labels: map<string, bv32>)
    requires s.CsrReg? || s.Csrr? || s.Ecall? || s.Ebreak? || s.Mret?
    ensures Performs(InstructionWord(s), x, pc, memId, m, Meaning(s, x, pc, memId, m, labels))
  {
    hide Performs, EncodeI, Field, Target, Meaning, CsrFunct3;
    SystemMeaning(s, x, pc, memId, m, labels);
    if s.CsrReg? {
      CsrFunct3Known(s.csrOp);
      CsrPerforms(s.csr, s.rs1, CsrFunct3(s.csrOp), s.rd, x, pc, memId, m);
    } else if s.Csrr? {
      CsrFunct3Known(Rs);
      CsrPerforms(s.csr, 0, CsrFunct3(Rs), s.rd, x, pc, memId, m);
      FieldZero();
    } else {
      WholePerforms(x, pc, memId, m);
    }
  }

  lemma CsrFunct3Known(op: CsrOp)
    ensures CsrFunct3(op) == 1 || CsrFunct3(op) == 2 || CsrFunct3(op) == 3
  {}

  lemma SystemMeaning(s: Stmt, x: Regs, pc: bv32, memId: int, m: seq<bv8>, labels: map<string, bv32>)
    requires s.CsrReg? || s.Csrr? || s.Ecall? || s.Ebreak? || s.Mret?
    ensures Meaning(s, x, pc, memId, m, labels)
         == if s.Ecall? then Trap(ECALL_U, 0) else if s.Ebreak? then Trap(BREAKPOINT, pc)
            else Trap(ILLEGAL_INSN, InstructionWord(s))
  {
    hide InstructionWord, NextAddress, Target;
    if s.Mret? {
      assert InstructionWord(s) == MRET by { MretWord(); }
    }
  }

  lemma MretWord()
    ensures InstructionWord(Stmt.Mret) == MRET
  {}

  lemma FieldZero()
    ensures Field(0) == 0
  {}

  lemma WholeWords()
    ensures Decode(ECALL) == Instr.Ecall && Decode(EBREAK) == Instr.Ebreak && Decode(MRET) == Instr.Mret
  {}

  lemma Sentinels()
    ensures Decode(0) == Illegal && Decode(0xFFFF_FFFF) == Illegal
  {}

  // ----- a statement and its words -----

  /** In user mode with no timer interrupt to take. */
  predicate Quiet(h: HartView) {
    h.mode == U && !(h.timerPending && h.csr.InterruptsEnabled())
  }

  /** The words are in memory from `pc` on, where the hart may fetch them. */
  predicate CodeAt(m: seq<bv8>, pc: bv32, words: seq<bv32>, id: int) {
    forall j :: 0 <= j < |words| ==>
      Check(Nat(WordAddr(pc, j)), LOAD, id).NoFault? && WordAt(m, Nat(WordAddr(pc, j))) == words[j]
  }

  /** Up to `n` calls of `executeOne`, until one reports a trap or a halt. */
  function ExecuteMany(h: HartView, m: seq<bv8>, n: nat): StepResult
    decreases n
  {
    if n == 0 then StepResult(h, m, true)
    else
      var r := Executed(h, m);
      if r.ok then ExecuteMany(r.h, r.m, n - 1) else r
  }

  /** What a statement does to a hart: its meaning, and as many steps as it has words. */
  function SourceStep(h: HartView, m: seq<bv8>, s: Stmt, labels: map<string, bv32>): StepResult {
    match Meaning(s, h.x, h.pc, h.id, m, labels)
    case Retire(x, pc, write) =>
      StepResult(h.(x := x[0 := 0], pc := pc, steps := h.steps + Size(s), csr := h.csr.(cycle := h.csr.cycle + Size(s))),
                 Apply(m, write), true)
    case effect => Finish(h, effect, m)
  }

  lemma PerformWord(w: bv32, x: Regs, pc: bv32, id: int, m: seq<bv8>, effect: Effect)
    requires CodeAt(m, pc, [w], id) && Performs(w, x, pc, id, m, effect)
    ensures Perform(x, pc, U, id, m) == effect
  {
    hide Decode, Execute, Nat, WordAt, Check;
    Sentinels();
    assert WordAddr(pc, 0) == pc;
    assert [w][0] == w;
  }

  lemma PerformData(w: bv32, x: Regs, pc: bv32, id: int, m: seq<bv8>, labels: map<string, bv32>)
    requires CodeAt(m, pc, [w], id)
    ensures Perform(x, pc, U, id, m) == Meaning(Data(w), x, pc, id, m, labels)
  {
    hide Decode, Execute, Nat, WordAt, Check;
    assert WordAddr(pc, 0) == pc;
    assert [w][0] == w;
  }

  /** One word: the instruction performed is the meaning of the statement. */
  lemma OneWord(s: Stmt, x: Regs, pc: bv32, id: int, m: seq<bv8>, labels: map<string, bv32>)
    requires InRange(s, pc, labels) && Size(s) == 1
    requires CodeAt(m, pc, WordsFor(s, Minus(Target(s, labels), pc), Target(s, labels)), id)
    ensures Perform(x, pc, U, id, m) == Meaning(s, x, pc, id, m, labels)
  {
    hide WordsFor, CodeAt, Performs, Perform, Meaning, InRange, Target, Minus, InstructionWord;
    var words := WordsFor(s, Minus(Target(s, labels), pc), Target(s, labels));
    SizeOfWords(s, Minus(Target(s, labels), pc), Target(s, labels));
    assert words == [words[0]];
    if s.Data? {
      DataWords(s, Minus(Target(s, labels), pc), Target(s, labels));
      PerformData(s.w, x, pc, id, m, labels);
    } else {
      if IsJump(s) {
        JumpPerforms(s, x, pc, id, m, labels);
      } else if IsBranch(s) {
        BranchPerforms(s, x, pc, id, m, labels);
      } else if s.Nop? || s.Mv? || s.Not? || s.Neg? || s.Ret? || s.Li? {
        PseudoPerforms(s, x, pc, id, m, labels, Minus(Target(s, labels), pc), Target(s, labels));
      } else {
        PlainWords(s, Minus(Target(s, labels), pc), Target(s, labels));
        InstructionPerforms(s, x, pc, id, m, labels);
      }
      PerformWord(words[0], x, pc, id, m, Meaning(s, x, pc, id, m, labels));
    }
  }

  lemma DataWords(s: Stmt, offset: bv32, target: bv32)
    requires s.Data?
    ensures WordsFor(s, offset, target) == [s.w]
  {}

  lemma PlainWords(s: Stmt, offset: bv32, target: bv32)
    requires Ref(s) == None && !s.Label? && !(s.Nop? || s.Mv? || s.Not? || s.Neg? || s.Ret? || s.Li?)
    ensures WordsFor(s, offset, target) == [InstructionWord(s)] == WordsFor(s, 0, 0)
  {
    hide InstructionWord;
  }

  lemma ExecutedQuietly(h: HartView, m: seq<bv8>)
    requires Quiet(h)
    ensures Executed(h, m) == Finish(h, Perform(h.x, h.pc, U, h.id, m), m)
  {
    hide Perform, Finish;
  }

  /** Two words, LUI and ADDI: the register gets the value they were split from. */
  lemma TwoWords(rd: Reg, v: bv32, h: HartView, m: seq<bv8>)
    requires Quiet(h) && CodeAt(m, h.pc, [LuiWord(rd, SplitHi(v)), AddiWord(rd, rd, SplitLo(v))], h.id)
    ensures ExecuteMany(h, m, 2)
         == StepResult(h.(x := Set(h.x, rd, v)[0 := 0], pc := Plus(Plus(h.pc, 4), 4), steps := h.steps + 2,
                          csr := h.csr.(cycle := h.csr.cycle + 2)), m, true)
  {
    hide CodeAt, Perform, Performs, LuiWord, AddiWord, SplitHi, SplitLo, FitsI, Plus, Executed, Apply, Get, Set;
    var hi, lo := SplitHi(v) << 12, SplitLo(v);
    var first := h.Completed(Set(h.x, rd, hi), Plus(h.pc, 4), 1);
    SplitSum(v);
    CodeSplits(m, h.pc, LuiWord(rd, SplitHi(v)), AddiWord(rd, rd, lo), h.id);
    ApplyNothing(m);
    LuiPerforms(rd, SplitHi(v), h.x, h.pc, h.id, m);
    PerformWord(LuiWord(rd, SplitHi(v)), h.x, h.pc, h.id, m, Retire(Set(h.x, rd, hi), Plus(h.pc, 4), NoWrite));
    ExecutedQuietly(h, m);
    AddiPerforms(rd, rd, lo, first.x, first.pc, h.id, m);
    PerformWord(AddiWord(rd, rd, lo), first.x, first.pc, h.id, m,
                Retire(Set(first.x, rd, Plus(Get(first.x, rd), lo)), Plus(first.pc, 4), NoWrite));
    ExecutedQuietly(first, m);
    TwoSets(h.x, rd, hi, lo, v);
    TwoSteps(h, m);
  }

  lemma TwoSteps(h: HartView, m: seq<bv8>)
    ensures var r := Executed(h, m); r.ok && Executed(r.h, r.m).ok ==> ExecuteMany(h, m, 2) == Executed(r.h, r.m)
  {
    hide Executed;
    var r := Executed(h, m);
    if r.ok {
      assert ExecuteMany(r.h, r.m, 1) == Executed(r.h, r.m) by {
        var r' := Executed(r.h, r.m);
        assert ExecuteMany(r'.h, r'.m, 0) == StepResult(r'.h, r'.m, true);
      }
    }
  }

  lemma LuiPerforms(rd: Reg, hi: bv32, x: Regs, pc: bv32, memId: int, m: seq<bv8>)
    ensures Performs(LuiWord(rd, hi), x, pc, memId, m, Retire(Set(x, rd, hi << 12), Plus(pc, 4), NoWrite))
  {
    hide Performs, Set, Plus, EncodeU, Field;
    UpperPerforms(rd, hi, OP_LUI, x, pc, memId, m);
  }

  lemma SplitSum(v: bv32)
    ensures FitsI(SplitLo(v)) && Plus(SplitHi(v) << 12, SplitLo(v)) == v
  {
    hide SplitHi, SplitLo, FitsI;
    SplitSound(v);
  }

  lemma CodeSplits(m: seq<bv8>, pc: bv32, w0: bv32, w1: bv32, id: int)
    requires CodeAt(m, pc, [w0, w1], id)
    ensures CodeAt(m, pc, [w0], id) && CodeAt(m, Plus(pc, 4), [w1], id)
  {
    hide Check, WordAt, Nat, WordAddr, Plus;
    assert [w0, w1][0] == w0 && [w0, w1][1] == w1;
    NextWord(pc);
  }

  lemma NextWord(pc: bv32)
    ensures WordAddr(pc, 0) == pc && WordAddr(pc, 1) == Plus(pc, 4) == WordAddr(Plus(pc, 4), 0)
  {
    hide NextAddr, Plus;
    NextIsPlus(pc);
  }

  lemma TwoSets(x: Regs, rd: Reg, hi: bv32, lo: bv32, v: bv32)
    requires Plus(hi, lo) == v
    ensures var x1 := Set(x, rd, hi)[0 := 0];
            Set(x1, rd, Plus(Get(x1, rd), lo))[0 := 0] == Set(x, rd, v)[0 := 0]
  {
    hide Plus;
  }

  /** Forward simulation of one statement. */
  lemma StatementSimulated(s: Stmt, h: HartView, m: seq<bv8>, labels: map<string, bv32>)
    requires Quiet(h) && InRange(s, h.pc, labels)
    requires CodeAt(m, h.pc, WordsFor(s, Minus(Target(s, labels), h.pc), Target(s, labels)), h.id)
    ensures ExecuteMany(h, m, Size(s)) == SourceStep(h, m, s, labels)
  {
    hide CodeAt, Perform, Meaning, Minus, Executed, Apply;
    if Size(s) == 1 {
      hide WordsFor, Size;
      OneWord(s, h.x, h.pc, h.id, m, labels);
      ExecutedQuietly(h, m);
      OneStep(h, m);
    } else {
      var v := if s.Li? then s.v else Target(s, labels);
      TwoWordStatement(s, v, Minus(Target(s, labels), h.pc), Target(s, labels));
      TwoWords(s.rd, v, h, m);
      TwoWordMeaning(s, v, h, m, labels);
      ApplyNothing(m);
    }
  }

  lemma OneStep(h: HartView, m: seq<bv8>)
    ensures ExecuteMany(h, m, 1) == Executed(h, m)
  {
    hide Executed;
    var r := Executed(h, m);
    assert ExecuteMany(r.h, r.m, 0) == StepResult(r.h, r.m, true);
  }

  lemma TwoWordStatement(s: Stmt, v: bv32, offset: bv32, target: bv32)
    requires Size(s) == 2 && v == (if s.Li? then s.v else target)
    ensures (s.Li? || s.La?) && WordsFor(s, offset, target) == [LuiWord(s.rd, SplitHi(v)), AddiWord(s.rd, s.rd, SplitLo(v))]
  {
    hide LuiWord, AddiWord, SplitHi, SplitLo, FitsI, InstructionWord;
  }

  lemma TwoWordMeaning(s: Stmt, v: bv32, h: HartView, m: seq<bv8>, labels: map<string, bv32>)
    requires Size(s) == 2 && (s.Li? || s.La?) && v == (if s.Li? then s.v else Target(s, labels))
    ensures Meaning(s, h.x, h.pc, h.id, m, labels) == Retire(Set(h.x, s.rd, v), Plus(Plus(h.pc, 4), 4), NoWrite)
  {
    hide Set, Plus, Size, Target;
  }
}
