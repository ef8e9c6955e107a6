/** Words of the instruction set, written out, and what they decode to.

One word for each instruction, with rd = x3, rs1 = x1 and rs2 = x2, from chapters 2 and 24 of the RISC-V Unprivileged
ISA (version 20191213). They fix the positions of the fields and the numbers of the operations, which the round trips
of packing and unpacking alone would not.
*/
module KnownWords {
  import opened Words
  import opened Encode
  import opened Isa
  import opened Reach
  import opened Assembly

  lemma RegisterWords()
    ensures Decode(0x002081B3) == Alu(Add, 3, 1, 2) && Decode(0x402081B3) == Alu(Sub, 3, 1, 2)
    ensures Decode(0x002091B3) == Alu(Sll, 3, 1, 2) && Decode(0x0020A1B3) == Alu(Slt, 3, 1, 2)
    ensures Decode(0x0020B1B3) == Alu(Sltu, 3, 1, 2)
  {}

  lemma LogicalWords()
    ensures Decode(0x0020C1B3) == Alu(Xor, 3, 1, 2)
    ensures Decode(0x0020D1B3) == Alu(Srl, 3, 1, 2) && Decode(0x4020D1B3) == Alu(Sra, 3, 1, 2)
    ensures Decode(0x0020E1B3) == Alu(Or, 3, 1, 2) && Decode(0x0020F1B3) == Alu(And, 3, 1, 2)
  {}

  lemma ImmediateWords()
    ensures Decode(0xFFE08193) == AluImm(Add, 3, 1, 0xFFFF_FFFE) && Decode(0xFFE0A193) == AluImm(Slt, 3, 1, 0xFFFF_FFFE)
    ensures Decode(0x1230B193) == AluImm(Sltu, 3, 1, 0x123) && Decode(0x1230C193) == AluImm(Xor, 3, 1, 0x123)
    ensures Decode(0x1230E193) == AluImm(Or, 3, 1, 0x123) && Decode(0x1230F193) == AluImm(And, 3, 1, 0x123)
  {}

  lemma ShiftWords()
    ensures Decode(0x00509193) == AluImm(Sll, 3, 1, 5) && Decode(0x0050D193) == AluImm(Srl, 3, 1, 5)
    ensures Decode(0x4050D193) == AluImm(Sra, 3, 1, 0x405)
  {}

  lemma LoadWords()
    ensures Decode(0x12308183) == Instr.Load(Byte, true, 3, 1, 0x123)
    ensures Decode(0x12309183) == Instr.Load(Half, true, 3, 1, 0x123)
    ensures Decode(0x1230A183) == Instr.Load(Word, true, 3, 1, 0x123)
    ensures Decode(0x1230C183) == Instr.Load(Byte, false, 3, 1, 0x123)
    ensures Decode(0xFFE0D183) == Instr.Load(Half, false, 3, 1, 0xFFFF_FFFE)
  {}

  lemma StoreWords()
    ensures Decode(0x122081A3) == Instr.Store(Byte, 1, 2, 0x123) && Decode(0x122091A3) == Instr.Store(Half, 1, 2, 0x123)
    ensures Decode(0x1220A1A3) == Instr.Store(Word, 1, 2, 0x123)
    ensures Decode(0xFE20AF23) == Instr.Store(Word, 1, 2, 0xFFFF_FFFE)
  {}

  lemma BranchWords()
    ensures Decode(0x54208BE3) == Instr.Branch(Eq, 1, 2, 0xD56) && Decode(0x54209BE3) == Instr.Branch(Ne, 1, 2, 0xD56)
    ensures Decode(0x5420CBE3) == Instr.Branch(Lt, 1, 2, 0xD56) && Decode(0x5420DBE3) == Instr.Branch(Ge, 1, 2, 0xD56)
    ensures Decode(0x5420EBE3) == Instr.Branch(Ltu, 1, 2, 0xD56) && Decode(0x5420FBE3) == Instr.Branch(Geu, 1, 2, 0xD56)
    ensures Decode(0xFE208EE3) == Instr.Branch(Eq, 1, 2, 0xFFFF_FFFC)
  {}

  lemma JumpWords()
    ensures Decode(0x5A65A1EF) == Instr.Jal(3, 0x5A5A6) && Decode(0xFF9FF06F) == Instr.Jal(0, 0xFFFF_FFF8)
    ensures Decode(0x123081E7) == Instr.Jalr(3, 1, 0x123)
    ensures Decode(0x123451B7) == Instr.Lui(3, 0x1234_5000) && Decode(0x12345197) == Instr.Auipc(3, 0x1234_5000)
  {}

  lemma SystemWords()
    ensures Decode(0x00000073) == Instr.Ecall && Decode(0x00100073) == Instr.Ebreak && Decode(0x30200073) == Instr.Mret
    ensures Decode(0x341091F3) == CsrAccess(1, 3, 1, 0x341) && Decode(0x3410A1F3) == CsrAccess(2, 3, 1, 0x341)
    ensures Decode(0x3410F1F3) == CsrAccess(7, 3, 1, 0x341)
  {}

  // ----- the words that the assembler emits -----

  lemma FieldNumbers()
    ensures Field(0) == 0 && Field(1) == 1 && Field(2) == 2 && Field(3) == 3
  {}

  lemma PackedWords()
    ensures EncodeR(0, 2, 1, 0, 3, 0x33) == 0x002081B3 && EncodeR(0x20, 2, 1, 0, 3, 0x33) == 0x402081B3
    ensures EncodeR(0, 2, 1, 4, 3, 0x33) == 0x0020C1B3 && EncodeR(0, 2, 1, 7, 3, 0x33) == 0x0020F1B3
    ensures EncodeI(0xFFFF_FFFE, 1, 0, 3, 0x13) == 0xFFE08193 && EncodeI(0x405, 1, 5, 3, 0x13) == 0x4050D193
    ensures EncodeI(5, 1, 5, 3, 0x13) == 0x0050D193 && EncodeI(0x123, 1, 4, 3, 0x03) == 0x1230C183
    ensures EncodeS(0x123, 2, 1, 2, 0x23) == 0x1220A1A3 && EncodeI(0x123, 1, 0, 3, 0x67) == 0x123081E7
    ensures EncodeU(0x1234_5000, 3, 0x37) == 0x123451B7 && EncodeU(0x1234_5000, 3, 0x17) == 0x12345197
    ensures EncodeI(0x341, 1, 1, 3, 0x73) == 0x341091F3 && EncodeI(0x341, 1, 2, 3, 0x73) == 0x3410A1F3
    ensures EncodeI(0x341, 1, 3, 3, 0x73) == 0x3410B1F3 && EncodeI(0x341, 0, 2, 3, 0x73) == 0x341021F3
  {}

  lemma EmittedRegister()
    ensures InstructionWord(Op(Add, 3, 1, 2)) == 0x002081B3 && InstructionWord(Op(Sub, 3, 1, 2)) == 0x402081B3
  {
    hide EncodeR, Field;
    PackedWords();
    FieldNumbers();
  }

  lemma EmittedLogical()
    ensures InstructionWord(Op(Xor, 3, 1, 2)) == 0x0020C1B3 && InstructionWord(Op(And, 3, 1, 2)) == 0x0020F1B3
  {
    hide EncodeR, Field;
    PackedWords();
    FieldNumbers();
  }

  lemma EmittedImmediate()
    ensures InstructionWord(OpImm(Add, 3, 1, 0xFFFF_FFFE)) == 0xFFE08193
    ensures InstructionWord(OpImm(Sra, 3, 1, 5)) == 0x4050D193 && InstructionWord(OpImm(Srl, 3, 1, 5)) == 0x0050D193
  {
    hide EncodeI, Field;
    PackedWords();
    FieldNumbers();
    assert ImmField(Sra, 5) == 0x405 && ImmField(Srl, 5) == 5 && ImmField(Add, 0xFFFF_FFFE) == 0xFFFF_FFFE;
    hide ImmField;
  }

  lemma EmittedMemory()
    ensures InstructionWord(Stmt.Load(Lbu, 3, 1, 0x123)) == 0x1230C183
    ensures InstructionWord(Stmt.Store(Word, 2, 1, 0x123)) == 0x1220A1A3
  {
    hide EncodeI, EncodeS, Field;
    PackedWords();
    FieldNumbers();
  }

  lemma EmittedUpper()
    ensures InstructionWord(Stmt.Jalr(3, 1, 0x123)) == 0x123081E7
    ensures InstructionWord(Stmt.Lui(3, 0x12345)) == 0x123451B7 && InstructionWord(Stmt.Auipc(3, 0x12345)) == 0x12345197
  {
    hide EncodeI, EncodeU, Field;
    PackedWords();
    FieldNumbers();
    assert 0x12345 as bv32 << 12 == 0x1234_5000;
  }

  lemma EmittedCsr()
    ensures InstructionWord(CsrReg(Rw, 3, 1, 0x341)) == 0x341091F3 && InstructionWord(CsrReg(Rs, 3, 1, 0x341)) == 0x3410A1F3
  {
    hide EncodeI, Field;
    PackedWords();
    FieldNumbers();
  }

  lemma EmittedCsrClear()
    ensures InstructionWord(CsrReg(Rc, 3, 1, 0x341)) == 0x3410B1F3 && InstructionWord(Csrr(3, 0x341)) == 0x341021F3
  {
    hide EncodeI, Field;
    PackedWords();
    FieldNumbers();
  }

  lemma EmittedSystem()
    ensures InstructionWord(Stmt.Ecall) == 0x73 && InstructionWord(Stmt.Ebreak) == 0x0010_0073
  {
    hide EncodeR, EncodeI, EncodeS, EncodeU, LuiWord, Field, ImmField, Funct3, Funct7, LoadFunct3, StoreFunct3, CsrFunct3;
  }

  lemma EmittedReturn()
    ensures InstructionWord(Stmt.Mret) == 0x3020_0073
  {
    hide EncodeR, EncodeI, EncodeS, EncodeU, LuiWord, Field, ImmField, Funct3, Funct7, LoadFunct3, StoreFunct3, CsrFunct3;
  }

  /** The pseudo-instructions are these instructions and no others. */
  lemma EmittedPseudo()
    ensures Emitted(Nop) == [0x13] && Emitted(Ret) == [0x8067] && Emitted(Mv(3, 1)) == [0x8193]
    ensures Emitted(Not(3, 1)) == [0xFFF0C193] && Emitted(Neg(3, 1)) == [0x401001B3]
  {}

  /** LI takes one word exactly for the values of twelve bits, LA always two. */
  lemma EmittedConstant(rd: Reg, v: bv32, dest: Name)
    ensures |Emitted(Li(rd, v))| == if -2048 <= SInt(v) <= 2047 then 1 else 2
    ensures |Emitted(La(rd, dest))| == 2
  {
    hide FitsI, LuiWord, AddiWord, SplitHi, SplitLo, SInt;
    FitsIRange(v);
  }

  lemma EmittedLi()
    ensures Emitted(Li(3, 5)) == [0x00500193] && Emitted(Li(3, 0xFFFF_FFFE)) == [0xFFE00193]
    ensures Emitted(Li(3, 0x1234_5678)) == [0x123451B7, 0x67818193]
    ensures Emitted(Li(3, 0x1234_5ABC)) == [0x123461B7, 0xABC18193]
  {}

  lemma PackedJumps()
    ensures EncodeJ(0xFFFF_FFF8, 0, 0x6F) == 0xFF9FF06F && EncodeJ(0x5A5A6, 1, 0x6F) == 0x5A65A0EF
    ensures EncodeB(0xD56, 2, 1, 4, 0x63) == 0x5420CBE3 && EncodeB(0xD56, 0, 1, 0, 0x63) == 0x54008BE3
    ensures EncodeB(0xD56, 1, 0, 5, 0x63) == 0x54105BE3 && EncodeB(0xD56, 1, 0, 4, 0x63) == 0x54104BE3
  {}

  lemma EmittedJumps(dest: Name)
    ensures WordsFor(J(dest), 0xFFFF_FFF8, 0) == [0xFF9FF06F] && WordsFor(Stmt.Call(dest), 0x5A5A6, 0) == [0x5A65A0EF]
    ensures WordsFor(Stmt.Branch(Lt, 1, 2, dest), 0xD56, 0) == [0x5420CBE3]
    ensures WordsFor(BranchZero(Eqz, 1, dest), 0xD56, 0) == [0x54008BE3]
    ensures WordsFor(BranchZero(Lez, 1, dest), 0xD56, 0) == [0x54105BE3]
    ensures WordsFor(BranchZero(Gtz, 1, dest), 0xD56, 0) == [0x54104BE3]
  {
    hide EncodeJ, EncodeB, Field;
    PackedJumps();
    FieldNumbers();
  }
}
