/** What the assembled words decode to. */
module Decoding {
  import opened Options
  import opened Encode
  import opened Isa
  import opened Assembly
  import opened TwoPass

  lemma RegisterBack(w: bv32, r: Reg)
    requires w == Field(r)
    ensures w & 0x1F == w && (w & 0x1F) as bv5 == r
  {}

  lemma RdBack(w: bv32, r: Reg)
    requires DecodeRd(w) == Field(r)
    ensures RdOf(w) == r
  {
    RegisterBack(DecodeRd(w), r);
  }

  lemma Rs1Back(w: bv32, r: Reg)
    requires DecodeRs1(w) == Field(r)
    ensures Rs1Of(w) == r
  {
    RegisterBack(DecodeRs1(w), r);
  }

  lemma Rs2Back(w: bv32, r: Reg)
    requires DecodeRs2(w) == Field(r)
    ensures Rs2Of(w) == r
  {
    RegisterBack(DecodeRs2(w), r);
  }

  lemma Funct3Fits(op: AluOp)
    ensures Field3(Funct3(op)) && Field7(Funct7(op))
  {}

  lemma OpRoundTrip(op: AluOp)
    ensures AluOpOf(Funct7(op), Funct3(op)) == Some(op)
  {}

  lemma DecodeOp(op: AluOp, rd: Reg, rs1: Reg, rs2: Reg)
    ensures Decode(EncodeR(Funct7(op), Field(rs2), Field(rs1), Funct3(op), Field(rd), OP_R)) == Alu(op, rd, rs1, rs2)
  {
    hide EncodeR, DecodeOpcode, DecodeRd, DecodeRs1, DecodeRs2, DecodeFunct3, DecodeFunct7, Field, Field5, Funct3;
    hide Funct7, AluOpOf, RdOf, Rs1Of, Rs2Of;
    var w := EncodeR(Funct7(op), Field(rs2), Field(rs1), Funct3(op), Field(rd), OP_R);
    assert Field7(OP_R);
    FieldFits(rd);
    FieldFits(rs1);
    FieldFits(rs2);
    Funct3Fits(op);
    OpRoundTrip(op);
    DecodeEncodeR(Funct7(op), Field(rs2), Field(rs1), Funct3(op), Field(rd), OP_R);
    RdBack(w, rd);
    Rs1Back(w, rs1);
    Rs2Back(w, rs2);
  }

  /** The fields of an I-type word. */
  lemma FieldsOfI(w: bv32, imm: bv32, rs1: Reg, funct3: bv32, rd: Reg, opcode: bv32)
    requires Field3(funct3) && Field7(opcode) && w == EncodeI(imm, Field(rs1), funct3, Field(rd), opcode)
    ensures DecodeOpcode(w) == opcode && DecodeFunct3(w) == funct3 && RdOf(w) == rd && Rs1Of(w) == rs1
    ensures FieldI(w) == imm & 0xFFF && (DecodeImmI(w) == imm <==> FitsI(imm))
  {
    hide EncodeI, DecodeOpcode, DecodeRd, DecodeRs1, DecodeFunct3, DecodeImmI, FieldI, FitsI, Field, Field5, Field3;
    hide Field7, RdOf, Rs1Of;
    FieldFits(rd);
    FieldFits(rs1);
    DecodeEncodeI(imm, Field(rs1), funct3, Field(rd), opcode);
    RdBack(w, rd);
    Rs1Back(w, rs1);
  }

  /** What is left of an immediate that is cut to twelve bits and read back: all of it exactly when it fits. */
  function Truncated(imm: bv32): bv32 {
    SignExt(imm & 0xFFF, 0x800)
  }

  /** An I-type operation other than the right shifts keeps its immediate exactly when it fits. */
  lemma DecodeOpImm(op: ImmOp, rd: Reg, rs1: Reg, imm: bv32)
    requires op != Srl && op != Sra
    ensures Decode(EncodeI(imm, Field(rs1), Funct3(op), Field(rd), OP_I_ARITH)) == AluImm(op, rd, rs1, Truncated(imm))
    ensures Truncated(imm) == imm <==> FitsI(imm)
  {
    hide EncodeI, DecodeOpcode, DecodeFunct3, DecodeFunct7, FieldI, SignExt, FitsI, Field, RdOf, Rs1Of;
    var w := EncodeI(imm, Field(rs1), Funct3(op), Field(rd), OP_I_ARITH);
    Funct3Fits(op);
    FieldsOfI(w, imm, rs1, Funct3(op), rd, OP_I_ARITH);
    SignExtFitsI(imm);
  }

  /** funct7 of an I-type word is the top of its immediate field. */
  lemma Funct7OfI(w: bv32)
    ensures DecodeFunct7(w) == (FieldI(w) >> 5) & 0x7F
  {}

  lemma SraField(imm: bv32)
    ensures (((((imm & 0x1F) | (0x20 << 5)) & 0xFFF) >> 5) & 0x7F) == 0x20
    ensures FitsI((imm & 0x1F) | (0x20 << 5))
    ensures ((imm & 0x1F) | (0x20 << 5)) & 0x1F == imm & 0x1F
  {}

  /** SRAI always decodes to an arithmetic shift by the low five bits. */
  lemma DecodeSrai(rd: Reg, rs1: Reg, imm: bv32)
    ensures Decode(EncodeI(ImmField(Sra, imm), Field(rs1), Funct3(Sra), Field(rd), OP_I_ARITH))
         == AluImm(Sra, rd, rs1, ImmField(Sra, imm))
  {
    hide EncodeI, DecodeOpcode, DecodeFunct3, DecodeFunct7, DecodeImmI, FieldI, FitsI, Field, RdOf, Rs1Of;
    var w := EncodeI(ImmField(Sra, imm), Field(rs1), Funct3(Sra), Field(rd), OP_I_ARITH);
    FieldsOfI(w, ImmField(Sra, imm), rs1, Funct3(Sra), rd, OP_I_ARITH);
    Funct7OfI(w);
    SraField(imm);
  }

  /** SRLI decodes to a logical shift exactly when its immediate does not carry the funct7 of SRAI. */
  predicate ReadsAsSrai(imm: bv32) {
    imm & 0xFE0 == 0x400
  }

  lemma SrlField(imm: bv32)
    ensures ((((imm & 0xFFF) >> 5) & 0x7F) == 0x20) <==> ReadsAsSrai(imm)
  {}

  lemma DecodeSrli(rd: Reg, rs1: Reg, imm: bv32)
    ensures Decode(EncodeI(imm, Field(rs1), Funct3(Srl), Field(rd), OP_I_ARITH))
         == AluImm(if ReadsAsSrai(imm) then Sra else Srl, rd, rs1, Truncated(imm))
    ensures Truncated(imm) == imm <==> FitsI(imm)
  {
    hide EncodeI, DecodeOpcode, DecodeFunct3, DecodeFunct7, FieldI, SignExt, FitsI, Field, RdOf, Rs1Of, ReadsAsSrai;
    var w := EncodeI(imm, Field(rs1), Funct3(Srl), Field(rd), OP_I_ARITH);
    FieldsOfI(w, imm, rs1, Funct3(Srl), rd, OP_I_ARITH);
    Funct7OfI(w);
    SrlField(imm);
    SignExtFitsI(imm);
  }

  /** The access a load statement asks for: its width, and whether it extends the sign. */
  function LoadShape(kind: LoadKind): (Width, bool) {
    match kind
    case Lb => (Byte, true)
    case Lh => (Half, true)
    case Lw => (Word, true)
    case Lbu => (Byte, false)
    case Lhu => (Half, false)
  }

  lemma DecodeLoadWord(kind: LoadKind, rd: Reg, base: Reg, off: bv32)
    ensures Decode(EncodeI(off, Field(base), LoadFunct3(kind), Field(rd), OP_LOAD))
         == Instr.Load(LoadShape(kind).0, LoadShape(kind).1, rd, base, Truncated(off))
    ensures Truncated(off) == off <==> FitsI(off)
  {
    hide EncodeI, DecodeOpcode, DecodeFunct3, FieldI, SignExt, FitsI, Field, RdOf, Rs1Of;
    var w := EncodeI(off, Field(base), LoadFunct3(kind), Field(rd), OP_LOAD);
    assert Field3(LoadFunct3(kind)) && Field7(OP_LOAD);
    FieldsOfI(w, off, base, LoadFunct3(kind), rd, OP_LOAD);
    SignExtFitsI(off);
  }

  lemma DecodeStoreWord(width: Width, src: Reg, base: Reg, off: bv32)
    ensures Decode(EncodeS(off, Field(src), Field(base), StoreFunct3(width), OP_STORE))
         == Instr.Store(width, base, src, Truncated(off))
    ensures Truncated(off) == off <==> FitsI(off)
  {
    hide EncodeS, DecodeOpcode, DecodeFunct3, DecodeRs1, DecodeRs2, FieldS, SignExt, FitsI, Field, Field5, Rs1Of;
    hide Rs2Of;
    var w := EncodeS(off, Field(src), Field(base), StoreFunct3(width), OP_STORE);
    assert Field3(StoreFunct3(width)) && Field7(OP_STORE);
    FieldFits(src);
    FieldFits(base);
    DecodeEncodeS(off, Field(src), Field(base), StoreFunct3(width), OP_STORE);
    Rs1Back(w, base);
    Rs2Back(w, src);
    SignExtFitsI(off);
  }

  lemma CondRoundTrip(cond: Cond)
    ensures CondOf(CondFunct3(cond)) == Some(cond)
  {}

  /** A branch keeps its offset exactly when it fits: even, and between -4096 and 4094. */
  lemma DecodeBranchWord(cond: Cond, rs1: Reg, rs2: Reg, offset: bv32)
    ensures var i := Decode(BranchWord(cond, rs1, rs2, offset));
            i.Branch? && i.cond == cond && i.rs1 == rs1 && i.rs2 == rs2 && (i.imm == offset <==> FitsB(offset))
  {
    hide EncodeB, DecodeOpcode, DecodeFunct3, DecodeRs1, DecodeRs2, DecodeImmB, FieldB, FitsB, Field, Field5;
    hide CondFunct3, CondOf, Rs1Of, Rs2Of;
    var w := BranchWord(cond, rs1, rs2, offset);
    assert Field7(OP_BRANCH);
    FieldFits(rs1);
    FieldFits(rs2);
    CondFits(cond);
    CondRoundTrip(cond);
    DecodeEncodeB(offset, Field(rs2), Field(rs1), CondFunct3(cond), OP_BRANCH);
    Rs1Back(w, rs1);
    Rs2Back(w, rs2);
  }

  lemma DecodeJalWord(rd: Reg, offset: bv32)
    ensures var i := Decode(JalWord(rd, offset)); i.Jal? && i.rd == rd && (i.imm == offset <==> FitsJ(offset))
  {
    hide EncodeJ, DecodeOpcode, DecodeRd, DecodeImmJ, FieldJ, FitsJ, Field, Field5, RdOf;
    assert Field7(OP_JAL);
    FieldFits(rd);
    DecodeEncodeJ(offset, Field(rd), OP_JAL);
    RdBack(JalWord(rd, offset), rd);
  }

  lemma DecodeJalrWord(rd: Reg, rs1: Reg, imm: bv32)
    ensures Decode(EncodeI(imm, Field(rs1), F3_JALR, Field(rd), OP_JALR)) == Instr.Jalr(rd, rs1, Truncated(imm))
    ensures Truncated(imm) == imm <==> FitsI(imm)
  {
    hide EncodeI, DecodeOpcode, DecodeFunct3, FieldI, SignExt, FitsI, Field, RdOf, Rs1Of;
    assert Field3(F3_JALR) && Field7(OP_JALR);
    FieldsOfI(EncodeI(imm, Field(rs1), F3_JALR, Field(rd), OP_JALR), imm, rs1, F3_JALR, rd, OP_JALR);
    SignExtFitsI(imm);
  }

  lemma ShiftedMask(a: bv32)
    ensures (a << 12) & 0xFFFF_F000 == a << 12
  {}

  lemma DecodeUpper(rd: Reg, imm: bv32, opcode: bv32)
    requires opcode == OP_LUI || opcode == OP_AUIPC
    ensures Decode(EncodeU(imm << 12, Field(rd), opcode))
         == if opcode == OP_LUI then Instr.Lui(rd, imm << 12) else Instr.Auipc(rd, imm << 12)
  {
    hide EncodeU, DecodeOpcode, DecodeRd, DecodeImmU, Field, Field5, RdOf;
    assert Field7(OP_LUI) && Field7(OP_AUIPC);
    FieldFits(rd);
    ShiftedMask(imm);
    DecodeEncodeU(imm << 12, Field(rd), opcode);
    RdBack(EncodeU(imm << 12, Field(rd), opcode), rd);
  }
}
