/** RV32I instruction words (encode.h): packing and unpacking of the formats R, I, S, B, U and J.

The formats and immediate variants are those of sections 2.2 and 2.3 of the RISC-V Unprivileged ISA
(version 20191213). Immediates are `int32_t` bit patterns.
*/
module Encode {

  // Opcodes.
  const OP_R: bv32 := 0x33
  const OP_I_ARITH: bv32 := 0x13
  const OP_LOAD: bv32 := 0x03
  const OP_STORE: bv32 := 0x23
  const OP_BRANCH: bv32 := 0x63
  const OP_JAL: bv32 := 0x6F
  const OP_JALR: bv32 := 0x67
  const OP_LUI: bv32 := 0x37
  const OP_AUIPC: bv32 := 0x17
  const OP_SYSTEM: bv32 := 0x73

  // funct3.
  const F3_ADD_SUB: bv32 := 0
  const F3_SLL: bv32 := 1
  const F3_SLT: bv32 := 2
  const F3_SLTU: bv32 := 3
  const F3_XOR: bv32 := 4
  const F3_SRL_SRA: bv32 := 5
  const F3_OR: bv32 := 6
  const F3_AND: bv32 := 7
  const F3_BYTE: bv32 := 0
  const F3_HALF: bv32 := 1
  const F3_WORD: bv32 := 2
  const F3_BYTE_U: bv32 := 4
  const F3_HALF_U: bv32 := 5
  const F3_BEQ: bv32 := 0
  const F3_BNE: bv32 := 1
  const F3_BLT: bv32 := 4
  const F3_BGE: bv32 := 5
  const F3_BLTU: bv32 := 6
  const F3_BGEU: bv32 := 7
  const F3_JALR: bv32 := 0

  // funct7.
  const F7_NORMAL: bv32 := 0
  const F7_ALT: bv32 := 0x20

  // Whole words that `executeOne` recognises.
  const ECALL: bv32 := 0x0000_0073
  const EBREAK: bv32 := 0x0010_0073
  const MRET: bv32 := 0x3020_0073

  // ----- encoders -----

  function EncodeR(funct7: bv32, rs2: bv32, rs1: bv32, funct3: bv32, rd: bv32, opcode: bv32): bv32 {
    (funct7 << 25) | (rs2 << 20) | (rs1 << 15) | (funct3 << 12) | (rd << 7) | opcode
  }

  function EncodeI(imm: bv32, rs1: bv32, funct3: bv32, rd: bv32, opcode: bv32): bv32 {
    PackI(imm & 0xFFF, rs1, funct3, rd, opcode)
  }

  function EncodeS(imm: bv32, rs2: bv32, rs1: bv32, funct3: bv32, opcode: bv32): bv32 {
    PackS(imm & 0xFFF, rs2, rs1, funct3, opcode)
  }

  function EncodeB(imm: bv32, rs2: bv32, rs1: bv32, funct3: bv32, opcode: bv32): bv32 {
    PackB(imm & 0x1FFF, rs2, rs1, funct3, opcode)
  }

  function EncodeU(imm: bv32, rd: bv32, opcode: bv32): bv32 {
    (imm & 0xFFFF_F000) | (rd << 7) | opcode
  }

  function EncodeJ(imm: bv32, rd: bv32, opcode: bv32): bv32 {
    PackJ(imm & 0x1F_FFFF, rd, opcode)
  }

  // The immediate `i`, already cut to the width of its format, scattered over the word.

  function PackI(i: bv32, rs1: bv32, funct3: bv32, rd: bv32, opcode: bv32): bv32 {
    (i << 20) | (rs1 << 15) | (funct3 << 12) | (rd << 7) | opcode
  }

  function PackS(i: bv32, rs2: bv32, rs1: bv32, funct3: bv32, opcode: bv32): bv32 {
    var lo := i & 0x1F;
    var hi := (i >> 5) & 0x7F;
    (hi << 25) | (rs2 << 20) | (rs1 << 15) | (funct3 << 12) | (lo << 7) | opcode
  }

  function PackB(i: bv32, rs2: bv32, rs1: bv32, funct3: bv32, opcode: bv32): bv32 {
    var b12 := (i >> 12) & 1;
    var b11 := (i >> 11) & 1;
    var b10_5 := (i >> 5) & 0x3F;
    var b4_1 := (i >> 1) & 0xF;
    (b12 << 31) | (b10_5 << 25) | (rs2 << 20) | (rs1 << 15) | (funct3 << 12) | (b4_1 << 8) | (b11 << 7) | opcode
  }

  function PackJ(i: bv32, rd: bv32, opcode: bv32): bv32 {
    var b20 := (i >> 20) & 1;
    var b19_12 := (i >> 12) & 0xFF;
    var b11 := (i >> 11) & 1;
    var b10_1 := (i >> 1) & 0x3FF;
    (b20 << 31) | (b10_1 << 21) | (b11 << 20) | (b19_12 << 12) | (rd << 7) | opcode
  }

  // ----- decoders -----

  function DecodeOpcode(w: bv32): bv32 { w & 0x7F }
  function DecodeRd(w: bv32): bv32 { (w >> 7) & 0x1F }
  function DecodeFunct3(w: bv32): bv32 { (w >> 12) & 0x7 }
  function DecodeRs1(w: bv32): bv32 { (w >> 15) & 0x1F }
  function DecodeRs2(w: bv32): bv32 { (w >> 20) & 0x1F }
  function DecodeFunct7(w: bv32): bv32 { (w >> 25) & 0x7F }

  /** Sign extension of a field whose sign bit is the one bit of `mask` (`1 << (bits - 1)`). */
  function SignExt(val: bv32, mask: bv32): bv32 {
    (val ^ mask) - mask
  }

  // The immediate fields of a word, put back in order.

  function FieldI(w: bv32): bv32 {
    w >> 20
  }

  function FieldS(w: bv32): bv32 {
    var lo := (w >> 7) & 0x1F;
    var hi := (w >> 25) & 0x7F;
    (hi << 5) | lo
  }

  function FieldB(w: bv32): bv32 {
    var b12 := (w >> 31) & 1;
    var b11 := (w >> 7) & 1;
    var b10_5 := (w >> 25) & 0x3F;
    var b4_1 := (w >> 8) & 0xF;
    (b12 << 12) | (b11 << 11) | (b10_5 << 5) | (b4_1 << 1)
  }

  function FieldJ(w: bv32): bv32 {
    var b20 := (w >> 31) & 1;
    var b19_12 := (w >> 12) & 0xFF;
    var b11 := (w >> 20) & 1;
    var b10_1 := (w >> 21) & 0x3FF;
    (b20 << 20) | (b19_12 << 12) | (b11 << 11) | (b10_1 << 1)
  }

  function DecodeImmI(w: bv32): bv32 { SignExt(FieldI(w), 0x800) }
  function DecodeImmS(w: bv32): bv32 { SignExt(FieldS(w), 0x800) }
  function DecodeImmB(w: bv32): bv32 { SignExt(FieldB(w), 0x1000) }
  function DecodeImmU(w: bv32): bv32 { w & 0xFFFF_F000 }
  function DecodeImmJ(w: bv32): bv32 { SignExt(FieldJ(w), 0x10_0000) }

  // ----- the ranges an immediate survives -----

  /** -2048 <= imm <= 2047 */
  predicate FitsI(imm: bv32) {
    imm & 0xFFFF_F800 == 0 || imm & 0xFFFF_F800 == 0xFFFF_F800
  }

  /** -4096 <= imm <= 4094, even */
  predicate FitsB(imm: bv32) {
    (imm & 0xFFFF_F000 == 0 || imm & 0xFFFF_F000 == 0xFFFF_F000) && imm & 1 == 0
  }

  /** -2^20 <= imm <= 2^20 - 2, even */
  predicate FitsJ(imm: bv32) {
    (imm & 0xFFF0_0000 == 0 || imm & 0xFFF0_0000 == 0xFFF0_0000) && imm & 1 == 0
  }

  predicate Field5(r: bv32) { r & 0x1F == r }
  predicate Field3(f: bv32) { f & 0x7 == f }
  predicate Field7(f: bv32) { f & 0x7F == f }

  // ----- sign extension -----

  // Sign-extending the low bits of an immediate gives it back exactly when it fits the field.

  lemma ExtendFittingI(imm: bv32)
    requires FitsI(imm)
    ensures SignExt(imm & 0xFFF, 0x800) == imm
  {}

  lemma ExtendedFitsI(imm: bv32)
    ensures FitsI(SignExt(imm & 0xFFF, 0x800))
  {}

  lemma SignExtFitsI(imm: bv32)
    ensures SignExt(imm & 0xFFF, 0x800) == imm <==> FitsI(imm)
  {
    ExtendedFitsI(imm);
    if FitsI(imm) {
      ExtendFittingI(imm);
    }
  }

  lemma ExtendFittingB(imm: bv32)
    requires FitsB(imm)
    ensures SignExt(imm & 0x1FFE, 0x1000) == imm
  {}

  lemma ExtendedFitsB(imm: bv32)
    ensures FitsB(SignExt(imm & 0x1FFE, 0x1000))
  {}

  lemma SignExtFitsB(imm: bv32)
    ensures SignExt(imm & 0x1FFE, 0x1000) == imm <==> FitsB(imm)
  {
    ExtendedFitsB(imm);
    if FitsB(imm) {
      ExtendFittingB(imm);
    }
  }

  lemma ExtendFittingJ(imm: bv32)
    requires FitsJ(imm)
    ensures SignExt(imm & 0x1F_FFFE, 0x10_0000) == imm
  {}

  lemma ExtendedFitsJ(imm: bv32)
    ensures FitsJ(SignExt(imm & 0x1F_FFFE, 0x10_0000))
  {}

  lemma SignExtFitsJ(imm: bv32)
    ensures SignExt(imm & 0x1F_FFFE, 0x10_0000) == imm <==> FitsJ(imm)
  {
    ExtendedFitsJ(imm);
    if FitsJ(imm) {
      ExtendFittingJ(imm);
    }
  }

  /** What the immediate decoders make of a word with a given field. */
  lemma ImmIOfField(w: bv32, imm: bv32)
    requires FieldI(w) == imm & 0xFFF
    ensures DecodeImmI(w) == imm <==> FitsI(imm)
  {
    hide SignExt;
    SignExtFitsI(imm);
  }

  lemma ImmSOfField(w: bv32, imm: bv32)
    requires FieldS(w) == imm & 0xFFF
    ensures DecodeImmS(w) == imm <==> FitsI(imm)
  {
    hide SignExt;
    SignExtFitsI(imm);
  }

  lemma ImmBOfField(w: bv32, imm: bv32)
    requires FieldB(w) == imm & 0x1FFE
    ensures DecodeImmB(w) == imm <==> FitsB(imm)
  {
    hide SignExt;
    SignExtFitsB(imm);
  }

  lemma ImmJOfField(w: bv32, imm: bv32)
    requires FieldJ(w) == imm & 0x1F_FFFE
    ensures DecodeImmJ(w) == imm <==> FitsJ(imm)
  {
    hide SignExt;
    SignExtFitsJ(imm);
  }

  /** Sign extension leaves the bits of the field alone. */
  lemma SignExtLow12(v: bv32)
    ensures SignExt(v & 0xFFF, 0x800) & 0xFFF == v & 0xFFF
  {}

  lemma SignExtLow13(v: bv32)
    ensures SignExt(v & 0x1FFF, 0x1000) & 0x1FFF == v & 0x1FFF
  {}

  lemma SignExtLow21(v: bv32)
    ensures SignExt(v & 0x1F_FFFF, 0x10_0000) & 0x1F_FFFF == v & 0x1F_FFFF
  {}

  // ----- decoding recovers what encoding packed -----

  lemma DecodeEncodeR(funct7: bv32, rs2: bv32, rs1: bv32, funct3: bv32, rd: bv32, opcode: bv32)
    requires Field7(funct7) && Field5(rs2) && Field5(rs1) && Field3(funct3) && Field5(rd) && Field7(opcode)
    ensures var w := EncodeR(funct7, rs2, rs1, funct3, rd, opcode);
            && DecodeFunct7(w) == funct7 && DecodeRs2(w) == rs2 && DecodeRs1(w) == rs1
            && DecodeFunct3(w) == funct3 && DecodeRd(w) == rd && DecodeOpcode(w) == opcode
  {}

  /** The immediate comes back exactly when it fits; otherwise its low twelve bits do, sign-extended. */
  lemma DecodeEncodeI(imm: bv32, rs1: bv32, funct3: bv32, rd: bv32, opcode: bv32)
    requires Field5(rs1) && Field3(funct3) && Field5(rd) && Field7(opcode)
    ensures var w := EncodeI(imm, rs1, funct3, rd, opcode);
            && DecodeRs1(w) == rs1 && DecodeFunct3(w) == funct3 && DecodeRd(w) == rd && DecodeOpcode(w) == opcode
            && FieldI(w) == imm & 0xFFF
            && (DecodeImmI(w) == imm <==> FitsI(imm))
  {
    ImmIOfField(EncodeI(imm, rs1, funct3, rd, opcode), imm);
  }

  lemma DecodeEncodeS(imm: bv32, rs2: bv32, rs1: bv32, funct3: bv32, opcode: bv32)
    requires Field5(rs2) && Field5(rs1) && Field3(funct3) && Field7(opcode)
    ensures var w := EncodeS(imm, rs2, rs1, funct3, opcode);
            && DecodeRs2(w) == rs2 && DecodeRs1(w) == rs1 && DecodeFunct3(w) == funct3 && DecodeOpcode(w) == opcode
            && FieldS(w) == imm & 0xFFF
            && (DecodeImmS(w) == imm <==> FitsI(imm))
  {
    ImmSOfField(EncodeS(imm, rs2, rs1, funct3, opcode), imm);
  }

  lemma DecodeEncodeB(imm: bv32, rs2: bv32, rs1: bv32, funct3: bv32, opcode: bv32)
    requires Field5(rs2) && Field5(rs1) && Field3(funct3) && Field7(opcode)
    ensures var w := EncodeB(imm, rs2, rs1, funct3, opcode);
            && DecodeRs2(w) == rs2 && DecodeRs1(w) == rs1 && DecodeFunct3(w) == funct3 && DecodeOpcode(w) == opcode
            && FieldB(w) == imm & 0x1FFE
            && (DecodeImmB(w) == imm <==> FitsB(imm))
  {
    ImmBOfField(EncodeB(imm, rs2, rs1, funct3, opcode), imm);
  }

  lemma DecodeEncodeU(imm: bv32, rd: bv32, opcode: bv32)
    requires Field5(rd) && Field7(opcode)
    ensures var w := EncodeU(imm, rd, opcode);
            && DecodeRd(w) == rd && DecodeOpcode(w) == opcode
            && DecodeImmU(w) == imm & 0xFFFF_F000
  {}

  lemma DecodeEncodeJ(imm: bv32, rd: bv32, opcode: bv32)
    requires Field5(rd) && Field7(opcode)
    ensures var w := EncodeJ(imm, rd, opcode);
            && DecodeRd(w) == rd && DecodeOpcode(w) == opcode
            && FieldJ(w) == imm & 0x1F_FFFE
            && (DecodeImmJ(w) == imm <==> FitsJ(imm))
  {
    ImmJOfField(EncodeJ(imm, rd, opcode), imm);
  }

  // ----- encoding what was decoded gives back the word -----

  lemma EncodeDecodeR(w: bv32)
    ensures EncodeR(DecodeFunct7(w), DecodeRs2(w), DecodeRs1(w), DecodeFunct3(w), DecodeRd(w), DecodeOpcode(w)) == w
  {}

  lemma RepackI(w: bv32)
    ensures PackI(FieldI(w), DecodeRs1(w), DecodeFunct3(w), DecodeRd(w), DecodeOpcode(w)) == w
  {}

  lemma FieldIWidth(w: bv32)
    ensures FieldI(w) & 0xFFF == FieldI(w)
  {}

  lemma EncodeDecodeI(w: bv32)
    ensures EncodeI(DecodeImmI(w), DecodeRs1(w), DecodeFunct3(w), DecodeRd(w), DecodeOpcode(w)) == w
  {
    hide SignExt, PackI, FieldI;
    RepackI(w);
    FieldIWidth(w);
    SignExtLow12(FieldI(w));
  }

  lemma RepackS(w: bv32)
    ensures PackS(FieldS(w), DecodeRs2(w), DecodeRs1(w), DecodeFunct3(w), DecodeOpcode(w)) == w
  {}

  lemma FieldSWidth(w: bv32)
    ensures FieldS(w) & 0xFFF == FieldS(w)
  {}

  lemma EncodeDecodeS(w: bv32)
    ensures EncodeS(DecodeImmS(w), DecodeRs2(w), DecodeRs1(w), DecodeFunct3(w), DecodeOpcode(w)) == w
  {
    hide SignExt, PackS, FieldS;
    RepackS(w);
    FieldSWidth(w);
    SignExtLow12(FieldS(w));
  }

  lemma RepackB(w: bv32)
    ensures PackB(FieldB(w), DecodeRs2(w), DecodeRs1(w), DecodeFunct3(w), DecodeOpcode(w)) == w
  {}

  lemma FieldBWidth(w: bv32)
    ensures FieldB(w) & 0x1FFF == FieldB(w)
  {}

  lemma EncodeDecodeB(w: bv32)
    ensures EncodeB(DecodeImmB(w), DecodeRs2(w), DecodeRs1(w), DecodeFunct3(w), DecodeOpcode(w)) == w
  {
    hide SignExt, PackB, FieldB;
    RepackB(w);
    FieldBWidth(w);
    SignExtLow13(FieldB(w));
  }

  lemma RepackJ(w: bv32)
    ensures PackJ(FieldJ(w), DecodeRd(w), DecodeOpcode(w)) == w
  {}

  lemma FieldJWidth(w: bv32)
    ensures FieldJ(w) & 0x1F_FFFF == FieldJ(w)
  {}

  lemma EncodeDecodeJ(w: bv32)
    ensures EncodeJ(DecodeImmJ(w), DecodeRd(w), DecodeOpcode(w)) == w
  {
    hide SignExt, PackJ, FieldJ;
    RepackJ(w);
    FieldJWidth(w);
    SignExtLow21(FieldJ(w));
  }

  lemma EncodeDecodeU(w: bv32)
    ensures EncodeU(DecodeImmU(w), DecodeRd(w), DecodeOpcode(w)) == w
  {}

  // ----- splitting a 32-bit value over LUI and ADDI -----

  /** `(v + 0x800) >> 12`, an arithmetic shift. */
  function SplitHi(v: bv32): bv32 {
    ShiftRight12(v + 0x800)
  }

  function ShiftRight12(s: bv32): bv32 {
    if s & 0x8000_0000 == 0 then s >> 12 else !(!s >> 12)
  }

  function SplitLo(v: bv32): bv32 {
    v - (SplitHi(v) << 12)
  }

  lemma ZeroSplits()
    ensures SplitHi(0) == 0 && SplitLo(0) == 0 && 0 as bv32 << 12 == 0 && 0 as bv32 & 0xFFFF_F000 == 0
  {}

  // Shifting right and back clears the low twelve bits.

  function ShiftLeft12(s: bv32): bv32 { s << 12 }

  lemma LogicalShiftBack(s: bv32)
    ensures ShiftLeft12(s >> 12) == s & 0xFFFF_F000
  {}

  lemma ComplementShiftBack(s: bv32)
    ensures ShiftLeft12(!(!s >> 12)) == s & 0xFFFF_F000
  {}

  lemma ShiftBack(s: bv32)
    ensures ShiftLeft12(ShiftRight12(s)) == s & 0xFFFF_F000
  {
    hide ShiftLeft12;
    if s & 0x8000_0000 == 0 {
      LogicalShiftBack(s);
    } else {
      ComplementShiftBack(s);
    }
  }

  lemma MaskTwice(s: bv32)
    ensures (s & 0xFFFF_F000) & 0xFFFF_F000 == s & 0xFFFF_F000
  {}

  /** The low half of a value `s - 0x800`, and why it fits the I format. */
  lemma SplitLoMask(s: bv32)
    ensures (s - 0x800) - (s & 0xFFFF_F000) == (s & 0xFFF) - 0x800
  {}

  lemma LowHalfFits(s: bv32)
    ensures ((s & 0xFFF) - 0x800) & 0xFFFF_F800 == 0 || ((s & 0xFFF) - 0x800) & 0xFFFF_F800 == 0xFFFF_F800
  {}

  lemma Restore(v: bv32, hi: bv32)
    ensures hi + (v - hi) == v
    ensures (v + 0x800) - 0x800 == v
  {}

  lemma SplitHiMask(v: bv32)
    ensures SplitHi(v) << 12 == (v + 0x800) & 0xFFFF_F000
  {
    ShiftBack(v + 0x800);
  }

  /** The two halves fit their formats and add up to the value, for every value. */
  lemma SplitSound(v: bv32)
    ensures FitsI(SplitLo(v))
    ensures (SplitHi(v) << 12) & 0xFFFF_F000 == SplitHi(v) << 12
    ensures (SplitHi(v) << 12) + SplitLo(v) == v
  {
    SplitHiMask(v);
    MaskTwice(v + 0x800);
    SplitLoMask(v + 0x800);
    LowHalfFits(v + 0x800);
    Restore(v, (v + 0x800) & 0xFFFF_F000);
  }
}
