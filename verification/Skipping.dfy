/** When leaving a statement's label alone does no harm: the condition of two-pass equivalence, in a caller's terms. */
module Skipping {
  import opened Words
  import opened Encode
  import opened Memory
  import opened Isa
  import opened Boot
  import opened Assembly
  import opened TwoPass
  import opened Reach
  import opened Compiled

  // ----- words in which the label does not show -----

  lemma ZeroField()
    ensures 0 as bv32 & 0x1F_FFFE == 0 && 0 as bv32 & 0x1FFE == 0 && 0 as bv32 & 0xFFF == 0
  {}

  lemma SameJal(rd: Reg, offset: bv32)
    ensures JalWord(rd, offset) == JalWord(rd, 0) <==> offset & 0x1F_FFFE == 0
  {
    hide Field5, Field7, EncodeJ, DecodeOpcode, DecodeRd, DecodeImmJ, FieldJ, PackJ, FitsJ, Field;
    assert Field7(OP_JAL) by { OpcodesFit(); }
    FieldFits(rd);
    ZeroField();
    DecodeEncodeJ(offset, Field(rd), OP_JAL);
    DecodeEncodeJ(0, Field(rd), OP_JAL);
    RepackJ(JalWord(rd, offset));
    RepackJ(JalWord(rd, 0));
  }

  lemma OpcodesFit()
    ensures Field7(OP_JAL) && Field7(OP_BRANCH) && Field7(OP_LUI)
  {}

  lemma SameBranch(cond: Cond, rs1: Reg, rs2: Reg, offset: bv32)
    ensures BranchWord(cond, rs1, rs2, offset) == BranchWord(cond, rs1, rs2, 0) <==> offset & 0x1FFE == 0
  {
    hide Field3, Field5, Field7, EncodeB, DecodeOpcode, DecodeFunct3, DecodeRs1, DecodeRs2, DecodeImmB, FieldB, PackB;
    hide FitsB, Field, CondFunct3;
    assert Field7(OP_BRANCH) by { OpcodesFit(); }
    FieldFits(rs1);
    FieldFits(rs2);
    CondFits(cond);
    ZeroField();
    DecodeEncodeB(offset, Field(rs2), Field(rs1), CondFunct3(cond), OP_BRANCH);
    DecodeEncodeB(0, Field(rs2), Field(rs1), CondFunct3(cond), OP_BRANCH);
    RepackB(BranchWord(cond, rs1, rs2, offset));
    RepackB(BranchWord(cond, rs1, rs2, 0));
  }

  lemma SumOfZeros(hi: bv32, lo: bv32)
    requires hi == 0 && lo == 0
    ensures hi + lo == 0
  {}

  lemma SameHigh(rd: Reg, target: bv32)
    requires LuiWord(rd, SplitHi(target)) == LuiWord(rd, SplitHi(0))
    ensures SplitHi(target) << 12 == 0
  {
    hide Field5, Field7, EncodeU, DecodeOpcode, DecodeRd, DecodeImmU, Field, SplitHi, SplitLo, FitsI;
    OpcodesFit();
    FieldFits(rd);
    ZeroSplits();
    DecodeEncodeU(SplitHi(target) << 12, Field(rd), OP_LUI);
    DecodeEncodeU(SplitHi(0) << 12, Field(rd), OP_LUI);
    SplitSound(target);
  }

  lemma SameLow(rd: Reg, target: bv32)
    requires AddiWord(rd, rd, SplitLo(target)) == AddiWord(rd, rd, SplitLo(0))
    ensures SplitLo(target) == 0
  {
    hide Field5, Field3, Field7, EncodeI, DecodeOpcode, DecodeRd, DecodeRs1, DecodeFunct3, DecodeImmI, FieldI, Field;
    hide SplitHi, SplitLo, FitsI;
    assert Field7(OP_I_ARITH) && Field3(F3_ADD_SUB) by { AddiFits(); }
    FieldFits(rd);
    ZeroSplits();
    DecodeEncodeI(SplitLo(target), Field(rd), F3_ADD_SUB, Field(rd), OP_I_ARITH);
    DecodeEncodeI(SplitLo(0), Field(rd), F3_ADD_SUB, Field(rd), OP_I_ARITH);
    SplitSound(target);
    SplitSound(0);
  }

  lemma AddiFits()
    ensures Field7(OP_I_ARITH) && Field3(F3_ADD_SUB)
  {}

  lemma SameLoad(rd: Reg, target: bv32)
    ensures target == 0 <==> LuiWord(rd, SplitHi(target)) == LuiWord(rd, SplitHi(0)) &&
                             AddiWord(rd, rd, SplitLo(target)) == AddiWord(rd, rd, SplitLo(0))
  {
    hide LuiWord, AddiWord, SplitHi, SplitLo;
    if LuiWord(rd, SplitHi(target)) == LuiWord(rd, SplitHi(0))
       && AddiWord(rd, rd, SplitLo(target)) == AddiWord(rd, rd, SplitLo(0)) {
      SameHigh(rd, target);
      SameLow(rd, target);
      SplitSound(target);
      SumOfZeros(SplitHi(target) << 12, SplitLo(target));
    }
  }

  // ----- statements that need no patching -----

  /**
   * The words of statement `k` are the same with zero for its label: a jump a multiple of 2^19 words away, a branch a
   * multiple of 2^11 words away, or the address 0.
   */
  predicate NeedsNoPatch(stmts: seq<Stmt>, base: bv32, k: nat)
    requires k < |stmts| && Ref(stmts[k]).Some?
  {
    if IsJump(stmts[k]) then Hop(stmts, k) % 0x8_0000 == 0
    else if IsBranch(stmts[k]) then Hop(stmts, k) % 0x800 == 0
    else (Nat(base) + 4 * LabelIndex(stmts, Ref(stmts[k]).value)) % TWO_32 == 0
  }

  lemma AddressZero(base: bv32, k: nat)
    ensures WordAddr(base, k) == 0 <==> (Nat(base) + 4 * k) % TWO_32 == 0
  {
    hide Nat, WordAddr;
    WordAddrValue(base, k);
    ZeroValue();
    if Nat(WordAddr(base, k)) == 0 {
      NatInjective(WordAddr(base, k), 0);
    }
  }

  lemma SamePair<T>(a: T, b: T, c: T, d: T)
    ensures [a, b] == [c, d] <==> a == c && b == d
  {
    if [a, b] == [c, d] {
      assert [a, b][0] == [c, d][0] && [a, b][1] == [c, d][1];
    }
  }

  lemma SameSingle<T>(a: T, c: T)
    ensures [a] == [c] <==> a == c
  {
    if [a] == [c] {
      assert [a][0] == [c][0];
    }
  }

  // The bits of an offset that a jump and a branch encode are all zero.

  predicate NoJumpBits(offset: bv32) { offset & 0x1F_FFFE == 0 }
  predicate NoBranchBits(offset: bv32) { offset & 0x1FFE == 0 }

  lemma NoBitsOfDistance(d: int)
    ensures NoJumpBits(Distance(d)) <==> d % 0x8_0000 == 0
    ensures NoBranchBits(Distance(d)) <==> d % 0x800 == 0
  {
    hide Distance;
    DistanceVanishes(d);
  }

  lemma JumpPatching(s: Stmt, offset: bv32, target: bv32)
    requires IsJump(s)
    ensures WordsFor(s, offset, target) == WordsFor(s, 0, 0) <==> NoJumpBits(offset)
  {
    hide WordsFor, JalWord;
    JumpWord(s, offset, target);
    JumpWord(s, 0, 0);
    SameSingle(JalWord(JumpRd(s), offset), JalWord(JumpRd(s), 0));
    SameJal(JumpRd(s), offset);
  }

  lemma BranchPatching(s: Stmt, offset: bv32, target: bv32)
    requires IsBranch(s)
    ensures WordsFor(s, offset, target) == WordsFor(s, 0, 0) <==> NoBranchBits(offset)
  {
    hide WordsFor, BranchWord, ZeroBranch;
    var (cond, rs1, rs2) := BranchShape(s);
    CompareWord(s, offset, target);
    CompareWord(s, 0, 0);
    SameSingle(BranchWord(cond, rs1, rs2, offset), BranchWord(cond, rs1, rs2, 0));
    SameBranch(cond, rs1, rs2, offset);
  }

  lemma AddressPatching(s: Stmt, offset: bv32, target: bv32)
    requires s.La?
    ensures WordsFor(s, offset, target) == WordsFor(s, 0, 0) <==> target == 0
  {
    hide WordsFor, LuiWord, AddiWord, SplitHi, SplitLo;
    AddressStatement(s, offset, target);
    AddressStatement(s, 0, 0);
    SamePair(LuiWord(s.rd, SplitHi(target)), AddiWord(s.rd, s.rd, SplitLo(target)),
             LuiWord(s.rd, SplitHi(0)), AddiWord(s.rd, s.rd, SplitLo(0)));
    SameLoad(s.rd, target);
  }

  lemma PatchingMeans(stmts: seq<Stmt>, base: bv32, k: nat)
    requires k < |stmts| && Ref(stmts[k]).Some? && Ref(stmts[k]).value in LabelsOf(stmts, base)
    ensures var s, target := stmts[k], LabelsOf(stmts, base)[Ref(stmts[k]).value];
            (WordsFor(s, Minus(target, AddressOf(stmts, base, k)), target) == WordsFor(s, 0, 0)
             <==> NeedsNoPatch(stmts, base, k))
  {
    hide WordsFor, Minus, AddressOf, LabelsOf, Hop, Distance, LabelIndex, Nat, WordAddr, NoJumpBits, NoBranchBits;
    var s, target := stmts[k], LabelsOf(stmts, base)[Ref(stmts[k]).value];
    var offset := Minus(target, AddressOf(stmts, base, k));
    if IsJump(s) || IsBranch(s) {
      OffsetIsHop(stmts, base, k);
      NoBitsOfDistance(Hop(stmts, k));
      if IsJump(s) {
        JumpPatching(s, offset, target);
      } else {
        BranchPatching(s, offset, target);
      }
    } else {
      LabelAddress(stmts, base, Ref(s).value);
      AddressZero(base, LabelIndex(stmts, Ref(s).value));
      AddressPatching(s, offset, target);
    }
  }

  // ----- the equivalence, read off the statements -----

  /** Statement `k` refers to an ordinary label that is nowhere defined. */
  ghost predicate Dangles(stmts: seq<Stmt>, k: nat)
    requires k < |stmts|
  {
    Ref(stmts[k]).Some? && !RefersLow(stmts[k]) && Label(Ref(stmts[k]).value) !in stmts
  }

  /** The label of statement `k` is defined, and its zero placeholder is right as it is. */
  predicate SafelySkipped(stmts: seq<Stmt>, base: bv32, k: nat)
    requires k < |stmts| && Ref(stmts[k]).Some?
  {
    Label(Ref(stmts[k]).value) in stmts && NeedsNoPatch(stmts, base, k)
  }

  lemma KnownMeans(stmts: seq<Stmt>, base: bv32)
    ensures AllKnown(stmts, LabelsOf(stmts, base)) <==> forall k :: 0 <= k < |stmts| ==> !Dangles(stmts, k)
  {
    hide LabelsOf, Skipped, Ref, LowName;
    forall k | 0 <= k < |stmts| ensures Known(stmts[k], LabelsOf(stmts, base)) <==> !Dangles(stmts, k) {
      LeftAloneMeans(stmts[k]);
      if Ref(stmts[k]).Some? {
        DefinedOnly(stmts, base, Ref(stmts[k]).value);
      }
    }
  }

  lemma HarmlessMeans(stmts: seq<Stmt>, base: bv32, k: nat)
    requires k < |stmts|
    ensures Harmless(stmts[k], AddressOf(stmts, base, k), LabelsOf(stmts, base))
       <==> (RefersLow(stmts[k]) ==> SafelySkipped(stmts, base, k))
  {
    hide LabelsOf, Skipped, Ref, LowName, WordsFor, Minus, NeedsNoPatch, AddressOf;
    LeftAloneMeans(stmts[k]);
    if LeftAlone(stmts[k]) {
      DefinedOnly(stmts, base, Ref(stmts[k]).value);
      if Ref(stmts[k]).value in LabelsOf(stmts, base) {
        PatchingMeans(stmts, base, k);
      }
    }
  }

  /**
   * The assembler and two passes agree, in success and in every word, if and only if some statement refers to an
   * ordinary label that is not defined, or every label operand ending in `__lo` is defined and its statement is a jump
   * a multiple of 2^19 words away, a branch a multiple of 2^11 words away, or a LA of address 0.
   */
  lemma AgreementMeans(stmts: seq<Stmt>, base: bv32)
    ensures Agrees(Finalised(stmts, base), TwoPassProgram(stmts, base)) <==>
              || (exists k :: 0 <= k < |stmts| && Dangles(stmts, k))
              || (forall k :: 0 <= k < |stmts| && RefersLow(stmts[k]) ==> SafelySkipped(stmts, base, k))
  {
    hide LabelsOf, AllKnown, Finalised, TwoPassProgram, Agrees, LowName, Ref, Dangles, SafelySkipped, Harmless;
    BackpatchingIsTwoPass(stmts, base);
    KnownMeans(stmts, base);
    forall k | 0 <= k < |stmts|
      ensures Harmless(stmts[k], WordAddr(base, Place(stmts[..k])), LabelsOf(stmts, base))
         <==> (RefersLow(stmts[k]) ==> SafelySkipped(stmts, base, k))
    {
      HarmlessMeans(stmts, base, k);
    }
  }

  /** In an accepted program at the bottom of a slot: a jump to itself, a branch a multiple of 2048 words away, never a LA. */
  lemma SafeInSlot(stmts: seq<Stmt>, i: nat, k: nat)
    requires i < MAX_HARTS && Accepted(stmts) && k < |stmts| && Ref(stmts[k]).Some? && Label(Ref(stmts[k]).value) in stmts
    ensures NeedsNoPatch(stmts, EntryPC(i), k) <==>
              (IsJump(stmts[k]) && Hop(stmts, k) == 0) || (IsBranch(stmts[k]) && Hop(stmts, k) % 0x800 == 0)
  {
    hide Nat, FromNat, LabelIndex, Hop, LabelsOf, Place;
    DefinedOnly(stmts, EntryPC(i), Ref(stmts[k]).value);
    OffsetIsHop(stmts, EntryPC(i), k);
    LabelAddress(stmts, EntryPC(i), Ref(stmts[k]).value);
    NatFromNat(SlotBase(i));
    assert SlotBase(i) <= SlotBase(MAX_HARTS);
  }
}
