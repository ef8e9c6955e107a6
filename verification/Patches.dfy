/** The patch table: what every recorded patch points at, and what patching leaves alone. */
module Patches {
  import opened Words
  import opened Encode
  import opened Isa
  import opened Assembly
  import opened TwoPass

  /** The word and its successor are a LUI and an ADDI of the same register. */
  predicate LoadsAddress(w: bv32, next: bv32) {
    && DecodeOpcode(w) == OP_LUI && DecodeOpcode(next) == OP_I_ARITH && DecodeFunct3(next) == F3_ADD_SUB
    && DecodeRd(next) == DecodeRd(w) && DecodeRs1(next) == DecodeRd(w)
  }

  /** A patch points into the program, and unless skipped at a word the resolver can patch. */
  predicate PatchOk(program: seq<bv32>, p: Patch) {
    p.idx < |program| &&
    (Skipped(p.name) || DecodeOpcode(program[p.idx]) == OP_JAL || DecodeOpcode(program[p.idx]) == OP_BRANCH
     || (p.idx + 1 < |program| && LoadsAddress(program[p.idx], program[p.idx + 1])))
  }

  predicate TableOk(program: seq<bv32>, patches: seq<Patch>) {
    forall k :: 0 <= k < |patches| ==> PatchOk(program, patches[k])
  }

  /** Patches are recorded in the order of the words they point at, never two for one word. */
  predicate Increasing(patches: seq<Patch>) {
    forall j, k :: 0 <= j < k < |patches| ==> patches[j].idx < patches[k].idx
  }

  // ----- the sweep builds a sound table -----

  lemma OkGrows(program: seq<bv32>, words: seq<bv32>, p: Patch)
    requires PatchOk(program, p)
    ensures PatchOk(program + words, p)
  {
    hide LoadsAddress, DecodeOpcode, Skipped;
  }

  lemma AddiFields(rd: Reg, rs1: Reg, imm: bv32)
    ensures var w := AddiWord(rd, rs1, imm);
            && DecodeOpcode(w) == OP_I_ARITH && DecodeFunct3(w) == F3_ADD_SUB
            && DecodeRd(w) == Field(rd) && DecodeRs1(w) == Field(rs1)
  {
    hide Field5, EncodeI, DecodeOpcode, DecodeFunct3, DecodeRd, DecodeRs1, DecodeImmI, FieldI, FitsI, Field;
    assert Field7(OP_I_ARITH) && Field3(F3_ADD_SUB);
    FieldFits(rd);
    FieldFits(rs1);
    DecodeEncodeI(imm, Field(rs1), F3_ADD_SUB, Field(rd), OP_I_ARITH);
  }

  /** The first word a patched statement emits. */
  lemma EmittedPatchable(s: Stmt, pre: seq<bv32>, name: string, instrPC: bv32)
    requires Ref(s).Some?
    ensures |Emitted(s)| == Size(s) > 0
    ensures PatchOk(pre + Emitted(s), Patch(|pre|, name, instrPC))
  {
    hide WordsFor, DecodeOpcode, DecodeRd, DecodeRs1, DecodeFunct3, Skipped;
    SizeOfWords(s, 0, 0);
    if s.La? {
      LuiFields(s.rd, SplitHi(0));
      AddiFields(s.rd, s.rd, SplitLo(0));
      AddressStatement(s, 0, 0);
    } else if IsJump(s) {
      JalFields(JumpRd(s), 0);
      JumpWord(s, 0, 0);
    } else {
      var (cond, rs1, rs2) := BranchShape(s);
      BranchFields(cond, rs1, rs2, 0);
      CompareWord(s, 0, 0);
    }
  }

  lemma StatementTable(s: Stmt, pre: seq<bv32>, base: bv32)
    ensures TableOk(pre + Emitted(s), PatchesOf(s, |pre|, base))
    ensures forall k :: 0 <= k < |PatchesOf(s, |pre|, base)| ==> PatchesOf(s, |pre|, base)[k].idx == |pre| + k
    ensures |PatchesOf(s, |pre|, base)| <= |Emitted(s)|
  {
    hide Emitted, Skipped, WordAddr, Ref, LoadsAddress, DecodeOpcode;
    match Ref(s) {
      case None =>
      case Some(dest) =>
        EmittedPatchable(s, pre, dest, WordAddr(base, |pre|));
        LowHalfSkipped(dest);
    }
  }

  /** The patch-table invariant of the sweep. */
  lemma {:induction false} SweepTable(base: bv32, stmts: seq<Stmt>)
    ensures var a := AsmAll(base, stmts);
            TableOk(a.program, a.patches) && Increasing(a.patches) && a.base == base
  {
    hide Emitted, PatchesOf, PatchOk, WordAddr;
    if stmts != [] {
      var a, s := AsmAll(base, stmts[..|stmts| - 1]), stmts[|stmts| - 1];
      SweepTable(base, stmts[..|stmts| - 1]);
      if !s.Label? {
        StatementTable(s, a.program, base);
        JoinTables(a.program, Emitted(s), a.patches, PatchesOf(s, |a.program|, base));
      }
    }
  }

  lemma JoinTables(program: seq<bv32>, words: seq<bv32>, ps: seq<Patch>, qs: seq<Patch>)
    requires TableOk(program, ps) && Increasing(ps) && TableOk(program + words, qs)
    requires forall k :: 0 <= k < |qs| ==> qs[k].idx == |program| + k
    ensures TableOk(program + words, ps + qs) && Increasing(ps + qs)
  {
    hide LoadsAddress, DecodeOpcode, Skipped;
    forall k | 0 <= k < |ps| ensures PatchOk(program + words, ps[k]) {
      OkGrows(program, words, ps[k]);
    }
  }

  // ----- resolving keeps it -----

  /** What patching must not change in a word: the opcode, and the registers and funct3 of its format. */
  predicate SameFields(was: bv32, now: bv32) {
    var op := DecodeOpcode(was);
    && DecodeOpcode(now) == op
    && (op == OP_JAL || op == OP_LUI || op == OP_I_ARITH ==> DecodeRd(now) == DecodeRd(was))
    && (op == OP_BRANCH || op == OP_I_ARITH ==> DecodeRs1(now) == DecodeRs1(was) && DecodeFunct3(now) == DecodeFunct3(was))
    && (op == OP_BRANCH ==> DecodeRs2(now) == DecodeRs2(was))
  }

  lemma DecodedFieldsFit(w: bv32)
    ensures Field5(DecodeRd(w)) && Field5(DecodeRs1(w)) && Field5(DecodeRs2(w)) && Field3(DecodeFunct3(w))
  {}

  lemma JalKeepsFields(was: bv32, offset: bv32)
    requires DecodeOpcode(was) == OP_JAL
    ensures SameFields(was, EncodeJ(offset, DecodeRd(was), OP_JAL))
  {
    hide Field5, Field3, EncodeJ, DecodeOpcode, DecodeRd, DecodeRs1, DecodeRs2, DecodeFunct3, DecodeImmJ, FieldJ, FitsJ;
    assert Field7(OP_JAL);
    DecodedFieldsFit(was);
    DecodeEncodeJ(offset, DecodeRd(was), OP_JAL);
  }

  lemma BranchKeepsFields(was: bv32, offset: bv32)
    requires DecodeOpcode(was) == OP_BRANCH
    ensures SameFields(was, EncodeB(offset, DecodeRs2(was), DecodeRs1(was), DecodeFunct3(was), OP_BRANCH))
  {
    hide Field5, Field3, EncodeB, DecodeOpcode, DecodeRd, DecodeRs1, DecodeRs2, DecodeFunct3, DecodeImmB, FieldB, FitsB;
    assert Field7(OP_BRANCH);
    DecodedFieldsFit(was);
    DecodeEncodeB(offset, DecodeRs2(was), DecodeRs1(was), DecodeFunct3(was), OP_BRANCH);
  }

  lemma LoadKeepsFields(was: bv32, next: bv32, hi: bv32, lo: bv32)
    requires LoadsAddress(was, next)
    ensures SameFields(was, EncodeU(hi, DecodeRd(was), OP_LUI))
    ensures SameFields(next, EncodeI(lo, DecodeRd(was), F3_ADD_SUB, DecodeRd(was), OP_I_ARITH))
  {
    hide Field5, EncodeU, EncodeI, DecodeOpcode, DecodeRd, DecodeRs1, DecodeRs2, DecodeFunct3, DecodeImmU, DecodeImmI;
    hide FieldI, FitsI;
    assert Field7(OP_LUI) && Field7(OP_I_ARITH) && Field3(F3_ADD_SUB);
    DecodedFieldsFit(was);
    DecodeEncodeU(hi, DecodeRd(was), OP_LUI);
    DecodeEncodeI(lo, DecodeRd(was), F3_ADD_SUB, DecodeRd(was), OP_I_ARITH);
  }

  predicate AllSameFields(was: seq<bv32>, now: seq<bv32>) {
    |was| == |now| && forall k :: 0 <= k < |was| ==> SameFields(was[k], now[k])
  }

  lemma OneChanged(program: seq<bv32>, idx: nat, w: bv32)
    requires idx < |program| && SameFields(program[idx], w)
    ensures AllSameFields(program, program[idx := w])
  {
    hide DecodeOpcode, DecodeRd, DecodeRs1, DecodeRs2, DecodeFunct3;
  }

  lemma TwoChanged(program: seq<bv32>, idx: nat, w: bv32, next: bv32)
    requires idx + 1 < |program| && SameFields(program[idx], w) && SameFields(program[idx + 1], next)
    ensures AllSameFields(program, program[idx := w][idx + 1 := next])
  {
    hide DecodeOpcode, DecodeRd, DecodeRs1, DecodeRs2, DecodeFunct3;
  }

  /** Patching a word of a sound table never takes the internal-error branch, and changes immediates only. */
  lemma PatchedFields(program: seq<bv32>, idx: nat, instrPC: bv32, target: bv32)
    requires PatchOk(program, Patch(idx, "", instrPC))
    ensures AllSameFields(program, Patched(program, idx, instrPC, target).program)
    ensures Patched(program, idx, instrPC, target).ok
  {
    hide DecodeOpcode, DecodeRd, DecodeRs1, DecodeRs2, DecodeFunct3, EncodeJ, EncodeB, EncodeU, EncodeI, Minus;
    hide SplitHi, SplitLo, AllSameFields, SameFields;
    var was, offset := program[idx], Minus(target, instrPC);
    if DecodeOpcode(was) == OP_JAL {
      JalKeepsFields(was, offset);
      OneChanged(program, idx, EncodeJ(offset, DecodeRd(was), OP_JAL));
    } else if DecodeOpcode(was) == OP_BRANCH {
      BranchKeepsFields(was, offset);
      OneChanged(program, idx, EncodeB(offset, DecodeRs2(was), DecodeRs1(was), DecodeFunct3(was), OP_BRANCH));
    } else {
      var hi, rd := SplitHi(target) << 12, DecodeRd(was);
      LoadKeepsFields(was, program[idx + 1], hi, SplitLo(target));
      TwoChanged(program, idx, EncodeU(hi, rd, OP_LUI), EncodeI(SplitLo(target), rd, F3_ADD_SUB, rd, OP_I_ARITH));
    }
  }

  /** One patch of a sound table changes immediates only, and fails only for an undefined label. */
  lemma OneKeepsFields(r: Resolution, p: Patch, labels: map<string, bv32>)
    requires PatchOk(r.program, p)
    ensures AllSameFields(r.program, ResolveOne(r, p, labels).program)
    ensures ResolveOne(r, p, labels).ok <==> r.ok && (Skipped(p.name) || p.name in labels)
  {
    hide Patched, LoadsAddress, DecodeOpcode, AllSameFields, Skipped;
    SameFieldsReflexive(r.program);
    if !Skipped(p.name) && p.name in labels {
      NotSkippedOk(r.program, p);
      PatchedFields(r.program, p.idx, p.instrPC, labels[p.name]);
    }
  }

  lemma NotSkippedOk(program: seq<bv32>, p: Patch)
    requires PatchOk(program, p) && !Skipped(p.name)
    ensures PatchOk(program, Patch(p.idx, "", p.instrPC))
  {
    hide LoadsAddress, DecodeOpcode;
  }

  lemma OkKept(was: seq<bv32>, now: seq<bv32>, p: Patch)
    requires PatchOk(was, p) && AllSameFields(was, now)
    ensures PatchOk(now, p)
  {
    hide DecodeOpcode, DecodeRd, DecodeRs1, DecodeRs2, DecodeFunct3, Skipped;
    assert SameFields(was[p.idx], now[p.idx]);
    if p.idx + 1 < |was| {
      assert SameFields(was[p.idx + 1], now[p.idx + 1]);
    }
  }

  lemma SameFieldsTransitive(a: seq<bv32>, b: seq<bv32>, c: seq<bv32>)
    requires AllSameFields(a, b) && AllSameFields(b, c)
    ensures AllSameFields(a, c)
  {
    hide DecodeOpcode, DecodeRd, DecodeRs1, DecodeRs2, DecodeFunct3;
    forall k | 0 <= k < |a| ensures SameFields(a[k], c[k]) {
      assert SameFields(a[k], b[k]) && SameFields(b[k], c[k]);
    }
  }

  lemma SameFieldsReflexive(a: seq<bv32>)
    ensures AllSameFields(a, a)
  {
    hide DecodeOpcode, DecodeRd, DecodeRs1, DecodeRs2, DecodeFunct3;
  }

  /** Resolving a sound table changes immediates only, keeps the table sound, and fails only for an undefined label. */
  lemma {:induction false} ResolvingKeepsFields(program: seq<bv32>, patches: seq<Patch>, labels: map<string, bv32>)
    requires TableOk(program, patches)
    ensures AllSameFields(program, ResolveAll(program, patches, labels).program)
    ensures ResolveAll(program, patches, labels).ok
       <==> forall k :: 0 <= k < |patches| ==> Skipped(patches[k].name) || patches[k].name in labels
  {
    hide PatchOk, AllSameFields, ResolveOne, Skipped;
    if patches == [] {
      SameFieldsReflexive(program);
    } else {
      var init, p := patches[..|patches| - 1], patches[|patches| - 1];
      var r := ResolveAll(program, init, labels);
      assert forall k :: 0 <= k < |init| ==> init[k] == patches[k];
      ResolvingKeepsFields(program, init, labels);
      OkKept(program, r.program, p);
      OneKeepsFields(r, p, labels);
      SameFieldsTransitive(program, r.program, ResolveOne(r, p, labels).program);
    }
  }

  /** For any statements: opcodes, registers and funct3 fields of the assembled program are those the sweep emitted. */
  lemma FieldsSurvive(stmts: seq<Stmt>, base: bv32)
    ensures AllSameFields(AsmAll(base, stmts).program, Finalised(stmts, base).program)
  {
    hide AllSameFields, TableOk, AsmAll, ResolveAll;
    SweepTable(base, stmts);
    var a := AsmAll(base, stmts);
    ResolvingKeepsFields(a.program, a.patches, a.labelDefs);
  }
}
