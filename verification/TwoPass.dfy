/** Backpatching refines two-pass assembly. */
module TwoPass {
  import opened Options
  import opened Words
  import opened Encode
  import opened Isa
  import opened Assembly

  // ----- the reference: two passes -----

  /** How many words a statement takes; labels have no part in it. */
  function Size(s: Stmt): nat {
    match s
    case Label(_) => 0
    case Li(_, v) => if FitsI(v) then 1 else 2
    case La(_, _) => 2
    case _ => 1
  }

  /** The index of the first word after the statements. */
  function Place(stmts: seq<Stmt>): nat {
    if stmts == [] then 0 else Place(stmts[..|stmts| - 1]) + Size(stmts[|stmts| - 1])
  }

  /** The first pass: every label's address. A later definition replaces an earlier one. */
  function LabelsOf(stmts: seq<Stmt>, base: bv32): map<string, bv32> {
    if stmts == [] then map[]
    else
      var init := stmts[..|stmts| - 1];
      match stmts[|stmts| - 1]
      case Label(name) => LabelsOf(init, base)[name := WordAddr(base, Place(init))]
      case _ => LabelsOf(init, base)
  }

  /** The finished words of a statement at `pc`, if its label is defined. */
  function Translate(s: Stmt, pc: bv32, labels: map<string, bv32>): Option<seq<bv32>> {
    match Ref(s)
    case None => Some(WordsFor(s, 0, 0))
    case Some(dest) => if dest in labels then Some(WordsFor(s, Minus(labels[dest], pc), labels[dest])) else None
  }

  /** The second pass. */
  function TranslateAll(stmts: seq<Stmt>, base: bv32, labels: map<string, bv32>): Option<seq<bv32>> {
    if stmts == [] then Some([])
    else
      var init, s := stmts[..|stmts| - 1], stmts[|stmts| - 1];
      match (TranslateAll(init, base, labels), Translate(s, WordAddr(base, Place(init)), labels))
      case (Some(words), Some(last)) => Some(words + last)
      case _ => None
  }

  function TwoPassProgram(stmts: seq<Stmt>, base: bv32): Option<seq<bv32>> {
    TranslateAll(stmts, base, LabelsOf(stmts, base))
  }

  // ----- what the one sweep leaves behind -----

  /** Whether resolving rewrites the statement's words. */
  predicate Resolves(s: Stmt, labels: map<string, bv32>) {
    Ref(s).Some? && !Skipped(Ref(s).value) && Ref(s).value in labels
  }

  /** The words of a statement after resolving: finished, or still with zero for the label. */
  function Left(s: Stmt, pc: bv32, labels: map<string, bv32>): seq<bv32> {
    if Resolves(s, labels) then WordsFor(s, Minus(labels[Ref(s).value], pc), labels[Ref(s).value]) else WordsFor(s, 0, 0)
  }

  /** Words before (`resolved` false) or after resolving. */
  function Wording(s: Stmt, pc: bv32, labels: map<string, bv32>, resolved: bool): seq<bv32> {
    if resolved then Left(s, pc, labels) else Emitted(s)
  }

  function WordingAll(stmts: seq<Stmt>, base: bv32, labels: map<string, bv32>, resolved: bool): seq<bv32> {
    if stmts == [] then []
    else
      var init := stmts[..|stmts| - 1];
      WordingAll(init, base, labels, resolved) + Wording(stmts[|stmts| - 1], WordAddr(base, Place(init)), labels, resolved)
  }

  function PatchesAll(stmts: seq<Stmt>, base: bv32): seq<Patch> {
    if stmts == [] then []
    else
      var init := stmts[..|stmts| - 1];
      PatchesAll(init, base) + PatchesOf(stmts[|stmts| - 1], Place(init), base)
  }

  /** Every label the resolver looks up is defined. */
  predicate Known(s: Stmt, labels: map<string, bv32>) {
    Ref(s).Some? && !Skipped(Ref(s).value) ==> Ref(s).value in labels
  }

  predicate AllKnown(stmts: seq<Stmt>, labels: map<string, bv32>) {
    forall k :: 0 <= k < |stmts| ==> Known(stmts[k], labels)
  }

  lemma SizeOfWords(s: Stmt, offset: bv32, target: bv32)
    ensures |WordsFor(s, offset, target)| == Size(s)
  {
    hide EncodeR, EncodeI, EncodeS, EncodeB, EncodeU, EncodeJ, SplitHi, SplitLo, FitsI;
  }

  // The words of the statements with a label.

  lemma JumpWord(s: Stmt, offset: bv32, target: bv32)
    requires IsJump(s)
    ensures WordsFor(s, offset, target) == [JalWord(JumpRd(s), offset)] && Size(s) == 1
  {
    hide JalWord;
  }

  lemma CompareWord(s: Stmt, offset: bv32, target: bv32)
    requires IsBranch(s)
    ensures var (cond, rs1, rs2) := BranchShape(s);
            WordsFor(s, offset, target) == [BranchWord(cond, rs1, rs2, offset)] && Size(s) == 1
  {
    hide BranchWord, ZeroBranch;
  }

  lemma AddressStatement(s: Stmt, offset: bv32, target: bv32)
    requires s.La?
    ensures WordsFor(s, offset, target) == [LuiWord(s.rd, SplitHi(target)), AddiWord(s.rd, s.rd, SplitLo(target))]
  {
    hide LuiWord, AddiWord, SplitHi, SplitLo;
  }

  lemma {:induction false} WordingSize(stmts: seq<Stmt>, base: bv32, labels: map<string, bv32>, resolved: bool)
    ensures |WordingAll(stmts, base, labels, resolved)| == Place(stmts)
  {
    hide WordsFor, Size;
    if stmts != [] {
      var init, s := stmts[..|stmts| - 1], stmts[|stmts| - 1];
      WordingSize(init, base, labels, resolved);
      SizeOfWords(s, 0, 0);
      if Resolves(s, labels) {
        SizeOfWords(s, Minus(labels[Ref(s).value], WordAddr(base, Place(init))), labels[Ref(s).value]);
      }
    }
  }

  /** The state of the assembler after a sweep, in terms of the statements. */
  lemma {:induction false} Sweep(stmts: seq<Stmt>, base: bv32, labels: map<string, bv32>)
    ensures AsmAll(base, stmts)
         == Asm(base, WordingAll(stmts, base, labels, false), LabelsOf(stmts, base), PatchesAll(stmts, base))
  {
    hide WordsFor, Ref, Left;
    if stmts != [] {
      var init, s := stmts[..|stmts| - 1], stmts[|stmts| - 1];
      Sweep(init, base, labels);
      WordingSize(init, base, labels, false);
      if s.Label? {
        LabelHasNothing(s, Place(init), base);
      }
    }
  }

  lemma LabelHasNothing(s: Stmt, idx: nat, base: bv32)
    requires s.Label?
    ensures Emitted(s) == [] && PatchesOf(s, idx, base) == [] && Ref(s) == None
  {}

  // ----- patching one word -----

  lemma FieldFits(r: Reg)
    ensures Field5(Field(r))
  {}

  /** A patched word gives back the opcode and the registers it was built with, whatever its immediate. */
  lemma JalFields(rd: Reg, offset: bv32)
    ensures DecodeOpcode(JalWord(rd, offset)) == OP_JAL && DecodeRd(JalWord(rd, offset)) == Field(rd)
  {
    hide Field5, EncodeJ, DecodeOpcode, DecodeRd, DecodeImmJ, FieldJ, FitsJ, Field;
    assert Field7(OP_JAL);
    FieldFits(rd);
    DecodeEncodeJ(offset, Field(rd), OP_JAL);
  }

  lemma CondFits(cond: Cond)
    ensures Field3(CondFunct3(cond))
  {}

  lemma BranchFields(cond: Cond, rs1: Reg, rs2: Reg, offset: bv32)
    ensures var w := BranchWord(cond, rs1, rs2, offset);
            && DecodeOpcode(w) == OP_BRANCH && DecodeFunct3(w) == CondFunct3(cond)
            && DecodeRs1(w) == Field(rs1) && DecodeRs2(w) == Field(rs2)
  {
    hide Field3, Field5, EncodeB, DecodeOpcode, DecodeFunct3, DecodeRs1, DecodeRs2, DecodeImmB, FieldB, FitsB, Field;
    hide CondFunct3;
    assert Field7(OP_BRANCH);
    FieldFits(rs1);
    FieldFits(rs2);
    CondFits(cond);
    DecodeEncodeB(offset, Field(rs2), Field(rs1), CondFunct3(cond), OP_BRANCH);
  }

  lemma LuiFields(rd: Reg, hi: bv32)
    ensures DecodeOpcode(LuiWord(rd, hi)) == OP_LUI && DecodeRd(LuiWord(rd, hi)) == Field(rd)
  {
    hide Field5, EncodeU, DecodeOpcode, DecodeRd, DecodeImmU, Field;
    assert Field7(OP_LUI);
    FieldFits(rd);
    DecodeEncodeU(hi << 12, Field(rd), OP_LUI);
  }

  lemma JalPatched(pre: seq<bv32>, rd: Reg, was: bv32, tail: seq<bv32>, pc: bv32, target: bv32)
    ensures Patched(pre + [JalWord(rd, was)] + tail, |pre|, pc, target)
         == Resolution(pre + [JalWord(rd, Minus(target, pc))] + tail, true)
  {
    hide DecodeOpcode, DecodeRd, EncodeJ, EncodeB, EncodeU, EncodeI, Field, Minus;
    JalFields(rd, was);
    var now := JalWord(rd, Minus(target, pc));
    assert (pre + [JalWord(rd, was)] + tail)[|pre| := now] == pre + [now] + tail;
  }

  lemma BranchPatched(pre: seq<bv32>, cond: Cond, rs1: Reg, rs2: Reg, was: bv32, tail: seq<bv32>, pc: bv32,
        target: bv32)
    ensures Patched(pre + [BranchWord(cond, rs1, rs2, was)] + tail, |pre|, pc, target)
         == Resolution(pre + [BranchWord(cond, rs1, rs2, Minus(target, pc))] + tail, true)
  {
    hide DecodeOpcode, DecodeRd, DecodeRs1, DecodeRs2, DecodeFunct3, EncodeJ, EncodeB, EncodeU, EncodeI, Field;
    hide CondFunct3, Minus;
    BranchFields(cond, rs1, rs2, was);
    var now := BranchWord(cond, rs1, rs2, Minus(target, pc));
    assert (pre + [BranchWord(cond, rs1, rs2, was)] + tail)[|pre| := now] == pre + [now] + tail;
  }

  lemma LaPatched(pre: seq<bv32>, rd: Reg, was: bv32, tail: seq<bv32>, pc: bv32, target: bv32)
    ensures var words, now := [LuiWord(rd, SplitHi(was)), AddiWord(rd, rd, SplitLo(was))],
                              [LuiWord(rd, SplitHi(target)), AddiWord(rd, rd, SplitLo(target))];
            Patched(pre + words + tail, |pre|, pc, target) == Resolution(pre + now + tail, true)
  {
    hide DecodeOpcode, DecodeRd, EncodeJ, EncodeB, EncodeU, EncodeI, Field, Minus, SplitHi, SplitLo;
    LuiFields(rd, SplitHi(was));
    var words := [LuiWord(rd, SplitHi(was)), AddiWord(rd, rd, SplitLo(was))];
    var hi, lo := LuiWord(rd, SplitHi(target)), AddiWord(rd, rd, SplitLo(target));
    assert (pre + words + tail)[|pre| := hi][|pre| + 1 := lo] == pre + [hi, lo] + tail;
  }

  /** Patching a statement's words gives its finished words, from whatever label value they were made with. */
  lemma StatementPatched(pre: seq<bv32>, s: Stmt, offset: bv32, was: bv32, tail: seq<bv32>, pc: bv32, target: bv32)
    requires Ref(s).Some?
    ensures |WordsFor(s, offset, was)| > 0
    ensures Patched(pre + WordsFor(s, offset, was) + tail, |pre|, pc, target)
         == Resolution(pre + WordsFor(s, Minus(target, pc), target) + tail, true)
  {
    hide WordsFor, Patched, Minus;
    SizeOfWords(s, offset, was);
    if IsJump(s) {
      JumpPatched(pre, s, offset, was, tail, pc, target);
    } else if s.La? {
      AddressPatched(pre, s, offset, was, tail, pc, target);
    } else {
      CompareAndBranchPatched(pre, s, offset, was, tail, pc, target);
    }
  }

  lemma JumpPatched(pre: seq<bv32>, s: Stmt, offset: bv32, was: bv32, tail: seq<bv32>, pc: bv32, target: bv32)
    requires IsJump(s)
    ensures |WordsFor(s, offset, was)| > 0
    ensures Patched(pre + WordsFor(s, offset, was) + tail, |pre|, pc, target)
         == Resolution(pre + WordsFor(s, Minus(target, pc), target) + tail, true)
  {
    hide WordsFor, JalWord, Patched, Minus;
    JumpWord(s, offset, was);
    JumpWord(s, Minus(target, pc), target);
    JalPatched(pre, JumpRd(s), offset, tail, pc, target);
  }

  lemma AddressPatched(pre: seq<bv32>, s: Stmt, offset: bv32, was: bv32, tail: seq<bv32>, pc: bv32, target: bv32)
    requires s.La?
    ensures |WordsFor(s, offset, was)| > 0
    ensures Patched(pre + WordsFor(s, offset, was) + tail, |pre|, pc, target)
         == Resolution(pre + WordsFor(s, Minus(target, pc), target) + tail, true)
  {
    hide WordsFor, LuiWord, AddiWord, Patched, Minus, SplitHi, SplitLo;
    AddressStatement(s, offset, was);
    AddressStatement(s, Minus(target, pc), target);
    LaPatched(pre, s.rd, was, tail, pc, target);
  }

  lemma CompareAndBranchPatched(pre: seq<bv32>, s: Stmt, offset: bv32, was: bv32, tail: seq<bv32>, pc: bv32,
        target: bv32)
    requires IsBranch(s)
    ensures |WordsFor(s, offset, was)| > 0
    ensures Patched(pre + WordsFor(s, offset, was) + tail, |pre|, pc, target)
         == Resolution(pre + WordsFor(s, Minus(target, pc), target) + tail, true)
  {
    hide WordsFor, BranchWord, Patched, Minus, ZeroBranch;
    var (cond, rs1, rs2) := BranchShape(s);
    CompareWord(s, offset, was);
    CompareWord(s, Minus(target, pc), target);
    BranchPatched(pre, cond, rs1, rs2, offset, tail, pc, target);
  }

  // ----- resolving one statement -----

  /** The second patch of a LA is always skipped. */
  lemma LowHalfSkipped(name: Name)
    ensures Skipped(name + "__lo")
  {
    assert (name + "__lo")[|name|..] == "__lo";
  }

  /** The patches of one statement, in the middle of a program. */
  lemma StatementResolved(pre: seq<bv32>, s: Stmt, tail: seq<bv32>, base: bv32, labels: map<string, bv32>,
        resolved: bool)
    ensures ResolveAll(pre + Wording(s, WordAddr(base, |pre|), labels, resolved) + tail,
                       PatchesOf(s, |pre|, base), labels)
         == Resolution(pre + Left(s, WordAddr(base, |pre|), labels) + tail, Known(s, labels))
  {
    hide Wording, Left, Known, WordAddr, Skipped, Ref, PatchesOf, ResolveAll, ResolveOne;
    var program := pre + Wording(s, WordAddr(base, |pre|), labels, resolved) + tail;
    match Ref(s) {
      case None =>
        NothingToResolve(program, s, |pre|, base, labels);
        NotRewritten(s, WordAddr(base, |pre|), labels, resolved);
      case Some(dest) =>
        LowHalfSkipped(dest);
        ResolveFirst(program, s, |pre|, base, dest, labels);
        if Resolves(s, labels) {
          Rewritten(pre, s, tail, WordAddr(base, |pre|), dest, labels, resolved);
        } else {
          NotRewritten(s, WordAddr(base, |pre|), labels, resolved);
          FirstFails(program, s, |pre|, WordAddr(base, |pre|), dest, labels);
        }
    }
  }

  lemma NotRewritten(s: Stmt, pc: bv32, labels: map<string, bv32>, resolved: bool)
    requires !Resolves(s, labels)
    ensures Wording(s, pc, labels, resolved) == Left(s, pc, labels)
    ensures Ref(s) == None ==> Known(s, labels)
  {
    hide WordsFor, Skipped, Ref;
  }

  lemma FirstFails(program: seq<bv32>, s: Stmt, idx: nat, pc: bv32, dest: Name, labels: map<string, bv32>)
    requires Ref(s) == Some(dest) && !Resolves(s, labels)
    ensures ResolveOne(Resolution(program, true), Patch(idx, dest, pc), labels) == Resolution(program, Known(s, labels))
  {
    hide Patched, Skipped, Ref;
  }

  lemma Rewritten(pre: seq<bv32>, s: Stmt, tail: seq<bv32>, pc: bv32, dest: Name, labels: map<string, bv32>,
        resolved: bool)
    requires Ref(s) == Some(dest) && Resolves(s, labels)
    ensures ResolveOne(Resolution(pre + Wording(s, pc, labels, resolved) + tail, true), Patch(|pre|, dest, pc), labels)
         == Resolution(pre + Left(s, pc, labels) + tail, Known(s, labels))
  {
    hide WordsFor, Patched, Minus, Skipped, Ref;
    var target := labels[dest];
    StatementPatched(pre, s, if resolved then Minus(target, pc) else 0, if resolved then target else 0, tail, pc, target);
  }

  lemma NothingToResolve(program: seq<bv32>, s: Stmt, idx: nat, base: bv32, labels: map<string, bv32>)
    requires Ref(s) == None
    ensures ResolveAll(program, PatchesOf(s, idx, base), labels) == Resolution(program, true)
  {}

  lemma ResolveFirst(program: seq<bv32>, s: Stmt, idx: nat, base: bv32, dest: Name, labels: map<string, bv32>)
    requires Ref(s) == Some(dest) && Skipped(dest + "__lo")
    ensures ResolveAll(program, PatchesOf(s, idx, base), labels)
         == ResolveOne(Resolution(program, true), Patch(idx, dest, WordAddr(base, idx)), labels)
  {
    hide ResolveOne, Patched, WordAddr, Skipped;
    var first, second := Patch(idx, dest, WordAddr(base, idx)), Patch(idx + 1, dest + "__lo", WordAddr(base, idx + 1));
    var r := ResolveOne(Resolution(program, true), first, labels);
    assert ResolveAll(program, [first], labels) == r by { assert [first][..0] == []; }
    if s.La? {
      assert [first, second][..1] == [first];
      assert ResolveOne(r, second, labels) == r by { SkippedUntouched(r, second, labels); }
    }
  }

  lemma SkippedUntouched(r: Resolution, p: Patch, labels: map<string, bv32>)
    requires Skipped(p.name)
    ensures ResolveOne(r, p, labels) == r
  {}

  // ----- resolving a program -----

  /** Resolving in two goes. */
  lemma {:induction false} ResolveJoin(program: seq<bv32>, ps: seq<Patch>, qs: seq<Patch>, labels: map<string, bv32>)
    ensures var r := ResolveAll(program, ps, labels);
            var r' := ResolveAll(r.program, qs, labels);
            ResolveAll(program, ps + qs, labels) == Resolution(r'.program, r.ok && r'.ok)
  {
    hide ResolveOne;
    var r := ResolveAll(program, ps, labels);
    if qs == [] {
      assert ps + qs == ps;
    } else {
      var n := |qs| - 1;
      ResolveJoin(program, ps, qs[..n], labels);
      assert (ps + qs)[..|ps| + n] == ps + qs[..n];
      ResolveOneOk(ResolveAll(r.program, qs[..n], labels), r.ok, qs[n], labels);
    }
  }

  /** Failure is remembered and has no other effect. */
  lemma ResolveOneOk(r: Resolution, ok: bool, p: Patch, labels: map<string, bv32>)
    ensures var r' := ResolveOne(r, p, labels);
            ResolveOne(r.(ok := ok && r.ok), p, labels) == Resolution(r'.program, ok && r'.ok)
  {
    hide Patched, Skipped;
  }

  /**
   * Resolving all patches turns every statement's words into what is left of it, wherever the words come from: the
   * placeholders of the sweep, or an earlier resolving. It succeeds if and only if every label looked up is defined.
   */
  lemma {:induction false} Resolved(stmts: seq<Stmt>, base: bv32, labels: map<string, bv32>, resolved: bool,
        tail: seq<bv32>)
    ensures ResolveAll(WordingAll(stmts, base, labels, resolved) + tail, PatchesAll(stmts, base), labels)
         == Resolution(WordingAll(stmts, base, labels, true) + tail, AllKnown(stmts, labels))
  {
    hide ResolveOne, PatchesOf, Wording, Known, WordAddr;
    if stmts == [] {
      assert ResolveAll([] + tail, [], labels) == Resolution([] + tail, true);
    } else {
      var init, s := stmts[..|stmts| - 1], stmts[|stmts| - 1];
      var words := Wording(s, WordAddr(base, Place(init)), labels, resolved);
      var before, after := WordingAll(init, base, labels, resolved), WordingAll(init, base, labels, true);
      WordingSize(init, base, labels, true);
      assert before + words + tail == before + (words + tail);
      assert after + words + tail == after + (words + tail);
      Resolved(init, base, labels, resolved, words + tail);
      StatementResolved(after, s, tail, base, labels, resolved);
      WordingLeft(s, WordAddr(base, Place(init)), labels);
      ResolveJoin(before + words + tail, PatchesAll(init, base), PatchesOf(s, Place(init), base), labels);
      AllKnownSnoc(init, s, labels);
      assert stmts == init + [s];
    }
  }

  lemma WordingLeft(s: Stmt, pc: bv32, labels: map<string, bv32>)
    ensures Left(s, pc, labels) == Wording(s, pc, labels, true)
  {}

  lemma AllKnownSnoc(init: seq<Stmt>, s: Stmt, labels: map<string, bv32>)
    ensures AllKnown(init + [s], labels) <==> AllKnown(init, labels) && Known(s, labels)
  {
    hide Known;
    var stmts := init + [s];
    assert forall k :: 0 <= k < |init| ==> stmts[k] == init[k];
    assert stmts[|init|] == s;
  }

  /** What the assembler makes of a statement list: the sweep, then resolving with the labels it found. */
  function Finalised(stmts: seq<Stmt>, base: bv32): Resolution {
    var a := AsmAll(base, stmts);
    ResolveAll(a.program, a.patches, a.labelDefs)
  }

  lemma FinalisedProgram(stmts: seq<Stmt>, base: bv32)
    ensures var labels := LabelsOf(stmts, base);
            Finalised(stmts, base) == Resolution(WordingAll(stmts, base, labels, true), AllKnown(stmts, labels))
  {
    hide WordingAll, PatchesAll, ResolveAll, LabelsOf, AllKnown;
    var labels := LabelsOf(stmts, base);
    Sweep(stmts, base, labels);
    Resolved(stmts, base, labels, false, []);
    assert WordingAll(stmts, base, labels, false) + [] == WordingAll(stmts, base, labels, false);
    assert WordingAll(stmts, base, labels, true) + [] == WordingAll(stmts, base, labels, true);
  }

  /** Resolving a second time changes nothing. */
  lemma ResolvingIsIdempotent(stmts: seq<Stmt>, base: bv32)
    ensures var a := AsmAll(base, stmts);
            ResolveAll(Finalised(stmts, base).program, a.patches, a.labelDefs) == Finalised(stmts, base)
  {
    hide WordingAll, PatchesAll, ResolveAll, LabelsOf, AllKnown;
    var labels := LabelsOf(stmts, base);
    FinalisedProgram(stmts, base);
    Sweep(stmts, base, labels);
    Resolved(stmts, base, labels, true, []);
    assert WordingAll(stmts, base, labels, true) + [] == WordingAll(stmts, base, labels, true);
  }

  // ----- when the sweep is two passes -----

  /** The sweep and the two passes agree: both succeed with the same words, or both fail. */
  predicate Agrees(r: Resolution, program: Option<seq<bv32>>) {
    program == if r.ok then Some(r.program) else None
  }

  /** The resolver takes the statement's label for the second patch of a LA and leaves the statement alone. */
  predicate LeftAlone(s: Stmt) {
    Ref(s).Some? && Skipped(Ref(s).value)
  }

  /** Leaving the statement alone does no harm: its label is defined, and its words are those with zero for the label. */
  predicate Harmless(s: Stmt, pc: bv32, labels: map<string, bv32>) {
    LeftAlone(s) ==>
      var dest := Ref(s).value;
      dest in labels && WordsFor(s, Minus(labels[dest], pc), labels[dest]) == WordsFor(s, 0, 0)
  }

  predicate AllHarmless(stmts: seq<Stmt>, base: bv32, labels: map<string, bv32>) {
    forall k :: 0 <= k < |stmts| ==> Harmless(stmts[k], WordAddr(base, Place(stmts[..k])), labels)
  }

  /** Every label referred to is defined. */
  predicate AllDefined(stmts: seq<Stmt>, labels: map<string, bv32>) {
    forall k :: 0 <= k < |stmts| ==> Ref(stmts[k]).Some? ==> Ref(stmts[k]).value in labels
  }

  lemma AllHarmlessSnoc(init: seq<Stmt>, s: Stmt, base: bv32, labels: map<string, bv32>)
    ensures AllHarmless(init + [s], base, labels)
       <==> AllHarmless(init, base, labels) && Harmless(s, WordAddr(base, Place(init)), labels)
  {
    hide Harmless, WordAddr, Place;
    var stmts := init + [s];
    assert forall k :: 0 <= k < |init| ==> stmts[k] == init[k] && stmts[..k] == init[..k];
    assert stmts[|init|] == s && stmts[..|init|] == init;
  }

  lemma AllDefinedSnoc(init: seq<Stmt>, s: Stmt, labels: map<string, bv32>)
    ensures AllDefined(init + [s], labels)
       <==> AllDefined(init, labels) && (Ref(s).Some? ==> Ref(s).value in labels)
  {
    hide Ref;
    var stmts := init + [s];
    assert forall k :: 0 <= k < |init| ==> stmts[k] == init[k];
    assert stmts[|init|] == s;
  }

  lemma TranslatedSize(s: Stmt, pc: bv32, labels: map<string, bv32>)
    ensures Translate(s, pc, labels).Some? <==> (Ref(s).Some? ==> Ref(s).value in labels)
    ensures Translate(s, pc, labels).Some? ==> |Translate(s, pc, labels).value| == Size(s)
  {
    hide WordsFor, Minus, Ref, Size;
    SizeOfWords(s, 0, 0);
    if Ref(s).Some? && Ref(s).value in labels {
      SizeOfWords(s, Minus(labels[Ref(s).value], pc), labels[Ref(s).value]);
    }
  }

  /** Two passes succeed exactly when every label referred to is defined. */
  lemma {:induction false} TranslationSize(stmts: seq<Stmt>, base: bv32, labels: map<string, bv32>)
    ensures TranslateAll(stmts, base, labels).Some? <==> AllDefined(stmts, labels)
    ensures TranslateAll(stmts, base, labels).Some? ==> |TranslateAll(stmts, base, labels).value| == Place(stmts)
  {
    hide Translate, Ref, Size, WordAddr;
    if stmts != [] {
      var init, s := stmts[..|stmts| - 1], stmts[|stmts| - 1];
      TranslationSize(init, base, labels);
      TranslatedSize(s, WordAddr(base, Place(init)), labels);
      AllDefinedSnoc(init, s, labels);
      assert stmts == init + [s];
    }
  }

  lemma StatementAgrees(s: Stmt, pc: bv32, labels: map<string, bv32>)
    requires Known(s, labels)
    ensures Translate(s, pc, labels) == Some(Left(s, pc, labels)) <==> Harmless(s, pc, labels)
  {
    hide WordsFor, Minus, Ref, Skipped;
  }

  lemma SameJoin<T>(a: seq<T>, b: seq<T>, a': seq<T>, b': seq<T>)
    requires |a| == |a'|
    ensures a + b == a' + b' <==> a == a' && b == b'
  {
    if a + b == a' + b' {
      assert a == (a + b)[..|a|] && b == (a + b)[|a|..];
      assert a' == (a' + b')[..|a|] && b' == (a' + b')[|a|..];
    }
  }

  /** When every label looked up is defined, the words left are those of two passes exactly if none left alone is harmed. */
  lemma {:induction false} WordingIsTranslation(stmts: seq<Stmt>, base: bv32, labels: map<string, bv32>)
    requires AllKnown(stmts, labels)
    ensures TranslateAll(stmts, base, labels) == Some(WordingAll(stmts, base, labels, true))
       <==> AllHarmless(stmts, base, labels)
  {
    hide WordAddr, Known, Harmless, Translate, Wording, Size, AllDefined, AllHarmless, AllKnown;
    if stmts != [] {
      var init, s := stmts[..|stmts| - 1], stmts[|stmts| - 1];
      var pc := WordAddr(base, Place(init));
      assert stmts == init + [s];
      AllKnownSnoc(init, s, labels);
      AllHarmlessSnoc(init, s, base, labels);
      WordingIsTranslation(init, base, labels);
      StatementAgrees(s, pc, labels);
      WordingLeft(s, pc, labels);
      TranslationSize(init, base, labels);
      WordingSize(init, base, labels, true);
      var words, last := TranslateAll(init, base, labels), Translate(s, pc, labels);
      if words.Some? && last.Some? {
        SameJoin(words.value, last.value, WordingAll(init, base, labels, true), Left(s, pc, labels));
      }
    } else {
      NothingHarmed(base, labels);
    }
  }

  lemma NothingHarmed(base: bv32, labels: map<string, bv32>)
    ensures AllHarmless([], base, labels)
  {}

  /** What makes the sweep as good as two passes. */
  predicate Faithful(stmts: seq<Stmt>, base: bv32) {
    var labels := LabelsOf(stmts, base);
    !AllKnown(stmts, labels) || AllHarmless(stmts, base, labels)
  }

  /**
   * One sweep with backpatching is two-pass assembly, with the same success and the same words, if and only if some
   * label that the resolver looks up is undefined, or every statement it leaves alone has a defined label and needs
   * no patching. (Then both fail, or both succeed.)
   */
  lemma BackpatchingIsTwoPass(stmts: seq<Stmt>, base: bv32)
    ensures Agrees(Finalised(stmts, base), TwoPassProgram(stmts, base)) <==> Faithful(stmts, base)
  {
    hide WordingAll, TranslateAll, LabelsOf, AllKnown, AllDefined, AllHarmless, Finalised;
    var labels := LabelsOf(stmts, base);
    FinalisedProgram(stmts, base);
    if AllKnown(stmts, labels) {
      WordingIsTranslation(stmts, base, labels);
    } else {
      TranslationSize(stmts, base, labels);
      DefinedIsKnown(stmts, labels);
    }
  }

  lemma DefinedIsKnown(stmts: seq<Stmt>, labels: map<string, bv32>)
    ensures AllDefined(stmts, labels) ==> AllKnown(stmts, labels)
  {
    hide Ref, Skipped;
  }

  /** The name with which the second patch of a LA of some label is recorded. */
  ghost predicate LowName(name: string) {
    exists p: Name :: name == p + "__lo"
  }

  lemma SkippedMeans(name: string)
    ensures Skipped(name) <==> LowName(name)
  {
    if Skipped(name) {
      var p: Name := name[..|name| - 4];
      assert name == p + "__lo";
    }
    if LowName(name) {
      var p: Name :| name == p + "__lo";
      LowHalfSkipped(p);
    }
  }

  ghost predicate RefersLow(s: Stmt) {
    Ref(s).Some? && LowName(Ref(s).value)
  }

  /** Exactly the statements whose label is made of another one and `__lo` are left alone. The bare `__lo` is not such. */
  lemma LeftAloneMeans(s: Stmt)
    ensures LeftAlone(s) <==> RefersLow(s)
    ensures !LowName("__lo")
  {
    if Ref(s).Some? {
      SkippedMeans(Ref(s).value);
    }
    assert forall p: Name :: |p + "__lo"| > |"__lo"|;
  }

  /** Without label operands of that form the two always agree. */
  lemma OrdinaryLabelsAgree(stmts: seq<Stmt>, base: bv32)
    requires forall k :: 0 <= k < |stmts| ==> !RefersLow(stmts[k])
    ensures Finalised(stmts, base).ok <==> TwoPassProgram(stmts, base).Some?
    ensures Finalised(stmts, base).ok ==> TwoPassProgram(stmts, base) == Some(Finalised(stmts, base).program)
  {
    hide LabelsOf, AllKnown, Finalised, TwoPassProgram, LeftAlone, RefersLow, WordAddr, Place, Ref, Harmless;
    forall k | 0 <= k < |stmts| ensures Harmless(stmts[k], WordAddr(base, Place(stmts[..k])), LabelsOf(stmts, base)) {
      LeftAloneMeans(stmts[k]);
      NotLeftAlone(stmts[k], WordAddr(base, Place(stmts[..k])), LabelsOf(stmts, base));
    }
    BackpatchingIsTwoPass(stmts, base);
  }

  lemma NotLeftAlone(s: Stmt, pc: bv32, labels: map<string, bv32>)
    requires !LeftAlone(s)
    ensures Harmless(s, pc, labels)
  {}

  /** A label's address is that of the statement after its last definition. */
  lemma {:induction false} LastDefinitionWins(stmts: seq<Stmt>, base: bv32, name: string, k: nat)
    requires k < |stmts| && stmts[k] == Label(name)
    requires forall j :: k < j < |stmts| ==> stmts[j] != Label(name)
    ensures name in LabelsOf(stmts, base) && LabelsOf(stmts, base)[name] == WordAddr(base, Place(stmts[..k]))
  {
    hide WordAddr, Place;
    var init := stmts[..|stmts| - 1];
    if k < |stmts| - 1 {
      LastDefinitionWins(init, base, name, k);
      assert init[..k] == stmts[..k];
    }
  }

  /** Only defined labels have an address. */
  lemma {:induction false} DefinedOnly(stmts: seq<Stmt>, base: bv32, name: string)
    ensures name in LabelsOf(stmts, base) <==> Label(name) in stmts
  {
    hide WordAddr, Place;
    if stmts != [] {
      var init, s := stmts[..|stmts| - 1], stmts[|stmts| - 1];
      DefinedOnly(init, base, name);
      assert stmts == init + [s];
    }
  }

  // ----- why label operands must not end in `__lo` -----

  /** A loop whose label has the ending the resolver skips. */
  function LowLoop(): seq<Stmt> {
    [Label("spin__lo"), Nop, J("spin__lo")]
  }

  lemma LowLoopPlaces()
    ensures Place(LowLoop()[..0]) == 0 && Place(LowLoop()[..1]) == 0 && Place(LowLoop()[..2]) == 1
    ensures Skipped("spin__lo")
  {
    assert LowLoop()[..2] == [Label("spin__lo"), Nop] && LowLoop()[..1] == [Label("spin__lo")];
    assert [Label("spin__lo"), Nop][..1] == [Label("spin__lo")];
    assert "spin__lo"[4..] == "__lo";
  }

  lemma BackwardsJump()
    ensures JalWord(0, Minus(0, 4)) != JalWord(0, 0)
  {}

  lemma LowLoopLabels()
    ensures LabelsOf(LowLoop(), 0) == map["spin__lo" := 0]
  {
    hide Place;
    LowLoopPlaces();
    LowLoopPrefixes();
    assert WordAddr(0, 0) == 0;
  }

  lemma LowLoopPrefixes()
    ensures var s := LowLoop(); s[..2] == [s[0], s[1]] && [s[0], s[1]][..1] == [s[0]] && [s[0]][..0] == []
  {}

  lemma LowLoopWording()
    ensures WordingAll(LowLoop(), 0, map["spin__lo" := 0], true) == [AddiWord(0, 0, 0), JalWord(0, 0)]
  {
    hide AddiWord, JalWord, Skipped, WordAddr, Place;
    LowLoopPlaces();
    LowLoopPrefixes();
    var s := LowLoop();
    assert WordingAll([s[0]], 0, map["spin__lo" := 0], true) == [];
    assert WordingAll([s[0], s[1]], 0, map["spin__lo" := 0], true) == [AddiWord(0, 0, 0)];
  }

  lemma LowLoopKnown()
    ensures var labels: map<string, bv32> := map["spin__lo" := 0];
            AllKnown(LowLoop(), labels) && AllDefined(LowLoop(), labels)
  {}

  lemma LowLoopHarmed()
    ensures !Harmless(LowLoop()[2], 4, map["spin__lo" := 0])
  {
    hide JalWord, Minus, Skipped;
    LowLoopPlaces();
    BackwardsJump();
    assert [JalWord(0, Minus(0, 4))][0] != [JalWord(0, 0)][0];
  }

  /** The resolver reports success for it and leaves a jump to itself, where two passes give a jump back to the label. */
  lemma SkippedLabelStaysZero()
    ensures Finalised(LowLoop(), 0) == Resolution([AddiWord(0, 0, 0), JalWord(0, 0)], true)
    ensures TwoPassProgram(LowLoop(), 0).Some? && TwoPassProgram(LowLoop(), 0).value != Finalised(LowLoop(), 0).program
  {
    hide AddiWord, JalWord, LabelsOf, WordingAll, TranslateAll, AllKnown, AllDefined, Finalised, Harmless, Place;
    var labels: map<string, bv32> := map["spin__lo" := 0];
    FinalisedProgram(LowLoop(), 0);
    LowLoopLabels();
    LowLoopWording();
    LowLoopKnown();
    TranslationSize(LowLoop(), 0, labels);
    BackpatchingIsTwoPass(LowLoop(), 0);
    LowLoopPlaces();
    LowLoopHarmed();
    assert WordAddr(0, 1) == 4;
  }
}
