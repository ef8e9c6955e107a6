/** Assembled programs, run: from the source statements to the machine. */
module Compiled {
  import opened Options
  import opened Words
  import opened Encode
  import opened Memory
  import opened Isa
  import opened Cpu
  import opened Assembly
  import opened TwoPass
  import opened Decoding
  import opened Reach
  import opened Simulation

  // ----- where statements and labels are -----

  /** The address of statement `k`. */
  function AddressOf(stmts: seq<Stmt>, base: bv32, k: nat): bv32
    requires k <= |stmts|
  {
    WordAddr(base, Place(stmts[..k]))
  }

  /** The word index of the last definition of a label. */
  function LabelIndex(stmts: seq<Stmt>, name: string): nat {
    if stmts == [] then 0
    else if stmts[|stmts| - 1] == Label(name) then Place(stmts[..|stmts| - 1])
    else LabelIndex(stmts[..|stmts| - 1], name)
  }

  lemma {:induction false} LabelAddress(stmts: seq<Stmt>, base: bv32, name: string)
    requires name in LabelsOf(stmts, base)
    ensures LabelsOf(stmts, base)[name] == WordAddr(base, LabelIndex(stmts, name))
    ensures LabelIndex(stmts, name) <= Place(stmts)
  {
    hide WordAddr;
    var init := stmts[..|stmts| - 1];
    if stmts[|stmts| - 1] != Label(name) {
      LabelAddress(init, base, name);
    }
  }

  lemma {:induction false} PlaceGrows(stmts: seq<Stmt>, k: nat)
    requires k < |stmts|
    ensures Place(stmts[..k]) + Size(stmts[k]) <= Place(stmts)
  {
    hide Size;
    var init := stmts[..|stmts| - 1];
    if k < |stmts| - 1 {
      PlaceGrows(init, k);
      assert init[..k] == stmts[..k];
    }
  }

  lemma NoLabelWords(s: Stmt, offset: bv32, target: bv32)
    requires Ref(s) == None
    ensures WordsFor(s, offset, target) == WordsFor(s, 0, 0)
  {
    hide InstructionWord, AddiWord, LuiWord, EncodeR, EncodeI, SplitHi, SplitLo, FitsI;
  }

  // ----- what the assembler leaves -----

  /** The words of statement `k`, whatever becomes of the other statements. */
  lemma {:induction false} WordingOfStatement(stmts: seq<Stmt>, base: bv32, labels: map<string, bv32>, k: nat)
    requires k < |stmts|
    ensures var program, s, a := WordingAll(stmts, base, labels, true), stmts[k], Place(stmts[..k]);
            a + Size(s) <= |program| && program[a..a + Size(s)] == Left(s, WordAddr(base, a), labels)
  {
    hide Left, Size, WordAddr;
    var init, s, n := stmts[..|stmts| - 1], stmts[|stmts| - 1], |stmts| - 1;
    var before, last := WordingAll(init, base, labels, true), Left(s, WordAddr(base, Place(init)), labels);
    WordingSize(init, base, labels, true);
    WordingSize(stmts, base, labels, true);
    if k == n {
      assert (before + last)[|before|..|before| + |last|] == last;
      assert stmts[..k] == init;
    } else {
      WordingOfStatement(init, base, labels, k);
      assert init[..k] == stmts[..k];
      PartOfJoin(before, last, Place(stmts[..k]), Size(stmts[k]));
    }
  }

  lemma PartOfJoin<T>(a: seq<T>, b: seq<T>, from: nat, n: nat)
    requires from + n <= |a|
    ensures (a + b)[from..from + n] == a[from..from + n]
  {}

  lemma LeftWords(s: Stmt, pc: bv32, labels: map<string, bv32>)
    requires Known(s, labels)
    ensures Left(s, pc, labels)
         == if LeftAlone(s) then WordsFor(s, 0, 0) else WordsFor(s, Minus(Target(s, labels), pc), Target(s, labels))
  {
    hide WordsFor, Minus, Ref, Skipped;
    if Ref(s) == None {
      NoLabelWords(s, Minus(Target(s, labels), pc), Target(s, labels));
    }
  }

  /** An assembled program has a word for each the statements take. */
  lemma FinalisedSize(stmts: seq<Stmt>, base: bv32)
    ensures |Finalised(stmts, base).program| == Place(stmts)
  {
    hide WordingAll, LabelsOf, AllKnown, Finalised;
    FinalisedProgram(stmts, base);
    WordingSize(stmts, base, LabelsOf(stmts, base), true);
  }

  /**
   * The words of statement `k` in the program that the assembler leaves. They are the finished words, unless the
   * resolver has taken the label for the second patch of a LA: then they still have zero for the label.
   */
  lemma WordsOfStatement(stmts: seq<Stmt>, base: bv32, k: nat)
    requires Finalised(stmts, base).ok && k < |stmts|
    ensures var program, labels := Finalised(stmts, base).program, LabelsOf(stmts, base);
            var s, a := stmts[k], Place(stmts[..k]);
            && a + Size(s) <= |program|
            && program[a..a + Size(s)] == (if LeftAlone(s) then WordsFor(s, 0, 0)
                                           else WordsFor(s, Minus(Target(s, labels), WordAddr(base, a)), Target(s, labels)))
            && (!LeftAlone(s) && Ref(s).Some? ==> Ref(s).value in labels)
  {
    hide WordsFor, Size, WordAddr, Minus, Target, Ref, Left, Skipped, WordingAll, LabelsOf, Place, Finalised;
    var labels, s := LabelsOf(stmts, base), stmts[k];
    FinalisedProgram(stmts, base);
    assert Known(s, labels);
    WordingOfStatement(stmts, base, labels, k);
    LeftWords(s, WordAddr(base, Place(stmts[..k])), labels);
  }

  // ----- jumps and branches of a program -----

  /** Programs that `spawnHart` accepts are within reach of every jump. */
  predicate Accepted(stmts: seq<Stmt>) {
    4 * Place(stmts) <= HART_SLOT_SIZE - STACK_SIZE
  }

  /** The distance in words from statement `k` to its label. */
  function Hop(stmts: seq<Stmt>, k: nat): int
    requires k < |stmts| && Ref(stmts[k]).Some?
  {
    LabelIndex(stmts, Ref(stmts[k]).value) - Place(stmts[..k])
  }

  /** A defined label, as an offset from the statement. */
  lemma OffsetIsHop(stmts: seq<Stmt>, base: bv32, k: nat)
    requires k < |stmts| && Ref(stmts[k]).Some? && Ref(stmts[k]).value in LabelsOf(stmts, base)
    ensures Minus(LabelsOf(stmts, base)[Ref(stmts[k]).value], AddressOf(stmts, base, k)) == Distance(Hop(stmts, k))
    ensures Accepted(stmts) ==> -0x3800 <= Hop(stmts, k) <= 0x3800
  {
    hide WordAddr, Minus, Distance, LabelsOf, Place, Ref;
    LabelAddress(stmts, base, Ref(stmts[k]).value);
    PlaceGrows(stmts, k);
    AddressDifference(base, LabelIndex(stmts, Ref(stmts[k]).value), Place(stmts[..k]));
  }

  lemma ZeroFits()
    ensures FitsJ(0) && FitsB(0)
  {}

  /**
   * Jump reach: every jump of an accepted program lands on its label, its offset not cut off; a jump the resolver has
   * left alone jumps to itself.
   */
  lemma JumpLands(stmts: seq<Stmt>, base: bv32, k: nat)
    requires Finalised(stmts, base).ok && Accepted(stmts) && k < |stmts| && IsJump(stmts[k])
    ensures Place(stmts[..k]) < |Finalised(stmts, base).program|
    ensures var i := Decode(Finalised(stmts, base).program[Place(stmts[..k])]);
            && i.Jal? && (!LeftAlone(stmts[k]) ==> Ref(stmts[k]).value in LabelsOf(stmts, base))
            && Plus(AddressOf(stmts, base, k), i.imm)
            == if LeftAlone(stmts[k]) then AddressOf(stmts, base, k) else LabelsOf(stmts, base)[Ref(stmts[k]).value]
  {
    hide Plus, Minus, Decode, JalWord, WordAddr, Finalised, LabelsOf, WordsFor, Place, Distance, FitsJ, Size, LeftAlone;
    var labels, s, pc := LabelsOf(stmts, base), stmts[k], AddressOf(stmts, base, k);
    var target := Target(s, labels);
    WordsOfStatement(stmts, base, k);
    var offset := if LeftAlone(s) then 0 else Minus(target, pc);
    JumpWord(s, offset, if LeftAlone(s) then 0 else target);
    DecodeJalWord(JumpRd(s), offset);
    FirstOf(Finalised(stmts, base).program, Place(stmts[..k]), [JalWord(JumpRd(s), offset)]);
    if LeftAlone(s) {
      ZeroFits();
      PlusZero(pc);
    } else {
      OffsetIsHop(stmts, base, k);
      DistanceFits(Hop(stmts, k));
      BackToTarget(pc, target);
    }
  }

  lemma FirstOf(program: seq<bv32>, a: nat, words: seq<bv32>)
    requires a + |words| <= |program| && program[a..a + |words|] == words && words != []
    ensures program[a] == words[0]
  {
    assert program[a] == program[a..a + |words|][0];
  }

  /**
   * A branch of an accepted program lands on its label exactly when the label is -1024 to 1023 words away; a branch
   * the resolver has left alone goes to itself.
   */
  lemma BranchLands(stmts: seq<Stmt>, base: bv32, k: nat)
    requires Finalised(stmts, base).ok && Accepted(stmts) && k < |stmts| && IsBranch(stmts[k])
    ensures Place(stmts[..k]) < |Finalised(stmts, base).program|
    ensures var i, pc := Decode(Finalised(stmts, base).program[Place(stmts[..k])]), AddressOf(stmts, base, k);
            && i.Branch?
            && if LeftAlone(stmts[k]) then Plus(pc, i.imm) == pc
               else
                 && Ref(stmts[k]).value in LabelsOf(stmts, base)
                 && (Plus(pc, i.imm) == LabelsOf(stmts, base)[Ref(stmts[k]).value] <==> -0x400 <= Hop(stmts, k) < 0x400)
  {
    hide Plus, Minus, Decode, BranchWord, WordAddr, Finalised, LabelsOf, WordsFor, Place, Distance, FitsB, Size, LeftAlone;
    hide ZeroBranch;
    var labels, s, pc := LabelsOf(stmts, base), stmts[k], AddressOf(stmts, base, k);
    var target := Target(s, labels);
    WordsOfStatement(stmts, base, k);
    var offset := if LeftAlone(s) then 0 else Minus(target, pc);
    var (cond, rs1, rs2) := BranchShape(s);
    CompareWord(s, offset, if LeftAlone(s) then 0 else target);
    DecodeBranchWord(cond, rs1, rs2, offset);
    FirstOf(Finalised(stmts, base).program, Place(stmts[..k]), [BranchWord(cond, rs1, rs2, offset)]);
    if LeftAlone(s) {
      ZeroFits();
      PlusZero(pc);
    } else {
      OffsetIsHop(stmts, base, k);
      DistanceFits(Hop(stmts, k));
      PlusUnique(pc, Decode(BranchWord(cond, rs1, rs2, offset)).imm, target);
    }
  }

  // ----- statements of a program, executed -----

  /** Statement `k` is one the assembler can express: a label that is looked up, operands in range, a branch near its label. */
  predicate Encodable(stmts: seq<Stmt>, k: nat)
    requires k < |stmts|
  {
    !LeftAlone(stmts[k]) && OperandsFit(stmts[k]) && (IsBranch(stmts[k]) ==> -0x400 <= Hop(stmts, k) < 0x400)
  }

  lemma EncodableInRange(stmts: seq<Stmt>, base: bv32, k: nat)
    requires Finalised(stmts, base).ok && Accepted(stmts) && k < |stmts| && Encodable(stmts, k)
    ensures InRange(stmts[k], AddressOf(stmts, base, k), LabelsOf(stmts, base))
  {
    hide Minus, WordAddr, LabelsOf, WordsFor, Place, Distance, FitsJ, FitsB, FitsI, ReadsAsSrai, Finalised, LeftAlone;
    hide LabelIndex, Size;
    if Ref(stmts[k]).Some? {
      WordsOfStatement(stmts, base, k);
      OffsetIsHop(stmts, base, k);
      DistanceFits(Hop(stmts, k));
    }
  }

  lemma {:induction false} AddressAfter(base: bv32, a: nat, j: nat)
    ensures WordAddr(WordAddr(base, a), j) == WordAddr(base, a + j)
  {
    if j > 0 {
      AddressAfter(base, a, j - 1);
    }
  }

  /** Part of a program in memory. */
  lemma CodePart(m: seq<bv8>, base: bv32, program: seq<bv32>, id: int, a: nat, n: nat)
    requires CodeAt(m, base, program, id) && a + n <= |program|
    ensures CodeAt(m, WordAddr(base, a), program[a..a + n], id)
  {
    hide Check, WordAt, Nat, WordAddr;
    forall j | 0 <= j < n
      ensures Check(Nat(WordAddr(WordAddr(base, a), j)), LOAD, id).NoFault?
           && WordAt(m, Nat(WordAddr(WordAddr(base, a), j))) == program[a..a + n][j]
    {
      AddressAfter(base, a, j);
    }
  }

  /** The words that the assembler left of statement `k` are in memory; the rest of the program need not be. */
  predicate Present(stmts: seq<Stmt>, base: bv32, k: nat, m: seq<bv8>, id: int)
    requires k < |stmts|
  {
    var program, a := Finalised(stmts, base).program, Place(stmts[..k]);
    a + Size(stmts[k]) <= |program| && CodeAt(m, AddressOf(stmts, base, k), program[a..a + Size(stmts[k])], id)
  }

  /** With the whole program in memory every statement is. */
  lemma AllPresent(stmts: seq<Stmt>, base: bv32, k: nat, m: seq<bv8>, id: int)
    requires k < |stmts| && CodeAt(m, base, Finalised(stmts, base).program, id)
    ensures Present(stmts, base, k, m, id)
  {
    hide CodeAt, Finalised, WordAddr, Place, Size;
    FinalisedSize(stmts, base);
    PlaceGrows(stmts, k);
    CodePart(m, base, Finalised(stmts, base).program, id, Place(stmts[..k]), Size(stmts[k]));
  }

  /** A statement that is present can be simulated. */
  lemma PresentWords(stmts: seq<Stmt>, base: bv32, k: nat, m: seq<bv8>, id: int)
    requires Finalised(stmts, base).ok && Accepted(stmts) && k < |stmts| && Encodable(stmts, k)
    requires Present(stmts, base, k, m, id)
    ensures var s, labels, pc := stmts[k], LabelsOf(stmts, base), AddressOf(stmts, base, k);
            && InRange(s, pc, labels)
            && CodeAt(m, pc, WordsFor(s, Minus(Target(s, labels), pc), Target(s, labels)), id)
  {
    hide CodeAt, WordsFor, Minus, Target, InRange, Finalised, LabelsOf, WordAddr, Size, Place, OperandsFit, LeftAlone, Hop;
    EncodableInRange(stmts, base, k);
    WordsOfStatement(stmts, base, k);
  }

  /**
   * Compiler correctness, one statement: with its words in memory, a hart at the statement's address does in one
   * or two calls of `executeOne` exactly what the statement means.
   */
  lemma AssembledStatement(stmts: seq<Stmt>, base: bv32, k: nat, h: HartView, m: seq<bv8>)
    requires Finalised(stmts, base).ok && Accepted(stmts) && k < |stmts| && Encodable(stmts, k)
    requires Present(stmts, base, k, m, h.id)
    requires Quiet(h) && h.pc == AddressOf(stmts, base, k)
    ensures ExecuteMany(h, m, Size(stmts[k])) == SourceStep(h, m, stmts[k], LabelsOf(stmts, base))
  {
    hide CodeAt, Quiet, WordsFor, Minus, Target, InRange, Finalised, LabelsOf, WordAddr, Size, Place, Encodable;
    hide ExecuteMany, SourceStep, Present;
    PresentWords(stmts, base, k, m, h.id);
    StatementSimulated(stmts[k], h, m, LabelsOf(stmts, base));
  }

  // ----- runs of the source -----

  /**
   * A run of the source through the statements `ks`: each is at the hart's program counter and in range, and does
   * what it means; only the last may trap or halt. None if the hart is somewhere else, has an interrupt to take, or
   * has overwritten the words of the statement; it may have written over any others, such as its data.
   */
  function SourceRun(stmts: seq<Stmt>, base: bv32, h: HartView, m: seq<bv8>, ks: seq<nat>): Option<StepResult>
    requires Finalised(stmts, base).ok
    decreases |ks|
  {
    if ks == [] then Some(StepResult(h, m, true))
    else if ks[0] < |stmts| && Encodable(stmts, ks[0]) && Quiet(h) && h.pc == AddressOf(stmts, base, ks[0])
            && Present(stmts, base, ks[0], m, h.id) then
      var r := SourceStep(h, m, stmts[ks[0]], LabelsOf(stmts, base));
      if r.ok then SourceRun(stmts, base, r.h, r.m, ks[1..])
      else if |ks| == 1 then Some(r) else None
    else None
  }

  function WordCount(stmts: seq<Stmt>, ks: seq<nat>): nat {
    if ks == [] then 0 else (if ks[0] < |stmts| then Size(stmts[ks[0]]) else 0) + WordCount(stmts, ks[1..])
  }

  lemma {:induction false} ExecuteOn(h: HartView, m: seq<bv8>, a: nat, b: nat)
    ensures var r := ExecuteMany(h, m, a); ExecuteMany(h, m, a + b) == if r.ok then ExecuteMany(r.h, r.m, b) else r
    decreases a
  {
    hide Executed;
    if a > 0 {
      var r := Executed(h, m);
      if r.ok {
        ExecuteOn(r.h, r.m, a - 1, b);
      }
    }
  }

  /** Compiler correctness, whole runs: a run of the source statements is what the machine executes. */
  lemma {:induction false} SourceRunExecuted(stmts: seq<Stmt>, base: bv32, h: HartView, m: seq<bv8>, ks: seq<nat>)
    requires Finalised(stmts, base).ok && Accepted(stmts)
    requires SourceRun(stmts, base, h, m, ks).Some?
    ensures ExecuteMany(h, m, WordCount(stmts, ks)) == SourceRun(stmts, base, h, m, ks).value
    decreases |ks|
  {
    hide Executed, Present, Encodable, Quiet, SourceStep, LabelsOf, Finalised, WordAddr, Place, Size;
    if ks == [] {
      assert ExecuteMany(h, m, 0) == StepResult(h, m, true);
    } else {
      var s := stmts[ks[0]];
      var r := SourceStep(h, m, s, LabelsOf(stmts, base));
      AssembledStatement(stmts, base, ks[0], h, m);
      ExecuteOn(h, m, Size(s), WordCount(stmts, ks[1..]));
      if r.ok {
        SourceRunExecuted(stmts, base, r.h, r.m, ks[1..]);
      } else {
        assert ks[1..] == [];
      }
    }
  }
}
