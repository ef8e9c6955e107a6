/** The assembler object (assembler.h). */
module Assembler {
  import opened Words
  import opened Encode
  import opened Isa
  import opened Assembly
  import opened TwoPass
  import opened Patches

  class Assembler {
    var baseAddr: bv32
    var program: seq<bv32>
    var labelDefs: map<string, bv32>
    var patches: seq<Patch>

    constructor (base: bv32)
      ensures Valid() && View() == AsmAll(base, [])
    {
      baseAddr, program, labelDefs, patches := base, [], map[], [];
    }

    function View(): Asm
      reads this
    {
      Asm(baseAddr, program, labelDefs, patches)
    }

    /** Every patch points at words the resolver can patch, no two at the same. */
    predicate Valid()
      reads this
    {
      TableOk(program, patches) && Increasing(patches)
    }

    function CurrentPC(): bv32
      reads this
    {
      WordAddr(baseAddr, |program|)
    }

    method Emit(w: bv32)
      modifies this`program
      ensures program == old(program) + [w]
    {
      program := program + [w];
    }

    method EmitBranchPatch(dest: string, partial: bv32)
      modifies this`program, this`patches
      ensures program == old(program) + [partial]
      ensures patches == old(patches) + [Patch(|old(program)|, dest, WordAddr(baseAddr, |old(program)|))]
    {
      hide WordAddr;
      patches := patches + [Patch(|program|, dest, CurrentPC())];
      Emit(partial);
    }

    /** LA: two placeholder words and a patch for each. */
    method EmitAddress(rd: Reg, dest: Name)
      modifies this`program, this`patches
      ensures program == old(program) + Emitted(La(rd, dest))
      ensures patches == old(patches) + PatchesOf(La(rd, dest), |old(program)|, baseAddr)
    {
      hide LuiWord, AddiWord, WordAddr, SplitHi, SplitLo, Minus;
      ZeroSplits();
      Emit(LuiWord(rd, 0));
      Emit(AddiWord(rd, rd, 0));
      TwoBack(baseAddr, |program| - 2);
      patches := patches + [Patch(|program| - 2, dest, Minus(CurrentPC(), 8))];
      patches := patches + [Patch(|program| - 1, dest + "__lo", Minus(CurrentPC(), 4))];
    }

    /** LI: one word if the value fits an immediate, else two. */
    method EmitConstant(rd: Reg, v: bv32)
      modifies this`program
      ensures program == old(program) + Emitted(Li(rd, v))
    {
      hide LuiWord, AddiWord, SplitHi, SplitLo, FitsI;
      if FitsI(v) {
        Emit(AddiWord(rd, 0, v));
      } else {
        Emit(LuiWord(rd, SplitHi(v)));
        Emit(AddiWord(rd, rd, SplitLo(v)));
      }
    }

    /** One statement; a label only records its address. */
    method AssembleStmt(s: Stmt)
      requires Valid()
      modifies this
      ensures Valid() && View() == AsmStmt(old(View()), s)
    {
      hide Emitted, PatchesOf, WordAddr, TableOk, Increasing, Ref;
      if s.Label? {
        labelDefs := labelDefs[s.name := CurrentPC()];
        return;
      }
      ghost var before := View();
      StatementTable(s, program, baseAddr);
      JoinTables(program, Emitted(s), patches, PatchesOf(s, |program|, baseAddr));
      EmitStmt(s);
    }

    method EmitStmt(s: Stmt)
      requires !s.Label?
      modifies this`program, this`patches
      ensures program == old(program) + Emitted(s)
      ensures patches == old(patches) + PatchesOf(s, |old(program)|, baseAddr)
    {
      hide InstructionWord;
      if Ref(s).Some? {
        EmitReference(s);
      } else if s.Li? {
        EmitConstant(s.rd, s.v);
      } else if s.Nop? || s.Ret? || s.Mv? || s.Not? || s.Neg? {
        EmitPseudo(s);
      } else {
        Emit(InstructionWord(s));
      }
    }

    /** A statement with a label operand. */
    method EmitReference(s: Stmt)
      requires Ref(s).Some?
      modifies this`program, this`patches
      ensures program == old(program) + Emitted(s)
      ensures patches == old(patches) + PatchesOf(s, |old(program)|, baseAddr)
    {
      hide JalWord, BranchWord, WordAddr, ZeroBranch, InstructionWord;
      if s.La? {
        EmitAddress(s.rd, s.dest);
      } else if s.J? {
        EmitBranchPatch(s.dest, JalWord(0, 0));
      } else if s.Call? {
        EmitBranchPatch(s.dest, JalWord(1, 0));
      } else if s.Jal? {
        EmitBranchPatch(s.dest, JalWord(s.rd, 0));
      } else if s.BranchZero? {
        var (cond, rs1, rs2) := ZeroBranch(s.zero, s.rs);
        EmitBranchPatch(s.dest, BranchWord(cond, rs1, rs2, 0));
      } else {
        EmitBranchPatch(s.dest, BranchWord(s.cond, s.rs1, s.rs2, 0));
      }
    }

    method EmitPseudo(s: Stmt)
      requires s.Nop? || s.Ret? || s.Mv? || s.Not? || s.Neg?
      modifies this`program
      ensures program == old(program) + Emitted(s)
    {
      hide AddiWord, EncodeR, EncodeI, Field, InstructionWord;
      if s.Nop? {
        Emit(AddiWord(0, 0, 0));
      } else if s.Ret? {
        Emit(EncodeI(0, 1, F3_JALR, 0, OP_JALR));
      } else if s.Mv? {
        Emit(AddiWord(s.rd, s.rs, 0));
      } else if s.Not? {
        Emit(EncodeI(0xFFFF_FFFF, Field(s.rs), F3_XOR, Field(s.rd), OP_I_ARITH));
      } else {
        Emit(EncodeR(F7_ALT, Field(s.rs), 0, F3_ADD_SUB, Field(s.rd), OP_R));
      }
    }

    /** The statements of a file, in order. */
    method AssembleAll(stmts: seq<Stmt>)
      requires Valid() && View() == AsmAll(baseAddr, [])
      modifies this
      ensures Valid() && View() == AsmAll(old(baseAddr), stmts)
    {
      hide AsmStmt, TableOk, Increasing;
      for i := 0 to |stmts|
        invariant Valid() && View() == AsmAll(old(baseAddr), stmts[..i])
      {
        AssembleStmt(stmts[i]);
        assert stmts[..i + 1][..i] == stmts[..i];
      }
      assert stmts[..|stmts|] == stmts;
    }

    /** Rewrite the placeholders in place; false if a label is undefined. */
    method ResolveLabels() returns (ok: bool)
      requires Valid()
      modifies this`program
      ensures Valid()
      ensures Resolution(program, ok) == ResolveAll(old(program), patches, labelDefs)
      ensures AllSameFields(old(program), program)
    {
      hide DecodeOpcode, DecodeRd, DecodeRs1, DecodeRs2, DecodeFunct3, EncodeJ, EncodeB, EncodeU, EncodeI, Minus;
      hide SplitHi, SplitLo;
      hide SameFields, AllSameFields, Increasing;
      ok := true;
      SameFieldsReflexive(program);
      for i := 0 to |patches|
        invariant Resolution(program, ok) == ResolveAll(old(program), patches[..i], labelDefs)
        invariant Valid() && AllSameFields(old(program), program)
      {
        var p := patches[i];
        assert patches[..i + 1][..i] == patches[..i];
        ghost var before := program;
        assert PatchOk(before, p);
        OneKeepsFields(Resolution(before, ok), p, labelDefs);
        SameFieldsTransitive(old(program), before, ResolveOne(Resolution(before, ok), p, labelDefs).program);
        if |p.name| > 4 && p.name[|p.name| - 4..] == "__lo" {
          continue;
        }
        if p.name !in labelDefs {
          ok := false;
          continue;
        }
        PatchWord(p, labelDefs[p.name]);
        forall q | q in patches ensures PatchOk(program, q) {
          OkKept(before, program, q);
        }
      }
      assert patches[..|patches|] == patches;
    }

    method PatchWord(p: Patch, target: bv32)
      requires PatchOk(program, p) && !Skipped(p.name)
      modifies this`program
      ensures Patched(old(program), p.idx, p.instrPC, target) == Resolution(program, true)
    {
      hide DecodeRd, DecodeRs1, DecodeRs2, DecodeFunct3, EncodeJ, EncodeB, EncodeU, EncodeI, Minus, SplitHi, SplitLo;
      hide DecodeOpcode;
      var was := program[p.idx];
      var op := DecodeOpcode(was);
      if op == OP_JAL {
        program := program[p.idx := EncodeJ(Minus(target, p.instrPC), DecodeRd(was), OP_JAL)];
      } else if op == OP_BRANCH {
        var offset := Minus(target, p.instrPC);
        program := program[p.idx := EncodeB(offset, DecodeRs2(was), DecodeRs1(was), DecodeFunct3(was), OP_BRANCH)];
      } else {
        var rd := DecodeRd(was);
        program := program[p.idx := EncodeU(SplitHi(target) << 12, rd, OP_LUI)];
        program := program[p.idx + 1 := EncodeI(SplitLo(target), rd, F3_ADD_SUB, rd, OP_I_ARITH)];
      }
    }

    /** Resolve. What is left is the two-pass program of the statements exactly when nothing left alone is harmed. */
    method Finalise(ghost stmts: seq<Stmt>) returns (ok: bool)
      requires Valid() && View() == AsmAll(baseAddr, stmts)
      modifies this`program
      ensures Valid() && Resolution(program, ok) == Finalised(stmts, baseAddr)
      ensures Agrees(Resolution(program, ok), TwoPassProgram(stmts, baseAddr)) <==> Faithful(stmts, baseAddr)
    {
      hide AsmAll, ResolveAll, TableOk, Increasing, Faithful, TwoPassProgram, Agrees;
      ok := ResolveLabels();
      BackpatchingIsTwoPass(stmts, baseAddr);
    }
  }

  lemma TwoBack(base: bv32, n: nat)
    ensures Minus(WordAddr(base, n + 2), 8) == WordAddr(base, n)
    ensures Minus(WordAddr(base, n + 2), 4) == WordAddr(base, n + 1)
  {
    hide NextAddr, Minus;
    assert WordAddr(base, n + 2) == NextAddr(NextAddr(WordAddr(base, n)));
    BackTwice(WordAddr(base, n));
  }

  lemma BackTwice(a: bv32)
    ensures Minus(NextAddr(NextAddr(a)), 8) == a && Minus(NextAddr(NextAddr(a)), 4) == NextAddr(a)
  {}
}
