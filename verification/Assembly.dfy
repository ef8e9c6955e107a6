/** The backpatching assembler (assembler.h), from statements on.

A statement emits its words with zero placeholders for labels and records patches; `ResolveLabels` rewrites the
placeholders in place once all labels are known. The functions say what each method does to the value `Asm`.
*/
module Assembly {
  import opened Options
  import opened Words
  import opened Encode
  import opened Isa

  /** A label as an operand; the tokenizer never yields an empty one. */
  type Name = s: string | s != "" witness "a"

  /** The operations with an immediate form. */
  type ImmOp = op: AluOp | op != Sub witness Add

  datatype LoadKind = Lb | Lh | Lw | Lbu | Lhu

  datatype ZeroCond = Eqz | Nez | Lez | Gez | Ltz | Gtz

  datatype CsrOp = Rw | Rs | Rc

  /** A statement. Immediates are `int32_t` patterns. */
  datatype Stmt =
    | Label(name: string)
    | Nop
    | Ret
    | Mv(rd: Reg, rs: Reg)
    | Not(rd: Reg, rs: Reg)
    | Neg(rd: Reg, rs: Reg)
    | Li(rd: Reg, v: bv32)
    | La(rd: Reg, dest: Name)
    | J(dest: Name)
    | Call(dest: Name)
    | Jal(rd: Reg, dest: Name)
    | BranchZero(zero: ZeroCond, rs: Reg, dest: Name)
    | Branch(cond: Cond, rs1: Reg, rs2: Reg, dest: Name)
    | Op(op: AluOp, rd: Reg, rs1: Reg, rs2: Reg)
    | OpImm(immOp: ImmOp, rd: Reg, rs1: Reg, imm: bv32)
    | Load(kind: LoadKind, rd: Reg, base: Reg, off: bv32)
    | Store(width: Width, src: Reg, base: Reg, off: bv32)
    | Jalr(rd: Reg, rs1: Reg, imm: bv32)
    | Lui(rd: Reg, imm: bv32)
    | Auipc(rd: Reg, imm: bv32)
    | CsrReg(csrOp: CsrOp, rd: Reg, rs1: Reg, csr: bv32)
    | Csrr(rd: Reg, csr: bv32)
    | Ecall
    | Ebreak
    | Mret
    | Data(w: bv32)

  datatype Patch = Patch(idx: nat, name: string, instrPC: bv32)

  /** The value of an assembler. */
  datatype Asm = Asm(base: bv32, program: seq<bv32>, labelDefs: map<string, bv32>, patches: seq<Patch>)

  function Field(r: Reg): bv32 { r as bv32 }

  function Funct7(op: AluOp): bv32 {
    if op == Sub || op == Sra then F7_ALT else F7_NORMAL
  }

  function Funct3(op: AluOp): bv32 {
    match op
    case Add => F3_ADD_SUB
    case Sub => F3_ADD_SUB
    case Sll => F3_SLL
    case Slt => F3_SLT
    case Sltu => F3_SLTU
    case Xor => F3_XOR
    case Srl => F3_SRL_SRA
    case Sra => F3_SRL_SRA
    case Or => F3_OR
    case And => F3_AND
  }

  function CondFunct3(cond: Cond): bv32 {
    match cond
    case Eq => F3_BEQ
    case Ne => F3_BNE
    case Lt => F3_BLT
    case Ge => F3_BGE
    case Ltu => F3_BLTU
    case Geu => F3_BGEU
  }

  function LoadFunct3(kind: LoadKind): bv32 {
    match kind case Lb => F3_BYTE case Lh => F3_HALF case Lw => F3_WORD case Lbu => F3_BYTE_U case Lhu => F3_HALF_U
  }

  function StoreFunct3(width: Width): bv32 {
    match width case Byte => F3_BYTE case Half => F3_HALF case Word => F3_WORD
  }

  function CsrFunct3(op: CsrOp): bv32 {
    match op case Rw => 1 case Rs => 2 case Rc => 3
  }

  /** The immediate of an I-type statement; that of SRAI carries the funct7 that tells it from SRLI. */
  function ImmField(op: ImmOp, imm: bv32): bv32 {
    if op == Sra then (imm & 0x1F) | (F7_ALT << 5) else imm
  }

  function LuiWord(rd: Reg, hi: bv32): bv32 { EncodeU(hi << 12, Field(rd), OP_LUI) }
  function AddiWord(rd: Reg, rs1: Reg, imm: bv32): bv32 { EncodeI(imm, Field(rs1), F3_ADD_SUB, Field(rd), OP_I_ARITH) }
  function JalWord(rd: Reg, offset: bv32): bv32 { EncodeJ(offset, Field(rd), OP_JAL) }

  function BranchWord(cond: Cond, rs1: Reg, rs2: Reg, offset: bv32): bv32 {
    EncodeB(offset, Field(rs2), Field(rs1), CondFunct3(cond), OP_BRANCH)
  }

  /** The branch a comparison with zero stands for: its condition and operands. */
  function ZeroBranch(zero: ZeroCond, rs: Reg): (Cond, Reg, Reg) {
    match zero
    case Eqz => (Eq, rs, 0)
    case Nez => (Ne, rs, 0)
    case Lez => (Ge, 0, rs)
    case Gez => (Ge, rs, 0)
    case Ltz => (Lt, rs, 0)
    case Gtz => (Lt, 0, rs)
  }

  /** The word of an instruction without a label operand. */
  function InstructionWord(s: Stmt): bv32 {
    match s
    case Op(op, rd, rs1, rs2) => EncodeR(Funct7(op), Field(rs2), Field(rs1), Funct3(op), Field(rd), OP_R)
    case OpImm(op, rd, rs1, imm) => EncodeI(ImmField(op, imm), Field(rs1), Funct3(op), Field(rd), OP_I_ARITH)
    case Load(kind, rd, base, off) => EncodeI(off, Field(base), LoadFunct3(kind), Field(rd), OP_LOAD)
    case Store(width, src, base, off) => EncodeS(off, Field(src), Field(base), StoreFunct3(width), OP_STORE)
    case Jalr(rd, rs1, imm) => EncodeI(imm, Field(rs1), F3_JALR, Field(rd), OP_JALR)
    case Lui(rd, imm) => LuiWord(rd, imm)
    case Auipc(rd, imm) => EncodeU(imm << 12, Field(rd), OP_AUIPC)
    case CsrReg(op, rd, rs1, csr) => EncodeI(csr, Field(rs1), CsrFunct3(op), Field(rd), OP_SYSTEM)
    case Csrr(rd, csr) => EncodeI(csr, 0, CsrFunct3(Rs), Field(rd), OP_SYSTEM)
    case Ecall => ECALL
    case Ebreak => EBREAK
    case Mret => MRET
    case Data(w) => w
    case _ => 0
  }

  /** The words of a statement with `target - pc` for a relative and `target` for an absolute label operand. */
  function WordsFor(s: Stmt, offset: bv32, target: bv32): (words: seq<bv32>)
    ensures |words| <= 2
  {
    match s
    case Label(_) => []
    case Nop => [AddiWord(0, 0, 0)]
    case Ret => [EncodeI(0, 1, F3_JALR, 0, OP_JALR)]
    case Mv(rd, rs) => [AddiWord(rd, rs, 0)]
    case Not(rd, rs) => [EncodeI(0xFFFF_FFFF, Field(rs), F3_XOR, Field(rd), OP_I_ARITH)]
    case Neg(rd, rs) => [EncodeR(F7_ALT, Field(rs), 0, F3_ADD_SUB, Field(rd), OP_R)]
    case Li(rd, v) =>
      if FitsI(v) then [AddiWord(rd, 0, v)]
      else [LuiWord(rd, SplitHi(v)), AddiWord(rd, rd, SplitLo(v))]
    case La(rd, _) => [LuiWord(rd, SplitHi(target)), AddiWord(rd, rd, SplitLo(target))]
    case J(_) => [JalWord(0, offset)]
    case Call(_) => [JalWord(1, offset)]
    case Jal(rd, _) => [JalWord(rd, offset)]
    case BranchZero(zero, rs, _) => var (cond, rs1, rs2) := ZeroBranch(zero, rs); [BranchWord(cond, rs1, rs2, offset)]
    case Branch(cond, rs1, rs2, _) => [BranchWord(cond, rs1, rs2, offset)]
    case _ => [InstructionWord(s)]
  }

  /** The label a statement refers to. */
  function Ref(s: Stmt): Option<Name> {
    match s
    case La(_, dest) => Some(dest)
    case J(dest) => Some(dest)
    case Call(dest) => Some(dest)
    case Jal(_, dest) => Some(dest)
    case BranchZero(_, _, dest) => Some(dest)
    case Branch(_, _, _, dest) => Some(dest)
    case _ => None
  }

  predicate IsJump(s: Stmt) { s.J? || s.Call? || s.Jal? }
  predicate IsBranch(s: Stmt) { s.Branch? || s.BranchZero? }

  /** The register a jump links. */
  function JumpRd(s: Stmt): Reg
    requires IsJump(s)
  {
    if s.J? then 0 else if s.Call? then 1 else s.rd
  }

  /** The condition and operands of a branch. */
  function BranchShape(s: Stmt): (Cond, Reg, Reg)
    requires IsBranch(s)
  {
    if s.Branch? then (s.cond, s.rs1, s.rs2) else ZeroBranch(s.zero, s.rs)
  }

  // ----- one sweep -----

  /** The words emitted for a statement, with zero for a label. */
  function Emitted(s: Stmt): (words: seq<bv32>)
    ensures |words| <= 2
  {
    WordsFor(s, 0, 0)
  }

  /** The patches recorded for a statement whose first word has index `idx`. */
  function PatchesOf(s: Stmt, idx: nat, base: bv32): seq<Patch> {
    match Ref(s)
    case None => []
    case Some(dest) =>
      var first := Patch(idx, dest, WordAddr(base, idx));
      if s.La? then [first, Patch(idx + 1, dest + "__lo", WordAddr(base, idx + 1))] else [first]
  }

  function AsmStmt(a: Asm, s: Stmt): Asm {
    match s
    case Label(name) => a.(labelDefs := a.labelDefs[name := WordAddr(a.base, |a.program|)])
    case _ => a.(program := a.program + Emitted(s), patches := a.patches + PatchesOf(s, |a.program|, a.base))
  }

  function AsmAll(base: bv32, stmts: seq<Stmt>): Asm {
    if stmts == [] then Asm(base, [], map[], [])
    else AsmStmt(AsmAll(base, stmts[..|stmts| - 1]), stmts[|stmts| - 1])
  }

  // ----- resolving -----

  /** Labels with this ending are taken for the second patch of a LA and skipped. */
  predicate Skipped(name: string) {
    |name| > 4 && name[|name| - 4..] == "__lo"
  }

  datatype Resolution = Resolution(program: seq<bv32>, ok: bool)

  /** Patching the word at `idx` for a label at `target`. */
  function Patched(program: seq<bv32>, idx: nat, instrPC: bv32, target: bv32): Resolution
    requires idx < |program|
  {
    var was := program[idx];
    var offset := Minus(target, instrPC);
    var op := DecodeOpcode(was);
    if op == OP_JAL then
      Resolution(program[idx := EncodeJ(offset, DecodeRd(was), OP_JAL)], true)
    else if op == OP_BRANCH then
      Resolution(program[idx := EncodeB(offset, DecodeRs2(was), DecodeRs1(was), DecodeFunct3(was), OP_BRANCH)], true)
    else if op == OP_LUI && idx + 1 < |program| then
      var rd := DecodeRd(was);
      Resolution(program[idx := EncodeU(SplitHi(target) << 12, rd, OP_LUI)]
                        [idx + 1 := EncodeI(SplitLo(target), rd, F3_ADD_SUB, rd, OP_I_ARITH)], true)
    else
      Resolution(program, false)
  }

  function ResolveOne(r: Resolution, p: Patch, labelDefs: map<string, bv32>): (r': Resolution)
    ensures |r'.program| == |r.program|
  {
    if Skipped(p.name) then r
    else if p.name !in labelDefs then r.(ok := false)
    else if p.idx >= |r.program| then r.(ok := false)
    else
      var patched := Patched(r.program, p.idx, p.instrPC, labelDefs[p.name]);
      Resolution(patched.program, r.ok && patched.ok)
  }

  function ResolveAll(program: seq<bv32>, patches: seq<Patch>, labelDefs: map<string, bv32>): (r: Resolution)
    ensures |r.program| == |program|
  {
    if patches == [] then Resolution(program, true)
    else ResolveOne(ResolveAll(program, patches[..|patches| - 1], labelDefs), patches[|patches| - 1], labelDefs)
  }
}
