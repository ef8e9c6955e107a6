/** What arithmetic and comparison instructions compute, as numbers and bits. */
module Alu {
  import opened Words
  import opened Csr
  import opened Isa
  import opened Reach
  import opened Bits

  // ----- arithmetic -----

  /** Addition and subtraction modulo 2^32. */
  lemma SumMeaning(a: bv32, b: bv32)
    ensures Nat(AluValue(Add, a, b)) == (Nat(a) + Nat(b)) % TWO_32
    ensures Nat(AluValue(Sub, a, b)) == (Nat(a) - Nat(b)) % TWO_32
  {
    hide Nat, Plus, Minus;
    PlusValue(a, b);
    MinusValue(a, b);
  }

  /** The bitwise operations, bit by bit. */
  lemma BitwiseMeaning(a: bv32, b: bv32, k: nat)
    ensures Bit(AluValue(And, a, b), k) == if Bit(a, k) == 1 && Bit(b, k) == 1 then 1 else 0
    ensures Bit(AluValue(Or, a, b), k) == if Bit(a, k) == 1 || Bit(b, k) == 1 then 1 else 0
    ensures Bit(AluValue(Xor, a, b), k) == if Bit(a, k) == Bit(b, k) then 0 else 1
  {
    hide Bit, BitAnd, BitOr, BitXor;
    BitwiseBits(a, b, k);
  }

  /** The shifts, by the low five bits of the second operand. */
  lemma ShiftMeaning(a: bv32, b: bv32)
    ensures var p := Pow2(Nat(b) % 32);
            && Nat(AluValue(Sll, a, b)) == Nat(a) * p % TWO_32
            && Nat(AluValue(Srl, a, b)) == Nat(a) / p
            && SInt(AluValue(Sra, a, b)) == SInt(a) / p
  {
    hide Nat, SInt, Pow2, ShiftLeft, ShiftRight, ShiftRightArith;
    ShiftValues(a, b);
    ArithmeticShiftValue(a, b);
  }

  /** The comparisons that set a register are those that branches make. */
  lemma SetLessMeaning(a: bv32, b: bv32)
    ensures Nat(AluValue(Slt, a, b)) == if Taken(Lt, a, b) then 1 else 0
    ensures Nat(AluValue(Sltu, a, b)) == if Taken(Ltu, a, b) then 1 else 0
  {
    hide Nat, SLess, ULess;
    ZeroValue();
    OneValue();
  }

  // ----- comparisons -----

  function Truth(b: bool): nat { if b then 1 else 0 }

  /** Exactly one of less, equal and greater holds, unsigned and signed; the other conditions are negations. */
  lemma Trichotomy(a: bv32, b: bv32)
    ensures Truth(Taken(Ltu, a, b)) + Truth(Taken(Eq, a, b)) + Truth(Taken(Ltu, b, a)) == 1
    ensures Truth(Taken(Lt, a, b)) + Truth(Taken(Eq, a, b)) + Truth(Taken(Lt, b, a)) == 1
    ensures Taken(Ne, a, b) == !Taken(Eq, a, b) && Taken(Ge, a, b) == !Taken(Lt, a, b)
    ensures Taken(Geu, a, b) == !Taken(Ltu, a, b)
  {
    hide Nat, SInt;
    SIntValue(a);
    SIntValue(b);
    NatRange(a);
    NatRange(b);
    if Nat(a) == Nat(b) {
      NatInjective(a, b);
    }
  }

  /** Unsigned less: the subtraction borrows. */
  lemma BorrowMeaning(a: bv32, b: bv32)
    ensures Taken(Ltu, a, b) <==> Nat(Minus(a, b)) == Nat(a) - Nat(b) + TWO_32
    ensures !Taken(Ltu, a, b) <==> Nat(Minus(a, b)) == Nat(a) - Nat(b)
  {
    hide Nat, Minus;
    MinusValue(a, b);
    NatRange(a);
    NatRange(b);
  }

  /** The difference is one a signed word can hold. */
  predicate SignedFits(n: int) {
    -0x8000_0000 <= n < 0x8000_0000
  }

  /** Signed less: the difference is negative, or it would be if it had not overflowed. */
  lemma OverflowMeaning(a: bv32, b: bv32)
    ensures SignedFits(SInt(a) - SInt(b)) ==> SInt(Minus(a, b)) == SInt(a) - SInt(b)
    ensures Taken(Lt, a, b) <==> (SInt(Minus(a, b)) < 0 <==> SignedFits(SInt(a) - SInt(b)))
  {
    hide Nat, SInt, Minus;
    MinusValue(a, b);
    SIntValue(a);
    SIntValue(b);
    SIntValue(Minus(a, b));
    NatRange(a);
    NatRange(b);
  }

  /** The two orders differ exactly for operands of different sign. */
  lemma OrdersCompared(a: bv32, b: bv32)
    ensures (Taken(Lt, a, b) <==> Taken(Ltu, a, b)) <==> (SInt(a) < 0 <==> SInt(b) < 0)
  {
    hide Nat, SInt;
    SIntValue(a);
    SIntValue(b);
    NatRange(a);
    NatRange(b);
  }

  // ----- registers -----

  /** A register reads back what was written to it, register 0 reads as zero, and no other register changes. */
  lemma ReadAfterWrite(x: Regs, r: Reg, v: bv32, q: Reg)
    ensures Get(Set(x, r, v), q) == if q == r && r != 0 then v else Get(x, q)
    ensures Get(x, 0) == 0
  {
    if q != r {
      NumbersDiffer(q, r);
    }
  }

  lemma NumbersDiffer(q: Reg, r: Reg)
    requires q != r
    ensures q as int != r as int
  {}

  /** The registers that the kernel reads and writes by number are those that instructions name. */
  lemma NamedRegisters(x: Regs)
    ensures Get(x, 2) == x[2] && Get(x, 10) == x[10] && Get(x, 11) == x[11] && Get(x, 17) == x[17]
  {}

  // ----- control flow -----

  lemma EvenBytes(v: bv32)
    ensures var t := BitAnd(v, 0xFFFF_FFFE);
            Byte0(t) == Byte0(v) & 0xFE && Byte1(t) == Byte1(v) && Byte2(t) == Byte2(v) && Byte3(t) == Byte3(v)
  {}

  lemma EvenByteValue(b: bv8)
    ensures Value8(b & 0xFE) == Value8(b) - Value8(b) % 2
  {}

  /** Clearing the low bit rounds down to an even number. */
  lemma EvenValue(v: bv32)
    ensures Nat(BitAnd(v, 0xFFFF_FFFE)) == Nat(v) - Nat(v) % 2
  {
    hide Nat, Value8, BitAnd, Byte0, Byte1, Byte2, Byte3;
    var t := BitAnd(v, 0xFFFF_FFFE);
    WordDigits(v);
    WordDigits(t);
    EvenBytes(v);
    EvenByteValue(Byte0(v));
    ParityOfNumber(Nat(v), Value8(Byte0(v)), Value8(Byte1(v)), Value8(Byte2(v)), Value8(Byte3(v)));
  }

  lemma LinkValue(x: Regs, rd: Reg, pc: bv32)
    ensures rd != 0 ==> Nat(Get(Set(x, rd, Plus(pc, 4)), rd)) == (Nat(pc) + 4) % TWO_32
    ensures Nat(Plus(pc, 4)) == (Nat(pc) + 4) % TWO_32
  {
    hide Nat, Plus, Get, Set, NextAddr;
    NextIsPlus(pc);
    NextValue(pc);
    ReadAfterWrite(x, rd, Plus(pc, 4), rd);
  }

  /** JAL: the target is the offset away, and rd gets the address after the jump. */
  lemma JalMeaning(rd: Reg, imm: bv32, w: bv32, x: Regs, pc: bv32, mode: PrivMode, memId: int, m: seq<bv8>)
    ensures var e := Execute(Jal(rd, imm), w, x, pc, mode, memId, m);
            && e.Retire? && e.write == NoWrite && Nat(e.pc) == (Nat(pc) + Nat(imm)) % TWO_32
            && (rd != 0 ==> Nat(Get(e.x, rd)) == (Nat(pc) + 4) % TWO_32)
  {
    hide Nat, Plus, Get, Set;
    LinkValue(x, rd, pc);
    PlusValue(pc, imm);
  }

  /** JALR: the target is the sum rounded down to an even address. */
  lemma JalrMeaning(rd: Reg, rs1: Reg, imm: bv32, w: bv32, x: Regs, pc: bv32, mode: PrivMode, memId: int, m: seq<bv8>)
    ensures var e, sum := Execute(Jalr(rd, rs1, imm), w, x, pc, mode, memId, m), (Nat(Get(x, rs1)) + Nat(imm)) % TWO_32;
            && e.Retire? && e.write == NoWrite && Nat(e.pc) == sum - sum % 2
            && (rd != 0 ==> Nat(Get(e.x, rd)) == (Nat(pc) + 4) % TWO_32)
  {
    hide Nat, Plus, Get, Set, BitAnd;
    LinkValue(x, rd, pc);
    PlusValue(Get(x, rs1), imm);
    EvenValue(Plus(Get(x, rs1), imm));
  }

  /** A branch goes the offset away if its condition holds and otherwise to the next word; it changes no register. */
  lemma BranchMeaning(cond: Cond, rs1: Reg, rs2: Reg, imm: bv32, w: bv32, x: Regs, pc: bv32, mode: PrivMode, memId: int,
        m: seq<bv8>)
    ensures var e := Execute(Branch(cond, rs1, rs2, imm), w, x, pc, mode, memId, m);
            && e.Retire? && e.write == NoWrite && e.x == x
            && Nat(e.pc) == (Nat(pc) + if Taken(cond, Get(x, rs1), Get(x, rs2)) then Nat(imm) else 4) % TWO_32
  {
    hide Nat, Plus, Get, Set, Taken;
    LinkValue(x, 0, pc);
    PlusValue(pc, imm);
  }
}
