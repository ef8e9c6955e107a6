/** One hart and its interpreter (cpu.h). */
module Cpu {
  import opened Options
  import opened Words
  import opened Encode
  import opened Memory
  import opened Csr
  import opened Isa

  datatype HartState = Running | Halted | Waiting | Faulted

  /** The value of a hart: everything `Hart` holds except its reference to the shared memory. */
  datatype HartView = HartView(id: int, state: HartState, mode: PrivMode, x: Regs, pc: bv32, steps: nat,
                               csr: Csrs, timerPending: bool)
  {
    /** Trap entry: save the state, switch to machine mode, go to mtvec. */
    function Trapped(cause: bv32, tval: bv32): HartView {
      this.(csr := csr.TrapEnter(pc, cause, tval, mode), mode := M, pc := TrapVector(csr.mtvec))
    }

    /** A completed instruction; only the MRET path forgets to count a cycle. */
    function Completed(x': Regs, pc': bv32, cycles: nat): HartView {
      this.(x := x'[0 := 0], pc := pc', steps := steps + 1, csr := csr.(cycle := csr.cycle + cycles))
    }
  }

  function TrapVector(mtvec: bv32): bv32 {
    mtvec & 0xFFFF_FFFC
  }

  datatype StepResult = StepResult(h: HartView, m: seq<bv8>, ok: bool)

  /** The value a CSR instruction writes back, given the old one. */
  function CsrUpdate(funct3: bv32, was: bv32, a: bv32, imm: bv32): Option<bv32> {
    if funct3 == 1 then Some(a)
    else if funct3 == 2 then Some(BitOr(was, a))
    else if funct3 == 3 then Some(BitAnd(was, Complement(a)))
    else if funct3 == 5 then Some(imm)
    else if funct3 == 6 then Some(BitOr(was, imm))
    else if funct3 == 7 then Some(BitAnd(was, Complement(imm)))
    else None
  }

  datatype Exception = Exception(cause: bv32, tval: bv32)

  /** What a SYSTEM instruction does: raise, return from a trap, or update registers and CSRs before completing. */
  datatype SystemOutcome = Raise(e: Exception) | Return(h: HartView) | Update(h: HartView)

  /** MRET counts a step but, unlike every other instruction, no cycle. */
  function MretView(h: HartView): HartView {
    h.(mode := h.csr.PreviousMode(), csr := h.csr.TrapReturn()).Completed(h.x, h.csr.mepc, 0)
  }

  function Zimm(w: bv32): bv32 { Rs1Of(w) as bv32 }

  /** A CSR instruction in machine mode, or None where it is illegal. */
  function CsrView(h: HartView, w: bv32): Option<HartView> {
    match h.csr.Read(FieldI(w))
    case None => None
    case Some(value) =>
      match CsrUpdate(DecodeFunct3(w), value, Get(h.x, Rs1Of(w)), Zimm(w))
      case None => None
      case Some(v) => Some(h.(csr := h.csr.Write(FieldI(w), v), x := Set(h.x, RdOf(w), value)))
  }

  function SystemEffect(h: HartView, w: bv32): SystemOutcome {
    match DecodeSystem(w)
    case Ecall => Raise(Exception(if h.mode == M then ECALL_M else ECALL_U, 0))
    case Ebreak => Raise(Exception(BREAKPOINT, h.pc))
    case Mret => if h.mode == M then Return(MretView(h)) else Raise(Exception(ILLEGAL_INSN, w))
    case _ =>
      if h.mode != M then Raise(Exception(ILLEGAL_INSN, w))
      else match CsrView(h, w) case None => Raise(Exception(ILLEGAL_INSN, w)) case Some(h') => Update(h')
  }

  /** How an effect changes the hart and the memory. */
  function Finish(h: HartView, effect: Effect, m: seq<bv8>): (r: StepResult)
    ensures |r.m| == |m|
  {
    match effect
    case Retire(x, pc, write) => StepResult(h.Completed(x, pc, 1), Apply(m, write), true)
    case Trap(cause, tval) => StepResult(h.Trapped(cause, tval), m, false)
    case Stop => StepResult(h.(state := Halted), m, false)
    case System(w) =>
      match SystemEffect(h, w)
      case Raise(e) => StepResult(h.Trapped(e.cause, e.tval), m, false)
      case Return(h') => StepResult(h', m, true)
      case Update(h') => StepResult(h'.Completed(h'.x, Plus(h.pc, 4), 1), m, true)
  }

  /** What `executeOne` does, in terms of the instruction set's meaning. */
  function Executed(h: HartView, m: seq<bv8>): (r: StepResult)
    ensures |r.m| == |m|
  {
    if h.timerPending && h.csr.InterruptsEnabled() && h.mode == U then
      StepResult(h.(timerPending := false).Trapped(TIMER_INT, 0), m, false)
    else
      Finish(h, Perform(h.x, h.pc, h.mode, h.id, m), m)
  }

  lemma IllegalWord(w: bv32, x: Regs, pc: bv32, mode: PrivMode, memId: int, m: seq<bv8>)
    requires DecodeOpcode(w) !in {0x33, 0x13, 0x03, 0x23, 0x63, 0x6F, 0x67, 0x37, 0x17, 0x73}
    ensures Execute(Decode(w), w, x, pc, mode, memId, m) == Trap(ILLEGAL_INSN, w)
  {
    hide DecodeOpcode;
  }

  /** A SYSTEM word traps in user mode, and is handed to `SystemEffect` in machine mode. */
  lemma SystemWord(h: HartView, w: bv32, memId: int, m: seq<bv8>)
    ensures var effect := Execute(DecodeSystem(w), w, h.x, h.pc, h.mode, memId, m);
            match SystemEffect(h, w)
            case Raise(e) => effect == Trap(e.cause, e.tval) || effect == System(w)
            case _ => effect == System(w)
  {
    hide DecodeFunct3, RdOf, Rs1Of, FieldI, CsrView, MretView;
  }

  /** An interpreter case that leaves memory alone did what the effect says. */
  ghost predicate Follows(effect: Effect, e: Option<Exception>, x: Regs, x': Regs, nextPC: bv32) {
    match effect
    case Retire(x1, pc1, write) => e == None && x' == x1 && nextPC == pc1 && write == NoWrite
    case Trap(cause, tval) => e == Some(Exception(cause, tval)) && x' == x
    case _ => false
  }

  /** The same for a store. */
  ghost predicate Wrote(effect: Effect, e: Option<Exception>, x: Regs, x': Regs, nextPC: bv32, m: seq<bv8>, m': seq<bv8>) {
    match effect
    case Retire(x1, pc1, write) => e == None && x' == x1 && nextPC == pc1 && m' == Apply(m, write)
    case Trap(cause, tval) => e == Some(Exception(cause, tval)) && x' == x && m' == m
    case _ => false
  }

  /** The accesses an instruction is allowed to make lie in the array. */
  predicate OperandsInArray(h: HartView, w: bv32, memId: int) {
    match Decode(w)
    case Load(width, _, _, rs1, imm) => InArray(Nat(Plus(Get(h.x, rs1), imm)), width.Bytes(), LOAD, memId)
    case Store(width, rs1, _, imm) => InArray(Nat(Plus(Get(h.x, rs1), imm)), width.Bytes(), STORE, memId)
    case _ => true
  }

  /** The same for the whole step, the fetch included. */
  predicate AccessesInArray(h: HartView, m: seq<bv8>) {
    var memId := AccessId(h.mode, h.id);
    InArray(Nat(h.pc), 4, LOAD, memId) && OperandsInArray(h, WordAt(m, Nat(h.pc)), memId)
  }

  /** In user mode that holds by itself, for all eight hart ids. */
  lemma UserAccessesInArray(h: HartView, m: seq<bv8>)
    requires h.mode == U && 0 <= h.id < MAX_HARTS
    ensures AccessesInArray(h, m)
  {}

  /** A store by the parts of its word. */
  lemma StoreMeans(w: bv32, x: Regs, pc: bv32, mode: PrivMode, memId: int, m: seq<bv8>)
    ensures Execute(DecodeStore(w), w, x, pc, mode, memId, m)
         == match StoreOf(DecodeFunct3(w))
            case None => Trap(ILLEGAL_INSN, w)
            case Some(width) =>
              var addr := Plus(Get(x, Rs1Of(w)), DecodeImmS(w));
              if Check(Nat(addr), STORE, memId).NoFault? then
                Retire(x, Plus(pc, 4), PutBytes(Nat(addr), Stored(Get(x, Rs2Of(w)), width)))
              else Trap(STORE_FAULT, addr)
  {
    hide Get, Plus, Nat, Check, StoreOf, Stored, DecodeFunct3, Rs1Of, Rs2Of, DecodeImmS;
  }

  // ----- the switches of the interpreter -----

  function SwitchR(funct7: bv32, funct3: bv32, a: bv32, b: bv32): Option<bv32> {
    if funct7 == 0x00 then
      match funct3
      case 0 => Some(Plus(a, b))
      case 1 => Some(ShiftLeft(a, b))
      case 2 => Some(if SLess(a, b) then 1 else 0)
      case 3 => Some(if ULess(a, b) then 1 else 0)
      case 4 => Some(BitXor(a, b))
      case 5 => Some(ShiftRight(a, b))
      case 6 => Some(BitOr(a, b))
      case 7 => Some(BitAnd(a, b))
      case _ => Some(0)
    else if funct7 == 0x20 then
      match funct3
      case 0 => Some(Minus(a, b))
      case 5 => Some(ShiftRightArith(a, b))
      case _ => None
    else None
  }

  function SwitchI(funct3: bv32, funct7: bv32, a: bv32, imm: bv32): Option<bv32> {
    match funct3
    case 0 => Some(Plus(a, imm))
    case 2 => Some(if SLess(a, imm) then 1 else 0)
    case 3 => Some(if ULess(a, imm) then 1 else 0)
    case 4 => Some(BitXor(a, imm))
    case 6 => Some(BitOr(a, imm))
    case 7 => Some(BitAnd(a, imm))
    case 1 => Some(ShiftLeft(a, imm))
    case 5 => if funct7 == 0x20 then Some(ShiftRightArith(a, imm)) else Some(ShiftRight(a, imm))
    case _ => None
  }

  function SwitchBranch(funct3: bv32, a: bv32, b: bv32): Option<bool> {
    match funct3
    case 0 => Some(a == b)
    case 1 => Some(a != b)
    case 4 => Some(SLess(a, b))
    case 5 => Some(!SLess(a, b))
    case 6 => Some(ULess(a, b))
    case 7 => Some(!ULess(a, b))
    case _ => None
  }

  lemma Funct3InRange(w: bv32)
    ensures Field3(DecodeFunct3(w))
  {}

  lemma SwitchRMeaning(funct7: bv32, funct3: bv32, a: bv32, b: bv32)
    requires Field3(funct3)
    ensures SwitchR(funct7, funct3, a, b)
         == match AluOpOf(funct7, funct3) case Some(op) => Some(AluValue(op, a, b)) case None => None
  {
    hide Plus, Minus, BitAnd, BitOr, BitXor, ULess, SLess, ShiftLeft, ShiftRight, ShiftRightArith;
    if funct7 != 0 {
      assert funct7 == 0x20 ==> SwitchR(funct7, 0, a, b) == Some(AluValue(Sub, a, b));
    }
  }

  lemma SwitchIMeaning(funct3: bv32, funct7: bv32, a: bv32, imm: bv32)
    requires Field3(funct3)
    ensures SwitchI(funct3, funct7, a, imm) == Some(AluValue(AluImmOpOf(funct7, funct3), a, imm))
  {
    hide Plus, Minus, BitAnd, BitOr, BitXor, ULess, SLess, ShiftLeft, ShiftRight, ShiftRightArith;
  }

  lemma SwitchBranchMeaning(funct3: bv32, a: bv32, b: bv32)
    ensures SwitchBranch(funct3, a, b)
         == match CondOf(funct3) case Some(cond) => Some(Taken(cond, a, b)) case None => None
  {
    hide ULess, SLess;
  }

  // ----- the hart object -----

  /** The value of a hart that `init` has just set up. */
  function InitialView(id: nat, entryPC: bv32): HartView {
    HartView(id, Running, U, seq(32, i => if i == 2 then FromNat(StackTop(id)) else 0), entryPC, 0,
             Csrs(0x88, 0, 0, 0, 0, 0, 0x80, FromNat(id), 0), false)
  }

  class Hart {
    const id: int
    const mem: ProtectedMemory
    const x: array<bv32>
    const csr: CSRFile
    var state: HartState
    var mode: PrivMode
    var pc: bv32
    var steps: nat
    var timerPending: bool

    constructor Init(hartId: nat, sharedMem: ProtectedMemory, entryPC: bv32)
      requires sharedMem.data.Length == MEM_SIZE
      ensures Valid() && mem == sharedMem
      ensures fresh(x) && fresh(csr)
      ensures View() == InitialView(hartId, entryPC)
    {
      hide FromNat;
      id := hartId;
      mem := sharedMem;
      pc := entryPC;
      state := Running;
      mode := U;
      steps := 0;
      timerPending := false;
      x := new bv32[32](_ => 0);
      csr := new CSRFile();
      new;
      x[2] := FromNat(StackTop(hartId));
      csr.hartid := FromNat(hartId);
      csr.mie := 0x80;
      csr.mstatus := 0x88;
      assert x[..] == InitialView(hartId, entryPC).x;
    }

    predicate Valid() {
      x.Length == 32 && mem.data.Length == MEM_SIZE
    }

    function View(): HartView
      requires Valid()
      reads this, x, csr
    {
      HartView(id, state, mode, x[..], pc, steps, csr.View(), timerPending)
    }

    method DeliverTrap(cause: bv32, tval: bv32)
      requires Valid()
      modifies this, csr
      ensures View() == old(View()).Trapped(cause, tval)
    {
      hide TrapVector, StatusEnter;
      csr.TrapEnter(pc, cause, tval, mode);
      mode := M;
      pc := TrapVector(csr.mtvec);
    }

    function ReadReg(r: Reg): (v: bv32)
      requires Valid()
      reads x
      ensures v == Get(x[..], r)
    {
      if r == 0 then 0 else x[r as int]
    }

    method WriteReg(r: Reg, v: bv32)
      requires Valid()
      modifies x
      ensures x[..] == Set(old(x[..]), r, v)
    {
      if r != 0 {
        x[r as int] := v;
      }
    }

    // The cases of the interpreter's switch on the opcode. Each leaves the registers, the memory and the next
    // program counter as the instruction's meaning says, or reports the exception to deliver.

    method RegisterArithmetic(instr: bv32, ghost memId: int) returns (e: Option<Exception>)
      requires Valid()
      modifies x
      ensures Follows(Execute(DecodeAlu(instr), instr, old(x[..]), pc, mode, memId, mem.data[..]), e,
                      old(x[..]), x[..], Plus(pc, 4))
    {
      hide Get, Set, Plus, Minus, BitAnd, BitOr, BitXor, ULess, SLess, ShiftLeft, ShiftRight, ShiftRightArith;
      hide AluValue, Taken, SwitchR, SwitchI, SwitchBranch, AluOpOf, AluImmOpOf, CondOf;
      hide DecodeFunct3, DecodeFunct7, RdOf, Rs1Of, Rs2Of, DecodeImmI, DecodeImmB;
      Funct3InRange(instr);
      var funct3, funct7 := DecodeFunct3(instr), DecodeFunct7(instr);
      var a, b := ReadReg(Rs1Of(instr)), ReadReg(Rs2Of(instr));
      SwitchRMeaning(funct7, funct3, a, b);
      match SwitchR(funct7, funct3, a, b) {
        case None => e := Some(Exception(ILLEGAL_INSN, instr));
        case Some(r) => e := None; WriteReg(RdOf(instr), r);
      }
    }

    method ImmediateArithmetic(instr: bv32, ghost memId: int) returns (e: Option<Exception>)
      requires Valid()
      modifies x
      ensures Follows(Execute(DecodeAluImm(instr), instr, old(x[..]), pc, mode, memId, mem.data[..]), e,
                      old(x[..]), x[..], Plus(pc, 4))
    {
      hide Get, Set, Plus, Minus, BitAnd, BitOr, BitXor, ULess, SLess, ShiftLeft, ShiftRight, ShiftRightArith;
      hide AluValue, Taken, SwitchR, SwitchI, SwitchBranch, AluOpOf, AluImmOpOf, CondOf;
      hide DecodeFunct3, DecodeFunct7, RdOf, Rs1Of, Rs2Of, DecodeImmI, DecodeImmB;
      Funct3InRange(instr);
      var funct3, funct7 := DecodeFunct3(instr), DecodeFunct7(instr);
      var a, imm := ReadReg(Rs1Of(instr)), DecodeImmI(instr);
      SwitchIMeaning(funct3, funct7, a, imm);
      match SwitchI(funct3, funct7, a, imm) {
        case None => e := Some(Exception(ILLEGAL_INSN, instr));
        case Some(r) => e := None; WriteReg(RdOf(instr), r);
      }
    }

    method BranchInstruction(instr: bv32, ghost memId: int) returns (e: Option<Exception>, nextPC: bv32)
      requires Valid()
      ensures Follows(Execute(DecodeBranch(instr), instr, x[..], pc, mode, memId, mem.data[..]), e, x[..], x[..], nextPC)
    {
      hide Get, Set, Plus, Minus, BitAnd, BitOr, BitXor, ULess, SLess, ShiftLeft, ShiftRight, ShiftRightArith;
      hide AluValue, Taken, SwitchR, SwitchI, SwitchBranch, AluOpOf, AluImmOpOf, CondOf;
      hide DecodeFunct3, DecodeFunct7, RdOf, Rs1Of, Rs2Of, DecodeImmI, DecodeImmB;
      var a, b := ReadReg(Rs1Of(instr)), ReadReg(Rs2Of(instr));
      e, nextPC := None, Plus(pc, 4);
      SwitchBranchMeaning(DecodeFunct3(instr), a, b);
      match SwitchBranch(DecodeFunct3(instr), a, b) {
        case None => e := Some(Exception(ILLEGAL_INSN, instr));
        case Some(taken) => if taken { nextPC := Plus(pc, DecodeImmB(instr)); }
      }
    }

    method LoadInstruction(instr: bv32, memId: int) returns (e: Option<Exception>)
      requires Valid()
      requires var i := DecodeLoad(instr);
               i.Load? ==> InArray(Nat(Plus(Get(x[..], i.rs1), i.imm)), i.width.Bytes(), LOAD, memId)
      modifies x
      ensures Follows(Execute(DecodeLoad(instr), instr, old(x[..]), pc, mode, memId, mem.data[..]), e,
                      old(x[..]), x[..], Plus(pc, 4))
    {
      hide Get, Set, Plus, Nat, Check, LoadOf, Loaded, InArray, DecodeFunct3, RdOf, Rs1Of, DecodeImmI;
      var addr := Plus(ReadReg(Rs1Of(instr)), DecodeImmI(instr));
      match LoadOf(DecodeFunct3(instr)) {
        case None => e := Some(Exception(ILLEGAL_INSN, instr));
        case Some((width, signed)) =>
          var r, fault := LoadExtended(Nat(addr), width, signed, memId);
          if fault.Fault? {
            return Some(Exception(LOAD_FAULT, addr));
          }
          WriteReg(RdOf(instr), r);
          e := None;
      }
    }

    method LoadExtended(addr: nat, width: Width, signed: bool, memId: int) returns (r: bv32, fault: MemFault)
      requires Valid() && InArray(addr, width.Bytes(), LOAD, memId)
      ensures fault == Check(addr, LOAD, memId)
      ensures fault.NoFault? ==> r == Loaded(mem.data[..], addr, width, signed)
    {
      hide SignExt, Check, ByteAt, HalfAt, WordAt, Widen8, Widen16;
      match width {
        case Byte =>
          var v := mem.LoadByte(addr, memId);
          r, fault := if signed then SignExt(Widen8(v.0), 0x80) else Widen8(v.0), v.1;
        case Half =>
          var v := mem.LoadHalf(addr, memId);
          r, fault := if signed then SignExt(Widen16(v.0), 0x8000) else Widen16(v.0), v.1;
        case Word =>
          var v := mem.LoadWord(addr, memId);
          r, fault := v.0, v.1;
      }
    }

    method StoreInstruction(instr: bv32, memId: int) returns (e: Option<Exception>)
      requires Valid()
      requires var i := DecodeStore(instr);
               i.Store? ==> InArray(Nat(Plus(Get(x[..], i.rs1), i.imm)), i.width.Bytes(), STORE, memId)
      modifies mem.data
      ensures Wrote(Execute(DecodeStore(instr), instr, x[..], pc, mode, memId, old(mem.data[..])), e,
                    x[..], x[..], Plus(pc, 4), old(mem.data[..]), mem.data[..])
    {
      hide Get, Plus, Nat, Check, StoreOf, Stored, Apply, DecodeFunct3, Rs1Of, Rs2Of, DecodeImmS, Execute, InArray;
      StoreMeans(instr, x[..], pc, mode, memId, mem.data[..]);
      var addr := Plus(ReadReg(Rs1Of(instr)), DecodeImmS(instr));
      var val := ReadReg(Rs2Of(instr));
      match StoreOf(DecodeFunct3(instr)) {
        case None => e := Some(Exception(ILLEGAL_INSN, instr));
        case Some(width) =>
          ApplyNothing(mem.data[..]);
          var fault := StoreCut(Nat(addr), val, width, memId);
          if fault.Fault? {
            return Some(Exception(STORE_FAULT, addr));
          }
          e := None;
      }
    }

    method StoreCut(addr: nat, val: bv32, width: Width, memId: int) returns (fault: MemFault)
      requires Valid() && InArray(addr, width.Bytes(), STORE, memId)
      modifies mem.data
      ensures fault == Check(addr, STORE, memId)
      ensures mem.data[..] == Apply(old(mem.data[..]), if fault.NoFault? then PutBytes(addr, Stored(val, width)) else NoWrite)
    {
      hide Check, LowByte, LowHalf, WordBytes, HalfBytes;
      match width {
        case Byte => fault := mem.StoreByte(addr, LowByte(val), memId);
        case Half => fault := mem.StoreHalf(addr, LowHalf(val), memId);
        case Word => fault := mem.StoreWord(addr, val, memId);
      }
    }

    method UnconditionalJump(instr: bv32, ghost memId: int) returns (nextPC: bv32)
      requires Valid() && (DecodeOpcode(instr) == 0x6F || DecodeOpcode(instr) == 0x67)
      modifies x
      ensures Follows(Execute(Decode(instr), instr, old(x[..]), pc, mode, memId, mem.data[..]), None,
                      old(x[..]), x[..], nextPC)
    {
      hide Get, Set, Plus, BitAnd, DecodeOpcode, RdOf, Rs1Of, DecodeImmI, DecodeImmJ;
      var ret := Plus(pc, 4);
      if DecodeOpcode(instr) == 0x6F {
        nextPC := Plus(pc, DecodeImmJ(instr));
      } else {
        nextPC := BitAnd(Plus(ReadReg(Rs1Of(instr)), DecodeImmI(instr)), 0xFFFF_FFFE);
      }
      WriteReg(RdOf(instr), ret);
    }

    method UpperImmediate(instr: bv32, ghost memId: int)
      requires Valid() && (DecodeOpcode(instr) == 0x37 || DecodeOpcode(instr) == 0x17)
      modifies x
      ensures Follows(Execute(Decode(instr), instr, old(x[..]), pc, mode, memId, mem.data[..]), None,
                      old(x[..]), x[..], Plus(pc, 4))
    {
      hide Get, Set, Plus, DecodeOpcode, RdOf, DecodeImmU;
      if DecodeOpcode(instr) == 0x37 {
        WriteReg(RdOf(instr), DecodeImmU(instr));
      } else {
        WriteReg(RdOf(instr), Plus(pc, DecodeImmU(instr)));
      }
    }

    method Complete(nextPC: bv32)
      requires Valid()
      modifies this, x, csr
      ensures View() == old(View()).Completed(old(x[..]), nextPC, 1)
    {
      x[0] := 0;
      pc := nextPC;
      steps := steps + 1;
      csr.cycle := csr.cycle + 1;
    }

    /** ECALL, EBREAK, and in machine mode MRET (which completes by itself) and the CSR instructions. */
    method SystemInstruction(instr: bv32) returns (e: Option<Exception>, returned: bool)
      requires Valid()
      modifies this, x, csr
      ensures match SystemEffect(old(View()), instr)
              case Raise(exception) => e == Some(exception) && !returned && View() == old(View())
              case Return(h) => e == None && returned && View() == h
              case Update(h) => e == None && !returned && View() == h
    {
      hide MretView, CsrView, DecodeFunct3, RdOf, Rs1Of, FieldI;
      returned := false;
      if instr == 0x0000_0073 {
        return Some(Exception(if mode == M then ECALL_M else ECALL_U, 0)), false;
      }
      if instr == 0x0010_0073 {
        return Some(Exception(BREAKPOINT, pc)), false;
      }
      if instr == 0x3020_0073 {
        if mode != M {
          return Some(Exception(ILLEGAL_INSN, instr)), false;
        }
        MachineReturn();
        return None, true;
      }
      if mode != M {
        return Some(Exception(ILLEGAL_INSN, instr)), false;
      }
      e := AccessCsr(instr);
    }

    method MachineReturn()
      requires Valid()
      modifies this, x, csr
      ensures View() == MretView(old(View()))
    {
      hide StatusReturn;
      var prev := csr.TrapReturn();
      mode := prev;
      x[0] := 0;
      pc := csr.mepc;
      steps := steps + 1;
    }

    method AccessCsr(instr: bv32) returns (e: Option<Exception>)
      requires Valid()
      modifies x, csr
      ensures match CsrView(old(View()), instr)
              case None => e == Some(Exception(ILLEGAL_INSN, instr)) && View() == old(View())
              case Some(h) => e == None && View() == h
    {
      hide Get, Set, CsrUpdate, DecodeFunct3, RdOf, Rs1Of, FieldI, Csrs.Write;
      var value, ok := csr.Read(FieldI(instr));
      if !ok {
        return Some(Exception(ILLEGAL_INSN, instr));
      }
      var known := UpdateCsr(DecodeFunct3(instr), FieldI(instr), value, ReadReg(Rs1Of(instr)), Zimm(instr));
      if !known {
        return Some(Exception(ILLEGAL_INSN, instr));
      }
      WriteReg(RdOf(instr), value);
      e := None;
    }

    /** The switch over CSRRW to CSRRCI; false for any other funct3. */
    method UpdateCsr(funct3: bv32, csrAddr: bv32, was: bv32, a: bv32, zimm: bv32) returns (known: bool)
      modifies csr
      ensures match CsrUpdate(funct3, was, a, zimm)
              case None => !known && csr.View() == old(csr.View())
              case Some(v) => known && csr.View() == old(csr.View()).Write(csrAddr, v)
    {
      hide BitAnd, BitOr, Complement, Csrs.Write;
      known := true;
      match funct3 {
        case 1 => var _ := csr.Write(csrAddr, a);
        case 2 => var _ := csr.Write(csrAddr, BitOr(was, a));
        case 3 => var _ := csr.Write(csrAddr, BitAnd(was, Complement(a)));
        case 5 => var _ := csr.Write(csrAddr, zimm);
        case 6 => var _ := csr.Write(csrAddr, BitOr(was, zimm));
        case 7 => var _ := csr.Write(csrAddr, BitAnd(was, Complement(zimm)));
        case _ => known := false;
      }
    }

    /** The switch on the opcode, SYSTEM apart. */
    method Interpret(instr: bv32, memId: int) returns (e: Option<Exception>, nextPC: bv32)
      requires Valid() && DecodeOpcode(instr) != 0x73
      requires OperandsInArray(View(), instr, memId)
      modifies x, mem.data
      ensures Wrote(Execute(Decode(instr), instr, old(x[..]), pc, mode, memId, old(mem.data[..])), e,
                    old(x[..]), x[..], nextPC, old(mem.data[..]), mem.data[..])
    {
      hide Plus, Nat, Get, Apply, InArray, Execute, DecodeOpcode;
      hide DecodeAlu, DecodeAluImm, DecodeLoad, DecodeStore, DecodeBranch, DecodeSystem, RdOf, Rs1Of, DecodeImmI;
      hide DecodeImmJ, DecodeImmU;
      nextPC := Plus(pc, 4);
      e := None;
      ApplyNothing(mem.data[..]);
      match DecodeOpcode(instr) {
        case 0x33 => e := RegisterArithmetic(instr, memId);
        case 0x13 => e := ImmediateArithmetic(instr, memId);
        case 0x03 => e := LoadInstruction(instr, memId);
        case 0x23 => e := StoreInstruction(instr, memId);
        case 0x63 => e, nextPC := BranchInstruction(instr, memId);
        case 0x6F => nextPC := UnconditionalJump(instr, memId);
        case 0x67 => nextPC := UnconditionalJump(instr, memId);
        case 0x37 => UpperImmediate(instr, memId);
        case 0x17 => UpperImmediate(instr, memId);
        case _ =>
          IllegalWord(instr, x[..], pc, mode, memId, mem.data[..]);
          e := Some(Exception(ILLEGAL_INSN, instr));
      }
    }

    /** The SYSTEM opcode, and what follows it. */
    method DispatchSystem(instr: bv32, ghost memId: int) returns (ok: bool)
      requires Valid() && DecodeOpcode(instr) == 0x73
      modifies this, x, csr
      ensures var m := mem.data[..];
              var r := Finish(old(View()), Execute(Decode(instr), instr, old(x[..]), old(pc), old(mode), memId, m), m);
              View() == r.h && m == r.m && ok == r.ok
    {
      hide Plus, TrapVector, StatusEnter, Execute, DecodeOpcode, DecodeSystem, SystemEffect, HartView.Trapped;
      SystemWord(View(), instr, memId, mem.data[..]);
      assert Decode(instr) == DecodeSystem(instr);
      var nextPC := Plus(pc, 4);
      var e, returned := SystemInstruction(instr);
      if returned {
        return true;
      }
      if e.Some? {
        DeliverTrap(e.value.cause, e.value.tval);
        return false;
      }
      Complete(nextPC);
      ok := true;
    }

    /** The switch, and what follows it. */
    method Dispatch(instr: bv32, memId: int) returns (ok: bool)
      requires Valid() && OperandsInArray(View(), instr, memId)
      modifies this, x, csr, mem.data
      ensures var m := old(mem.data[..]);
              var r := Finish(old(View()), Execute(Decode(instr), instr, old(x[..]), old(pc), old(mode), memId, m), m);
              View() == r.h && mem.data[..] == r.m && ok == r.ok
    {
      hide Apply, TrapVector, StatusEnter, OperandsInArray, Execute, DecodeOpcode, Decode, SystemEffect, HartView.Trapped;
      if DecodeOpcode(instr) == 0x73 {
        ok := DispatchSystem(instr, memId);
        return;
      }
      var e, nextPC := Interpret(instr, memId);
      if e.Some? {
        DeliverTrap(e.value.cause, e.value.tval);
        return false;
      }
      Complete(nextPC);
      ok := true;
    }

    /** Execute one instruction; false when the hart trapped or halted and its turn is over. */
    method ExecuteOne() returns (ok: bool)
      requires Valid() && AccessesInArray(View(), mem.data[..])
      modifies this, x, csr, mem.data
      ensures var r := Executed(old(View()), old(mem.data[..])); View() == r.h && mem.data[..] == r.m && ok == r.ok
    {
      hide Plus, Nat, Get, Apply, Check, WordAt, TrapVector, StatusEnter, InArray, OperandsInArray, Execute, Decode;
      hide SystemEffect;
      if timerPending && csr.InterruptsEnabled() && mode == U {
        timerPending := false;
        DeliverTrap(TIMER_INT, 0);
        return false;
      }
      var memId := if mode == M then -1 else id;
      var (instr, fault) := mem.LoadWord(Nat(pc), memId);
      if fault.Fault? {
        DeliverTrap(INSN_FAULT, pc);
        return false;
      }
      if instr == 0 || instr == 0xFFFF_FFFF {
        state := Halted;
        return false;
      }
      ok := Dispatch(instr, memId);
    }
  }
}
