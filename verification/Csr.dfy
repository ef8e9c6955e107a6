/** Control and status registers and the trap stack in mstatus (csr.h).

The stack discipline is that of section 3.1.6.1 of the RISC-V Privileged ISA (version 20211203).
*/
module Csr {
  import opened Options
  import opened Words

  datatype PrivMode = U | M

  // mcause values.
  const INSN_FAULT: bv32 := 1
  const ILLEGAL_INSN: bv32 := 2
  const BREAKPOINT: bv32 := 3
  const LOAD_FAULT: bv32 := 5
  const STORE_FAULT: bv32 := 7
  const ECALL_U: bv32 := 8
  const ECALL_M: bv32 := 11
  const TIMER_INT: bv32 := 0x8000_0007

  // mstatus fields: MIE is bit 3 (0x8), MPIE bit 7 (0x80), MPP bits 12 and 11 (0x1800, 0 for U and 3 for M).

  /** The values of a CSR file. The 64-bit cycle counter is a number. */
  datatype Csrs = Csrs(mstatus: bv32, mtvec: bv32, mepc: bv32, mcause: bv32, mtval: bv32,
                       mip: bv32, mie: bv32, hartid: bv32, cycle: nat)
  {
    predicate InterruptsEnabled() {
      MieSet(mstatus)
    }

    /** The register at a CSR address, or None where `read` reports failure. */
    function Read(addr: bv32): Option<bv32> {
      if addr == 0x300 then Some(mstatus)
      else if addr == 0x305 then Some(mtvec)
      else if addr == 0x341 then Some(mepc)
      else if addr == 0x342 then Some(mcause)
      else if addr == 0x343 then Some(mtval)
      else if addr == 0x344 then Some(mip)
      else if addr == 0x304 then Some(mie)
      else if addr == 0xF14 then Some(hartid)
      else if addr == 0xC00 then Some(FromNat(cycle))
      else None
    }

    /** Writing a read-only or unknown register changes nothing. */
    function Write(addr: bv32, v: bv32): Csrs {
      if addr == 0x300 then this.(mstatus := v)
      else if addr == 0x305 then this.(mtvec := v)
      else if addr == 0x341 then this.(mepc := v)
      else if addr == 0x342 then this.(mcause := v)
      else if addr == 0x343 then this.(mtval := v)
      else if addr == 0x344 then this.(mip := v)
      else if addr == 0x304 then this.(mie := v)
      else this
    }

    function TrapEnter(pc: bv32, cause: bv32, tval: bv32, from: PrivMode): Csrs {
      this.(mepc := pc, mcause := cause, mtval := tval, mstatus := StatusEnter(mstatus, from == M))
    }

    function TrapReturn(): Csrs {
      this.(mstatus := StatusReturn(mstatus))
    }

    /** The privilege mode MRET goes back to. */
    function PreviousMode(): PrivMode {
      if PreviousField(mstatus) == 3 then M else U
    }
  }

  function PreviousField(s: bv32): bv32 { (s & 0x1800) >> 11 }
  predicate MieSet(s: bv32) { s & 0x8 != 0 }
  predicate MpieSet(s: bv32) { s & 0x80 != 0 }

  /** mstatus without its trap fields MIE, MPIE and MPP. */
  function Outside(s: bv32): bv32 { s & 0xFFFF_E777 }

  /** mstatus with the given trap fields. */
  function WithFields(outside: bv32, mie: bool, mpie: bool, mppMachine: bool): bv32 {
    BitOr(BitOr(BitOr(outside, if mie then 0x8 else 0), if mpie then 0x80 else 0), if mppMachine then 0x1800 else 0)
  }

  /** Push: MIE goes to MPIE and is cleared, the interrupted mode goes to MPP. */
  function StatusEnter(s: bv32, fromMachine: bool): bv32 {
    WithFields(Outside(s), false, MieSet(s), fromMachine)
  }

  /** Pop: MPIE goes back to MIE, MPIE is set, MPP becomes U. */
  function StatusReturn(s: bv32): bv32 {
    WithFields(Outside(s), MpieSet(s), true, false)
  }

  /** Entering a trap saves the interrupt enable and clears it. */
  lemma EnterSavesEnable(s: bv32, fromMachine: bool)
    ensures !MieSet(StatusEnter(s, fromMachine))
    ensures MpieSet(StatusEnter(s, fromMachine)) <==> MieSet(s)
  {}

  lemma EnterSavesMode(s: bv32)
    ensures PreviousField(StatusEnter(s, true)) == 3
    ensures PreviousField(StatusEnter(s, false)) == 0
  {}

  /** The positions of the fields: MIE is bit 3, MPIE bit 7, MPP bits 11 and 12. */
  lemma FieldPositions()
    ensures StatusEnter(0x8, false) == 0x80 && StatusEnter(0x8, true) == 0x1880 && StatusEnter(0x80, false) == 0
    ensures StatusReturn(0x1880) == 0x88 && StatusReturn(0x1808) == 0x80
    ensures MieSet(0x8) && !MieSet(0x1880) && MpieSet(0x80) && !MpieSet(0x1808)
  {}

  // Neither entry nor return touches mstatus outside the trap fields.

  lemma EnterFrame(s: bv32, fromMachine: bool)
    ensures Outside(StatusEnter(s, fromMachine)) == Outside(s)
  {}

  lemma ReturnFrame(s: bv32)
    ensures Outside(StatusReturn(s)) == Outside(s)
  {}

  /** Returning restores the interrupt enable that was saved. */
  lemma ReturnRestores(s: bv32)
    ensures MieSet(StatusReturn(s)) <==> MpieSet(s)
    ensures MpieSet(StatusReturn(s))
    ensures StatusReturn(s) & 0x1800 == 0
  {}

  predicate Writable(addr: bv32) {
    addr in {0x300, 0x305, 0x341, 0x342, 0x343, 0x344, 0x304}
  }

  /** A written register reads back as written and no other register changes; read-only ones keep their values. */
  lemma ReadAfterWrite(c: Csrs, addr: bv32, v: bv32, other: bv32)
    ensures c.Write(addr, v).Read(other) == if other == addr && Writable(addr) then Some(v) else c.Read(other)
    ensures Writable(addr) ==> c.Read(addr).Some?
  {
    hide FromNat;
  }

  // The masks and ors of `trapEnter` and `trapReturn`, one after the other.

  lemma ClearedFields(s: bv32)
    ensures BitAnd(s, Complement(0x1888)) == Outside(s)
  {}

  lemma OrNothing(outside: bv32)
    ensures BitOr(outside, 0) == outside
  {}

  lemma EnterWorked(s: bv32, fromMachine: bool)
    ensures BitOr(BitOr(BitAnd(s, Complement(0x1888)), if MieSet(s) then 0x80 else 0), if fromMachine then 0x1800 else 0)
         == StatusEnter(s, fromMachine)
  {
    hide BitAnd, BitOr, Complement, Outside, MieSet;
    ClearedFields(s);
    OrNothing(Outside(s));
  }

  lemma ReturnWorked(s: bv32)
    ensures BitOr(BitOr(BitOr(BitAnd(s, Complement(0x1888)), if MpieSet(s) then 0x8 else 0), 0x80), 0)
         == StatusReturn(s)
  {
    hide BitAnd, BitOr, Complement, Outside, MpieSet;
    ClearedFields(s);
  }

  /** The counter reads as its low 32 bits. */
  lemma CounterRead(c: Csrs)
    ensures c.Read(0xC00).Some? && Nat(c.Read(0xC00).value) == c.cycle % TWO_32 && c.Read(0x344) == Some(c.mip)
  {
    hide Nat, FromNat;
    FromNatValue(c.cycle);
  }

  /** One CSR file. */
  class CSRFile {
    var mstatus: bv32
    var mtvec: bv32
    var mepc: bv32
    var mcause: bv32
    var mtval: bv32
    var mip: bv32
    var mie: bv32
    var hartid: bv32
    var cycle: nat

    constructor ()
      ensures View() == Csrs(0, 0, 0, 0, 0, 0, 0, 0, 0)
    {
      mstatus, mtvec, mepc, mcause, mtval, mip, mie, hartid, cycle := 0, 0, 0, 0, 0, 0, 0, 0, 0;
    }

    function View(): Csrs
      reads this
    {
      Csrs(mstatus, mtvec, mepc, mcause, mtval, mip, mie, hartid, cycle)
    }

    function InterruptsEnabled(): (b: bool)
      reads this
      ensures b == View().InterruptsEnabled()
    {
      mstatus & 0x8 != 0
    }

    method Read(addr: bv32) returns (v: bv32, ok: bool)
      ensures match View().Read(addr) case Some(value) => ok && v == value case None => !ok && v == 0
    {
      ok := true;
      match addr
      case 0x300 => v := mstatus;
      case 0x305 => v := mtvec;
      case 0x341 => v := mepc;
      case 0x342 => v := mcause;
      case 0x343 => v := mtval;
      case 0x344 => v := mip;
      case 0x304 => v := mie;
      case 0xF14 => v := hartid;
      case 0xC00 => v := FromNat(cycle);
      case _ => ok, v := false, 0;
    }

    method Write(addr: bv32, val: bv32) returns (ok: bool)
      modifies this
      ensures View() == old(View()).Write(addr, val)
      ensures ok <==> Writable(addr)
    {
      ok := true;
      match addr
      case 0x300 => mstatus := val;
      case 0x305 => mtvec := val;
      case 0x341 => mepc := val;
      case 0x342 => mcause := val;
      case 0x343 => mtval := val;
      case 0x344 => mip := val;
      case 0x304 => mie := val;
      case _ => ok := false;
    }

    method TrapEnter(pc: bv32, cause: bv32, tval: bv32, from: PrivMode)
      modifies this
      ensures View() == old(View()).TrapEnter(pc, cause, tval, from)
    {
      mepc := pc;
      mcause := cause;
      mtval := tval;
      hide BitAnd, BitOr, Complement, MieSet, StatusEnter;
      EnterWorked(mstatus, from == M);
      var prevMie := MieSet(mstatus);
      mstatus := BitAnd(mstatus, Complement(0x1888));
      mstatus := BitOr(mstatus, if prevMie then 0x80 else 0);
      mstatus := BitOr(mstatus, if from == M then 0x1800 else 0);
    }

    method TrapReturn() returns (mode: PrivMode)
      modifies this
      ensures mode == old(View()).PreviousMode()
      ensures View() == old(View()).TrapReturn()
    {
      hide BitAnd, BitOr, Complement, MpieSet, StatusReturn;
      ReturnWorked(mstatus);
      mode := if PreviousField(mstatus) == 3 then M else U;
      var mpie := MpieSet(mstatus);
      mstatus := BitAnd(mstatus, Complement(0x1888));
      mstatus := BitOr(mstatus, if mpie then 0x8 else 0);
      mstatus := BitOr(mstatus, 0x80);
      mstatus := BitOr(mstatus, 0);
    }
  }
}
