/** Which bytes a step and a run can change. */
module Frames {
  import opened Words
  import opened Memory
  import opened Csr
  import opened Isa
  import opened Cpu
  import opened Kernel
  import opened Runs
  import opened Invariants
  import opened History

  /** What the next step of hart `i` writes to memory. */
  function WriteOf(s: Machine, i: nat): MemWrite
    requires i < |s.harts|
  {
    var h := s.harts[i];
    match ActionOf(s, i)
    case Retired =>
      (match Perform(h.x, h.pc, h.mode, h.id, s.mem)
       case Retire(_, _, write) => write
       case _ => NoWrite)
    case _ => NoWrite
  }

  /** A user-mode store starts in the hart's slot and writes as many bytes as its width says. */
  lemma UserWrite(x: Regs, pc: bv32, id: nat, m: seq<bv8>)
    ensures var e := Perform(x, pc, U, id, m);
            e.Retire? && e.write.PutBytes? ==>
              && SlotBase(id) <= e.write.addr < SlotTop(id)
              && |e.write.bytes| in {1, 2, 4}
              && Decode(WordAt(m, Nat(pc))).Store?
              && var i := Decode(WordAt(m, Nat(pc)));
                 e.write.addr == Nat(Plus(Get(x, i.rs1), i.imm)) && |e.write.bytes| == i.width.Bytes()
  {
    hide Plus, Get, Set, AluValue, Taken, Loaded, Stored, Decode, BitAnd, Nat, WordAt;
  }

  lemma WriteMeans(s: Machine, c: Choice)
    requires UserStep(s, c)
    ensures NextMem(s, c) == Apply(s.mem, WriteOf(s, c.hart))
    ensures var write := WriteOf(s, c.hart);
            write.PutBytes? ==> SlotBase(c.hart) <= write.addr < SlotTop(c.hart) && |write.bytes| in {1, 2, 4}
  {
    hide ActionOf, Perform, Apply, Decode, WordAt, Nat;
    ApplyNothing(s.mem);
    var h := s.harts[c.hart];
    UserWrite(h.x, h.pc, h.id, s.mem);
  }

  /** The whole effect of a step on memory: nothing, or the bytes of one store that starts in the hart's slot. */
  lemma StepFootprint(s: Machine, c: Choice)
    requires Fine(s) && Enabled(s, c)
    ensures |s.mem| == MEM_SIZE
    ensures match WriteOf(s, c.hart)
            case NoWrite => Step(s, c).mem == s.mem
            case PutBytes(addr, bytes) =>
              && SlotBase(c.hart) <= addr < SlotTop(c.hart) && |bytes| in {1, 2, 4} && addr + |bytes| <= MEM_SIZE
              && Step(s, c).mem == Put(s.mem, addr, bytes)
  {
    hide Step, WriteOf, NextHart, NextMem, NextQueue, NextOther, HartFine;
    FineUser(s, c);
    StepClosed(s, c);
    WriteMeans(s, c);
  }

  /** The store of a step runs over the top of the slot. */
  predicate StoreStraddles(s: Machine, i: nat)
    requires i < |s.harts|
  {
    var write := WriteOf(s, i);
    write.PutBytes? && Straddles(write.addr, |write.bytes|, i)
  }

  /** Only bytes of the slot and the three above it change; only bytes of the slot, unless the store straddles its top. */
  lemma StepFrame(s: Machine, c: Choice, a: nat)
    requires Fine(s) && Enabled(s, c) && a < |s.mem|
    ensures Step(s, c).mem[a] != s.mem[a] ==> SlotBase(c.hart) <= a < SlotTop(c.hart) + 3
    ensures Step(s, c).mem[a] != s.mem[a] && a >= SlotTop(c.hart) ==> StoreStraddles(s, c.hart)
  {
    hide Step, WriteOf, Fine, Enabled;
    StepFootprint(s, c);
  }

  /** The other direction: a straddling store does write the byte above the slot. */
  lemma StraddlingStoreEscapes(s: Machine, c: Choice)
    requires Fine(s) && Enabled(s, c) && StoreStraddles(s, c.hart)
    ensures SlotTop(c.hart) < |s.mem|
    ensures Step(s, c).mem[SlotTop(c.hart)] == WriteOf(s, c.hart).bytes[SlotTop(c.hart) - WriteOf(s, c.hart).addr]
  {
    hide Step, WriteOf, HartFine;
    StepFootprint(s, c);
  }

  /** A naturally aligned store never straddles. */
  lemma AlignedStoreStays(s: Machine, c: Choice)
    requires Fine(s) && Enabled(s, c)
    requires var write := WriteOf(s, c.hart); write.PutBytes? ==> |write.bytes| > 0 && write.addr % |write.bytes| == 0
    ensures !StoreStraddles(s, c.hart)
  {
    hide Step, WriteOf, Fine, Enabled;
    StepFootprint(s, c);
  }

  /** Over any run the kernel's region and everything more than two bytes above the last slot keep their contents. */
  lemma {:induction false} RunFrame(s: Machine, cs: seq<Choice>, a: nat)
    requires Fine(s) && IsRun(s, cs) && a < |s.mem|
    requires a < KERNEL_BASE + KERNEL_SIZE || a >= SlotBase(|s.harts|) + 3
    ensures After(s, cs).mem[a] == s.mem[a]
  {
    hide Fine, Step;
    if cs != [] {
      var before, c := cs[..|cs| - 1], cs[|cs| - 1];
      RunFine(s, before);
      RunFrame(s, before, a);
      StepFrame(After(s, before), c, a);
    }
  }

  /** No access of any step of any run leaves the array. */
  lemma RunAccessesInArray(s: Machine, cs: seq<Choice>, k: nat)
    requires Fine(s) && IsRun(s, cs) && k < |cs|
    ensures IsRun(s, cs[..k]) && Enabled(After(s, cs[..k]), cs[k])
    ensures AccessesInArray(After(s, cs[..k]).harts[cs[k].hart], After(s, cs[..k]).mem)
  {
    hide Step, AccessesInArray, HartView.Trapped;
    RunPrefix(s, cs, k);
    RunFine(s, cs[..k]);
    FineUser(After(s, cs[..k]), cs[k]);
    UserAccessesInArray(After(s, cs[..k]).harts[cs[k].hart], After(s, cs[..k]).mem);
  }
}
