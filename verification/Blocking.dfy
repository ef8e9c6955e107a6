/** Blocking RECV and wake-up: no wake-up is lost. */
module Blocking {
  import opened Words
  import opened Encode
  import opened Memory
  import opened Csr
  import opened Isa
  import opened Cpu
  import opened Kernel
  import opened Runs
  import opened Invariants
  import opened History
  import opened Frames

  /** A hart that would execute RECV next, with interrupts off, if its program counter still points at the ecall. */
  predicate AtReceive(h: HartView) {
    h.mode == U && h.x[17] == 6 && !h.csr.InterruptsEnabled() && Check(Nat(h.pc), LOAD, h.id).NoFault?
  }

  predicate PointsAtEcall(h: HartView, m: seq<bv8>) {
    WordAt(m, Nat(h.pc)) == ECALL
  }

  /** The harts that are waiting at the start of a run wait at an ecall; at boot there are none. */
  predicate WaitersPoised(s: Machine) {
    forall i :: 0 <= i < |s.harts| && s.harts[i].state == Waiting ==> AtReceive(s.harts[i]) && PointsAtEcall(s.harts[i], s.mem)
  }

  /** The last thing hart `i` did was to block. */
  predicate Parked(s: Machine, es: seq<Event>, i: nat)
    requires i < |s.harts|
  {
    if es == [] then s.harts[i].state == Waiting
    else if es[|es| - 1].hart == i then es[|es| - 1].action == Blocked
    else Parked(s, es[..|es| - 1], i)
  }

  /** A parked hart waits as long as its queue is empty, and is ready to take the message once it is not. */
  predicate Resting(s: Machine, i: nat)
    requires i < |s.harts|
  {
    var h := s.harts[i];
    AtReceive(h) && (h.state == Running || h.state == Waiting) && (h.state == Waiting <==> s.Queue(i) == [])
  }

  lemma BlockStep(s: Machine, c: Choice)
    requires Fine(s) && Enabled(s, c) && ActionOf(s, c.hart) == Blocked
    ensures Resting(Step(s, c), c.hart) && PointsAtEcall(Step(s, c).harts[c.hart], Step(s, c).mem)
  {
    hide Step, Perform, ActionOf, Ran, Trapped, Syscall, SyscallAction, TrapVector, StatusEnter, StatusReturn, Plus;
    hide Nat, Decode, WordAt, Check;
    hide MieSet, Outside;
    FineUser(s, c);
    StepClosed(s, c);
    BlockedMeans(s, c.hart);
    RanSyscall(s, c);
    EcallDecodes(WordAt(s.mem, Nat(s.harts[c.hart].pc)));
    TrappedFine(s.harts[c.hart], ECALL_U, 0);
    assert Step(s, c).Queue(c.hart) == NextQueue(s, c, c.hart);
  }

  lemma EcallDecodes(w: bv32)
    ensures Decode(w) == Ecall <==> w == ECALL
  {
    hide RdOf, Rs1Of, Rs2Of, AluOpOf, AluImmOpOf, LoadOf, StoreOf, CondOf, DecodeImmI, DecodeImmS, DecodeImmB, FieldI;
  }

  /** A step of another hart leaves a resting hart resting: at most it wakes it. */
  lemma RestStep(s: Machine, c: Choice, i: nat)
    requires Fine(s) && Enabled(s, c) && i < |s.harts| && c.hart != i && Resting(s, i)
    ensures Resting(Step(s, c), i)
    ensures Step(s, c).harts[i].pc == s.harts[i].pc
  {
    hide Step, NextHart, NextMem, ActionOf, Nat, Check, MieSet, Outside;
    StepClosed(s, c);
    FinePreserved(s, c);
    NextOtherFine(s, c, i);
    assert Step(s, c).harts[i] == NextOther(s, c, i);
    QueueStep(s, c, i);
  }

  /** Throughout a run the parked harts rest; a waiting hart is parked. */
  lemma {:induction false} ParkedRests(s: Machine, cs: seq<Choice>, i: nat)
    requires Fine(s) && WaitersPoised(s) && IsRun(s, cs) && i < |s.harts|
    ensures Parked(s, Events(s, cs), i) ==> Resting(After(s, cs), i)
    ensures After(s, cs).harts[i].state == Waiting ==> Parked(s, Events(s, cs), i)
  {
    hide Fine, Step, ActionOf, AtReceive, PointsAtEcall;
    if cs == [] {
      if s.harts[i].state == Waiting {
        ParkedAtStart(s, i);
      }
    } else {
      var before, c := cs[..|cs| - 1], cs[|cs| - 1];
      var t := After(s, before);
      RunFine(s, before);
      ParkedRests(s, before, i);
      assert Events(s, cs)[..|cs| - 1] == Events(s, before);
      if After(s, cs).harts[i].state == Waiting {
        StateStep(t, c, i);
      }
      if c.hart == i {
        if ActionOf(t, i) == Blocked {
          BlockStep(t, c);
        }
      } else if Resting(t, i) {
        RestStep(t, c, i);
      }
    }
  }

  /** A parked hart stays parked while others step. */
  lemma {:induction false} ParkedSince(s: Machine, es: seq<Event>, i: nat, later: seq<Event>)
    requires i < |s.harts| && Parked(s, es, i)
    requires forall k :: 0 <= k < |later| ==> later[k].hart != i
    ensures Parked(s, es + later, i)
  {
    if later == [] {
      assert es + later == es;
    } else {
      var n := |later| - 1;
      ParkedSince(s, es, i, later[..n]);
      assert (es + later)[..|es| + n] == es + later[..n];
    }
  }

  lemma ParkedAtStart(s: Machine, i: nat)
    requires Fine(s) && WaitersPoised(s) && i < |s.harts| && s.harts[i].state == Waiting
    ensures Resting(s, i)
  {
    hide HartFine, AtReceive, PointsAtEcall;
  }

  /** A hart starts to wait only by blocking. */
  lemma StateStep(s: Machine, c: Choice, i: nat)
    requires Fine(s) && Enabled(s, c) && i < |s.harts| && Step(s, c).harts[i].state == Waiting
    ensures if c.hart == i then ActionOf(s, i) == Blocked else s.harts[i].state == Waiting
  {
    hide Step, NextHart, NextOther, NextMem, NextQueue, ActionOf, HartFine, SameStanding;
    FineUser(s, c);
    StepClosed(s, c);
    if i == c.hart {
      NextHartStanding(s, c);
    } else {
      NextOtherFine(s, c, i);
      assert Step(s, c).harts[i] == NextOther(s, c, i);
    }
  }

  // ----- the code of a parked hart -----

  /** The hart below has not stored across the top of its slot since hart `i` last stepped. */
  predicate NotReached(s: Machine, cs: seq<Choice>, i: nat)
    requires IsRun(s, cs)
  {
    cs == [] || cs[|cs| - 1].hart == i ||
      var before, j := cs[..|cs| - 1], cs[|cs| - 1].hart;
      NotReached(s, before, i) && (j + 1 == i ==> !StoreStraddles(After(s, before), j))
  }

  /** A step of another hart leaves a word of the slot alone, but for a straddling store of the hart below. */
  lemma WordKept(s: Machine, c: Choice, i: nat, a: nat)
    requires Fine(s) && Enabled(s, c) && i < |s.harts| && c.hart != i
    requires SlotBase(i) <= a && a + 4 <= SlotTop(i)
    requires a >= SlotBase(i) + 3 || (c.hart + 1 == i ==> !StoreStraddles(s, c.hart))
    ensures WordAt(Step(s, c).mem, a) == WordAt(s.mem, a)
  {
    hide Step, StoreStraddles, HartFine, ComposeWord;
    assert a + 4 <= |s.mem|;
    StepFrame(s, c, a);
    StepFrame(s, c, a + 1);
    StepFrame(s, c, a + 2);
    StepFrame(s, c, a + 3);
  }

  /** No other hart can have written the word at the program counter of hart `i` since hart `i` last stepped. */
  predicate OutOfReach(s: Machine, cs: seq<Choice>, i: nat)
    requires IsRun(s, cs) && i < |s.harts|
  {
    var pc := Nat(After(s, cs).harts[i].pc);
    pc + 4 <= SlotTop(i) && (pc >= SlotBase(i) + 3 || NotReached(s, cs, i))
  }

  /** The ecall of a parked hart is still there, wherever no other hart can reach it. */
  lemma {:induction false} ParkedCode(s: Machine, cs: seq<Choice>, i: nat)
    requires Fine(s) && WaitersPoised(s) && IsRun(s, cs) && i < |s.harts|
    ensures Parked(s, Events(s, cs), i) && OutOfReach(s, cs, i) ==> PointsAtEcall(After(s, cs).harts[i], After(s, cs).mem)
  {
    hide Fine, Step, ActionOf, AtReceive, Nat, Decode, WordAt, StoreStraddles;
    if cs != [] && Parked(s, Events(s, cs), i) && OutOfReach(s, cs, i) {
      var before, c := cs[..|cs| - 1], cs[|cs| - 1];
      var t := After(s, before);
      RunFine(s, before);
      assert Events(s, cs)[..|cs| - 1] == Events(s, before);
      if c.hart == i {
        BlockStep(t, c);
      } else {
        ParkedRests(s, before, i);
        RestStep(t, c, i);
        RestingInSlot(t, i);
        ParkedCode(s, before, i);
        StepFootprint(t, c);
        WordKept(t, c, i, Nat(t.harts[i].pc));
      }
    }
  }

  lemma RestingInSlot(s: Machine, i: nat)
    requires Fine(s) && i < |s.harts| && Resting(s, i)
    ensures SlotBase(i) <= Nat(s.harts[i].pc) < SlotTop(i)
  {
    hide HartFine, Nat;
  }

  // ----- waking up -----

  /**
   * A parked hart that is running again has a message, and its very next step receives the message at the head of
   * its queue if and only if its program counter still points at an ecall. A timer interrupt never comes first.
   */
  lemma WokenReceives(s: Machine, cs: seq<Choice>, i: nat)
    requires Fine(s) && WaitersPoised(s) && IsRun(s, cs) && i < |s.harts|
    ensures var t := After(s, cs);
            Parked(s, Events(s, cs), i) && t.harts[i].state == Running ==>
              && t.Queue(i) != [] && ActionOf(t, i) != TimerTrap && ActionOf(t, i) != Blocked
              && (ActionOf(t, i) == Received(t.Queue(i)[0]) <==> PointsAtEcall(t.harts[i], t.mem))
  {
    hide Fine, Step, ActionOf, PointsAtEcall, AtReceive, Parked;
    if Parked(s, Events(s, cs), i) && After(s, cs).harts[i].state == Running {
      RunFine(s, cs);
      ParkedRests(s, cs, i);
      RestingReceives(After(s, cs), i);
    }
  }

  lemma RestingReceives(s: Machine, i: nat)
    requires Fine(s) && i < |s.harts| && Resting(s, i) && s.harts[i].state == Running
    ensures s.Queue(i) != [] && ActionOf(s, i) != TimerTrap && ActionOf(s, i) != Blocked
    ensures ActionOf(s, i) == Received(s.Queue(i)[0]) <==> PointsAtEcall(s.harts[i], s.mem)
  {
    hide HartFine, Execute, Nat, Check, WordAt, Decode, Csrs.InterruptsEnabled, SInt;
    var h := s.harts[i];
    var w := WordAt(s.mem, Nat(h.pc));
    EcallDecodes(w);
    EcallExecutes(w, h.x, h.pc, h.id, s.mem);
    UserEffects(h.x, h.pc, h.id, s.mem);
  }

  lemma EcallExecutes(w: bv32, x: Regs, pc: bv32, id: int, m: seq<bv8>)
    ensures Execute(Ecall, w, x, pc, U, id, m) == Trap(ECALL_U, 0)
  {}

  /** What that step does: the message is taken from the queue into a0 and a1, and the program counter moves past the ecall. */
  lemma ReceiveDelivers(s: Machine, c: Choice, msg: Message)
    requires Fine(s) && Enabled(s, c) && ActionOf(s, c.hart) == Received(msg)
    ensures var h, h' := s.harts[c.hart], Step(s, c).harts[c.hart];
            && h'.state == Running && h'.mode == U && h'.pc == Plus(h.pc, 4)
            && h'.x == h.x[10 := msg.value][11 := FromInt(msg.from)]
            && s.Queue(c.hart) == [msg] + Step(s, c).Queue(c.hart)
  {
    hide Step, Perform, ActionOf, StatusEnter, StatusReturn, Plus, FromInt, HartFine, NextMem;
    FineUser(s, c);
    StepClosed(s, c);
    QueueStep(s, c, c.hart);
  }

  /** No lost wake-up: a woken hart whose ecall is out of the others' reach takes the head of its queue at its next step. */
  lemma NoLostWakeUp(s: Machine, cs: seq<Choice>, i: nat, fire: bool)
    requires Fine(s) && WaitersPoised(s) && IsRun(s, cs) && i < |s.harts|
    ensures var t, c := After(s, cs), Choice(i, fire);
            Parked(s, Events(s, cs), i) && t.harts[i].state == Running && OutOfReach(s, cs, i) ==>
              && Enabled(t, c) && t.Queue(i) != []
              && Step(t, c).harts[i].pc == Plus(t.harts[i].pc, 4)
              && Step(t, c).harts[i].x == t.harts[i].x[10 := t.Queue(i)[0].value][11 := FromInt(t.Queue(i)[0].from)]
              && Step(t, c).Queue(i) == t.Queue(i)[1..]
  {
    hide Fine, Step, ActionOf, PointsAtEcall, AtReceive, Parked, OutOfReach, FromInt, Plus;
    var t := After(s, cs);
    if Parked(s, Events(s, cs), i) && t.harts[i].state == Running && OutOfReach(s, cs, i) {
      RunFine(s, cs);
      ParkedCode(s, cs, i);
      WokenReceives(s, cs, i);
      ReceiveDelivers(t, Choice(i, fire), t.Queue(i)[0]);
    }
  }
}
