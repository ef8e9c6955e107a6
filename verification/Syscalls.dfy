/** What the system calls give back: identities, results and replies. */
module Syscalls {
  import opened Words
  import opened Csr
  import opened Isa
  import opened Cpu
  import opened Kernel
  import opened Runs
  import opened Invariants
  import opened History
  import opened Reach

  /** A hart id or sender as a word reads back as the number it was. */
  lemma SmallIntBack(n: int)
    requires -0x8000_0000 <= n < 0x8000_0000
    ensures SInt(FromInt(n)) == n
  {
    hide Nat, SInt, FromInt;
    FromIntValue(n);
    SIntValue(FromInt(n));
  }

  /** The stepping hart after a step that made a system call which came back. */
  lemma CallReturns(s: Machine, c: Choice)
    requires Fine(s) && Enabled(s, c)
    requires var a := ActionOf(s, c.hart); a == Resumption || a == Refused || a.Sent? || a.Received?
    ensures var a, h, h' := ActionOf(s, c.hart), s.harts[c.hart], Step(s, c).harts[c.hart];
            && h'.state == Running && h'.mode == U && h'.pc == Plus(h.pc, 4)
            && match a
               case Resumption => h'.x == if h.x[17] == 7 then h.x[10 := FromInt(c.hart)] else h.x
               case Sent(_, _) => h'.x == h.x[10 := 0]
               case Refused => h'.x == h.x[10 := 0xFFFF_FFFF]
               case Received(msg) => h'.x == h.x[10 := msg.value][11 := FromInt(msg.from)]
               case _ => true
  {
    hide Step, ActionOf, HartFine, NextMem, NextQueue, NextOther, TrapVector, StatusEnter, StatusReturn, Plus, FromInt;
    hide Perform;
    FineUser(s, c);
    StepClosed(s, c);
  }

  /** The action of a system call that comes back was asked for by its number. */
  lemma CallNumber(s: Machine, c: Choice)
    requires Fine(s) && Enabled(s, c)
    ensures var a, x := ActionOf(s, c.hart), s.harts[c.hart].x;
            && (a == Exited ==> x[17] == 3) && (a.Sent? || a == Refused ==> x[17] == 5)
            && (a.Received? || a == Blocked ==> x[17] == 6)
            && (a == Resumption ==> x[17] != 3 && x[17] != 5 && x[17] != 6)
  {
    hide Perform, HartFine, Csrs.InterruptsEnabled, SInt;
    FineUser(s, c);
  }

  /** GET_HARTID: a0 is the number of the hart that asks. Other calls that only resume change no register. */
  lemma HartIdReturned(s: Machine, c: Choice)
    requires Fine(s) && Enabled(s, c) && ActionOf(s, c.hart) == Resumption
    ensures var x, x' := s.harts[c.hart].x, Step(s, c).harts[c.hart].x;
            && (x[17] == 7 ==> SInt(x'[10]) == c.hart)
            && (x[17] != 7 ==> x'[10] == x[10])
            && forall r :: 0 <= r < 32 && r != 10 ==> x'[r] == x[r]
  {
    hide Fine, Step, ActionOf, FromInt, SInt, Plus;
    FineSizes(s);
    CallReturns(s, c);
    SmallIntBack(c.hart);
  }

  /** A hart of the number in a0 exists. */
  predicate TargetExists(x: Regs, n: nat) {
    0 <= SInt(x[10]) < n
  }

  /** SEND: the target is the hart numbered by a0, if there is one. */
  lemma SendMeans(s: Machine, c: Choice)
    requires Fine(s) && Enabled(s, c) && (ActionOf(s, c.hart).Sent? || ActionOf(s, c.hart) == Refused)
    ensures var x := s.harts[c.hart].x;
            ActionOf(s, c.hart) == (if TargetExists(x, |s.harts|) then Sent(SInt(x[10]), Message(c.hart, x[11])) else Refused)
  {
    hide Perform, HartFine, Csrs.InterruptsEnabled, SInt;
    FineUser(s, c);
  }

  /** And a0 is then 0; otherwise it is -1. */
  lemma SendReturns(s: Machine, c: Choice)
    requires Fine(s) && Enabled(s, c) && (ActionOf(s, c.hart).Sent? || ActionOf(s, c.hart) == Refused)
    ensures var x, x' := s.harts[c.hart].x, Step(s, c).harts[c.hart].x;
            && SInt(x'[10]) == (if TargetExists(x, |s.harts|) then 0 else -1)
            && forall r :: 0 <= r < 32 && r != 10 ==> x'[r] == x[r]
  {
    hide Fine, Step, ActionOf, SInt, Plus;
    CallReturns(s, c);
    SendMeans(s, c);
    ZeroAndMinusOne();
  }

  lemma ZeroAndMinusOne()
    ensures SInt(0) == 0 && SInt(0xFFFF_FFFF) == -1
  {
    hide Nat, SInt, Succ;
    ZeroValue();
    SIntValue(0);
    assert Succ(0xFFFF_FFFF) == 0 by { SuccSum(0xFFFF_FFFF); }
    SuccValue(0xFFFF_FFFF);
    SIntValue(0xFFFF_FFFF);
  }

  /** RECV: a0 is the value that was sent and a1 the number of the hart that sent it. */
  lemma SenderDelivered(s: Machine, c: Choice, msg: Message)
    requires Fine(s) && Enabled(s, c) && ActionOf(s, c.hart) == Received(msg)
    ensures var x, x' := s.harts[c.hart].x, Step(s, c).harts[c.hart].x;
            && x'[10] == msg.value && SInt(x'[11]) == msg.from && 0 <= msg.from < |s.harts|
            && forall r :: 0 <= r < 32 && r != 10 && r != 11 ==> x'[r] == x[r]
  {
    hide Step, ActionOf, SInt, FromInt, Plus, HartFine;
    FineSizes(s);
    CallReturns(s, c);
    QueueStep(s, c, c.hart);
    assert Addressed(s.Queue(c.hart), c.hart, |s.harts|);
    assert s.Queue(c.hart)[0] == msg;
    SmallIntBack(msg.from);
  }

  /**
   * Replies reach the sender: a hart that has received a message and later sends to the number it was given in a1 sends
   * to the hart the message came from.
   */
  lemma ReplyReachesSender(s: Machine, c: Choice, msg: Message, t: Machine, d: Choice)
    requires Fine(s) && Enabled(s, c) && ActionOf(s, c.hart) == Received(msg)
    requires Fine(t) && Enabled(t, d) && |t.harts| == |s.harts|
    requires t.harts[d.hart].x[10] == Step(s, c).harts[c.hart].x[11]
    requires ActionOf(t, d.hart).Sent? || ActionOf(t, d.hart) == Refused
    ensures 0 <= msg.from < |t.harts| && ActionOf(t, d.hart) == Sent(msg.from, Message(d.hart, t.harts[d.hart].x[11]))
  {
    hide Fine, Step, ActionOf, SInt, FromInt;
    SenderDelivered(s, c, msg);
    SendMeans(t, d);
  }

  /** EXIT: the hart halts and does nothing more. */
  lemma ExitHalts(s: Machine, c: Choice)
    requires Fine(s) && Enabled(s, c) && ActionOf(s, c.hart) == Exited
    ensures Step(s, c).harts[c.hart].state == Halted && Step(s, c).harts[c.hart].x == s.harts[c.hart].x
    ensures Step(s, c).mem == s.mem
  {
    hide Step, ActionOf, HartFine, NextQueue, NextOther, TrapVector, StatusEnter, Perform;
    StepClosed(s, c);
  }

  /**
   * What the kernel makes of a trap, by the number of its cause: a timer interrupt goes back to the instruction it
   * interrupted, a user ecall is a system call, a machine ecall halts the hart and anything else faults it.
   */
  lemma TrapHandled(s: Machine, i: nat)
    requires i < |s.harts|
    ensures var h := s.harts[i];
            match h.csr.mcause
            case 0x8000_0007 => Handled(s, i) == s.With(i, Resumed(h, false))
            case 8 => Handled(s, i) == Syscall(s, i)
            case 11 => Handled(s, i) == s.With(i, h.(state := Halted))
            case _ => Handled(s, i) == s.With(i, h.(state := Faulted))
  {
    hide Resumed, Syscall;
  }
}
