/** What every step and every run keep: privilege, interrupt enables, waiting harts, frozen harts. */
module Invariants {
  import opened Words
  import opened Memory
  import opened Csr
  import opened Isa
  import opened Cpu
  import opened Kernel
  import opened Runs

  /** A trap and its return restore the enable bit and leave mstatus alone outside the trap fields. */
  lemma StatusRoundTrip(ms: bv32)
    ensures MieSet(StatusReturn(StatusEnter(ms, false))) <==> MieSet(ms)
    ensures Outside(StatusReturn(StatusEnter(ms, false))) == Outside(ms)
    ensures Outside(StatusEnter(ms, false)) == Outside(ms)
    ensures !MieSet(StatusEnter(ms, false))
  {
    hide StatusReturn, StatusEnter, MieSet, MpieSet, Outside;
    EnterSavesEnable(ms, false);
    ReturnRestores(StatusEnter(ms, false));
    EnterFrame(ms, false);
    ReturnFrame(StatusEnter(ms, false));
  }

  /** Only a RECV system call on an empty queue blocks. */
  lemma BlockedMeans(s: Machine, i: nat)
    requires i < |s.harts| && ActionOf(s, i) == Blocked
    ensures s.harts[i].x[17] == 6 && s.Queue(s.harts[i].id) == []
  {
    hide Perform, Csrs.InterruptsEnabled, SInt;
  }

  /** Two running harts that agree on what the invariant and the interrupt enable look at. */
  predicate SameStanding(h: HartView, h': HartView) {
    && h'.id == h.id && h'.state == h.state && h'.mode == h.mode
    && h'.csr.mtvec == h.csr.mtvec && h'.csr.cycle - h'.steps == h.csr.cycle - h.steps
    && Outside(h'.csr.mstatus) == Outside(h.csr.mstatus)
    && (MieSet(h'.csr.mstatus) <==> MieSet(h.csr.mstatus))
  }

  lemma UserTrapStanding(h: HartView, cause: bv32, tval: bv32, advance: bool, pending: bool)
    ensures var t := UserTrap(h, cause, tval, advance).(timerPending := pending);
            SameStanding(h, t) && t.state == h.state
  {
    hide StatusReturn, StatusEnter, MieSet, Outside, Plus;
    StatusRoundTrip(h.csr.mstatus);
  }

  lemma WithRegStanding(h: HartView, h': HartView, r: nat, v: bv32)
    requires SameStanding(h, h') && r < 32
    ensures SameStanding(h, WithReg(h', r, v))
  {
    hide MieSet, Outside;
  }

  lemma CompletedStanding(h: HartView, x: Regs, pc: bv32, pending: bool)
    ensures var t := h.Completed(x, pc, 1).(timerPending := pending);
            SameStanding(h, t) && t.state == h.state
  {
    hide MieSet, Outside;
  }

  /** Every action that leaves the hart running leaves its standing alone. */
  lemma NextHartStanding(s: Machine, c: Choice)
    requires UserStep(s, c)
    ensures NextHart(s, c).state == Running ==> SameStanding(s.harts[c.hart], NextHart(s, c))
    ensures NextHart(s, c).state == Waiting <==> ActionOf(s, c.hart) == Blocked
    ensures ActionOf(s, c.hart) !in {Sentinel, Exited, Blocked, Crashed} ==> NextHart(s, c).state == Running
  {
    hide SameStanding, HartView.Trapped, HartView.Completed, FromInt, Perform, ActionOf, UserTrap;
    var h := s.harts[c.hart];
    var pending := h.timerPending || c.fire;
    var resumed := UserTrap(h, ECALL_U, 0, true).(timerPending := pending);
    UserTrapStanding(h, ECALL_U, 0, true, pending);
    UserTrapStanding(h, TIMER_INT, 0, false, c.fire);
    assert SameStanding(h, h) by { StandingReflexive(h); }
    match ActionOf(s, c.hart) {
      case Resumption => WithRegStanding(h, resumed, 10, FromInt(h.id));
      case Sent(_, _) => WithRegStanding(h, resumed, 10, 0);
      case Refused => WithRegStanding(h, resumed, 10, 0xFFFF_FFFF);
      case Received(msg) =>
        WithRegStanding(h, resumed, 10, msg.value);
        WithRegStanding(h, WithReg(resumed, 10, msg.value), 11, FromInt(msg.from));
      case Retired =>
        var e := Perform(h.x, h.pc, h.mode, h.id, s.mem);
        RetiredMeans(s, c.hart);
        CompletedStanding(h, e.x, e.pc, pending);
      case _ =>
    }
  }

  lemma StandingReflexive(h: HartView)
    ensures SameStanding(h, h)
  {}

  lemma RetiredMeans(s: Machine, i: nat)
    requires i < |s.harts|
    ensures var h := s.harts[i];
            ActionOf(s, i) == Retired ==> Perform(h.x, h.pc, h.mode, h.id, s.mem).Retire?
  {
    hide Perform, SyscallAction, Csrs.InterruptsEnabled;
  }

  /** A hart that traps for good. */
  lemma TrappedFine(h: HartView, cause: bv32, tval: bv32)
    requires HartFine(h)
    ensures var t := h.Trapped(cause, tval);
            && t.csr.mtvec == 0 && Outside(t.csr.mstatus) == 0 && t.steps == t.csr.cycle && t.x == h.x && t.id == h.id
            && !MieSet(t.csr.mstatus)
  {
    hide StatusEnter, MieSet, Outside, TrapVector;
    StatusRoundTrip(h.csr.mstatus);
    assert h.mode == U || h.mode == M;
    EnterFrame(h.csr.mstatus, true);
    EnterSavesEnable(h.csr.mstatus, true);
  }

  /** The stepping hart keeps its invariant. */
  lemma NextHartFine(s: Machine, c: Choice)
    requires UserStep(s, c) && HartFine(s.harts[c.hart])
    ensures HartFine(NextHart(s, c)) && NextHart(s, c).id == s.harts[c.hart].id
  {
    hide MieSet, Outside, Plus, FromInt, ActionOf, UserTrap, HartView.Trapped, NextHart;
    var h := s.harts[c.hart];
    NextHartStanding(s, c);
    if NextHart(s, c).state != Running {
      StoppedFine(s, c);
    }
  }

  lemma StoppedFine(s: Machine, c: Choice)
    requires UserStep(s, c) && HartFine(s.harts[c.hart])
    requires ActionOf(s, c.hart) in {Sentinel, Exited, Blocked, Crashed}
    ensures HartFine(NextHart(s, c)) && NextHart(s, c).id == s.harts[c.hart].id
  {
    hide MieSet, Outside, Plus, FromInt, Perform, ActionOf, UserTrap, HartView.Trapped, HartView.Completed, WithReg;
    var h := s.harts[c.hart];
    TrappedFine(h, ECALL_U, 0);
    match ActionOf(s, c.hart) {
      case Blocked => BlockedMeans(s, c.hart);
      case Crashed =>
        var e := Perform(h.x, h.pc, h.mode, h.id, s.mem);
        if e.Trap? {
          TrappedFine(h, e.cause, e.tval);
        }
      case _ =>
    }
  }

  lemma FineUser(s: Machine, c: Choice)
    requires Fine(s) && Enabled(s, c)
    ensures UserStep(s, c) && HartFine(s.harts[c.hart])
  {}

  lemma FineSizes(s: Machine)
    requires Fine(s)
    ensures |s.harts| <= MAX_HARTS && |s.mem| == MEM_SIZE
  {}

  /** The invariant holds after every step. */
  lemma FinePreserved(s: Machine, c: Choice)
    requires Fine(s) && Enabled(s, c)
    ensures Fine(Step(s, c))
  {
    hide Step, NextHart, NextQueue, NextOther, NextMem, HartFine, ActionOf;
    var s' := Step(s, c);
    FineUser(s, c);
    StepClosed(s, c);
    NextHartFine(s, c);
    NextMemSize(s, c);
    forall j | 0 <= j < |s.harts| && j != c.hart ensures s'.harts[j].id == j && HartFine(s'.harts[j]) {
      NextOtherFine(s, c, j);
    }
    forall i | 0 <= i < |s.harts| && s'.harts[i].state == Waiting ensures s'.Queue(i) == [] {
      WaitingEmpty(s, c, i);
    }
    forall i: int ensures Addressed(s'.Queue(i), i, |s.harts|) {
      QueuesAddressed(s, c, i);
    }
  }

  lemma NextMemSize(s: Machine, c: Choice)
    requires c.hart < |s.harts|
    ensures |NextMem(s, c)| == |s.mem|
  {
    hide ActionOf, Perform;
  }

  /** The other harts keep theirs: the timer marks them, a message wakes them, nothing else. */
  lemma NextOtherFine(s: Machine, c: Choice, j: nat)
    requires c.hart < |s.harts| && j < |s.harts| && HartFine(s.harts[j])
    ensures HartFine(NextOther(s, c, j)) && NextOther(s, c, j).id == s.harts[j].id
    ensures NextOther(s, c, j).state == s.harts[j].state
         || (s.harts[j].state == Waiting && NextOther(s, c, j).state == Running
             && ActionOf(s, c.hart).Sent? && ActionOf(s, c.hart).target == j)
    ensures NextOther(s, c, j).csr == s.harts[j].csr && NextOther(s, c, j).x == s.harts[j].x
         && NextOther(s, c, j).pc == s.harts[j].pc && NextOther(s, c, j).steps == s.harts[j].steps
  {
    hide ActionOf, MieSet, Outside;
  }

  lemma WaitingEmpty(s: Machine, c: Choice, i: nat)
    requires Fine(s) && Enabled(s, c) && i < |s.harts|
    requires Next(s, c, Step(s, c)) && Step(s, c).harts[i].state == Waiting
    ensures Step(s, c).Queue(i) == []
  {
    hide Step, NextHart, HartFine, ActionOf;
    FineUser(s, c);
    NextHartStanding(s, c);
    if i == c.hart {
      BlockedMeans(s, i);
    } else {
      assert Step(s, c).harts[i] == NextOther(s, c, i);
    }
    assert Step(s, c).Queue(i) == NextQueue(s, c, i);
  }

  lemma QueuesAddressed(s: Machine, c: Choice, i: int)
    requires Fine(s) && Enabled(s, c)
    requires Step(s, c).Queue(i) == NextQueue(s, c, i)
    ensures Addressed(Step(s, c).Queue(i), i, |s.harts|)
  {
    hide Step, HartFine, Perform, SInt;
    FineUser(s, c);
  }
}
