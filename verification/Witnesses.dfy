/** Inputs on which the properties a reader might expect fail: booted machines and their first steps. */
module Witnesses {
  import opened Words
  import opened Encode
  import opened Memory
  import opened Csr
  import opened Isa
  import opened Cpu
  import opened Kernel
  import opened Runs
  import opened Invariants
  import opened History
  import opened Frames
  import opened Loads
  import opened Blocking
  import opened Schedule
  import opened Boot
  import opened Assembly
  import opened Decoding
  import opened Privileged
  import opened Simulation
  import opened EndToEnd

  // ----- the next step from the next instruction -----

  lemma RetireStep(s: Machine, c: Choice, x: Regs, pc: bv32, write: MemWrite)
    requires Fine(s) && Enabled(s, c) && !s.harts[c.hart].timerPending && !c.fire
    requires var h := s.harts[c.hart]; Perform(h.x, h.pc, U, c.hart, s.mem) == Retire(x, pc, write)
    ensures ActionOf(s, c.hart) == Retired && Executed(s.harts[c.hart], s.mem).ok
    ensures Step(s, c) == s.With(c.hart, s.harts[c.hart].Completed(x, pc, 1)).(mem := Apply(s.mem, write))
  {
    hide Perform, Apply, Outside;
    FineUser(s, c);
  }

  lemma EcallStep(s: Machine, c: Choice)
    requires Fine(s) && Enabled(s, c) && !s.harts[c.hart].timerPending
    requires var h := s.harts[c.hart]; Perform(h.x, h.pc, U, c.hart, s.mem) == Trap(ECALL_U, 0)
    ensures var h := s.harts[c.hart];
            ActionOf(s, c.hart) == SyscallAction(h.x, c.hart, |s.harts|, s.Queue(c.hart)) && !Executed(h, s.mem).ok
  {
    hide Perform, Outside, SyscallAction, TrapVector, StatusEnter;
    FineUser(s, c);
  }

  /** Hart `i` is running, with no interrupt pending and the words before it. */
  predicate Before(s: Machine, i: nat, words: seq<bv32>)
    requires i < |s.harts|
  {
    s.harts[i].state == Running && !s.harts[i].timerPending && CodeAt(s.mem, s.harts[i].pc, words, i)
  }

  lemma BootedBefore(programs: seq<seq<bv32>>, i: nat)
    requires AllAccepted(programs) && i < |programs|
    ensures Before(Booted(programs), i, programs[i])
  {
    hide CodeAt, FromNat, Booted, AllAccepted;
    BootedCode(programs, i);
  }

  /** `li a7, n` before an `ecall`. */
  lemma LoadNumber(s: Machine, i: nat, n: bv32)
    requires Fine(s) && i < |s.harts| && Before(s, i, [AddiWord(17, 0, n), ECALL]) && FitsI(n)
    ensures var c, h := Choice(i, false), s.harts[i];
            && Enabled(s, c) && ActionOf(s, i) == Retired && Executed(h, s.mem).ok
            && Step(s, c) == s.With(i, h.Completed(h.x[17 := n], Plus(h.pc, 4), 1))
            && Before(Step(s, c), i, [ECALL]) && Step(s, c).harts[i].x[17] == n
  {
    hide Perform, Performs, CodeAt, AddiWord, Fine, Plus, Step, FitsI;
    var h, x := s.harts[i], s.harts[i].x[17 := n];
    CodeSplits(s.mem, h.pc, AddiWord(17, 0, n), ECALL, i);
    AddiPerforms(17, 0, n, h.x, h.pc, i, s.mem);
    PlusZero(n);
    PerformWord(AddiWord(17, 0, n), h.x, h.pc, i, s.mem, Retire(x, Plus(h.pc, 4), NoWrite));
    ApplyNothing(s.mem);
    RetireStep(s, Choice(i, false), x, Plus(h.pc, 4), NoWrite);
  }

  lemma AtEcall(s: Machine, c: Choice)
    requires Fine(s) && c.hart < |s.harts| && Before(s, c.hart, [ECALL])
    ensures var h := s.harts[c.hart];
            && Enabled(s, c) && !Executed(h, s.mem).ok
            && ActionOf(s, c.hart) == SyscallAction(h.x, c.hart, |s.harts|, s.Queue(c.hart))
  {
    hide Perform, Performs, CodeAt, Fine, SyscallAction, Executed, ActionOf;
    var h := s.harts[c.hart];
    WholePerforms(h.x, h.pc, c.hart, s.mem);
    PerformWord(ECALL, h.x, h.pc, c.hart, s.mem, Trap(ECALL_U, 0));
    EcallStep(s, c);
  }

  lemma SmallNumbers()
    ensures FitsI(5) && FitsI(6)
  {}

  // ----- runs, one step more -----

  lemma RunSnoc(s: Machine, cs: seq<Choice>, c: Choice)
    requires IsRun(s, cs) && Enabled(After(s, cs), c)
    ensures IsRun(s, cs + [c]) && After(s, cs + [c]) == Step(After(s, cs), c)
    ensures Events(s, cs + [c]) == Events(s, cs) + [Event(c.hart, ActionOf(After(s, cs), c.hart), c.fire)]
  {
    hide Step, ActionOf, Enabled;
    assert (cs + [c])[..|cs|] == cs;
  }

  lemma NoSteps(s: Machine)
    ensures IsRun(s, []) && After(s, []) == s && Events(s, []) == []
  {}

  /** A step that retires nothing and sends nothing leaves the memory and the other harts alone, without the timer. */
  lemma OthersSame(s: Machine, c: Choice, j: nat)
    requires Fine(s) && Enabled(s, c) && !c.fire && j < |s.harts| && j != c.hart
    requires ActionOf(s, c.hart) != Retired && !ActionOf(s, c.hart).Sent?
    ensures Step(s, c).harts[j] == s.harts[j] && Step(s, c).mem == s.mem
  {
    hide Step, ActionOf, NextHart, NextQueue, HartFine;
    StepClosed(s, c);
    assert Step(s, c).harts[j] == NextOther(s, c, j);
  }

  // ----- a receive that blocks -----

  /** `li a7, 6; ecall`: ask for a message. */
  function Asking(): seq<bv32> { [AddiWord(17, 0, 6), ECALL] }

  /** `li a7, 5; ecall`: send one to hart 0. */
  function Sending(): seq<bv32> { [AddiWord(17, 0, 5), ECALL] }

  /** The two steps of hart 0 in any machine where it is before `Asking` with an empty queue. */
  lemma AskingBlocks(s: Machine)
    requires Fine(s) && |s.harts| > 0 && Before(s, 0, Asking()) && s.Queue(0) == []
    ensures var c := Choice(0, false);
            && IsRun(s, [c]) && Executed(s.harts[0], s.mem).ok
            && After(s, [c]).harts[0].state == Running && !Executed(After(s, [c]).harts[0], After(s, [c]).mem).ok
            && IsRun(s, [c, c]) && Events(s, [c, c]) == [Event(0, Retired, false), Event(0, Blocked, false)]
            && After(s, [c, c]) == Step(After(s, [c]), c)
    ensures var t := After(s, [Choice(0, false), Choice(0, false)]);
            && t.harts[0].state == Waiting && !t.harts[0].csr.InterruptsEnabled()
            && t.harts[0].pc == Plus(s.harts[0].pc, 4) && t.Queue(0) == []
            && t.mem == s.mem && (forall j :: 0 < j < |s.harts| ==> t.harts[j] == s.harts[j])
  {
    hide Fine, Step, ActionOf, CodeAt, AddiWord, Executed, Csrs.InterruptsEnabled, FitsI, IsRun, After, Events, Plus;
    var c := Choice(0, false);
    SmallNumbers();
    LoadNumber(s, 0, 6);
    NoSteps(s);
    RunSnoc(s, [], c);
    assert [] + [c] == [c] && [c] + [c] == [c, c];
    var s1 := Step(s, c);
    FinePreserved(s, c);
    AtEcall(s1, c);
    RunSnoc(s, [c], c);
    QueueStep(s, c, 0);
    QueueStep(s1, c, 0);
    BlockStep(s1, c);
    BlockedStays(s1, c);
    SyscallBlocks(s1.harts[0].x, 0, |s.harts|);
    forall j | 0 < j < |s.harts| ensures Step(s1, c).harts[j] == s.harts[j] {
      OthersSame(s1, c, j);
    }
    StepFootprint(s1, c);
  }

  lemma BlockedStays(s: Machine, c: Choice)
    requires Fine(s) && Enabled(s, c) && ActionOf(s, c.hart) == Blocked
    ensures Step(s, c).harts[c.hart].pc == s.harts[c.hart].pc
  {
    hide Step, ActionOf, HartFine, NextMem, NextQueue, NextOther, TrapVector, StatusEnter, Perform;
    FineUser(s, c);
    StepClosed(s, c);
  }

  lemma SyscallBlocks(x: Regs, id: int, n: nat)
    ensures x[17] == 6 ==> SyscallAction(x, id, n, []) == Blocked
  {}

  function Lonely(): (s: Machine)
    ensures AllAccepted([Asking()]) && s == Booted([Asking()])
  {
    Booted([Asking()])
  }

  lemma LonelyStart()
    ensures Fine(Lonely()) && |Lonely().harts| == 1 && Before(Lonely(), 0, Asking()) && Lonely().Queue(0) == []
    ensures Lonely().harts[0].csr.InterruptsEnabled()
  {
    hide FromNat, Booted, CodeAt, AddiWord;
    BootedFine([Asking()]);
    BootedBefore([Asking()], 0);
    assert MieSet(0x88);
  }

  /**
   * Blocking in RECV loses the interrupt enable: a lone hart that asks for a message has it at boot and, two steps
   * later, waits without it.
   */
  lemma BlockingLosesEnable()
    ensures var s, c := Lonely(), Choice(0, false);
            && IsRun(s, [c, c]) && EverBlocked(0, Events(s, [c, c]))
            && s.harts[0].csr.InterruptsEnabled()
            && After(s, [c, c]).harts[0].state == Waiting && !After(s, [c, c]).harts[0].csr.InterruptsEnabled()
  {
    hide Fine, CodeAt, After, IsRun, Events, Lonely, Csrs.InterruptsEnabled;
    LonelyStart();
    AskingBlocks(Lonely());
    assert Events(Lonely(), [Choice(0, false), Choice(0, false)])[1].action == Blocked;
  }

  /** The scheduler's first two calls for a lone hart, with the timer further off. */
  lemma LonelyCalls(cfg: Config)
    requires cfg.timerInterval >= 3
    ensures var s, c := Lonely(), Choice(0, false);
            var st := Sched(s, 0, []);
            && IsRun(s, [c]) && IsRun(s, [c, c])
            && Schedule.Call(st, 0, cfg) == Sched(After(s, [c]), 1, [c])
            && Schedule.Call(Schedule.Call(st, 0, cfg), 0, cfg) == Sched(After(s, [c, c]), 2, [c, c])
  {
    hide Fine, CodeAt, Lonely, Step, Events, IsRun, After, Csrs.InterruptsEnabled, Schedule.Call;
    var s, c := Lonely(), Choice(0, false);
    LonelyStart();
    AskingBlocks(s);
    NoSteps(s);
    LonelyFirst(s);
    assert [c] + [c] == [c, c] && [] + [c] == [c];
    QuietCall(Sched(s, 0, []), cfg);
    QuietCall(Sched(After(s, [c]), 1, [c]), cfg);
  }

  /** A call of hart 0 before the timer is due. */
  lemma QuietCall(st: Sched, cfg: Config)
    requires |st.s.harts| > 0 && st.tick + 1 < cfg.timerInterval
    ensures var c := Choice(0, false); Schedule.Call(st, 0, cfg) == Sched(Step(st.s, c), st.tick + 1, st.cs + [c])
  {
    hide Step;
  }

  lemma LonelyFirst(s: Machine)
    requires IsRun(s, [Choice(0, false)])
    ensures |s.harts| > 0 && After(s, [Choice(0, false)]) == Step(s, Choice(0, false))
  {
    hide Step;
    assert [Choice(0, false)][..0] == [];
  }

  /** The first turn of a lone hart ends when it blocks; with a quantum of one it takes a second turn for that. */
  lemma LonelyTurns(cfg: Config)
    requires cfg.quantum >= 1 && cfg.timerInterval >= 3
    ensures var s, c := Lonely(), Choice(0, false);
            && IsRun(s, [c, c])
            && Rounds(Sched(s, 0, []), cfg, if cfg.quantum == 1 then 2 else 1) == Sched(After(s, [c, c]), 2, [c, c])
  {
    hide Fine, CodeAt, Lonely, Step, Events, IsRun, After, Csrs.InterruptsEnabled, Executed, Schedule.Call, Turn, Round;
    var s, c := Lonely(), Choice(0, false);
    var st := Sched(s, 0, []);
    LonelyStart();
    AskingBlocks(s);
    LonelyCalls(cfg);
    TurnUnfold(st, 0, cfg, 0);
    TurnUnfold(Schedule.Call(st, 0, cfg), 0, cfg, 1);
    TurnUnfold(Schedule.Call(st, 0, cfg), 0, cfg, 0);
    LonelyRounds(st, cfg);
    LonelyRounds(Schedule.Call(st, 0, cfg), cfg);
  }

  lemma LonelyRounds(st: Sched, cfg: Config)
    requires |st.s.harts| == 1
    ensures Round(st, cfg) == Turn(st, 0, cfg, 0) == Rounds(st, cfg, 1)
    ensures Rounds(st, cfg, 2) == Round(Round(st, cfg), cfg)
  {
    hide Turn;
    assert Turns(st, 0, cfg) == st;
    assert Rounds(st, cfg, 0) == st;
  }

  /**
   * `run` need not end: a lone hart that waits for a message keeps the loop going round, whatever the quantum, as
   * long as the timer interval and the step limit are above two.
   */
  lemma LonelyHangs(cfg: Config)
    requires cfg.timerInterval >= 3 && cfg.maxCycles >= 3
    ensures GetsStuck(Sched(Lonely(), 0, []), cfg) && !Ends(Sched(Lonely(), 0, []), cfg)
  {
    hide Fine, CodeAt, Lonely, Rounds, Events, IsRun, After, Csrs.InterruptsEnabled, Stuck, Tracks;
    var s := Lonely();
    var n: nat := if cfg.quantum <= 0 then 0 else if cfg.quantum == 1 then 2 else 1;
    LonelyStart();
    AskingBlocks(s);
    if cfg.quantum <= 0 {
      NoRounds(Sched(s, 0, []), cfg);
    } else {
      LonelyTurns(cfg);
    }
    IdleIsStuck(Rounds(Sched(s, 0, []), cfg, n), cfg);
    AtStart(s, cfg);
    EndsUnlessStuck(s, Sched(s, 0, []), cfg);
  }

  lemma NoRounds(st: Sched, cfg: Config)
    ensures Rounds(st, cfg, 0) == st
  {}

  lemma IdleIsStuck(st: Sched, cfg: Config)
    requires |st.s.harts| == 1 && st.TotalSteps() < cfg.maxCycles
    requires st.s.harts[0].state == Waiting || (st.s.harts[0].state == Running && cfg.quantum <= 0)
    ensures Stuck(st, cfg)
  {
    var state := st.s.harts[0].state;
    assert AnyActive(st.s) by { assert state == Running || state == Waiting; }
  }

  // ----- a hart that is woken -----

  function Pair(): (s: Machine)
    ensures AllAccepted([Asking(), Sending()]) && s == Booted([Asking(), Sending()])
  {
    Booted([Asking(), Sending()])
  }

  lemma PairStart()
    ensures Fine(Pair()) && |Pair().harts| == 2 && Pair().Queue(0) == []
    ensures Before(Pair(), 0, Asking()) && Before(Pair(), 1, Sending())
    ensures Pair().harts[1].x[10] == 0 && Pair().harts[0].pc == EntryPC(0)
    ensures WaitersPoised(Pair())
  {
    hide FromNat, Booted, CodeAt, AddiWord, AtReceive;
    BootedFine([Asking(), Sending()]);
    BootedBefore([Asking(), Sending()], 0);
    BootedBefore([Asking(), Sending()], 1);
  }

  /** Two steps of the receiver, then two of the sender. */
  function WakingRun(): seq<Choice> {
    [Choice(0, false), Choice(0, false), Choice(1, false), Choice(1, false)]
  }

  lemma SyscallSends(x: Regs, q: seq<Message>)
    requires x[17] == 5 && x[10] == 0
    ensures SyscallAction(x, 1, 2, q) == Sent(0, Message(1, x[11]))
  {
    hide Nat;
    ZeroValue();
  }

  /** The sender's two steps, the receiver waiting. */
  lemma SendingWakes(t: Machine)
    requires Fine(t) && |t.harts| == 2 && t.harts[0].state == Waiting
    requires Before(t, 1, Sending()) && t.harts[1].x[10] == 0
    ensures var c := Choice(1, false);
            var t1 := Step(t, c);
            var t2, msg := Step(t1, c), Message(1, t1.harts[1].x[11]);
            && Enabled(t, c) && ActionOf(t, 1) == Retired
            && Enabled(t1, c) && ActionOf(t1, 1) == Sent(0, msg)
            && t2.harts[0] == t.harts[0].(state := Running) && t2.Queue(0) == t.Queue(0) + [msg]
  {
    hide Fine, Step, ActionOf, CodeAt, AddiWord, Executed, FitsI, Plus;
    var c := Choice(1, false);
    var t1 := Step(t, c);
    SmallNumbers();
    LoadNumber(t, 1, 5);
    FinePreserved(t, c);
    AtEcall(t1, c);
    SyscallSends(t1.harts[1].x, t1.Queue(1));
    QueueStep(t, c, 0);
    QueueStep(t1, c, 0);
    SentWakes(t1, c);
  }

  lemma SentWakes(s: Machine, c: Choice)
    requires Fine(s) && Enabled(s, c) && !c.fire && ActionOf(s, c.hart).Sent? && ActionOf(s, c.hart).target == 0 != c.hart
    ensures Step(s, c).harts[0] == Woken(s.harts[0])
  {
    hide Step, ActionOf, HartFine, NextMem, NextQueue, NextHart;
    FineUser(s, c);
    StepClosed(s, c);
    assert Step(s, c).harts[0] == NextOther(s, c, 0);
  }

  lemma SecondWord()
    ensures Nat(Plus(EntryPC(0), 4)) == SlotBase(0) + 4
  {
    hide Nat, FromNat, NextAddr, Plus;
    NextIsPlus(EntryPC(0));
    NextValue(EntryPC(0));
    NatFromNat(SlotBase(0));
  }

  lemma FourSteps(s: Machine, c: Choice, d: Choice)
    requires IsRun(s, [c, c]) && Enabled(After(s, [c, c]), d) && Enabled(Step(After(s, [c, c]), d), d)
    ensures var cs, t := [c, c, d, d], After(s, [c, c]);
            && IsRun(s, cs) && After(s, cs) == Step(Step(t, d), d)
            && Events(s, cs) == Events(s, [c, c]) + [Event(d.hart, ActionOf(t, d.hart), d.fire),
                                                     Event(d.hart, ActionOf(Step(t, d), d.hart), d.fire)]
  {
    hide Step, ActionOf, Enabled, IsRun, After, Events;
    RunSnoc(s, [c, c], d);
    assert [c, c] + [d] == [c, c, d];
    RunSnoc(s, [c, c, d], d);
    assert [c, c, d] + [d] == [c, c, d, d];
  }

  /** In these events hart 0 blocks, and then the other hart makes two steps. */
  predicate BlockedThenOthers(es: seq<Event>) {
    |es| == 4 && es[1] == Event(0, Blocked, false) && es[2].hart == 1 && es[3].hart == 1
  }

  /** Hart 0 is running, past its first instruction, with one message. */
  predicate Served(t: Machine) {
    && |t.harts| > 0 && t.harts[0].state == Running && t.harts[0].pc == Plus(EntryPC(0), 4)
    && |t.Queue(0)| == 1
  }

  /** What happens in the four steps. */
  lemma WakingEvents()
    ensures var s, cs := Pair(), WakingRun(); IsRun(s, cs) && BlockedThenOthers(Events(s, cs)) && Served(After(s, cs))
  {
    hide Fine, Step, ActionOf, CodeAt, AddiWord, Executed, Plus, IsRun, After, Events, Pair, WaitersPoised, Enabled;
    hide Csrs.InterruptsEnabled, EntryPC, BlockedThenOthers, Before;
    var s, c, d := Pair(), Choice(0, false), Choice(1, false);
    PairStart();
    AskingBlocks(s);
    var t := After(s, [c, c]);
    RunFine(s, [c, c]);
    StillBefore(s, t, 1, Sending());
    SendingWakes(t);
    FourSteps(s, c, d);
    BlockedFirst(Events(s, [c, c]), Event(1, ActionOf(t, 1), false), Event(1, ActionOf(Step(t, d), 1), false));
  }

  lemma StillBefore(s: Machine, t: Machine, i: nat, words: seq<bv32>)
    requires i < |s.harts| == |t.harts| && t.harts[i] == s.harts[i] && t.mem == s.mem && Before(s, i, words)
    ensures Before(t, i, words)
  {}

  lemma BlockedFirst(es: seq<Event>, e: Event, e': Event)
    requires es == [Event(0, Retired, false), Event(0, Blocked, false)] && e.hart == 1 && e'.hart == 1
    ensures BlockedThenOthers(es + [e, e'])
  {}

  /** A hart is parked and woken: the situation in which no wake-up is lost does arise from boot. */
  lemma WakeUpArises()
    ensures var s, cs := Pair(), WakingRun();
            && Fine(s) && WaitersPoised(s) && IsRun(s, cs)
            && Parked(s, Events(s, cs), 0) && OutOfReach(s, cs, 0)
            && After(s, cs).harts[0].state == Running && |After(s, cs).Queue(0)| == 1
  {
    hide Fine, CodeAt, AddiWord, Plus, IsRun, After, Events, Parked, Pair, WaitersPoised, Nat, EntryPC;
    hide Step, Enabled, ActionOf;
    PairStart();
    WakingEvents();
    ParkedByThen(Pair(), Events(Pair(), WakingRun()));
    SecondWord();
  }

  lemma ParkedByThen(s: Machine, es: seq<Event>)
    requires |s.harts| > 0 && BlockedThenOthers(es)
    ensures Parked(s, es, 0)
  {
    ParkedAfterBlock(s, es[..2]);
    ParkedSince(s, es[..2], 0, es[2..]);
    assert es[..2] + es[2..] == es;
  }

  lemma ParkedAfterBlock(s: Machine, es: seq<Event>)
    requires |s.harts| > 0 && |es| > 0 && es[|es| - 1] == Event(0, Blocked, false)
    ensures Parked(s, es, 0)
  {}

  // ----- a store into the neighbour's slot -----

  /** `sw sp, 3(sp)`, with sp four bytes below the top of the slot as a hart is started with it. */
  function Spilling(): bv32 { InstructionWord(Stmt.Store(Word, 2, 2, 3)) }

  function Neighbours(): (s: Machine)
    ensures AllAccepted([[Spilling()], [ECALL]]) && s == Booted([[Spilling()], [ECALL]])
  {
    Booted([[Spilling()], [ECALL]])
  }

  lemma ThreeBytes()
    ensures Byte0(3) == 3 && Byte1(3) == 0 && Byte2(3) == 0 && Byte3(3) == 0 && Value8(3) == 3 && Value8(0) == 0
    ensures FitsI(3)
  {}

  lemma SpillAddress()
    ensures Nat(Plus(FromNat(StackTop(0)), 3)) == SlotTop(0) - 1
  {
    hide Nat, FromNat, Plus, Value8, Byte0, Byte1, Byte2, Byte3, FitsI;
    PlusValue(FromNat(StackTop(0)), 3);
    NatFromNat(StackTop(0));
    NatDigits(3);
    ThreeBytes();
  }

  lemma ByteIs(n: nat, b: bv8)
    requires n % 0x100 == Value8(b)
    ensures ByteOf(n) == b
  {
    hide Value8, ByteOf;
    ByteOfValue(n);
    Value8Injective(ByteOf(n), b);
  }

  lemma ByteNumbers()
    ensures Value8(0xFC) == 0xFC && Value8(0xFF) == 0xFF && Value8(1) == 1 && Value8(0) == 0
  {}

  lemma SpillBytes()
    ensures Stored(FromNat(StackTop(0)), Word) == [0xFC, 0xFF, 1, 0]
  {
    hide FromNat, Stored, ByteOf, Value8, Byte0, Byte1, Byte2, Byte3;
    ByteNumbers();
    FromNatBytes(StackTop(0));
    ByteIs(StackTop(0), 0xFC);
    ByteIs(StackTop(0) / 0x100, 0xFF);
    ByteIs(StackTop(0) / 0x1_0000, 1);
    ByteIs(StackTop(0) / 0x100_0000, 0);
    CutBytes(FromNat(StackTop(0)));
  }

  lemma NeighboursStart()
    ensures var s := Neighbours();
            && Fine(s) && |s.harts| == 2 && |s.mem| == MEM_SIZE
            && Before(s, 0, [Spilling()]) && Before(s, 1, [ECALL])
            && s.harts[0].x[2] == FromNat(StackTop(0)) && s.harts[1].x[17] == 0 && Nat(s.harts[1].pc) == SlotBase(1)
            && WordAt(s.mem, SlotBase(1)) == ECALL
  {
    hide FromNat, Booted, CodeAt, Spilling, WordAt, Nat;
    BootedFine([[Spilling()], [ECALL]]);
    BootedBefore([[Spilling()], [ECALL]], 0);
    BootedBefore([[Spilling()], [ECALL]], 1);
    BootedWord([[Spilling()], [ECALL]], 1, 0);
    NatFromNat(SlotBase(1));
  }

  lemma SpillPerforms(x: Regs, pc: bv32, m: seq<bv8>)
    requires CodeAt(m, pc, [Spilling()], 0) && x[2] == FromNat(StackTop(0))
    ensures Perform(x, pc, U, 0, m) == Retire(x, Plus(pc, 4), PutBytes(SlotTop(0) - 1, [0xFC, 0xFF, 1, 0]))
  {
    hide Perform, Performs, CodeAt, EncodeS, FromNat, Nat, Plus, Stored, FitsI, Byte0, Byte1, Byte2, Byte3, Value8;
    ThreeBytes();
    StorePerforms(Word, 2, 2, 3, x, pc, 0, m);
    SpillAddress();
    SpillBytes();
    PerformWord(Spilling(), x, pc, 0, m, Retire(x, Plus(pc, 4), PutBytes(SlotTop(0) - 1, [0xFC, 0xFF, 1, 0])));
  }

  lemma EcallByte(b0: bv8, b1: bv8, b2: bv8, b3: bv8)
    requires ComposeWord(b0, b1, b2, b3) == ECALL
    ensures b0 == 0x73
  {}

  lemma Garbled(b3: bv8)
    ensures var w := ComposeWord(0xFF, 1, 0, b3); w != 0 && w != 0xFFFF_FFFF && DecodeOpcode(w) == 0x7F
  {}

  /** What the first step of hart 0 does to hart 1 and its slot. */
  lemma SpillStep()
    ensures var s, c := Neighbours(), Choice(0, false);
            && Fine(s) && Enabled(s, c) && StoreStraddles(s, 0)
            && Step(s, c).harts[1] == s.harts[1]
            && var m := Step(s, c).mem;
               |m| == MEM_SIZE && m[SlotBase(1)] == 0xFF && m[SlotBase(1) + 1] == 1 && m[SlotBase(1) + 2] == 0
  {
    hide Fine, Step, CodeAt, Spilling, FromNat, Nat, Perform, WordAt, Plus, ActionOf;
    var s, c := Neighbours(), Choice(0, false);
    NeighboursStart();
    var h := s.harts[0];
    SpillPerforms(h.x, h.pc, s.mem);
    RetireStep(s, c, h.x, Plus(h.pc, 4), PutBytes(SlotTop(0) - 1, [0xFC, 0xFF, 1, 0]));
    FineUser(s, c);
  }

  /** Slots are not isolated: the first step of hart 0 changes the first byte of hart 1's slot. */
  lemma NeighbourOverwritten()
    ensures var s, c := Neighbours(), Choice(0, false);
            && Fine(s) && Enabled(s, c) && |s.mem| == MEM_SIZE && SlotBase(1) == SlotTop(0)
            && StoreStraddles(s, 0) && s.mem[SlotBase(1)] == 0x73 && Step(s, c).mem[SlotBase(1)] == 0xFF
  {
    hide Fine, Step, CodeAt, Spilling, FromNat, Nat, ComposeWord, StoreStraddles, Neighbours;
    NeighboursStart();
    SpillStep();
    var m := Neighbours().mem;
    EcallByte(m[SlotBase(1)], m[SlotBase(1) + 1], m[SlotBase(1) + 2], m[SlotBase(1) + 3]);
  }

  /** And hart 1, whose first instruction is a harmless ecall, faults on what it finds there instead. */
  lemma NeighbourCrashes()
    ensures var s, c := Neighbours(), Choice(0, false);
            |s.harts| == 2 && ActionOf(s, 1) == Resumption && ActionOf(Step(s, c), 1) == Crashed
  {
    hide Fine, CodeAt, FromNat, Nat, WordAt, ActionOf, Step, Neighbours, StoreStraddles, Executed;
    NeighboursStart();
    AtEcall(Neighbours(), Choice(1, false));
    SpillStep();
    FinePreserved(Neighbours(), Choice(0, false));
    GarbledFaults(Step(Neighbours(), Choice(0, false)));
  }

  lemma IllegalPerforms(w: bv32, x: Regs, pc: bv32, id: nat, m: seq<bv8>)
    requires Check(Nat(pc), LOAD, id).NoFault? && WordAt(m, Nat(pc)) == w
    requires w != 0 && w != 0xFFFF_FFFF && DecodeOpcode(w) == 0x7F
    ensures Perform(x, pc, U, id, m) == Trap(ILLEGAL_INSN, w)
  {
    hide Nat, WordAt, Execute, Decode, DecodeOpcode, Check;
    IllegalWord(w, x, pc, U, id, m);
  }

  lemma GarbledFaults(t: Machine)
    requires Fine(t) && |t.harts| == 2 && t.harts[1].state == Running && !t.harts[1].timerPending
    requires Nat(t.harts[1].pc) == SlotBase(1)
    requires |t.mem| == MEM_SIZE && t.mem[SlotBase(1)] == 0xFF && t.mem[SlotBase(1) + 1] == 1 && t.mem[SlotBase(1) + 2] == 0
    ensures ActionOf(t, 1) == Crashed
  {
    hide Nat, ComposeWord, DecodeOpcode, Perform, Outside, Csrs.InterruptsEnabled;
    FineUser(t, Choice(1, false));
    Garbled(t.mem[SlotBase(1) + 3]);
    IllegalPerforms(WordAt(t.mem, SlotBase(1)), t.harts[1].x, t.harts[1].pc, 1, t.mem);
  }

  // ----- program counters -----

  /** A user-mode fetch faults exactly outside the hart's slot: the alignment of the program counter has no part in it. */
  lemma FetchFaults(h: HartView, m: seq<bv8>)
    requires Quiet(h) && 0 <= h.id < MAX_HARTS
    ensures Raises(h, m, 1, h.pc) <==> !(SlotBase(h.id) <= Nat(h.pc) < SlotTop(h.id))
  {
    hide Nat, WordAt, Decode, Executed, Check, CauseNumber;
    CheckMeans(Nat(h.pc), LOAD, h.id);
    CausesRaised(h, m);
    NoOtherFetchFault(Decode(WordAt(m, Nat(h.pc))), h.x, h.id);
  }

  lemma NoOtherFetchFault(i: Instr, x: Regs, id: int)
    ensures CauseNumber(i, x, id) != 1
  {
    hide Nat, Check, Plus, Get;
  }

  /** A jump six bytes ahead, into the middle of a word: there the bytes read as a `nop`. */
  function Stepping(): seq<bv32> { [JalWord(0, 6), 0x0013_0000, 0] }

  function Jumper(): (s: Machine)
    ensures AllAccepted([Stepping()]) && s == Booted([Stepping()])
  {
    Booted([Stepping()])
  }

  lemma BytesBetween(b0: bv8, b1: bv8, b2: bv8, b3: bv8, b4: bv8, b5: bv8, b6: bv8, b7: bv8)
    requires ComposeWord(b0, b1, b2, b3) == 0x0013_0000 && ComposeWord(b4, b5, b6, b7) == 0
    ensures ComposeWord(b2, b3, b4, b5) == 0x13
  {}

  lemma NopWord()
    ensures AddiWord(0, 0, 0) == 0x13 && FitsI(0) && FitsJ(6)
  {}

  lemma SixBytes()
    ensures Byte0(6) == 6 && Byte1(6) == 0 && Byte2(6) == 0 && Byte3(6) == 0 && Value8(6) == 6 && Value8(0) == 0
  {}

  lemma SixAhead()
    ensures var pc := Plus(EntryPC(0), 6); Nat(pc) == SlotBase(0) + 6 && pc & 3 != 0
  {
    hide Nat, FromNat, Plus, Value8, Byte0, Byte1, Byte2, Byte3;
    PlusValue(EntryPC(0), 6);
    NatFromNat(SlotBase(0));
    NatDigits(6);
    SixBytes();
    AlignedValue(Plus(EntryPC(0), 6));
  }

  lemma JumperStart()
    ensures var s := Jumper();
            && Fine(s) && |s.harts| == 1 && |s.mem| == MEM_SIZE && s.harts[0] == InitialView(0, EntryPC(0))
            && CodeAt(s.mem, EntryPC(0), [JalWord(0, 6)], 0)
            && CodeAt(s.mem, Plus(EntryPC(0), 6), [0x13], 0)
  {
    hide FromNat, Booted, JalWord, WordAt, Nat, Check, InitialView, Plus, WordAddr;
    BootedFine([Stepping()]);
    BootedCode([Stepping()], 0);
    assert Stepping()[0] == JalWord(0, 6);
    BootedWord([Stepping()], 0, 1);
    BootedWord([Stepping()], 0, 2);
    MiddleWord(Jumper().mem);
    SixAhead();
    assert WordAddr(Plus(EntryPC(0), 6), 0) == Plus(EntryPC(0), 6) by { FirstAddress(Plus(EntryPC(0), 6)); }
    CheckMeans(SlotBase(0) + 6, LOAD, 0);
  }

  lemma MiddleWord(m: seq<bv8>)
    requires WordAt(m, SlotBase(0) + 4) == 0x0013_0000 && WordAt(m, SlotBase(0) + 8) == 0
    ensures WordAt(m, SlotBase(0) + 6) == 0x13
  {
    hide ByteAt, ComposeWord;
    var a := SlotBase(0) + 4;
    BytesBetween(ByteAt(m, a), ByteAt(m, a + 1), ByteAt(m, a + 2), ByteAt(m, a + 3),
                 ByteAt(m, a + 4), ByteAt(m, a + 5), ByteAt(m, a + 6), ByteAt(m, a + 7));
  }

  lemma JumpAhead(x: Regs, pc: bv32, m: seq<bv8>)
    requires CodeAt(m, pc, [JalWord(0, 6)], 0)
    ensures Perform(x, pc, U, 0, m) == Retire(x, Plus(pc, 6), NoWrite)
  {
    hide Perform, Decode, JalWord, CodeAt, FitsJ, Plus, FitsI, AddiWord;
    NopWord();
    DecodeJalWord(0, 6);
    SetZero(x, Plus(pc, 4));
    PerformWord(JalWord(0, 6), x, pc, 0, m, Retire(x, Plus(pc, 6), NoWrite));
  }

  lemma NopPerforms(x: Regs, pc: bv32, m: seq<bv8>)
    requires CodeAt(m, pc, [0x13], 0)
    ensures Perform(x, pc, U, 0, m) == Retire(x, Plus(pc, 4), NoWrite)
  {
    hide Perform, Performs, AddiWord, CodeAt, FitsI, FitsJ, Plus, Get, Set;
    NopWord();
    AddiPerforms(0, 0, 0, x, pc, 0, m);
    PlusZero(Get(x, 0));
    SetZero(x, Get(x, 0));
    PerformWord(0x13, x, pc, 0, m, Retire(x, Plus(pc, 4), NoWrite));
  }

  /** A hart that jumps to a misaligned address goes on from there, although the check for fetches would refuse it. */
  lemma MisalignedExecutes()
    ensures var s, c := Jumper(), Choice(0, false);
            && Fine(s) && IsRun(s, [c]) && IsRun(s, [c, c])
            && Events(s, [c, c]) == [Event(0, Retired, false), Event(0, Retired, false)]
            && var pc := After(s, [c]).harts[0].pc;
               pc & 3 != 0 && Check(Nat(pc), FETCH, 0) == Fault(Nat(pc), FETCH, MisalignedFetch)
  {
    hide Fine, Step, CodeAt, Nat, Plus, ActionOf, IsRun, After, Events, Perform, Jumper, EntryPC, FromNat;
    var s, c := Jumper(), Choice(0, false);
    JumperStart();
    var h := s.harts[0];
    JumpAhead(h.x, h.pc, s.mem);
    ApplyNothing(s.mem);
    RetireStep(s, c, h.x, Plus(h.pc, 6), NoWrite);
    NoSteps(s);
    RunSnoc(s, [], c);
    assert [] + [c] == [c] && [c] + [c] == [c, c];
    FinePreserved(s, c);
    var t := Step(s, c);
    NopPerforms(t.harts[0].x, t.harts[0].pc, t.mem);
    RetireStep(t, c, t.harts[0].x, Plus(t.harts[0].pc, 4), NoWrite);
    RunSnoc(s, [c], c);
    SixAhead();
  }

  // ----- immediates that are cut -----

  lemma CutConstants()
    ensures Truncated(0x1000) == 0 && Truncated(0x400) == 0x400 && ReadsAsSrai(0x400)
  {}

  /** `addi rd, rs1, 4096` adds nothing. */
  lemma ImmediateLost(rd: Reg, rs1: Reg)
    ensures Decode(InstructionWord(OpImm(Add, rd, rs1, 0x1000))) == AluImm(Add, rd, rs1, 0)
  {
    hide Decode, EncodeI, Truncated, Field, FitsI;
    CutConstants();
    DecodeOpImm(Add, rd, rs1, 0x1000);
  }

  /** `srli rd, rs1, 0x400` is an arithmetic shift, by nothing. */
  lemma ShiftMisread(rd: Reg, rs1: Reg)
    ensures Decode(InstructionWord(OpImm(Srl, rd, rs1, 0x400))) == AluImm(Sra, rd, rs1, 0x400)
  {
    hide Decode, EncodeI, Truncated, Field, FitsI, ReadsAsSrai;
    CutConstants();
    DecodeSrli(rd, rs1, 0x400);
  }
}
