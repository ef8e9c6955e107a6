/** Runs of the machine: any interleaving of hart steps, with the timer firing at any of them.

One step is a call of `executeOne`, the timer check after it, and the trap handling that may follow
(scheduler.h, the body of the innermost loop). A run is a sequence of choices: which running hart steps, and
whether the timer fires. What holds of every run holds whatever the scheduler's quantum and timer interval are.
*/
module Runs {
  import opened Words
  import opened Memory
  import opened Csr
  import opened Isa
  import opened Cpu
  import opened Kernel

  /** One choice of the scheduler. */
  datatype Choice = Choice(hart: nat, fire: bool)

  /** The timer fires: every running hart gets a pending interrupt. */
  function Fired(h: HartView): HartView {
    if h.state == Running then h.(timerPending := true) else h
  }

  function FireAll(harts: seq<HartView>): (r: seq<HartView>)
    ensures |r| == |harts|
    ensures forall j :: 0 <= j < |harts| ==> r[j] == Fired(harts[j])
  {
    seq(|harts|, j requires 0 <= j < |harts| => Fired(harts[j]))
  }

  predicate Enabled(s: Machine, c: Choice) {
    c.hart < |s.harts| && s.harts[c.hart].state == Running
  }

  /** `executeOne` for one hart, then the timer. */
  function Ran(s: Machine, c: Choice): (s': Machine)
    requires c.hart < |s.harts|
    ensures |s'.harts| == |s.harts| && |s'.mem| == |s.mem|
  {
    var r := Executed(s.harts[c.hart], s.mem);
    var s' := s.With(c.hart, r.h).(mem := r.m);
    if c.fire then s'.(harts := FireAll(s'.harts)) else s'
  }

  /** Whether `executeOne` asks for the kernel: it returned false and the hart did not halt. */
  predicate Trapped(s: Machine, c: Choice)
    requires c.hart < |s.harts|
  {
    var r := Executed(s.harts[c.hart], s.mem);
    !r.ok && r.h.state != Halted && r.h.state != Faulted
  }

  function Step(s: Machine, c: Choice): (s': Machine)
    requires c.hart < |s.harts|
    ensures |s'.harts| == |s.harts| && |s'.mem| == |s.mem|
  {
    var s' := Ran(s, c);
    if Trapped(s, c) then Handled(s', c.hart) else s'
  }

  // ----- what a step does, as an observation -----

  datatype Action =
    | Retired
    | TimerTrap
    | Sentinel
    | Exited
    | Resumption
    | Sent(target: nat, msg: Message)
    | Refused
    | Received(msg: Message)
    | Blocked
    | Crashed

  /** What a system call of hart `id` of `n` harts amounts to, when the messages `q` are queued for it. */
  function SyscallAction(x: Regs, id: int, n: nat, q: seq<Message>): (a: Action)
    ensures !a.Retired? && !a.TimerTrap? && !a.Sentinel? && !a.Crashed?
    ensures a.Received? || a.Blocked? <==> x[17] == 6
    ensures a.Received? ==> q != [] && a.msg == q[0]
    ensures a.Blocked? ==> q == []
  {
    if x[17] == 3 then Exited
    else if x[17] == 5 then
      var target := SInt(x[10]);
      if target < 0 || target >= n then Refused else Sent(target, Message(id, x[11]))
    else if x[17] == 6 then
      if q == [] then Blocked else Received(q[0])
    else Resumption
  }

  /** What a user-mode hart is about to do. */
  function ActionOf(s: Machine, i: nat): Action
    requires i < |s.harts|
  {
    var h := s.harts[i];
    if h.timerPending && h.csr.InterruptsEnabled() && h.mode == U then TimerTrap
    else
      match Perform(h.x, h.pc, h.mode, h.id, s.mem)
      case Retire(_, _, _) => Retired
      case Stop => Sentinel
      case Trap(cause, _) => if cause == ECALL_U then SyscallAction(h.x, h.id, |s.harts|, s.Queue(h.id)) else Crashed
      case System(_) => Crashed
  }

  // ----- the invariant -----

  /** A hart between steps. Machine mode is never left running or waiting. */
  predicate HartFine(h: HartView) {
    && h.csr.mtvec == 0
    && Outside(h.csr.mstatus) == 0
    && h.steps == h.csr.cycle
    && (h.state == Running || h.state == Waiting ==> h.mode == U)
    && (h.state == Waiting ==> h.x[17] == 6 && !h.csr.InterruptsEnabled())
  }

  /** Messages wait for harts and come from harts. */
  predicate Addressed(q: seq<Message>, i: int, n: nat) {
    (q != [] ==> 0 <= i < n) && forall k :: 0 <= k < |q| ==> 0 <= q[k].from < n
  }

  ghost predicate Fine(s: Machine) {
    && |s.harts| <= MAX_HARTS
    && |s.mem| == MEM_SIZE
    && (forall i :: 0 <= i < |s.harts| ==> s.harts[i].id == i && HartFine(s.harts[i]))
    && (forall i :: 0 <= i < |s.harts| && s.harts[i].state == Waiting ==> s.Queue(i) == [])
    && (forall i: int :: Addressed(s.Queue(i), i, |s.harts|))
  }

  // ----- a step in closed form -----

  /** A user-mode hart after a trap and the return from it. */
  function UserTrap(h: HartView, cause: bv32, tval: bv32, advance: bool): HartView {
    h.(csr := h.csr.(mepc := h.pc, mcause := cause, mtval := tval, mstatus := StatusReturn(StatusEnter(h.csr.mstatus, false))),
       pc := if advance then Plus(h.pc, 4) else h.pc)
  }

  /** Entering and leaving a trap cancel but for mepc, mcause, mtval and the trap fields of mstatus. */
  lemma TrapRoundTrip(h: HartView, cause: bv32, tval: bv32, advance: bool, pending: bool)
    requires h.mode == U
    ensures Resumed(h.Trapped(cause, tval).(timerPending := pending), advance)
         == UserTrap(h, cause, tval, advance).(timerPending := pending)
  {
    hide StatusReturn, StatusEnter, Plus, TrapVector;
    EnterSavesMode(h.csr.mstatus);
  }

  /** The stepping hart afterwards. */
  function NextHart(s: Machine, c: Choice): HartView
    requires c.hart < |s.harts|
  {
    var h := s.harts[c.hart];
    var pending := h.timerPending || c.fire;
    var resumed := UserTrap(h, ECALL_U, 0, true).(timerPending := pending);
    var trapped := h.Trapped(ECALL_U, 0).(timerPending := pending);
    match ActionOf(s, c.hart)
    case Retired =>
      (match Perform(h.x, h.pc, h.mode, h.id, s.mem)
       case Retire(x, pc, _) => h.Completed(x, pc, 1).(timerPending := pending)
       case _ => h)
    case TimerTrap => UserTrap(h, TIMER_INT, 0, false).(timerPending := c.fire)
    case Sentinel => h.(state := Halted)
    case Exited => trapped.(state := Halted)
    case Resumption => if h.x[17] == 7 then WithReg(resumed, 10, FromInt(h.id)) else resumed
    case Sent(_, _) => WithReg(resumed, 10, 0)
    case Refused => WithReg(resumed, 10, 0xFFFF_FFFF)
    case Received(msg) => WithReg(WithReg(resumed, 10, msg.value), 11, FromInt(msg.from))
    case Blocked => trapped.(mode := U, state := Waiting, pc := h.pc)
    case Crashed =>
      match Perform(h.x, h.pc, h.mode, h.id, s.mem)
      case Trap(cause, tval) => h.Trapped(cause, tval).(timerPending := pending, state := Faulted)
      case _ => h
  }

  /** Any other hart afterwards: marked by the timer if it was running, woken if it was sent to. */
  function NextOther(s: Machine, c: Choice, j: nat): HartView
    requires c.hart < |s.harts| && j < |s.harts|
  {
    var h := if c.fire then Fired(s.harts[j]) else s.harts[j];
    match ActionOf(s, c.hart)
    case Sent(target, _) => if target == j then Woken(h) else h
    case _ => h
  }

  function NextMem(s: Machine, c: Choice): seq<bv8>
    requires c.hart < |s.harts|
  {
    var h := s.harts[c.hart];
    match ActionOf(s, c.hart)
    case Retired =>
      (match Perform(h.x, h.pc, h.mode, h.id, s.mem)
       case Retire(_, _, write) => Apply(s.mem, write)
       case _ => s.mem)
    case _ => s.mem
  }

  function NextQueue(s: Machine, c: Choice, k: int): seq<Message>
    requires c.hart < |s.harts|
  {
    match ActionOf(s, c.hart)
    case Sent(target, msg) => if target == k then s.Queue(k) + [msg] else s.Queue(k)
    case Received(_) => if k == s.harts[c.hart].id && s.Queue(k) != [] then s.Queue(k)[1..] else s.Queue(k)
    case _ => s.Queue(k)
  }

  /** `s'` is what the closed form says. */
  ghost predicate Next(s: Machine, c: Choice, s': Machine)
    requires c.hart < |s.harts|
  {
    && |s'.harts| == |s.harts|
    && s'.harts[c.hart] == NextHart(s, c)
    && (forall j :: 0 <= j < |s.harts| && j != c.hart ==> s'.harts[j] == NextOther(s, c, j))
    && s'.mem == NextMem(s, c)
    && (forall k: int :: s'.Queue(k) == NextQueue(s, c, k))
  }

  /** In user mode no instruction reaches the privileged paths, and only ECALL traps with cause ECALL_U. */
  lemma UserEffects(x: Regs, pc: bv32, id: int, m: seq<bv8>)
    ensures !Perform(x, pc, U, id, m).System?
    ensures Perform(x, pc, U, id, m).Trap? ==>
              var cause := Perform(x, pc, U, id, m).cause;
              cause in {INSN_FAULT, LOAD_FAULT, STORE_FAULT, BREAKPOINT, ILLEGAL_INSN}
              || (cause == ECALL_U && Perform(x, pc, U, id, m).tval == 0 && Check(Nat(pc), LOAD, id).NoFault?
                  && Decode(WordAt(m, Nat(pc))) == Ecall)
  {
    hide Plus, Get, Set, AluValue, Taken, Loaded, Stored, Decode, BitAnd, Nat, Check, WordAt;
  }

  /** The hart after a trap into the kernel and the timer check. */
  lemma RanTrap(s: Machine, c: Choice, cause: bv32, tval: bv32, pending: bool)
    requires Enabled(s, c)
    requires var h := s.harts[c.hart];
             Executed(h, s.mem) == StepResult(h.(timerPending := pending).Trapped(cause, tval), s.mem, false)
    ensures Trapped(s, c)
    ensures var s' := Ran(s, c);
            && |s'.harts| == |s.harts| && s'.mem == s.mem && s'.queues == s.queues
            && s'.harts[c.hart] == s.harts[c.hart].Trapped(cause, tval).(timerPending := pending || c.fire)
            && forall j :: 0 <= j < |s.harts| && j != c.hart ==>
                 s'.harts[j] == if c.fire then Fired(s.harts[j]) else s.harts[j]
  {
    hide Executed, TrapVector, StatusEnter;
  }

  /** A hart in user mode, at its own position, takes a step. */
  predicate UserStep(s: Machine, c: Choice) {
    Enabled(s, c) && s.harts[c.hart].mode == U && s.harts[c.hart].id == c.hart
  }

  lemma StepTimer(s: Machine, c: Choice)
    requires UserStep(s, c) && ActionOf(s, c.hart) == TimerTrap
    ensures Next(s, c, Step(s, c))
  {
    hide Perform, TrapVector, StatusEnter, StatusReturn, Plus;
    var h := s.harts[c.hart];
    RanTrap(s, c, TIMER_INT, 0, false);
    TrapRoundTrip(h, TIMER_INT, 0, false, c.fire);
  }

  lemma StepQuiet(s: Machine, c: Choice)
    requires UserStep(s, c) && ActionOf(s, c.hart) in {Retired, Sentinel}
    ensures Next(s, c, Step(s, c))
  {
    hide Perform, TrapVector, StatusEnter, StatusReturn, Plus, Apply, SyscallAction;
    var h := s.harts[c.hart];
    UserEffects(h.x, h.pc, h.id, s.mem);
  }

  /** What crashes is a trap the kernel does not serve. */
  lemma CrashedMeans(s: Machine, c: Choice)
    requires UserStep(s, c) && ActionOf(s, c.hart) == Crashed
    ensures var h := s.harts[c.hart];
            var e := Perform(h.x, h.pc, h.mode, h.id, s.mem);
            e.Trap? && e.cause !in {TIMER_INT, ECALL_U, ECALL_M}
            && Executed(h, s.mem) == StepResult(h.Trapped(e.cause, e.tval), s.mem, false)
  {
    hide Perform, SyscallAction, HartView.Trapped, Csrs.InterruptsEnabled;
    var h := s.harts[c.hart];
    UserEffects(h.x, h.pc, h.id, s.mem);
  }

  lemma StepCrash(s: Machine, c: Choice)
    requires UserStep(s, c) && ActionOf(s, c.hart) == Crashed
    ensures Next(s, c, Step(s, c))
  {
    hide Perform, TrapVector, StatusEnter, Ran, Trapped, Executed, ActionOf, NextHart;
    var h := s.harts[c.hart];
    CrashedMeans(s, c);
    var e := Perform(h.x, h.pc, h.mode, h.id, s.mem);
    RanTrap(s, c, e.cause, e.tval, h.timerPending);
    assert NextHart(s, c) == h.Trapped(e.cause, e.tval).(timerPending := h.timerPending || c.fire, state := Faulted)
      by { CrashedNext(s, c); }
  }

  lemma CrashedNext(s: Machine, c: Choice)
    requires UserStep(s, c) && ActionOf(s, c.hart) == Crashed
    requires var h := s.harts[c.hart]; Perform(h.x, h.pc, h.mode, h.id, s.mem).Trap?
    ensures var h := s.harts[c.hart];
            var e := Perform(h.x, h.pc, h.mode, h.id, s.mem);
            NextHart(s, c) == h.Trapped(e.cause, e.tval).(timerPending := h.timerPending || c.fire, state := Faulted)
  {
    hide Perform, ActionOf, HartView.Trapped;
  }

  /** A system call reaches the kernel with the caller's registers and the trapping program counter. */
  lemma RanSyscall(s: Machine, c: Choice)
    requires UserStep(s, c)
    requires var a := ActionOf(s, c.hart); a != TimerTrap && a != Retired && a != Sentinel && a != Crashed
    ensures var h := s.harts[c.hart];
            && ActionOf(s, c.hart) == SyscallAction(h.x, h.id, |s.harts|, s.Queue(h.id))
            && Trapped(s, c) && Step(s, c) == Syscall(Ran(s, c), c.hart)
            && Ran(s, c).harts[c.hart] == h.Trapped(ECALL_U, 0).(timerPending := h.timerPending || c.fire)
            && Check(Nat(h.pc), LOAD, h.id).NoFault? && Decode(WordAt(s.mem, Nat(h.pc))) == Ecall
    ensures var s' := Ran(s, c);
            && |s'.harts| == |s.harts| && s'.mem == s.mem && s'.queues == s.queues
            && forall j :: 0 <= j < |s.harts| && j != c.hart ==>
                 s'.harts[j] == if c.fire then Fired(s.harts[j]) else s.harts[j]
  {
    hide Perform, TrapVector, StatusEnter, StatusReturn, SyscallAction, Syscall, Ran, Nat, Decode, WordAt, Check;
    var h := s.harts[c.hart];
    UserEffects(h.x, h.pc, h.id, s.mem);
    RanTrap(s, c, ECALL_U, 0, h.timerPending);
  }

  /** Writing a register commutes with resuming. */
  lemma ResumedWithReg(h: HartView, r: nat, v: bv32, advance: bool)
    requires r < 32
    ensures Resumed(WithReg(h, r, v), advance) == WithReg(Resumed(h, advance), r, v)
  {
    hide StatusReturn, Plus;
  }

  // What the message system calls do to a machine `t` in which hart `i` is in the kernel.

  lemma SendEffect(t: Machine, i: nat)
    requires i < |t.harts| && t.harts[i].state == Running && t.harts[i].id == i
    ensures var h, target := t.harts[i], SInt(t.harts[i].x[10]);
            var valid := 0 <= target < |t.harts|;
            var t' := Send(t, i);
            && |t'.harts| == |t.harts| && t'.mem == t.mem
            && t'.harts[i] == WithReg(Resumed(h, true), 10, if valid then 0 else 0xFFFF_FFFF)
            && (forall j :: 0 <= j < |t.harts| && j != i ==>
                  t'.harts[j] == if valid && j == target then Woken(t.harts[j]) else t.harts[j])
            && (forall k: int :: t'.Queue(k) ==
                  if valid && k == target then t.Queue(k) + [Message(i, h.x[11])] else t.Queue(k))
  {
    hide Resumed, SInt;
    ResumedWithReg(t.harts[i], 10, 0, true);
    ResumedWithReg(t.harts[i], 10, 0xFFFF_FFFF, true);
  }

  lemma ReceiveEffect(t: Machine, i: nat)
    requires i < |t.harts| && t.harts[i].id == i
    ensures var h, q := t.harts[i], t.Queue(i);
            var t' := Receive(t, i);
            && |t'.harts| == |t.harts| && t'.mem == t.mem
            && t'.harts[i] == (if q == [] then h.(mode := U, state := Waiting, pc := h.csr.mepc)
                               else WithReg(WithReg(Resumed(h, true), 10, q[0].value), 11, FromInt(q[0].from)))
            && (forall j :: 0 <= j < |t.harts| && j != i ==> t'.harts[j] == t.harts[j])
            && (forall k: int :: t'.Queue(k) == if k == i && q != [] then q[1..] else t.Queue(k))
  {
    hide Resumed, FromInt;
    if t.Queue(i) != [] {
      var msg := t.Queue(i)[0];
      ResumedWithReg(t.harts[i], 10, msg.value, true);
      ResumedWithReg(WithReg(t.harts[i], 10, msg.value), 11, FromInt(msg.from), true);
    }
  }

  /** A system call is the one its action names. */
  lemma SyscallOf(s: Machine, t: Machine, i: nat)
    requires i < |t.harts| == |s.harts| && t.harts[i].x == s.harts[i].x && s.harts[i].id == i
    ensures var h := s.harts[i];
            var target := SInt(h.x[10]);
            match SyscallAction(h.x, h.id, |s.harts|, s.Queue(h.id))
            case Sent(j, msg) => Syscall(t, i) == Send(t, i) && target == j < |s.harts| && msg == Message(i, h.x[11])
            case Refused => Syscall(t, i) == Send(t, i) && !(0 <= target < |s.harts|)
            case Received(msg) => Syscall(t, i) == Receive(t, i) && s.Queue(i) != [] && msg == s.Queue(i)[0]
            case Blocked => Syscall(t, i) == Receive(t, i) && s.Queue(i) == []
            case Exited => Syscall(t, i) == t.With(i, t.harts[i].(state := Halted))
            case Resumption => Syscall(t, i) == t.With(i, Resumed(
                 if h.x[17] == 7 then WithReg(t.harts[i], 10, FromInt(t.harts[i].id)) else t.harts[i], true))
            case _ => true
  {
    hide SInt, Send, Receive, Resumed, WithReg, FromInt;
  }

  lemma StepSend(s: Machine, c: Choice)
    requires UserStep(s, c) && (ActionOf(s, c.hart).Sent? || ActionOf(s, c.hart) == Refused)
    ensures Next(s, c, Step(s, c))
  {
    hide Perform, Apply, ActionOf, Step, SyscallAction, Fired, UserTrap, WithReg, Woken;
    SendStep(s, c);
  }

  /** A SEND in terms of its action. */
  lemma SendStep(s: Machine, c: Choice)
    requires UserStep(s, c) && (ActionOf(s, c.hart).Sent? || ActionOf(s, c.hart) == Refused)
    ensures var h, a, s' := s.harts[c.hart], ActionOf(s, c.hart), Step(s, c);
            var resumed := UserTrap(h, ECALL_U, 0, true).(timerPending := h.timerPending || c.fire);
            && s'.mem == s.mem
            && s'.harts[c.hart] == WithReg(resumed, 10, if a.Sent? then 0 else 0xFFFF_FFFF)
            && (forall j :: 0 <= j < |s.harts| && j != c.hart ==>
                  var other := if c.fire then Fired(s.harts[j]) else s.harts[j];
                  s'.harts[j] == if a.Sent? && j == a.target then Woken(other) else other)
            && (forall k: int :: s'.Queue(k) == if a.Sent? && k == a.target then s.Queue(k) + [a.msg] else s.Queue(k))
  {
    hide Perform, Apply, ActionOf, Ran, Step, Send, Syscall, SyscallAction, SInt, Fired, Resumed, UserTrap;
    hide TrapVector, StatusEnter;
    hide Trapped;
    var h := s.harts[c.hart];
    RanSyscall(s, c);
    SyscallOf(s, Ran(s, c), c.hart);
    TrapRoundTrip(h, ECALL_U, 0, true, h.timerPending || c.fire);
    SendEffect(Ran(s, c), c.hart);
  }

  lemma StepReceive(s: Machine, c: Choice)
    requires UserStep(s, c) && ActionOf(s, c.hart).Received?
    ensures Next(s, c, Step(s, c))
  {
    hide Perform, Apply, ActionOf, Ran, Step, Receive, Syscall, SyscallAction, FromInt, Fired, Resumed, UserTrap;
    hide TrapVector, StatusEnter;
    var h := s.harts[c.hart];
    RanSyscall(s, c);
    SyscallOf(s, Ran(s, c), c.hart);
    TrapRoundTrip(h, ECALL_U, 0, true, h.timerPending || c.fire);
    ReceiveEffect(Ran(s, c), c.hart);
  }

  lemma StepBlock(s: Machine, c: Choice)
    requires UserStep(s, c) && ActionOf(s, c.hart) == Blocked
    ensures Next(s, c, Step(s, c))
  {
    hide Perform, Apply, ActionOf, Ran, Step, Receive, Syscall, SyscallAction, FromInt, Fired, Resumed, UserTrap;
    hide TrapVector, StatusEnter;
    RanSyscall(s, c);
    SyscallOf(s, Ran(s, c), c.hart);
    ReceiveEffect(Ran(s, c), c.hart);
  }

  lemma StepExit(s: Machine, c: Choice)
    requires UserStep(s, c) && ActionOf(s, c.hart) == Exited
    ensures Next(s, c, Step(s, c))
  {
    hide Perform, Apply, ActionOf, Ran, Step, Syscall, SyscallAction, FromInt, Fired, Resumed, UserTrap, TrapVector;
    hide StatusEnter;
    RanSyscall(s, c);
    SyscallOf(s, Ran(s, c), c.hart);
  }

  lemma StepResume(s: Machine, c: Choice)
    requires UserStep(s, c) && ActionOf(s, c.hart) == Resumption
    ensures Next(s, c, Step(s, c))
  {
    hide Perform, Apply, ActionOf, Ran, Step, Syscall, SyscallAction, FromInt, Fired, Resumed, UserTrap, TrapVector;
    hide StatusEnter;
    var h := s.harts[c.hart];
    RanSyscall(s, c);
    SyscallOf(s, Ran(s, c), c.hart);
    TrapRoundTrip(h, ECALL_U, 0, true, h.timerPending || c.fire);
    ResumedWithReg(Ran(s, c).harts[c.hart], 10, FromInt(h.id), true);
  }

  /** Every step of every fine machine is its closed form. */
  lemma StepClosed(s: Machine, c: Choice)
    requires Fine(s) && Enabled(s, c)
    ensures Next(s, c, Step(s, c))
  {
    hide ActionOf, Step, Next;
    match ActionOf(s, c.hart) {
      case Retired => StepQuiet(s, c);
      case Sentinel => StepQuiet(s, c);
      case TimerTrap => StepTimer(s, c);
      case Crashed => StepCrash(s, c);
      case Sent(_, _) => StepSend(s, c);
      case Refused => StepSend(s, c);
      case Received(_) => StepReceive(s, c);
      case Blocked => StepBlock(s, c);
      case Exited => StepExit(s, c);
      case Resumption => StepResume(s, c);
    }
  }
}
