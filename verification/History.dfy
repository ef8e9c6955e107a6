/** Properties of whole runs, stated on the sequence of events a run produces. */
module History {
  import opened Words
  import opened Csr
  import opened Isa
  import opened Cpu
  import opened Kernel
  import opened Runs
  import opened Invariants

  // ----- runs -----

  /** Every choice is enabled when it is made. */
  predicate IsRun(s: Machine, cs: seq<Choice>)
    decreases |cs|, 0
  {
    cs == [] || (IsRun(s, cs[..|cs| - 1]) && Enabled(After(s, cs[..|cs| - 1]), cs[|cs| - 1]))
  }

  /** The machine after a run. */
  function After(s: Machine, cs: seq<Choice>): (s': Machine)
    requires IsRun(s, cs)
    ensures |s'.harts| == |s.harts| && |s'.mem| == |s.mem|
    decreases |cs|, 1
  {
    if cs == [] then s else Step(After(s, cs[..|cs| - 1]), cs[|cs| - 1])
  }

  datatype Event = Event(hart: nat, action: Action, fire: bool)

  /** What happened in a run. */
  function Events(s: Machine, cs: seq<Choice>): (es: seq<Event>)
    requires IsRun(s, cs)
    ensures |es| == |cs|
  {
    if cs == [] then []
    else
      var c := cs[|cs| - 1];
      Events(s, cs[..|cs| - 1]) + [Event(c.hart, ActionOf(After(s, cs[..|cs| - 1]), c.hart), c.fire)]
  }

  lemma {:induction false} RunFine(s: Machine, cs: seq<Choice>)
    requires Fine(s) && IsRun(s, cs)
    ensures Fine(After(s, cs))
  {
    hide Fine, Step;
    if cs != [] {
      RunFine(s, cs[..|cs| - 1]);
      FinePreserved(After(s, cs[..|cs| - 1]), cs[|cs| - 1]);
    }
  }

  /** The events of a run, one by one. */
  lemma {:induction false} EventAt(s: Machine, cs: seq<Choice>, k: nat)
    requires IsRun(s, cs) && k < |cs|
    ensures IsRun(s, cs[..k]) && Enabled(After(s, cs[..k]), cs[k])
    ensures Events(s, cs)[k] == Event(cs[k].hart, ActionOf(After(s, cs[..k]), cs[k].hart), cs[k].fire)
  {
    hide Step, ActionOf;
    var before := cs[..|cs| - 1];
    if k < |cs| - 1 {
      EventAt(s, before, k);
      assert before[..k] == cs[..k];
    }
  }

  // ----- messages -----

  function SentTo(i: int, es: seq<Event>): seq<Message> {
    if es == [] then []
    else
      var rest := SentTo(i, es[..|es| - 1]);
      match es[|es| - 1].action
      case Sent(target, msg) => if target == i then rest + [msg] else rest
      case _ => rest
  }

  function ReceivedBy(i: int, es: seq<Event>): seq<Message> {
    if es == [] then []
    else
      var rest := ReceivedBy(i, es[..|es| - 1]);
      match es[|es| - 1].action
      case Received(msg) => if es[|es| - 1].hart == i then rest + [msg] else rest
      case _ => rest
  }

  /** A step's effect on a queue, in terms of the step's event. */
  lemma QueueStep(s: Machine, c: Choice, i: nat)
    requires Fine(s) && Enabled(s, c) && i < |s.harts|
    ensures var q, q' := s.Queue(i), Step(s, c).Queue(i);
            match ActionOf(s, c.hart)
            case Sent(target, msg) => q' == (if target == i then q + [msg] else q) && msg.from == c.hart
            case Received(msg) => if c.hart == i then q == [msg] + q' else q' == q
            case _ => q' == q
  {
    hide Step, NextHart, NextOther, NextMem, HartFine, Perform, Csrs.InterruptsEnabled, SInt;
    FineUser(s, c);
    StepClosed(s, c);
    assert Step(s, c).Queue(i) == NextQueue(s, c, i);
  }

  /** FIFO and conservation: what hart `i` had queued, then what was sent to it, is what it received, then what is queued. */
  lemma {:induction false} FifoDelivery(s: Machine, cs: seq<Choice>, i: nat)
    requires Fine(s) && IsRun(s, cs) && i < |s.harts|
    ensures s.Queue(i) + SentTo(i, Events(s, cs)) == ReceivedBy(i, Events(s, cs)) + After(s, cs).Queue(i)
  {
    hide Fine, Step, ActionOf;
    if cs == [] {
      assert s.Queue(i) + [] == [] + s.Queue(i);
    } else {
      var before, c := cs[..|cs| - 1], cs[|cs| - 1];
      var es, q, q' := Events(s, before), After(s, before).Queue(i), After(s, cs).Queue(i);
      FifoDelivery(s, before, i);
      RunFine(s, before);
      QueueStep(After(s, before), c, i);
      assert Events(s, cs)[..|cs| - 1] == es;
      var sent, received := SentTo(i, es), ReceivedBy(i, es);
      match ActionOf(After(s, before), c.hart) {
        case Sent(target, msg) => SentMove(s.Queue(i), sent, received, q, msg);
        case Received(msg) => ReceivedMove(received, q', msg);
        case _ =>
      }
    }
  }

  lemma SentMove(start: seq<Message>, sent: seq<Message>, received: seq<Message>, q: seq<Message>, msg: Message)
    requires start + sent == received + q
    ensures start + (sent + [msg]) == received + (q + [msg])
  {
    assert start + (sent + [msg]) == (start + sent) + [msg];
  }

  lemma ReceivedMove(received: seq<Message>, q: seq<Message>, msg: Message)
    ensures received + ([msg] + q) == (received + [msg]) + q
  {}

  /** Every message names its sender: the hart whose event it is. */
  lemma {:induction false} SendersNamed(s: Machine, cs: seq<Choice>, k: nat)
    requires Fine(s) && IsRun(s, cs) && k < |cs|
    ensures var e := Events(s, cs)[k];
            && e.hart == cs[k].hart < |s.harts|
            && (e.action.Sent? ==> e.action.msg.from == e.hart && e.action.target < |s.harts|)
  {
    hide Fine, Step, ActionOf;
    var before, c := cs[..|cs| - 1], cs[|cs| - 1];
    if k < |cs| - 1 {
      SendersNamed(s, before, k);
    } else {
      RunFine(s, before);
      SentMeans(After(s, before), c);
    }
  }

  lemma SentMeans(s: Machine, c: Choice)
    requires Fine(s) && Enabled(s, c)
    ensures ActionOf(s, c.hart).Sent? ==> ActionOf(s, c.hart).msg.from == c.hart && ActionOf(s, c.hart).target < |s.harts|
  {
    hide Perform, Csrs.InterruptsEnabled, SInt, HartFine;
  }

  // ----- interrupt enables -----

  predicate EverBlocked(i: nat, es: seq<Event>) {
    exists k :: 0 <= k < |es| && es[k].hart == i && es[k].action == Blocked
  }

  /** How a step moves the interrupt enable of hart `i`, and when hart `i` stays alive. */
  lemma EnableStep(s: Machine, c: Choice, i: nat)
    requires Fine(s) && Enabled(s, c) && i < |s.harts|
    ensures var h, h' := s.harts[i], Step(s, c).harts[i];
            h'.state == Running || h'.state == Waiting ==>
              && (h.state == Running || h.state == Waiting)
              && (h'.csr.InterruptsEnabled() <==> h.csr.InterruptsEnabled() && !(c.hart == i && ActionOf(s, i) == Blocked))
  {
    hide Step, NextHart, NextOther, NextMem, NextQueue, Outside, ActionOf, MieSet;
    FineUser(s, c);
    StepClosed(s, c);
    FinePreserved(s, c);
    if i == c.hart {
      NextHartStanding(s, c);
    } else {
      NextOtherFine(s, c, i);
      assert Step(s, c).harts[i] == NextOther(s, c, i);
    }
  }

  /**
   * The interrupt-enable history: a hart that is running or waiting has interrupts enabled exactly when it started
   * with them enabled and has never blocked in RECV. Every other trap gives the enable back.
   */
  lemma {:induction false} EnableHistory(s: Machine, cs: seq<Choice>, i: nat)
    requires Fine(s) && IsRun(s, cs) && i < |s.harts|
    ensures var h, h' := s.harts[i], After(s, cs).harts[i];
            h'.state == Running || h'.state == Waiting ==>
              && (h.state == Running || h.state == Waiting)
              && (h'.csr.InterruptsEnabled() <==> h.csr.InterruptsEnabled() && !EverBlocked(i, Events(s, cs)))
  {
    hide Fine, Step, ActionOf, Csrs.InterruptsEnabled;
    if cs != [] {
      var before, c := cs[..|cs| - 1], cs[|cs| - 1];
      var es, es' := Events(s, before), Events(s, cs);
      RunFine(s, before);
      EnableHistory(s, before, i);
      EnableStep(After(s, before), c, i);
      assert forall k :: 0 <= k < |es| ==> es'[k] == es[k];
      assert es'[|es|] == Event(c.hart, ActionOf(After(s, before), c.hart), c.fire);
      assert EverBlocked(i, es') <==> EverBlocked(i, es) || (es'[|es|].hart == i && es'[|es|].action == Blocked);
    }
  }

  // ----- privilege -----

  /** A prefix of a run is a run. */
  lemma {:induction false} RunPrefix(s: Machine, cs: seq<Choice>, k: nat)
    requires IsRun(s, cs) && k <= |cs|
    ensures IsRun(s, cs[..k])
    ensures k < |cs| ==> Enabled(After(s, cs[..k]), cs[k])
  {
    hide Step;
    if k < |cs| {
      var before := cs[..|cs| - 1];
      RunPrefix(s, before, k);
      assert before[..k] == cs[..k];
    } else {
      assert cs[..k] == cs;
    }
  }

  /** What reaches the kernel came from user mode, for a cause other than ECALL_M. */
  lemma KernelEntry(s: Machine, c: Choice)
    requires UserStep(s, c) && Trapped(s, c)
    ensures var h := Ran(s, c).harts[c.hart];
            h.state == Running && h.mode == M && h.csr.PreviousMode() == U && h.csr.mcause != ECALL_M
  {
    hide Perform, TrapVector, StatusEnter, Ran, ActionOf;
    var h := s.harts[c.hart];
    UserEffects(h.x, h.pc, h.id, s.mem);
    EnterSavesMode(h.csr.mstatus);
    if h.timerPending && h.csr.InterruptsEnabled() {
      RanTrap(s, c, TIMER_INT, 0, false);
    } else {
      var e := Perform(h.x, h.pc, h.mode, h.id, s.mem);
      RanTrap(s, c, e.cause, e.tval, h.timerPending);
    }
  }

  /** The hart that steps is in user mode, and so is everything that reaches the kernel. */
  lemma PrivilegeStep(s: Machine, c: Choice)
    requires Fine(s) && Enabled(s, c)
    ensures var h := s.harts[c.hart];
            h.mode == U && AccessId(h.mode, h.id) == c.hart && !Perform(h.x, h.pc, h.mode, h.id, s.mem).System?
    ensures Trapped(s, c) ==>
              var h := Ran(s, c).harts[c.hart];
              h.state == Running && h.mode == M && h.csr.PreviousMode() == U && h.csr.mcause != ECALL_M
  {
    hide Perform, Ran, Trapped, HartFine, Csrs.PreviousMode;
    FineUser(s, c);
    var h := s.harts[c.hart];
    UserEffects(h.x, h.pc, h.id, s.mem);
    if Trapped(s, c) {
      KernelEntry(s, c);
    }
  }

  /** No instruction of any run is fetched in machine mode, and no run reaches the privileged paths. */
  lemma PrivilegeInRun(s: Machine, cs: seq<Choice>, k: nat)
    requires Fine(s) && IsRun(s, cs) && k < |cs|
    ensures IsRun(s, cs[..k]) && Enabled(After(s, cs[..k]), cs[k])
    ensures var t, c := After(s, cs[..k]), cs[k];
            var h := t.harts[c.hart];
            && h.mode == U && AccessId(h.mode, h.id) == c.hart && !Perform(h.x, h.pc, h.mode, h.id, t.mem).System?
            && (Trapped(t, c) ==>
                  var trapped := Ran(t, c).harts[c.hart];
                  trapped.mode == M && trapped.csr.PreviousMode() == U && trapped.csr.mcause != ECALL_M)
  {
    hide Fine, Step, Perform, Ran, Trapped, Csrs.PreviousMode;
    RunPrefix(s, cs, k);
    RunFine(s, cs[..k]);
    PrivilegeStep(After(s, cs[..k]), cs[k]);
  }

  // ----- accounting -----

  function Count(p: Event -> bool, es: seq<Event>): nat {
    if es == [] then 0 else Count(p, es[..|es| - 1]) + if p(es[|es| - 1]) then 1 else 0
  }

  function TotalSteps(harts: seq<HartView>): nat {
    if harts == [] then 0 else TotalSteps(harts[..|harts| - 1]) + harts[|harts| - 1].steps
  }

  lemma {:induction false} TotalStepsUpdate(harts: seq<HartView>, harts': seq<HartView>, i: nat)
    requires i < |harts| == |harts'|
    requires forall j :: 0 <= j < |harts| && j != i ==> harts'[j].steps == harts[j].steps
    ensures TotalSteps(harts') == TotalSteps(harts) + harts'[i].steps - harts[i].steps
  {
    var n := |harts| - 1;
    if i == n {
      TotalStepsSame(harts[..n], harts'[..n]);
    } else {
      TotalStepsUpdate(harts[..n], harts'[..n], i);
    }
  }

  lemma {:induction false} TotalStepsSame(harts: seq<HartView>, harts': seq<HartView>)
    requires |harts| == |harts'|
    requires forall j :: 0 <= j < |harts| ==> harts'[j].steps == harts[j].steps
    ensures TotalSteps(harts') == TotalSteps(harts)
  {
    if harts != [] {
      TotalStepsSame(harts[..|harts| - 1], harts'[..|harts| - 1]);
    }
  }

  predicate IsSentinel(e: Event) { e.action == Sentinel }
  predicate IsTrap(e: Event) { e.action != Retired && e.action != Sentinel }
  predicate IsFire(e: Event) { e.fire }

  lemma CountingNext(s: Machine, c: Choice)
    requires UserStep(s, c)
    ensures NextHart(s, c).steps == s.harts[c.hart].steps + if ActionOf(s, c.hart) == Retired then 1 else 0
  {
    hide ActionOf, Perform, FromInt, TrapVector, StatusEnter, StatusReturn, Plus;
    RetiredMeans(s, c.hart);
  }

  /** A step counts as an instruction of the stepping hart exactly when it retires. */
  lemma CountingStep(s: Machine, c: Choice)
    requires Fine(s) && Enabled(s, c)
    ensures var s' := Step(s, c);
            && |s'.harts| == |s.harts|
            && s'.harts[c.hart].steps == s.harts[c.hart].steps + (if ActionOf(s, c.hart) == Retired then 1 else 0)
            && forall j :: 0 <= j < |s.harts| && j != c.hart ==> s'.harts[j].steps == s.harts[j].steps
  {
    hide Step, ActionOf, HartFine, NextHart, NextQueue, NextMem;
    FineUser(s, c);
    StepClosed(s, c);
    CountingNext(s, c);
    forall j | 0 <= j < |s.harts| && j != c.hart ensures Step(s, c).harts[j].steps == s.harts[j].steps {
      assert Step(s, c).harts[j] == NextOther(s, c, j);
    }
  }

  /** Step conservation: every call of `executeOne` is an instruction counted by its hart, a trap, or a sentinel halt. */
  lemma {:induction false} StepConservation(s: Machine, cs: seq<Choice>)
    requires Fine(s) && IsRun(s, cs)
    ensures var es := Events(s, cs);
            |cs| == TotalSteps(After(s, cs).harts) - TotalSteps(s.harts) + Count(IsTrap, es) + Count(IsSentinel, es)
    ensures forall i :: 0 <= i < |After(s, cs).harts| ==> After(s, cs).harts[i].steps == After(s, cs).harts[i].csr.cycle
  {
    hide Step, ActionOf;
    RunFine(s, cs);
    if cs != [] {
      hide Fine;
      var before, c := cs[..|cs| - 1], cs[|cs| - 1];
      StepConservation(s, before);
      RunFine(s, before);
      CountingStep(After(s, before), c);
      TotalStepsUpdate(After(s, before).harts, After(s, cs).harts, c.hart);
      assert Events(s, cs)[..|cs| - 1] == Events(s, before);
    }
  }

  // ----- halted and faulted harts -----

  predicate Stopped(h: HartView) {
    h.state == Halted || h.state == Faulted
  }

  lemma StoppedStep(s: Machine, c: Choice, i: nat)
    requires Fine(s) && Enabled(s, c) && i < |s.harts| && Stopped(s.harts[i])
    ensures Step(s, c).harts[i] == s.harts[i]
  {
    hide Step, NextHart, NextMem, NextQueue, ActionOf, HartFine;
    StepClosed(s, c);
    assert Step(s, c).harts[i] == NextOther(s, c, i);
  }

  /** Halting is absorbing: registers, program counter, CSRs and the pending flag of a stopped hart never change again. */
  lemma {:induction false} StoppedForGood(s: Machine, cs: seq<Choice>, i: nat)
    requires Fine(s) && IsRun(s, cs) && i < |s.harts| && Stopped(s.harts[i])
    ensures After(s, cs).harts[i] == s.harts[i]
    ensures forall k :: 0 <= k < |cs| ==> cs[k].hart != i
  {
    hide Fine, Step;
    if cs != [] {
      var before, c := cs[..|cs| - 1], cs[|cs| - 1];
      RunFine(s, before);
      StoppedForGood(s, before, i);
      StoppedStep(After(s, before), c, i);
      assert forall k :: 0 <= k < |before| ==> cs[k] == before[k];
    }
  }

  // ----- timer interrupts -----

  predicate IsTimerTrap(e: Event) { e.action == TimerTrap }

  /** The timer interrupts delivered to hart `i`. */
  function Deliveries(i: int, es: seq<Event>): nat {
    if es == [] then 0
    else
      var e := es[|es| - 1];
      Deliveries(i, es[..|es| - 1]) + if e.hart == i && e.action == TimerTrap then 1 else 0
  }

  function Pending(h: HartView): nat {
    if h.timerPending then 1 else 0
  }

  /** A delivery uses up the pending flag, and only the timer sets it. */
  lemma PendingStep(s: Machine, c: Choice, i: nat)
    requires Fine(s) && Enabled(s, c) && i < |s.harts|
    ensures Pending(Step(s, c).harts[i]) + (if c.hart == i && ActionOf(s, i) == TimerTrap then 1 else 0)
         <= Pending(s.harts[i]) + (if c.fire then 1 else 0)
  {
    hide Step, NextHart, NextMem, NextQueue, ActionOf, HartFine;
    FineUser(s, c);
    StepClosed(s, c);
    if i == c.hart {
      PendingNext(s, c);
    } else {
      assert Step(s, c).harts[i] == NextOther(s, c, i);
    }
  }

  lemma PendingNext(s: Machine, c: Choice)
    requires UserStep(s, c)
    ensures ActionOf(s, c.hart) == TimerTrap ==> s.harts[c.hart].timerPending && (NextHart(s, c).timerPending <==> c.fire)
    ensures ActionOf(s, c.hart) != TimerTrap && NextHart(s, c).timerPending ==> s.harts[c.hart].timerPending || c.fire
  {
    hide Perform, UserTrap, SyscallAction, HartView.Trapped, Csrs.InterruptsEnabled;
  }

  /** Each firing is delivered to a hart at most once. */
  lemma {:induction false} DeliveriesBounded(s: Machine, cs: seq<Choice>, i: nat)
    requires Fine(s) && IsRun(s, cs) && i < |s.harts|
    ensures var es := Events(s, cs);
            Deliveries(i, es) + Pending(After(s, cs).harts[i]) <= Count(IsFire, es) + Pending(s.harts[i])
  {
    hide Fine, Step, ActionOf;
    if cs != [] {
      var before, c := cs[..|cs| - 1], cs[|cs| - 1];
      RunFine(s, before);
      DeliveriesBounded(s, before, i);
      PendingStep(After(s, before), c, i);
      assert Events(s, cs)[..|cs| - 1] == Events(s, before);
    }
  }

  /** The deliveries to the first `n` harts. */
  function DeliveriesBelow(n: nat, es: seq<Event>): nat {
    if n == 0 then 0 else DeliveriesBelow(n - 1, es) + Deliveries(n - 1, es)
  }

  lemma {:induction false} DeliveriesSplit(n: nat, es: seq<Event>, e: Event)
    ensures DeliveriesBelow(n, es + [e])
         == DeliveriesBelow(n, es) + if e.hart < n && e.action == TimerTrap then 1 else 0
  {
    if n > 0 {
      DeliveriesSplit(n - 1, es, e);
      assert (es + [e])[..|es|] == es;
    }
  }

  lemma {:induction false} NoDeliveries(n: nat)
    ensures DeliveriesBelow(n, []) == 0
  {
    if n > 0 {
      NoDeliveries(n - 1);
    }
  }

  /** Every timer trap is a delivery to one of the harts. */
  lemma {:induction false} TimerTrapsAreDeliveries(s: Machine, cs: seq<Choice>)
    requires Fine(s) && IsRun(s, cs)
    ensures Count(IsTimerTrap, Events(s, cs)) == DeliveriesBelow(|s.harts|, Events(s, cs))
  {
    hide Fine, Step, ActionOf;
    var es := Events(s, cs);
    if cs == [] {
      NoDeliveries(|s.harts|);
    } else {
      var before := cs[..|cs| - 1];
      TimerTrapsAreDeliveries(s, before);
      RunFine(s, before);
      assert es[..|cs| - 1] == Events(s, before);
      DeliveriesSplit(|s.harts|, Events(s, before), es[|cs| - 1]);
    }
  }

  /** Timer traps are at most the number of harts times the number of firings, when none was pending to begin with. */
  lemma TimerTrapsBounded(s: Machine, cs: seq<Choice>)
    requires Fine(s) && IsRun(s, cs)
    requires forall i :: 0 <= i < |s.harts| ==> !s.harts[i].timerPending
    ensures Count(IsTimerTrap, Events(s, cs)) <= |s.harts| * Count(IsFire, Events(s, cs))
  {
    hide Fine;
    RunFine(s, cs);
    TimerTrapsAreDeliveries(s, cs);
    var es := Events(s, cs);
    forall i | 0 <= i < |s.harts| ensures Deliveries(i, es) <= Count(IsFire, es) {
      DeliveriesBounded(s, cs, i);
    }
    DeliveriesSum(es, |s.harts|, Count(IsFire, es));
  }

  lemma {:induction false} DeliveriesSum(es: seq<Event>, n: nat, bound: nat)
    requires forall i :: 0 <= i < n ==> Deliveries(i, es) <= bound
    ensures DeliveriesBelow(n, es) <= n * bound
  {
    if n > 0 {
      DeliveriesSum(es, n - 1, bound);
      assert n * bound == (n - 1) * bound + bound;
    }
  }
}
