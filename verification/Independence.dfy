/** Schedule independence: what a hart computes does not depend on when it runs.

As long as a hart reads within its slot and the hart below stores within its own, the history of the hart (its
actions, registers, program counter and slot, with timer interrupts and blocked receives left out) is that of a
machine in which it is alone and its messages lie ready in an inbox.
*/
module Independence {
  import opened Options
  import opened Words
  import opened Encode
  import opened Memory
  import opened Csr
  import opened Isa
  import opened Cpu
  import opened Kernel
  import opened Runs
  import opened Invariants
  import opened History
  import opened Frames

  // ----- one hart on its own -----

  datatype Status = Live | Done | Dead

  /** What belongs to one hart. */
  datatype Local = Local(x: Regs, pc: bv32, slot: seq<bv8>, status: Status)

  function SlotOf(m: seq<bv8>, id: nat): (slot: seq<bv8>)
    ensures |slot| == HART_SLOT_SIZE
    ensures forall k :: 0 <= k < |slot| ==> slot[k] == ByteAt(m, SlotBase(id) + k)
  {
    seq(HART_SLOT_SIZE, k requires 0 <= k => ByteAt(m, SlotBase(id) + k))
  }

  /** A memory with the given slot and nothing else in it. */
  function Embed(slot: seq<bv8>, id: nat): (m: seq<bv8>)
    ensures |m| == MEM_SIZE
  {
    seq(MEM_SIZE, a requires 0 <= a => if SlotBase(id) <= a < SlotBase(id) + |slot| then slot[a - SlotBase(id)] else 0)
  }

  function StatusOf(state: HartState): Status {
    match state
    case Running => Live
    case Waiting => Live
    case Halted => Done
    case Faulted => Dead
  }

  function Proj(s: Machine, i: nat): Local
    requires i < |s.harts|
  {
    var h := s.harts[i];
    Local(h.x, h.pc, SlotOf(s.mem, i), StatusOf(h.state))
  }

  function SoloAction(l: Local, id: nat, n: nat, inbox: seq<Message>): Action {
    match Perform(l.x, l.pc, U, id, Embed(l.slot, id))
    case Retire(_, _, _) => Retired
    case Stop => Sentinel
    case Trap(cause, _) => if cause == ECALL_U then SyscallAction(l.x, id, n, inbox) else Crashed
    case System(_) => Crashed
  }

  function Advanced(l: Local, x: Regs): Local {
    l.(x := x, pc := Plus(l.pc, 4))
  }

  /** The hart after an action. A hart that stops in the kernel has its program counter on the trap vector, 0. */
  function SoloNext(l: Local, id: nat, a: Action): Local {
    match a
    case Retired =>
      (match Perform(l.x, l.pc, U, id, Embed(l.slot, id))
       case Retire(x, pc, write) => Local(x[0 := 0], pc, SlotOf(Apply(Embed(l.slot, id), write), id), Live)
       case _ => l)
    case Sentinel => l.(status := Done)
    case Exited => l.(pc := 0, status := Done)
    case Crashed => l.(pc := 0, status := Dead)
    case Resumption => Advanced(l, if l.x[17] == 7 then l.x[10 := FromInt(id)] else l.x)
    case Sent(_, _) => Advanced(l, l.x[10 := 0])
    case Refused => Advanced(l, l.x[10 := 0xFFFF_FFFF])
    case Received(msg) => Advanced(l, l.x[10 := msg.value][11 := FromInt(msg.from)])
    case TimerTrap => l
    case Blocked => l
  }

  /** A hart on its own, and how many messages of its inbox it has taken. */
  datatype Solo = Solo(l: Local, taken: nat)

  datatype Moment = Moment(action: Action, after: Local)

  /** The next moment of a hart on its own: none if it has stopped or waits for a message. */
  function SoloMoment(solo: Solo, id: nat, n: nat, inbox: seq<Message>): Option<Moment> {
    if solo.l.status != Live || solo.taken > |inbox| then None
    else
      var a := SoloAction(solo.l, id, n, inbox[solo.taken..]);
      if a == Blocked then None else Some(Moment(a, SoloNext(solo.l, id, a)))
  }

  /** The hart on its own after `k` moments. */
  function SoloAt(l: Local, id: nat, n: nat, inbox: seq<Message>, k: nat): Option<Solo> {
    if k == 0 then Some(Solo(l, 0))
    else
      match SoloAt(l, id, n, inbox, k - 1)
      case None => None
      case Some(solo) =>
        match SoloMoment(solo, id, n, inbox)
        case None => None
        case Some(moment) => Some(Solo(moment.after, solo.taken + if moment.action.Received? then 1 else 0))
  }

  /** The action does not depend on messages behind the first. */
  lemma SoloActionInbox(l: Local, id: nat, n: nat, q: seq<Message>, q': seq<Message>)
    requires SoloAction(l, id, n, q) != Blocked
    requires SoloAction(l, id, n, q).Received? ==> q' != [] && q'[0] == q[0]
    ensures SoloAction(l, id, n, q') == SoloAction(l, id, n, q)
  {
    hide Perform, Embed, SInt;
  }

  /** More messages in the inbox change nothing that happened without them. */
  lemma SoloMomentExtends(solo: Solo, id: nat, n: nat, inbox: seq<Message>, more: seq<Message>)
    requires inbox <= more && SoloMoment(solo, id, n, inbox).Some?
    ensures SoloMoment(solo, id, n, more) == SoloMoment(solo, id, n, inbox)
    ensures SoloMoment(solo, id, n, inbox).value.action.Received? ==> solo.taken < |inbox|
  {
    hide SoloAction, SoloNext;
    ReceivedHead(solo.l, id, n, inbox[solo.taken..]);
    SoloActionInbox(solo.l, id, n, inbox[solo.taken..], more[solo.taken..]);
  }

  lemma ReceivedHead(l: Local, id: nat, n: nat, q: seq<Message>)
    ensures SoloAction(l, id, n, q).Received? ==> q != [] && SoloAction(l, id, n, q) == Received(q[0])
  {
    hide Perform, Embed, SyscallAction;
  }

  lemma {:induction false} SoloExtends(l: Local, id: nat, n: nat, inbox: seq<Message>, more: seq<Message>, k: nat)
    requires inbox <= more && SoloAt(l, id, n, inbox, k).Some?
    ensures SoloAt(l, id, n, more, k) == SoloAt(l, id, n, inbox, k)
  {
    hide SoloMoment;
    if k > 0 {
      SoloExtends(l, id, n, inbox, more, k - 1);
      SoloMomentExtends(SoloAt(l, id, n, inbox, k - 1).value, id, n, inbox, more);
    }
  }

  // ----- instructions depend on the slot only -----

  /** What an instruction reads from memory does not cross the top of the slot. What it writes may. */
  predicate LoadContained(i: Instr, x: Regs, id: int) {
    match i
    case Load(width, _, _, rs1, imm) => !Straddles(Nat(Plus(Get(x, rs1), imm)), width.Bytes(), id)
    case _ => true
  }

  /** Neither the fetch nor, if the word is fetched at all, the load of the next instruction crosses the top of the slot. */
  predicate ReadsContained(x: Regs, pc: bv32, id: int, m: seq<bv8>) {
    && !Straddles(Nat(pc), 4, id)
    && (Check(Nat(pc), LOAD, id).NoFault? ==> LoadContained(Decode(WordAt(m, Nat(pc))), x, id))
  }

  predicate SameSlot(m: seq<bv8>, m': seq<bv8>, id: nat) {
    |m| == |m'| == MEM_SIZE && forall a: nat :: SlotBase(id) <= a < SlotTop(id) ==> ByteAt(m, a) == ByteAt(m', a)
  }

  lemma SameWord(m: seq<bv8>, m': seq<bv8>, id: nat, a: nat)
    requires SameSlot(m, m', id) && SlotBase(id) <= a && a + 4 <= SlotTop(id)
    ensures WordAt(m, a) == WordAt(m', a)
  {
    hide ByteAt, ComposeWord;
    assert ByteAt(m, a) == ByteAt(m', a) && ByteAt(m, a + 1) == ByteAt(m', a + 1);
    assert ByteAt(m, a + 2) == ByteAt(m', a + 2) && ByteAt(m, a + 3) == ByteAt(m', a + 3);
  }

  lemma SameLoad(m: seq<bv8>, m': seq<bv8>, id: nat, a: nat, width: Width, signed: bool)
    requires SameSlot(m, m', id) && SlotBase(id) <= a && a + width.Bytes() <= SlotTop(id)
    ensures Loaded(m, a, width, signed) == Loaded(m', a, width, signed)
  {
    hide ByteAt, ComposeHalf, WordAt, SignExt, Widen8, Widen16;
    match width {
      case Byte => assert ByteAt(m, a) == ByteAt(m', a);
      case Half => assert ByteAt(m, a) == ByteAt(m', a) && ByteAt(m, a + 1) == ByteAt(m', a + 1);
      case Word => SameWord(m, m', id, a);
    }
  }

  lemma ExecuteLocal(i: Instr, w: bv32, x: Regs, pc: bv32, id: nat, m: seq<bv8>, m': seq<bv8>)
    requires SameSlot(m, m', id) && LoadContained(i, x, id)
    ensures Execute(i, w, x, pc, U, id, m) == Execute(i, w, x, pc, U, id, m')
  {
    hide SameSlot, Loaded, Plus, Get, Set, Nat, AluValue, Taken, BitAnd, Stored;
    match i {
      case Load(width, signed, rd, rs1, imm) =>
        var a := Nat(Plus(Get(x, rs1), imm));
        if Check(a, LOAD, id).NoFault? {
          SameLoad(m, m', id, a, width, signed);
        }
      case _ =>
    }
  }

  lemma PerformLocal(x: Regs, pc: bv32, id: nat, m: seq<bv8>, m': seq<bv8>)
    requires SameSlot(m, m', id) && ReadsContained(x, pc, id, m)
    ensures Perform(x, pc, U, id, m) == Perform(x, pc, U, id, m')
  {
    hide SameSlot, WordAt, Nat, Decode, Execute, LoadContained;
    if Check(Nat(pc), LOAD, id).NoFault? {
      SameWord(m, m', id, Nat(pc));
      var w := WordAt(m, Nat(pc));
      ExecuteLocal(Decode(w), w, x, pc, id, m, m');
    }
  }

  /** The same bytes stored into the same slot give the same slot. */
  lemma ApplyLocal(m: seq<bv8>, m': seq<bv8>, id: nat, write: MemWrite)
    requires SameSlot(m, m', id)
    ensures SameSlot(Apply(m, write), Apply(m', write), id)
  {
    var r, r' := Apply(m, write), Apply(m', write);
    forall a: nat | SlotBase(id) <= a < SlotTop(id) ensures ByteAt(r, a) == ByteAt(r', a) {
      assert ByteAt(m, a) == ByteAt(m', a);
    }
  }

  lemma SlotsEqual(m: seq<bv8>, m': seq<bv8>, id: nat)
    requires SameSlot(m, m', id)
    ensures SlotOf(m, id) == SlotOf(m', id)
  {}

  lemma EmbedSame(m: seq<bv8>, id: nat)
    requires |m| == MEM_SIZE && id < MAX_HARTS
    ensures SameSlot(m, Embed(SlotOf(m, id), id), id)
  {}

  // ----- a step, seen from one hart -----

  /** What the scheduler does to a hart that leaves no trace in its own history. */
  predicate Silent(a: Action) {
    a == TimerTrap || a == Blocked
  }

  /** What the next step of hart `i` reads lies in its slot. A step that takes a timer interrupt reads nothing. */
  predicate StepReadsContained(s: Machine, i: nat)
    requires i < |s.harts|
  {
    var h := s.harts[i];
    ActionOf(s, i) == TimerTrap || ReadsContained(h.x, h.pc, h.id, s.mem)
  }

  /** Another hart's step is invisible, unless the hart below stores across the top of its slot. */
  lemma ForeignStep(s: Machine, c: Choice, i: nat)
    requires Fine(s) && Enabled(s, c) && i < |s.harts| && c.hart != i
    requires c.hart + 1 == i ==> !StoreStraddles(s, c.hart)
    ensures Proj(Step(s, c), i) == Proj(s, i)
  {
    hide Step, HartFine, ActionOf, NextHart, NextMem, NextQueue, StoreStraddles;
    StepClosed(s, c);
    NextOtherFine(s, c, i);
    assert Step(s, c).harts[i] == NextOther(s, c, i);
    StepFootprint(s, c);
    forall a: nat | SlotBase(i) <= a < SlotTop(i) ensures ByteAt(Step(s, c).mem, a) == ByteAt(s.mem, a) {
      if a < |s.mem| {
        StepFrame(s, c, a);
      }
    }
    SlotsEqual(Step(s, c).mem, s.mem, i);
  }

  /** A silent step of the hart itself is invisible too. */
  lemma SilentStep(s: Machine, c: Choice)
    requires Fine(s) && Enabled(s, c) && Silent(ActionOf(s, c.hart))
    ensures Proj(Step(s, c), c.hart) == Proj(s, c.hart)
  {
    hide Step, HartFine, ActionOf, NextQueue, SlotOf, StatusEnter, StatusReturn;
    StepClosed(s, c);
  }

  /** The next instruction is the same with the rest of memory blanked out. */
  lemma SamePerform(s: Machine, c: Choice)
    requires Fine(s) && UserStep(s, c) && StepReadsContained(s, c.hart) && ActionOf(s, c.hart) != TimerTrap
    ensures var h := s.harts[c.hart];
            Perform(h.x, h.pc, h.mode, h.id, s.mem) == Perform(h.x, h.pc, U, c.hart, Embed(SlotOf(s.mem, c.hart), c.hart))
  {
    hide HartFine, ActionOf, Perform, SlotOf, Embed, ReadsContained, SameSlot;
    var h := s.harts[c.hart];
    EmbedSame(s.mem, c.hart);
    PerformLocal(h.x, h.pc, c.hart, s.mem, Embed(SlotOf(s.mem, c.hart), c.hart));
  }

  lemma OwnAction(s: Machine, c: Choice)
    requires Fine(s) && UserStep(s, c) && StepReadsContained(s, c.hart) && ActionOf(s, c.hart) != TimerTrap
    ensures SoloAction(Proj(s, c.hart), c.hart, |s.harts|, s.Queue(c.hart)) == ActionOf(s, c.hart)
  {
    hide Fine, Perform, SlotOf, Embed, StepReadsContained, SyscallAction, Csrs.InterruptsEnabled;
    SamePerform(s, c);
  }

  lemma OwnSlot(m: seq<bv8>, id: nat, write: MemWrite)
    requires |m| == MEM_SIZE && id < MAX_HARTS
    ensures SlotOf(Apply(m, write), id) == SlotOf(Apply(Embed(SlotOf(m, id), id), write), id)
  {
    hide SlotOf, Embed, Apply, SameSlot;
    EmbedSame(m, id);
    ApplyLocal(m, Embed(SlotOf(m, id), id), id, write);
    SlotsEqual(Apply(m, write), Apply(Embed(SlotOf(m, id), id), write), id);
  }

  lemma OwnNext(s: Machine, c: Choice, s': Machine)
    requires Fine(s) && UserStep(s, c) && StepReadsContained(s, c.hart) && !Silent(ActionOf(s, c.hart))
    requires Next(s, c, s')
    ensures Proj(s', c.hart) == SoloNext(Proj(s, c.hart), c.hart, ActionOf(s, c.hart))
  {
    hide ActionOf, Perform, SlotOf, Embed, Apply, StepReadsContained, StatusEnter, StatusReturn, Plus, FromInt, NextQueue;
    hide Outside;
    var h := s.harts[c.hart];
    SamePerform(s, c);
    match ActionOf(s, c.hart) {
      case Retired =>
        RetiredMeans(s, c.hart);
        OwnSlot(s.mem, c.hart, Perform(h.x, h.pc, h.mode, h.id, s.mem).write);
      case Crashed => CrashedMeans(s, c);
      case _ =>
    }
    assert TrapVector(0) == 0;
  }

  /** Every other step of the hart is the next moment of the hart on its own. */
  lemma OwnStep(s: Machine, c: Choice, n: nat)
    requires Fine(s) && Enabled(s, c) && |s.harts| == n && StepReadsContained(s, c.hart)
    requires !Silent(ActionOf(s, c.hart))
    ensures var l, a := Proj(s, c.hart), ActionOf(s, c.hart);
            && l.status == Live && SoloAction(l, c.hart, n, s.Queue(c.hart)) == a
            && Proj(Step(s, c), c.hart) == SoloNext(l, c.hart, a)
  {
    hide Fine, Step, Next, ActionOf, SlotOf, StepReadsContained, SoloAction, SoloNext;
    FineUser(s, c);
    StepClosed(s, c);
    OwnAction(s, c);
    OwnNext(s, c, Step(s, c));
  }

  // ----- runs, seen from one hart -----

  /** A step of hart `j` that does not upset hart `i`. */
  predicate StepUndisturbed(s: Machine, j: nat, i: nat)
    requires i < |s.harts| && j < |s.harts|
  {
    (j == i ==> StepReadsContained(s, i)) && (j + 1 == i ==> !StoreStraddles(s, j))
  }

  /** Hart `i` reads within its slot, and the hart below does not store across the top of its own. */
  predicate Undisturbed(s: Machine, cs: seq<Choice>, i: nat)
    requires IsRun(s, cs) && i < |s.harts|
  {
    cs == [] ||
      (Undisturbed(s, cs[..|cs| - 1], i) && StepUndisturbed(After(s, cs[..|cs| - 1]), cs[|cs| - 1].hart, i))
  }

  /** No access of any step crosses the top of a slot. */
  predicate AllContained(s: Machine, cs: seq<Choice>)
    requires IsRun(s, cs)
  {
    cs == [] ||
      var t, j := After(s, cs[..|cs| - 1]), cs[|cs| - 1].hart;
      AllContained(s, cs[..|cs| - 1]) && StepReadsContained(t, j) && !StoreStraddles(t, j)
  }

  /** Such a run upsets no hart. */
  lemma {:induction false} ContainedUndisturbed(s: Machine, cs: seq<Choice>, i: nat)
    requires IsRun(s, cs) && i < |s.harts| && AllContained(s, cs)
    ensures Undisturbed(s, cs, i)
  {
    hide StepReadsContained, StoreStraddles, After, Enabled;
    if cs != [] {
      ContainedUndisturbed(s, cs[..|cs| - 1], i);
    }
  }

  /** The history of hart `i`: its actions and what it was after each, timer interrupts and blocked receives erased. */
  function Trace(s: Machine, cs: seq<Choice>, i: nat): seq<Moment>
    requires Fine(s) && IsRun(s, cs) && i < |s.harts|
  {
    if cs == [] then []
    else
      var before, c := cs[..|cs| - 1], cs[|cs| - 1];
      RunFine(s, before);
      RunFine(s, cs);
      var t, rest := After(s, before), Trace(s, before, i);
      if c.hart == i && !Silent(ActionOf(t, i)) then rest + [Moment(ActionOf(t, i), Proj(After(s, cs), i))] else rest
  }

  /** `trace` is what a hart on its own does from `l` with the messages of `inbox`. */
  ghost predicate SoloTrace(l: Local, id: nat, n: nat, inbox: seq<Message>, trace: seq<Moment>) {
    forall k :: 0 <= k < |trace| ==>
      SoloAt(l, id, n, inbox, k).Some? && SoloMoment(SoloAt(l, id, n, inbox, k).value, id, n, inbox) == Some(trace[k])
  }

  lemma SoloTraceExtends(l: Local, id: nat, n: nat, inbox: seq<Message>, more: seq<Message>, trace: seq<Moment>)
    requires inbox <= more && SoloTrace(l, id, n, inbox, trace)
    ensures SoloTrace(l, id, n, more, trace)
  {
    hide SoloMoment, SoloAt;
    forall k | 0 <= k < |trace|
      ensures SoloAt(l, id, n, more, k).Some?
      ensures SoloMoment(SoloAt(l, id, n, more, k).value, id, n, more) == Some(trace[k])
    {
      SoloExtends(l, id, n, inbox, more, k);
      SoloMomentExtends(SoloAt(l, id, n, inbox, k).value, id, n, inbox, more);
    }
  }

  /** One more moment. */
  lemma SoloTraceGrows(l: Local, id: nat, n: nat, inbox: seq<Message>, trace: seq<Moment>, taken: nat, now: Local,
        q: seq<Message>, a: Action)
    requires SoloTrace(l, id, n, inbox, trace) && SoloAt(l, id, n, inbox, |trace|) == Some(Solo(now, taken))
    requires now.status == Live && SoloAction(now, id, n, q) == a && a != Blocked
    requires taken <= |inbox| && (a.Received? ==> taken < |inbox| && inbox[taken] == a.msg)
    ensures var trace' := trace + [Moment(a, SoloNext(now, id, a))];
            && SoloTrace(l, id, n, inbox, trace')
            && SoloAt(l, id, n, inbox, |trace'|) == Some(Solo(SoloNext(now, id, a), taken + if a.Received? then 1 else 0))
  {
    hide SoloAction, SoloNext;
    ReceivedHead(now, id, n, q);
    SoloActionInbox(now, id, n, q, inbox[taken..]);
    assert SoloMoment(Solo(now, taken), id, n, inbox) == Some(Moment(a, SoloNext(now, id, a)));
  }

  /** The hart on its own keeps pace with a step of the hart in the machine. */
  lemma KeepsPace(l: Local, inbox: seq<Message>, trace: seq<Moment>, t: Machine, c: Choice)
    requires Fine(t) && Enabled(t, c) && StepReadsContained(t, c.hart) && !Silent(ActionOf(t, c.hart))
    requires SoloTrace(l, c.hart, |t.harts|, inbox, trace)
    requires SoloAt(l, c.hart, |t.harts|, inbox, |trace|) == Some(Solo(Proj(t, c.hart), |inbox|))
    ensures var a, n := ActionOf(t, c.hart), |t.harts|;
            var inbox' := if a.Received? then inbox + [a.msg] else inbox;
            var trace' := trace + [Moment(a, Proj(Step(t, c), c.hart))];
            && SoloTrace(l, c.hart, n, inbox', trace')
            && SoloAt(l, c.hart, n, inbox', |trace'|) == Some(Solo(Proj(Step(t, c), c.hart), |inbox'|))
  {
    hide Fine, Step, ActionOf, Proj, StepReadsContained, SoloAt, SoloAction, SoloNext, SoloTrace;
    var a, n := ActionOf(t, c.hart), |t.harts|;
    var inbox' := if a.Received? then inbox + [a.msg] else inbox;
    OwnStep(t, c, n);
    SoloExtends(l, c.hart, n, inbox, inbox', |trace|);
    SoloTraceExtends(l, c.hart, n, inbox, inbox', trace);
    SoloTraceGrows(l, c.hart, n, inbox', trace, |inbox|, Proj(t, c.hart), t.Queue(c.hart), a);
  }

  /** The hart on its own is where `now` says, after all of `trace` and all of its inbox. */
  ghost predicate Paced(l: Local, id: nat, n: nat, inbox: seq<Message>, trace: seq<Moment>, now: Local) {
    SoloTrace(l, id, n, inbox, trace) && SoloAt(l, id, n, inbox, |trace|) == Some(Solo(now, |inbox|))
  }

  /** Whatever step the machine makes, the hart on its own keeps pace with hart `i`. */
  lemma StepPaced(l: Local, i: nat, inbox: seq<Message>, trace: seq<Moment>, t: Machine, c: Choice)
    requires Fine(t) && Enabled(t, c) && i < |t.harts| && StepUndisturbed(t, c.hart, i)
    requires Paced(l, i, |t.harts|, inbox, trace, Proj(t, i))
    ensures var a, now := ActionOf(t, c.hart), Proj(Step(t, c), i);
            var inbox' := if c.hart == i && a.Received? then inbox + [a.msg] else inbox;
            var trace' := if c.hart == i && !Silent(a) then trace + [Moment(a, now)] else trace;
            Paced(l, i, |t.harts|, inbox', trace', now)
  {
    hide Fine, Step, ActionOf, Proj, StepReadsContained, StoreStraddles, SoloAt, SoloTrace;
    if c.hart != i {
      ForeignStep(t, c, i);
    } else if Silent(ActionOf(t, i)) {
      SilentStep(t, c);
    } else {
      KeepsPace(l, inbox, trace, t, c);
    }
  }

  // The last step of a run in the history, and in the messages received.

  lemma TraceStep(s: Machine, cs: seq<Choice>, i: nat)
    requires Fine(s) && IsRun(s, cs) && i < |s.harts| && cs != []
    ensures var before, c := cs[..|cs| - 1], cs[|cs| - 1];
            var a := ActionOf(After(s, before), c.hart);
            Trace(s, cs, i) == if c.hart == i && !Silent(a) then Trace(s, before, i) + [Moment(a, Proj(After(s, cs), i))]
                               else Trace(s, before, i)
  {
    hide Fine, Step, ActionOf, Proj, After;
  }

  lemma ReceivedSnoc(i: nat, es: seq<Event>, e: Event)
    ensures ReceivedBy(i, es + [e])
         == if e.hart == i && e.action.Received? then ReceivedBy(i, es) + [e.action.msg] else ReceivedBy(i, es)
  {
    assert (es + [e])[..|es|] == es;
  }

  lemma ReceivedStep(s: Machine, cs: seq<Choice>, i: nat)
    requires IsRun(s, cs) && cs != []
    ensures var before, c := cs[..|cs| - 1], cs[|cs| - 1];
            var a := ActionOf(After(s, before), c.hart);
            var rest := ReceivedBy(i, Events(s, before));
            ReceivedBy(i, Events(s, cs)) == if c.hart == i && a.Received? then rest + [a.msg] else rest
  {
    hide Step, ActionOf, After, ReceivedBy;
    var before, c := cs[..|cs| - 1], cs[|cs| - 1];
    ReceivedSnoc(i, Events(s, before), Event(c.hart, ActionOf(After(s, before), c.hart), c.fire));
  }

  /**
   * Schedule independence. In a run that does not upset it, the history of hart `i` is that of a hart on its own, given
   * the same start and the messages `i` received. Neither the schedule, nor the timer, nor the other harts have a part
   * in it.
   */
  lemma {:induction false} RunsAsAlone(s: Machine, cs: seq<Choice>, i: nat)
    requires Fine(s) && IsRun(s, cs) && i < |s.harts|
    ensures Undisturbed(s, cs, i) ==>
              Paced(Proj(s, i), i, |s.harts|, ReceivedBy(i, Events(s, cs)), Trace(s, cs, i), Proj(After(s, cs), i))
  {
    hide Fine, Step, ActionOf, Proj, StepUndisturbed, Paced;
    if cs == [] {
      PacedAtStart(Proj(s, i), i, |s.harts|);
    } else if Undisturbed(s, cs, i) {
      hide Trace, ReceivedBy, Events;
      var before, c := cs[..|cs| - 1], cs[|cs| - 1];
      RunFine(s, before);
      RunsAsAlone(s, before, i);
      TraceStep(s, cs, i);
      ReceivedStep(s, cs, i);
      StepPaced(Proj(s, i), i, ReceivedBy(i, Events(s, before)), Trace(s, before, i), After(s, before), c);
    }
  }

  lemma PacedAtStart(l: Local, id: nat, n: nat)
    ensures Paced(l, id, n, [], [], l)
  {}

  /** Two histories of a hart on its own agree as far as both go. */
  lemma SoloDeterministic(l: Local, id: nat, n: nat, inbox: seq<Message>, a: seq<Moment>, b: seq<Moment>)
    requires SoloTrace(l, id, n, inbox, a) && SoloTrace(l, id, n, inbox, b) && |a| <= |b|
    ensures a <= b
  {
    hide SoloAt, SoloMoment;
    forall k | 0 <= k < |a| ensures a[k] == b[k] {
      assert SoloMoment(SoloAt(l, id, n, inbox, k).value, id, n, inbox) == Some(a[k]);
    }
  }

  /** A hart on its own that has stopped has no further history. */
  lemma SoloStops(l: Local, id: nat, n: nat, inbox: seq<Message>, more: seq<Message>, a: seq<Moment>, now: Local,
        b: seq<Moment>)
    requires inbox <= more && Paced(l, id, n, inbox, a, now) && now.status != Live && SoloTrace(l, id, n, more, b)
    ensures |b| <= |a|
  {
    hide SoloAt;
    SoloExtends(l, id, n, inbox, more, |a|);
    assert SoloMoment(Solo(now, |inbox|), id, n, more) == None;
  }

  /**
   * Hart `i` starts the same in both runs, neither upsets it, and the messages it received in the first are the first
   * it received in the second.
   */
  ghost predicate Alike(s: Machine, cs: seq<Choice>, s': Machine, cs': seq<Choice>, i: nat)
    requires IsRun(s, cs) && IsRun(s', cs') && i < |s.harts| == |s'.harts|
  {
    && Undisturbed(s, cs, i) && Undisturbed(s', cs', i) && Proj(s, i) == Proj(s', i)
    && ReceivedBy(i, Events(s, cs)) <= ReceivedBy(i, Events(s', cs'))
  }

  /**
   * Two runs, under any two schedules, timers and neighbours: if hart `i` starts the same among as many harts, and the
   * messages it received in one run are the first it received in the other, then one history is the beginning of the
   * other.
   */
  lemma ScheduleIndependence(s: Machine, cs: seq<Choice>, s': Machine, cs': seq<Choice>, i: nat)
    requires Fine(s) && IsRun(s, cs) && Fine(s') && IsRun(s', cs') && i < |s.harts| == |s'.harts|
    ensures Alike(s, cs, s', cs', i) ==>
              Trace(s, cs, i) <= Trace(s', cs', i) || Trace(s', cs', i) <= Trace(s, cs, i)
  {
    hide Fine, Step, ActionOf, Proj, SoloTrace, Undisturbed, Trace, Events, ReceivedBy;
    var inbox, more := ReceivedBy(i, Events(s, cs)), ReceivedBy(i, Events(s', cs'));
    if Alike(s, cs, s', cs', i) {
      var a, b := Trace(s, cs, i), Trace(s', cs', i);
      RunsAsAlone(s, cs, i);
      RunsAsAlone(s', cs', i);
      SoloTraceExtends(Proj(s, i), i, |s.harts|, inbox, more, a);
      if |a| <= |b| {
        SoloDeterministic(Proj(s, i), i, |s.harts|, more, a, b);
      } else {
        SoloDeterministic(Proj(s, i), i, |s.harts|, more, b, a);
      }
    }
  }

  /**
   * The outcome does not depend on the schedule either: if hart `i` has stopped in the first run, the second has no
   * more history of it; and if it has stopped in both, it had the same history, received the same messages and ended
   * with the same registers, program counter and slot.
   */
  lemma SameOutcome(s: Machine, cs: seq<Choice>, s': Machine, cs': seq<Choice>, i: nat)
    requires Fine(s) && IsRun(s, cs) && Fine(s') && IsRun(s', cs') && i < |s.harts| == |s'.harts|
    ensures Alike(s, cs, s', cs', i) && Stopped(After(s, cs).harts[i]) ==>
              && Trace(s', cs', i) <= Trace(s, cs, i)
              && (Stopped(After(s', cs').harts[i]) ==>
                    && Trace(s', cs', i) == Trace(s, cs, i) && Proj(After(s', cs'), i) == Proj(After(s, cs), i)
                    && ReceivedBy(i, Events(s', cs')) == ReceivedBy(i, Events(s, cs)))
  {
    hide Fine, SoloAt, SoloMoment, SoloTrace, Undisturbed, Trace, Events, ReceivedBy, SlotOf, After, IsRun;
    if Alike(s, cs, s', cs', i) && Stopped(After(s, cs).harts[i]) {
      RunsAsAlone(s, cs, i);
      RunsAsAlone(s', cs', i);
      SameEnd(Proj(s, i), i, |s.harts|, ReceivedBy(i, Events(s, cs)), ReceivedBy(i, Events(s', cs')),
              Trace(s, cs, i), Trace(s', cs', i), Proj(After(s, cs), i), Proj(After(s', cs'), i));
    }
  }

  lemma SameEnd(l: Local, id: nat, n: nat, inbox: seq<Message>, more: seq<Message>, a: seq<Moment>, b: seq<Moment>,
        now: Local, now': Local)
    requires inbox <= more && Paced(l, id, n, inbox, a, now) && Paced(l, id, n, more, b, now') && now.status != Live
    ensures b <= a
    ensures now'.status != Live ==> a == b && now == now' && inbox == more
  {
    hide SoloAt, SoloTrace;
    SoloStops(l, id, n, inbox, more, a, now, b);
    SoloTraceExtends(l, id, n, inbox, more, a);
    SoloDeterministic(l, id, n, more, b, a);
    if now'.status != Live {
      SoloStops(l, id, n, more, more, b, now', a);
      SoloExtends(l, id, n, inbox, more, |a|);
    }
  }
}
