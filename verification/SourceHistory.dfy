/** The history of a hart is that of its source statements, under every schedule. */
module SourceHistory {
  import opened Options
  import opened Words
  import opened Encode
  import opened Memory
  import opened Csr
  import opened Isa
  import opened Cpu
  import opened Kernel
  import opened Runs
  import opened History
  import opened Independence
  import opened Boot
  import opened Assembly
  import opened TwoPass
  import opened Simulation
  import opened Compiled
  import opened EndToEnd

  // ----- a hart on its own, statement by statement -----

  /** The value that a statement of two words puts into its register. */
  function WideValue(s: Stmt, labels: map<string, bv32>): bv32 {
    if s.Li? then s.v else Target(s, labels)
  }

  /** The register that a statement of two words fills. */
  function WideRd(s: Stmt): Reg {
    match s case Li(rd, _) => rd case La(rd, _) => rd case _ => 0
  }

  /** The moment an effect amounts to; none if the hart has to wait for a message. */
  function MomentOf(effect: Effect, solo: Solo, id: nat, n: nat, inbox: seq<Message>): Option<Moment>
    requires solo.taken <= |inbox|
  {
    var l := solo.l;
    match effect
    case Retire(x, pc, write) =>
      Some(Moment(Retired, Local(x[0 := 0], pc, SlotOf(Apply(Embed(l.slot, id), write), id), Live)))
    case Stop => Some(Moment(Sentinel, l.(status := Done)))
    case System(_) => None
    case Trap(cause, _) =>
      if cause != ECALL_U then Some(Moment(Crashed, l.(pc := 0, status := Dead)))
      else
        var a := SyscallAction(l.x, id, n, inbox[solo.taken..]);
        if a == Blocked then None else Some(Moment(a, SoloNext(l, id, a)))
  }

  /** A register is filled; the program counter moves on. */
  function Filled(l: Local, rd: Reg, v: bv32, pc: bv32): Local {
    l.(x := Set(l.x, rd, v)[0 := 0], pc := pc)
  }

  /** LUI, then ADDI. */
  function WideMoments(l: Local, rd: Reg, v: bv32): (moments: seq<Moment>)
    ensures |moments| == 2
  {
    [Moment(Retired, Filled(l, rd, SplitHi(v) << 12, Plus(l.pc, 4))),
     Moment(Retired, Filled(l, rd, v, Plus(Plus(l.pc, 4), 4)))]
  }

  /**
   * The moments of one statement: one, or for LI and LA of two words two, between which a timer interrupt may come.
   * A system call acts on the messages not yet taken.
   */
  function Moments(s: Stmt, solo: Solo, id: nat, n: nat, inbox: seq<Message>, labels: map<string, bv32>): Option<seq<Moment>>
  {
    var l := solo.l;
    if l.status != Live || solo.taken > |inbox| then None
    else if Size(s) == 2 then Some(WideMoments(l, WideRd(s), WideValue(s, labels)))
    else
      match MomentOf(Meaning(s, l.x, l.pc, id, Embed(l.slot, id), labels), solo, id, n, inbox)
      case None => None
      case Some(moment) => Some([moment])
  }

  /** The hart after a moment. */
  function SoloAfter(solo: Solo, moment: Moment): Solo {
    Solo(moment.after, solo.taken + if moment.action.Received? then 1 else 0)
  }

  /**
   * The history of a source run through the statements `ks`, from where `solo` says: each statement is at the program
   * counter, can be expressed by the assembler and finds its own words in the slot as they were assembled.
   */
  function HistoryOf(stmts: seq<Stmt>, base: bv32, solo: Solo, id: nat, n: nat, inbox: seq<Message>, ks: seq<nat>)
    : Option<seq<Moment>>
    requires Finalised(stmts, base).ok
    decreases |ks|
  {
    if ks == [] then Some([])
    else if ks[0] < |stmts| && Encodable(stmts, ks[0]) && solo.l.pc == AddressOf(stmts, base, ks[0])
            && Present(stmts, base, ks[0], Embed(solo.l.slot, id), id) then
      match Moments(stmts[ks[0]], solo, id, n, inbox, LabelsOf(stmts, base))
      case None => None
      case Some(moments) =>
        if moments == [] then None
        else
          match HistoryOf(stmts, base, SoloAfter(solo, moments[|moments| - 1]), id, n, inbox, ks[1..])
          case None => None
          case Some(rest) => Some(moments + rest)
    else None
  }

  // ----- the moments of a statement are moments of the hart -----

  lemma SlotOfEmbed(slot: seq<bv8>, id: nat)
    requires |slot| == HART_SLOT_SIZE && id < MAX_HARTS
    ensures SlotOf(Embed(slot, id), id) == slot
  {
    var m := Embed(slot, id);
    forall k | 0 <= k < |slot| ensures SlotOf(m, id)[k] == slot[k] {
      assert SlotBase(id) + k < |m|;
    }
  }

  /** A moment of the hart on its own is that of the effect of its next instruction. */
  lemma MomentOfPerform(solo: Solo, id: nat, n: nat, inbox: seq<Message>)
    requires solo.l.status == Live && solo.taken <= |inbox|
    ensures var effect := Perform(solo.l.x, solo.l.pc, U, id, Embed(solo.l.slot, id));
            effect.System? || SoloMoment(solo, id, n, inbox) == MomentOf(effect, solo, id, n, inbox)
  {
    hide Perform, Embed, SlotOf, Apply, FromInt, Plus;
  }

  /** A statement of one word. */
  lemma OneMoment(s: Stmt, solo: Solo, id: nat, n: nat, inbox: seq<Message>, labels: map<string, bv32>)
    requires InRange(s, solo.l.pc, labels) && Size(s) == 1
    requires CodeAt(Embed(solo.l.slot, id), solo.l.pc,
                    WordsFor(s, Minus(Target(s, labels), solo.l.pc), Target(s, labels)), id)
    requires Moments(s, solo, id, n, inbox, labels).Some?
    ensures var moments := Moments(s, solo, id, n, inbox, labels).value;
            |moments| == 1 && SoloMoment(solo, id, n, inbox) == Some(moments[0])
  {
    hide Perform, Embed, CodeAt, WordsFor, Minus, Target, Meaning, Size, InRange, SoloMoment, MomentOf;
    OneWord(s, solo.l.x, solo.l.pc, id, Embed(solo.l.slot, id), labels);
    MomentOfPerform(solo, id, n, inbox);
    UserEffects(solo.l.x, solo.l.pc, id, Embed(solo.l.slot, id));
  }

  lemma RetiredMoment(solo: Solo, id: nat, n: nat, inbox: seq<Message>, x: Regs, pc: bv32)
    requires solo.l.status == Live && solo.taken <= |inbox| && |solo.l.slot| == HART_SLOT_SIZE && id < MAX_HARTS
    requires Perform(solo.l.x, solo.l.pc, U, id, Embed(solo.l.slot, id)) == Retire(x, pc, NoWrite)
    ensures SoloMoment(solo, id, n, inbox) == Some(Moment(Retired, solo.l.(x := x[0 := 0], pc := pc)))
  {
    hide Perform, Embed, SlotOf, SoloMoment;
    MomentOfPerform(solo, id, n, inbox);
    ApplyNothing(Embed(solo.l.slot, id));
    SlotOfEmbed(solo.l.slot, id);
  }

  lemma LuiMoment(rd: Reg, hi: bv32, solo: Solo, id: nat, n: nat, inbox: seq<Message>)
    requires solo.l.status == Live && solo.taken <= |inbox| && |solo.l.slot| == HART_SLOT_SIZE && id < MAX_HARTS
    requires CodeAt(Embed(solo.l.slot, id), solo.l.pc, [LuiWord(rd, hi)], id)
    ensures SoloMoment(solo, id, n, inbox) == Some(Moment(Retired, Filled(solo.l, rd, hi << 12, Plus(solo.l.pc, 4))))
  {
    hide Perform, Performs, Embed, CodeAt, SoloMoment, LuiWord, Plus, Set;
    var l, m := solo.l, Embed(solo.l.slot, id);
    var x := Set(l.x, rd, hi << 12);
    LuiPerforms(rd, hi, l.x, l.pc, id, m);
    PerformWord(LuiWord(rd, hi), l.x, l.pc, id, m, Retire(x, Plus(l.pc, 4), NoWrite));
    RetiredMoment(solo, id, n, inbox, x, Plus(l.pc, 4));
  }

  lemma AddiMoment(rd: Reg, lo: bv32, solo: Solo, id: nat, n: nat, inbox: seq<Message>)
    requires solo.l.status == Live && solo.taken <= |inbox| && |solo.l.slot| == HART_SLOT_SIZE && id < MAX_HARTS
    requires CodeAt(Embed(solo.l.slot, id), solo.l.pc, [AddiWord(rd, rd, lo)], id) && FitsI(lo)
    ensures SoloMoment(solo, id, n, inbox)
         == Some(Moment(Retired, Filled(solo.l, rd, Plus(Get(solo.l.x, rd), lo), Plus(solo.l.pc, 4))))
  {
    hide Perform, Performs, Embed, CodeAt, SoloMoment, AddiWord, Plus, Set, Get, FitsI;
    var l, m := solo.l, Embed(solo.l.slot, id);
    var x := Set(l.x, rd, Plus(Get(l.x, rd), lo));
    AddiPerforms(rd, rd, lo, l.x, l.pc, id, m);
    PerformWord(AddiWord(rd, rd, lo), l.x, l.pc, id, m, Retire(x, Plus(l.pc, 4), NoWrite));
    RetiredMoment(solo, id, n, inbox, x, Plus(l.pc, 4));
  }

  lemma FilledTwice(l: Local, rd: Reg, hi: bv32, lo: bv32, v: bv32, pc: bv32, pc': bv32)
    requires Plus(hi, lo) == v
    ensures var half := Filled(l, rd, hi, pc); Filled(half, rd, Plus(Get(half.x, rd), lo), pc') == Filled(l, rd, v, pc')
  {
    hide Plus, Get, Set;
    TwoSets(l.x, rd, hi, lo, v);
  }

  lemma FilledParts(l: Local, rd: Reg, v: bv32, pc: bv32)
    ensures var l' := Filled(l, rd, v, pc); l'.pc == pc && l'.status == l.status && l'.slot == l.slot
  {
    hide Set;
  }

  lemma WideExecutes(rd: Reg, v: bv32, solo: Solo, id: nat, n: nat, inbox: seq<Message>)
    requires solo.l.status == Live && solo.taken <= |inbox| && |solo.l.slot| == HART_SLOT_SIZE && id < MAX_HARTS
    requires CodeAt(Embed(solo.l.slot, id), solo.l.pc, [LuiWord(rd, SplitHi(v)), AddiWord(rd, rd, SplitLo(v))], id)
    ensures var moments := WideMoments(solo.l, rd, v);
            && SoloMoment(solo, id, n, inbox) == Some(moments[0])
            && SoloMoment(Solo(moments[0].after, solo.taken), id, n, inbox) == Some(moments[1])
  {
    hide Embed, CodeAt, SoloMoment, LuiWord, AddiWord, SplitHi, SplitLo, Plus, FitsI, Get, Filled;
    var l, hi, lo := solo.l, SplitHi(v) << 12, SplitLo(v);
    CodeSplits(Embed(l.slot, id), l.pc, LuiWord(rd, SplitHi(v)), AddiWord(rd, rd, lo), id);
    LuiMoment(rd, SplitHi(v), solo, id, n, inbox);
    SplitSum(v);
    var half := Filled(l, rd, hi, Plus(l.pc, 4));
    FilledParts(l, rd, hi, Plus(l.pc, 4));
    AddiMoment(rd, lo, Solo(half, solo.taken), id, n, inbox);
    FilledTwice(l, rd, hi, lo, v, Plus(l.pc, 4), Plus(half.pc, 4));
  }

  /** A statement of two words. */
  lemma TwoMoments(s: Stmt, solo: Solo, id: nat, n: nat, inbox: seq<Message>, labels: map<string, bv32>)
    requires Size(s) == 2 && id < MAX_HARTS && |solo.l.slot| == HART_SLOT_SIZE
    requires solo.l.status == Live && solo.taken <= |inbox|
    requires CodeAt(Embed(solo.l.slot, id), solo.l.pc,
                    WordsFor(s, Minus(Target(s, labels), solo.l.pc), Target(s, labels)), id)
    ensures var moments := WideMoments(solo.l, WideRd(s), WideValue(s, labels));
            && SoloMoment(solo, id, n, inbox) == Some(moments[0])
            && SoloMoment(Solo(moments[0].after, solo.taken), id, n, inbox) == Some(moments[1])
  {
    hide Embed, CodeAt, WordsFor, Minus, Target, SoloMoment, LuiWord, AddiWord, SplitHi, SplitLo, WideMoments;
    var v := WideValue(s, labels);
    TwoWordStatement(s, v, Minus(Target(s, labels), solo.l.pc), Target(s, labels));
    WideExecutes(WideRd(s), v, solo, id, n, inbox);
  }

  // ----- a source run is what the hart does on its own -----

  /** A slot keeps its size. */
  lemma SlotKept(solo: Solo, id: nat, n: nat, inbox: seq<Message>)
    requires |solo.l.slot| == HART_SLOT_SIZE
    ensures SoloMoment(solo, id, n, inbox).Some? ==> |SoloMoment(solo, id, n, inbox).value.after.slot| == HART_SLOT_SIZE
  {
    hide Perform, Embed, Apply, SlotOf, SoloAction, FromInt, Plus;
  }

  /** One more moment of the hart on its own. */
  lemma TraceGrows(l: Local, id: nat, n: nat, inbox: seq<Message>, trace: seq<Moment>, solo: Solo)
    requires SoloTrace(l, id, n, inbox, trace) && SoloAt(l, id, n, inbox, |trace|) == Some(solo)
    requires SoloMoment(solo, id, n, inbox).Some?
    ensures var moment := SoloMoment(solo, id, n, inbox).value;
            && SoloTrace(l, id, n, inbox, trace + [moment])
            && SoloAt(l, id, n, inbox, |trace| + 1) == Some(SoloAfter(solo, moment))
  {
    hide SoloMoment;
  }

  /** The moments of a statement follow the history of the hart on its own. */
  lemma StatementIsSolo(stmts: seq<Stmt>, base: bv32, k: nat, l: Local, id: nat, n: nat, inbox: seq<Message>,
        trace: seq<Moment>, solo: Solo)
    requires Finalised(stmts, base).ok && Accepted(stmts) && k < |stmts| && Encodable(stmts, k) && id < MAX_HARTS
    requires solo.l.pc == AddressOf(stmts, base, k) && |solo.l.slot| == HART_SLOT_SIZE
    requires Present(stmts, base, k, Embed(solo.l.slot, id), id)
    requires Moments(stmts[k], solo, id, n, inbox, LabelsOf(stmts, base)).Some?
    requires SoloTrace(l, id, n, inbox, trace) && SoloAt(l, id, n, inbox, |trace|) == Some(solo)
    ensures var moments := Moments(stmts[k], solo, id, n, inbox, LabelsOf(stmts, base)).value;
            && moments != []
            && SoloTrace(l, id, n, inbox, trace + moments)
            && var after := SoloAfter(solo, moments[|moments| - 1]);
               SoloAt(l, id, n, inbox, |trace + moments|) == Some(after) && |after.l.slot| == HART_SLOT_SIZE
  {
    hide CodeAt, Embed, Encodable, LabelsOf, Finalised, WordAddr, Place, Size, SoloMoment, SoloAt, SoloTrace, Moments;
    hide InRange, Target, WordsFor, Minus, Present;
    var s, labels := stmts[k], LabelsOf(stmts, base);
    var moments := Moments(s, solo, id, n, inbox, labels).value;
    PresentWords(stmts, base, k, Embed(solo.l.slot, id), id);
    SlotKept(solo, id, n, inbox);
    if Size(s) == 2 {
      WideStatement(s, solo, id, n, inbox, labels);
      TwoMoments(s, solo, id, n, inbox, labels);
      var half := SoloAfter(solo, moments[0]);
      TraceGrows(l, id, n, inbox, trace, solo);
      TraceGrows(l, id, n, inbox, trace + [moments[0]], half);
      SlotKept(half, id, n, inbox);
      assert trace + moments == trace + [moments[0]] + [moments[1]];
    } else {
      OneOrTwo(s, solo.l.pc, labels);
      OneMoment(s, solo, id, n, inbox, labels);
      TraceGrows(l, id, n, inbox, trace, solo);
      assert moments == [moments[0]];
    }
  }

  lemma OneOrTwo(s: Stmt, pc: bv32, labels: map<string, bv32>)
    requires InRange(s, pc, labels)
    ensures Size(s) == 1 || Size(s) == 2
  {
    hide FitsI, FitsJ, FitsB, Target, Minus;
  }

  lemma WideStatement(s: Stmt, solo: Solo, id: nat, n: nat, inbox: seq<Message>, labels: map<string, bv32>)
    requires Size(s) == 2 && Moments(s, solo, id, n, inbox, labels).Some?
    ensures Moments(s, solo, id, n, inbox, labels).value == WideMoments(solo.l, WideRd(s), WideValue(s, labels))
    ensures solo.l.status == Live && solo.taken <= |inbox|
  {
    hide Size, MomentOf, Meaning, WideMoments;
  }

  /** Source runs are runs of the hart on its own: the history of the statements is its history. */
  lemma {:induction false} SourceIsSolo(stmts: seq<Stmt>, base: bv32, l: Local, id: nat, n: nat, inbox: seq<Message>,
        trace: seq<Moment>, solo: Solo, ks: seq<nat>)
    requires Finalised(stmts, base).ok && Accepted(stmts) && id < MAX_HARTS && |solo.l.slot| == HART_SLOT_SIZE
    requires SoloTrace(l, id, n, inbox, trace) && SoloAt(l, id, n, inbox, |trace|) == Some(solo)
    ensures var history := HistoryOf(stmts, base, solo, id, n, inbox, ks);
            history.Some? ==> SoloTrace(l, id, n, inbox, trace + history.value)
    decreases |ks|
  {
    hide Present, Embed, Encodable, LabelsOf, Finalised, WordAddr, Place, Size, SoloMoment, SoloAt, SoloTrace, Moments;
    hide SoloAfter;
    var history := HistoryOf(stmts, base, solo, id, n, inbox, ks);
    if history.Some? {
      if ks == [] {
        assert trace + [] == trace;
      } else {
        var moments := Moments(stmts[ks[0]], solo, id, n, inbox, LabelsOf(stmts, base)).value;
        var after := SoloAfter(solo, moments[|moments| - 1]);
        StatementIsSolo(stmts, base, ks[0], l, id, n, inbox, trace, solo);
        SourceIsSolo(stmts, base, l, id, n, inbox, trace + moments, after, ks[1..]);
        var rest := HistoryOf(stmts, base, after, id, n, inbox, ks[1..]);
        assert history.value == moments + rest.value;
        assert trace + moments + rest.value == trace + (moments + rest.value);
      }
    }
  }

  // ----- from boot, under any schedule -----

  /** At boot the program is in the slot, and the hart on its own is at the first statement. */
  lemma BootedInSlot(programs: seq<seq<bv32>>, i: nat, stmts: seq<Stmt>)
    requires AllAccepted(programs) && i < |programs|
    requires Finalised(stmts, EntryPC(i)) == Resolution(programs[i], true)
    ensures var l := Proj(Booted(programs), i);
            && l.status == Live && l.pc == AddressOf(stmts, EntryPC(i), 0)
            && CodeAt(Embed(l.slot, i), EntryPC(i), programs[i], i)
            && forall k :: 0 <= k < |stmts| ==> Present(stmts, EntryPC(i), k, Embed(l.slot, i), i)
  {
    hide FromNat, Finalised, CodeAt, Booted, Quiet, Embed, SlotOf, SameSlot, Present;
    BootedReady(programs, i, stmts);
    EmbedSame(Booted(programs).mem, i);
    var m := Embed(SlotOf(Booted(programs).mem, i), i);
    CodeInSlot(programs, i, m);
    forall k | 0 <= k < |stmts| ensures Present(stmts, EntryPC(i), k, m, i) {
      AllPresent(stmts, EntryPC(i), k, m, i);
    }
  }

  lemma CodeInSlot(programs: seq<seq<bv32>>, i: nat, m: seq<bv8>)
    requires AllAccepted(programs) && i < |programs| && SameSlot(Booted(programs).mem, m, i)
    ensures CodeAt(m, EntryPC(i), programs[i], i)
  {
    hide FromNat, Booted, WordAt, Nat, WordAddr, Check, SameSlot;
    assert Accepts(i, programs[i]);
    forall k | 0 <= k < |programs[i]|
      ensures Check(Nat(WordAddr(EntryPC(i), k)), LOAD, i).NoFault?
           && WordAt(m, Nat(WordAddr(EntryPC(i), k))) == programs[i][k]
    {
      BootedFetch(programs, i, k);
      SameWord(Booted(programs).mem, m, i, SlotBase(i) + 4 * k);
    }
  }

  /**
   * Compiler correctness under every schedule. A hart is spawned with what the assembler left of `stmts`. In any run
   * from boot that does not upset it, whatever the timer and the other harts do, its history is that of its source
   * statements with the messages it received: of the two, one is the beginning of the other. System calls act as the
   * kernel makes them act, and an interrupt may come between the two words of a LI or LA.
   */
  lemma RunsAsWritten(programs: seq<seq<bv32>>, i: nat, stmts: seq<Stmt>, cs: seq<Choice>, ks: seq<nat>)
    requires AllAccepted(programs) && i < |programs|
    requires Finalised(stmts, EntryPC(i)) == Resolution(programs[i], true)
    ensures var s := Booted(programs);
            Fine(s) && (IsRun(s, cs) && Undisturbed(s, cs, i) ==>
              var inbox := ReceivedBy(i, Events(s, cs));
              var history := HistoryOf(stmts, EntryPC(i), Solo(Proj(s, i), 0), i, |programs|, inbox, ks);
              history.Some? ==> history.value <= Trace(s, cs, i) || Trace(s, cs, i) <= history.value)
  {
    hide Fine, FromNat, Finalised, Booted, Undisturbed, Trace, Events, ReceivedBy, HistoryOf, SoloTrace, AllAccepted;
    hide Proj;
    var s, l, n := Booted(programs), Proj(Booted(programs), i), |programs|;
    BootedFine(programs);
    if IsRun(s, cs) && Undisturbed(s, cs, i) {
      var inbox := ReceivedBy(i, Events(s, cs));
      var history := HistoryOf(stmts, EntryPC(i), Solo(l, 0), i, n, inbox, ks);
      if history.Some? {
        RunsAsAlone(s, cs, i);
        NoHistory(l, i, n, inbox);
        AcceptedSource(programs, i, stmts);
        SourceIsSolo(stmts, EntryPC(i), l, i, n, inbox, [], Solo(l, 0), ks);
        assert [] + history.value == history.value;
        if |history.value| <= |Trace(s, cs, i)| {
          SoloDeterministic(l, i, n, inbox, history.value, Trace(s, cs, i));
        } else {
          SoloDeterministic(l, i, n, inbox, Trace(s, cs, i), history.value);
        }
      }
    }
  }

  lemma NoHistory(l: Local, id: nat, n: nat, inbox: seq<Message>)
    ensures SoloTrace(l, id, n, inbox, []) && SoloAt(l, id, n, inbox, 0) == Some(Solo(l, 0))
  {}

  lemma AcceptedSource(programs: seq<seq<bv32>>, i: nat, stmts: seq<Stmt>)
    requires AllAccepted(programs) && i < |programs|
    requires Finalised(stmts, EntryPC(i)) == Resolution(programs[i], true)
    ensures Accepted(stmts) && i < MAX_HARTS && |Proj(Booted(programs), i).slot| == HART_SLOT_SIZE
  {
    hide FromNat, Finalised, Booted, InitialView;
    AcceptedParts(programs, i);
    FinalisedSize(stmts, EntryPC(i));
  }
}
