/** From source statements to the booted machine: assemble, spawn, run. */
module EndToEnd {
  import opened Words
  import opened Memory
  import opened Csr
  import opened Isa
  import opened Cpu
  import opened Kernel
  import opened Runs
  import opened Invariants
  import opened History
  import opened Independence
  import opened Boot
  import opened Schedule
  import opened Assembly
  import opened TwoPass
  import opened Simulation
  import opened Compiled

  /** Hart `i` steps `n` times on its own, and the timer does not fire. */
  function Alone(i: nat, n: nat): seq<Choice> {
    seq(n, _ => Choice(i, false))
  }

  lemma AloneGrows(i: nat, n: nat)
    ensures Alone(i, n + 1) == Alone(i, n) + [Choice(i, false)]
    ensures Alone(i, n + 1)[..n] == Alone(i, n)
  {}

  /** An instruction that completes in user mode leaves the hart as it is in mode and state. */
  lemma OkKeepsRunning(h: HartView, m: seq<bv8>)
    requires h.mode == U && Executed(h, m).ok
    ensures Executed(h, m).h.state == h.state
  {
    hide Perform, HartView.Trapped, Apply;
    UserEffects(h.x, h.pc, h.id, m);
  }

  lemma OkStep(s: Machine, i: nat)
    requires i < |s.harts| && Executed(s.harts[i], s.mem).ok
    ensures var r := Executed(s.harts[i], s.mem); Step(s, Choice(i, false)) == s.With(i, r.h).(mem := r.m)
  {
    hide Executed;
  }

  /** Calls of `executeOne` that all complete are steps of the machine. */
  lemma {:induction false} MachineFollows(s: Machine, i: nat, n: nat)
    requires Fine(s) && i < |s.harts| && s.harts[i].state == Running && ExecuteMany(s.harts[i], s.mem, n).ok
    ensures IsRun(s, Alone(i, n))
    ensures var r := ExecuteMany(s.harts[i], s.mem, n);
            After(s, Alone(i, n)) == s.With(i, r.h).(mem := r.m) && r.h.state == Running
  {
    hide Fine, Step, Executed, ExecuteMany;
    var h := s.harts[i];
    if n == 0 {
      NoneExecuted(h, s.mem);
    } else {
      AloneGrows(i, n - 1);
      ExecuteOn(h, s.mem, n - 1, 1);
      MachineFollows(s, i, n - 1);
      var r, t := ExecuteMany(h, s.mem, n - 1), After(s, Alone(i, n - 1));
      OneStep(r.h, r.m);
      RunFine(s, Alone(i, n - 1));
      FineUser(t, Choice(i, false));
      OkKeepsRunning(r.h, r.m);
      OkStep(t, i);
    }
  }

  lemma NoneExecuted(h: HartView, m: seq<bv8>)
    ensures ExecuteMany(h, m, 0) == StepResult(h, m, true)
  {}

  /** A hart spawned with an assembled program stands at its first statement, the program in its slot. */
  lemma BootedReady(programs: seq<seq<bv32>>, i: nat, stmts: seq<Stmt>)
    requires AllAccepted(programs) && i < |programs|
    requires Finalised(stmts, EntryPC(i)) == Resolution(programs[i], true)
    ensures Accepted(stmts)
    ensures var s := Booted(programs);
            && CodeAt(s.mem, EntryPC(i), programs[i], s.harts[i].id)
            && (forall k :: 0 <= k < |stmts| ==> Present(stmts, EntryPC(i), k, s.mem, s.harts[i].id))
            && Quiet(s.harts[i]) && s.harts[i].pc == AddressOf(stmts, EntryPC(i), 0)
  {
    hide FromNat, WordAddr, Finalised, CodeAt, Booted, AllAccepted, Quiet, Present;
    AcceptedParts(programs, i);
    FinalisedSize(stmts, EntryPC(i));
    InitialQuiet(i, EntryPC(i));
    BootedCode(programs, i);
    FirstAddress(EntryPC(i));
    forall k | 0 <= k < |stmts| ensures Present(stmts, EntryPC(i), k, Booted(programs).mem, i) {
      AllPresent(stmts, EntryPC(i), k, Booted(programs).mem, i);
    }
  }

  /** The address of word `a + j` of a spawned program, from that of word `a`. */
  lemma WordInSlot(i: nat, a: nat, j: nat)
    requires i < MAX_HARTS && 4 * (a + j) < HART_SLOT_SIZE - STACK_SIZE
    ensures Nat(WordAddr(WordAddr(EntryPC(i), a), j)) == SlotBase(i) + 4 * (a + j)
  {
    hide Nat, FromNat, WordAddr;
    AddressAfter(EntryPC(i), a, j);
    WordAddrValue(EntryPC(i), a + j);
    NatFromNat(SlotBase(i));
    FetchBounds(i, a + j);
  }

  lemma WordBeside(m: seq<bv8>, addr: nat, bytes: seq<bv8>, a: nat)
    requires addr + |bytes| <= |m| && a + 4 <= |m| && (addr + |bytes| <= a || a + 4 <= addr)
    ensures WordAt(Put(m, addr, bytes), a) == WordAt(m, a)
  {
    hide WordAt, Put;
    WordOfBytes(m, Put(m, addr, bytes), a);
  }

  /** A store beside the words of statement `k`, into data among the statements say, leaves the statement present. */
  lemma StoreKeepsStatement(stmts: seq<Stmt>, i: nat, k: nat, m: seq<bv8>, addr: nat, bytes: seq<bv8>)
    requires i < MAX_HARTS && Accepted(stmts) && k < |stmts| && |m| == MEM_SIZE && addr + |bytes| <= |m|
    requires Present(stmts, EntryPC(i), k, m, i)
    requires var from, to := SlotBase(i) + 4 * Place(stmts[..k]), SlotBase(i) + 4 * (Place(stmts[..k]) + Size(stmts[k]));
             addr + |bytes| <= from || to <= addr
    ensures Present(stmts, EntryPC(i), k, Put(m, addr, bytes), i)
  {
    hide Finalised, WordAt, Nat, WordAddr, EntryPC, Check, Place, Size, Put;
    var a, n, words := Place(stmts[..k]), Size(stmts[k]), Finalised(stmts, EntryPC(i)).program;
    PlaceGrows(stmts, k);
    forall j | 0 <= j < n
      ensures WordAt(Put(m, addr, bytes), Nat(WordAddr(WordAddr(EntryPC(i), a), j))) == words[a..a + n][j]
    {
      WordInSlot(i, a, j);
      WordBeside(m, addr, bytes, SlotBase(i) + 4 * (a + j));
    }
  }

  lemma InitialQuiet(id: nat, pc: bv32)
    ensures var h := InitialView(id, pc); Quiet(h) && h.id == id && h.pc == pc
  {
    hide FromNat;
  }

  /** Every word of a spawned program can be fetched by its hart, and is there. */
  lemma BootedCode(programs: seq<seq<bv32>>, i: nat)
    requires AllAccepted(programs) && i < |programs|
    ensures CodeAt(Booted(programs).mem, EntryPC(i), programs[i], i)
  {
    hide WordAt, Nat, Check, WordAddr, Booted, EntryPC, AllAccepted;
    forall k | 0 <= k < |programs[i]|
      ensures Check(Nat(WordAddr(EntryPC(i), k)), LOAD, i).NoFault?
           && WordAt(Booted(programs).mem, Nat(WordAddr(EntryPC(i), k))) == programs[i][k]
    {
      BootedFetch(programs, i, k);
    }
  }

  lemma FirstAddress(base: bv32)
    ensures WordAddr(base, 0) == base
  {}

  /**
   * End to end: assemble, spawn and run. A run of hart `i`'s source statements from boot is a run of the machine,
   * and ends with the same registers, program counter and memory; the other harts do not change.
   */
  lemma SourceRunsOnMachine(programs: seq<seq<bv32>>, i: nat, stmts: seq<Stmt>, ks: seq<nat>)
    requires AllAccepted(programs) && i < |programs|
    requires Finalised(stmts, EntryPC(i)) == Resolution(programs[i], true)
    ensures var s, cs := Booted(programs), Alone(i, WordCount(stmts, ks));
            var r := SourceRun(stmts, EntryPC(i), s.harts[i], s.mem, ks);
            r.Some? && r.value.ok ==> IsRun(s, cs) && After(s, cs) == s.With(i, r.value.h).(mem := r.value.m)
  {
    hide Fine, ExecuteMany, SourceRun, AllAccepted, Finalised, InitialView, EntryPC, CodeAt;
    var s := Booted(programs);
    var r := SourceRun(stmts, EntryPC(i), s.harts[i], s.mem, ks);
    BootedFine(programs);
    BootedReady(programs, i, stmts);
    if r.Some? && r.value.ok {
      SourceRunExecuted(stmts, EntryPC(i), s.harts[i], s.mem, ks);
      assert s.harts[i].state == Running by { InitialFine(i, EntryPC(i)); }
      MachineFollows(s, i, WordCount(stmts, ks));
    }
  }

  // ----- configurations -----

  /**
   * The quantum, the timer interval and the step limit do not matter to a hart: of its histories under two
   * configurations, one is the beginning of the other, if the messages it got are and neither run upset it; and if it
   * has stopped under both, they are the same.
   */
  lemma ConfigurationsAgree(s: Machine, a: Config, n: nat, b: Config, k: nat, i: nat)
    requires Fine(s) && i < |s.harts|
    ensures var cs, cs' := Rounds(Sched(s, 0, []), a, n).cs, Rounds(Sched(s, 0, []), b, k).cs;
            IsRun(s, cs) && IsRun(s, cs') &&
              (Alike(s, cs, s, cs', i) ==>
                 && (Trace(s, cs, i) <= Trace(s, cs', i) || Trace(s, cs', i) <= Trace(s, cs, i))
                 && (Stopped(After(s, cs).harts[i]) && Stopped(After(s, cs').harts[i]) ==>
                       Trace(s, cs, i) == Trace(s, cs', i) && Proj(After(s, cs), i) == Proj(After(s, cs'), i)))
  {
    hide Fine, Rounds, Alike, Trace, Events, ReceivedBy, Proj;
    AtStart(s, a);
    AtStart(s, b);
    RoundsTrack(s, Sched(s, 0, []), a, n);
    RoundsTrack(s, Sched(s, 0, []), b, k);
    var cs, cs' := Rounds(Sched(s, 0, []), a, n).cs, Rounds(Sched(s, 0, []), b, k).cs;
    ScheduleIndependence(s, cs, s, cs', i);
    SameOutcome(s, cs, s, cs', i);
  }
}
