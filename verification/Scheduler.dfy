/** The hart manager and its scheduling loops (scheduler.h). */
module Scheduler {
  import opened Words
  import opened Memory
  import opened Cpu
  import opened Kernel
  import opened Runs
  import opened Invariants
  import opened Boot
  import opened Schedule

  /** How `run` ends. The program spins in the third case; the method stops there and says so. */
  datatype Outcome = Finished | StepLimit | Spinning

  /** A step, in the order the scheduler takes it. */
  lemma StepParts(s: Machine, c: Choice)
    requires c.hart < |s.harts|
    ensures var r := Executed(s.harts[c.hart], s.mem);
            var ran := s.With(c.hart, r.h).(mem := r.m);
            var ticked := if c.fire then ran.(harts := FireAll(ran.harts)) else ran;
            var trapped := !r.ok && ticked.harts[c.hart].state != Halted && ticked.harts[c.hart].state != Faulted;
            Step(s, c) == if trapped then Handled(ticked, c.hart) else ticked
  {
    hide Executed, Handled;
  }

  class HartManager {
    const mem: ProtectedMemory
    const kernel: Kernel
    const cfg: Config
    var harts: seq<Hart>

    constructor (config: Config)
      ensures Valid() && cfg == config
      ensures Value() == Booted([])
      ensures fresh(mem.data) && fresh(kernel) && harts == []
    {
      hide Fine;
      mem := new ProtectedMemory();
      kernel := new Kernel();
      cfg := config;
      harts := [];
      new;
      assert mem.data[..] == Booted([]).mem;
      BootedFine([]);
    }

    /** The harts are numbered by position, have their own storage and share the memory. */
    ghost predicate Shaped()
      reads this
    {
      Separate(harts) && mem.data.Length == MEM_SIZE && forall h :: h in harts ==> h.mem == mem
    }

    /** Everything `run` may write. */
    ghost function Footprint(): (objects: set<object>)
      reads this`harts
      ensures this !in objects
    {
      {kernel, mem.data} + (set h | h in harts :: h) + (set h | h in harts :: h.x) + (set h | h in harts :: h.csr)
    }

    ghost function Value(): Machine
      requires Shaped()
      reads this, harts, set h | h in harts :: h.x, set h | h in harts :: h.csr, mem.data, kernel
    {
      Machine(Views(harts), mem.data[..], kernel.queues)
    }

    ghost predicate Valid()
      reads this, harts, set h | h in harts :: h.x, set h | h in harts :: h.csr, mem.data, kernel
    {
      Shaped() && Fine(Value())
    }

    /** Add a hart with its program; -1 if there is no slot left or the program does not fit. */
    method SpawnHart(program: seq<bv32>) returns (id: int)
      requires Valid()
      modifies this`harts, mem.data
      ensures Valid()
      ensures id == if Accepts(|old(harts)|, program) then |old(harts)| else -1
      ensures Value() == if id == -1 then old(Value()) else Spawned(old(Value()), program)
      ensures old(harts) <= harts && forall k :: |old(harts)| <= k < |harts| ==> fresh(harts[k])
    {
      hide Fine, Image, InitialView, FromNat, Views, Separate;
      id := |harts|;
      var base := SlotBase(id);
      if id >= MAX_HARTS {
        return -1;
      }
      if |program| * 4 > HART_SLOT_SIZE - STACK_SIZE {
        return -1;
      }
      FineSizes(Value());
      SpawnFine(Value(), program);
      mem.LoadProgram(program, base);
      var h := new Hart.Init(id, mem, FromNat(base));
      InitialFine(id, FromNat(base));
      Append(h);
    }

    method Append(h: Hart)
      requires Shaped() && h.Valid() && h.mem == mem && h.id == |harts|
      requires forall g :: g in harts ==> g != h && g.x != h.x && g.csr != h.csr
      modifies this`harts
      ensures Shaped() && harts == old(harts) + [h]
      ensures Views(harts) == old(Views(harts)) + [h.View()]
    {
      hide Hart.View;
      harts := harts + [h];
      assert harts[..|harts| - 1] == old(harts);
    }

    /** Mark every running hart for a timer interrupt. */
    method FireTimer()
      requires Shaped()
      modifies harts
      ensures Views(harts) == FireAll(old(Views(harts)))
    {
      hide Views, Hart.View;
      ghost var before := Views(harts);
      for i := 0 to |harts|
        invariant |Views(harts)| == |harts|
        invariant forall j :: 0 <= j < |harts| ==> Views(harts)[j] == if j < i then Fired(before[j]) else before[j]
      {
        MarkIfRunning(harts[i]);
      }
      assert Views(harts) == FireAll(before);
    }

    method MarkIfRunning(th: Hart)
      requires Shaped() && 0 <= th.id < |harts| && harts[th.id] == th
      modifies th
      ensures Views(harts) == old(Views(harts))[th.id := Fired(old(Views(harts))[th.id])]
    {
      hide Views;
      if th.state == Running {
        th.timerPending := true;
        assert th.View() == old(th.View()).(timerPending := true);
      }
    }

    /** `executeOne` on one of the harts. */
    method Advance(i: nat) returns (ok: bool)
      requires Valid() && i < |harts| && harts[i].state == Running
      modifies harts[i], harts[i].x, harts[i].csr, mem.data
      ensures var r := Executed(old(Value()).harts[i], old(Value()).mem);
              Value() == old(Value()).With(i, r.h).(mem := r.m) && ok == r.ok
    {
      hide Fine, Views, Executed, AccessesInArray;
      FineSizes(Value());
      FineUser(Value(), Choice(i, false));
      UserAccessesInArray(harts[i].View(), mem.data[..]);
      ok := harts[i].ExecuteOne();
    }

    lemma InFootprint()
      ensures mem.data in Footprint() && kernel in Footprint()
      ensures forall h :: h in harts ==> h in Footprint() && h.x in Footprint() && h.csr in Footprint()
    {}

    method StateOf(i: nat) returns (state: HartState)
      requires Shaped() && i < |harts|
      ensures state == harts[i].state == Value().harts[i].state
    {
      state := harts[i].state;
    }

    /** One call of `executeOne`, the timer tick, and the kernel if the hart trapped. */
    method Call(i: nat, timerTick: int) returns (ok: bool, tick: int)
      requires Valid() && i < |harts| && harts[i].state == Running
      modifies Footprint()
      ensures Shaped()
      ensures var c := Choice(i, timerTick + 1 >= cfg.timerInterval);
              && Value() == Step(old(Value()), c)
              && tick == (if c.fire then 0 else timerTick + 1)
              && ok == Executed(old(Value()).harts[i], old(Value()).mem).ok
    {
      hide Fine, Views, Executed, Handled, Hart.View, Step, FireAll, HartManager.Footprint;
      StepParts(Value(), Choice(i, timerTick + 1 >= cfg.timerInterval));
      InFootprint();
      ok := Advance(i);
      tick := timerTick + 1;
      if tick >= cfg.timerInterval {
        tick := 0;
        FireTimer();
      }
      var state := StateOf(i);
      if !ok && state != Halted && state != Faulted {
        var _ := kernel.HandleTrap(harts[i], harts, mem.data[..]);
      }
    }

    // ----- the loops of `run` -----

    /** The machine is at `st`, after a run from `s0`. */
    ghost predicate At(s0: Machine, st: Sched)
      reads this, harts, set h | h in harts :: h.x, set h | h in harts :: h.csr, mem.data, kernel
    {
      Valid() && Value() == st.s && Tracks(s0, st)
    }

    method CountedCall(i: nat, timerTick: int, totalSteps: nat, ghost s0: Machine, ghost st: Sched)
      returns (ok: bool, tick: int, total: nat, state: HartState)
      requires At(s0, st) && st.tick == timerTick && st.TotalSteps() == totalSteps
      requires i < |st.s.harts| && st.s.harts[i].state == Running
      modifies Footprint()
      ensures var st' := Schedule.Call(st, i, cfg);
              && At(s0, st') && tick == st'.tick && total == st'.TotalSteps() && state == st'.s.harts[i].state
              && ok == Executed(st.s.harts[i], st.s.mem).ok
    {
      hide Fine, Views, Executed, Step, Tracks, Separate, Hart.View, HartManager.Footprint;
      CallTracks(s0, st, i, cfg);
      TracksFine(s0, Schedule.Call(st, i, cfg));
      state := StateOf(i);
      ok, tick := Call(i, timerTick);
      total := totalSteps + 1;
      state := StateOf(i);
    }

    method CurrentState(i: nat, ghost s0: Machine, ghost st: Sched) returns (state: HartState)
      requires At(s0, st) && i < |st.s.harts|
      ensures state == st.s.harts[i].state
    {
      hide Fine, Tracks;
      state := StateOf(i);
    }

    /** The innermost loop: up to a quantum of instructions, cut short by a trap. */
    method TakeTurn(i: nat, timerTick: int, totalSteps: nat, ghost s0: Machine, ghost st: Sched)
      returns (tick: int, total: nat)
      requires At(s0, st) && st.tick == timerTick && st.TotalSteps() == totalSteps && i < |st.s.harts|
      modifies Footprint()
      ensures var st' := Turn(st, i, cfg, 0); At(s0, st') && tick == st'.tick && total == st'.TotalSteps()
    {
      hide Executed, Turn, Schedule.Call, HartManager.At, HartManager.Footprint;
      var state := CurrentState(i, s0, st);
      var ran := 0;
      tick, total := timerTick, totalSteps;
      ghost var cur := st;
      while ran < cfg.quantum && state == Running
        invariant At(s0, cur) && |cur.s.harts| == |st.s.harts|
        invariant tick == cur.tick && total == cur.TotalSteps() && state == cur.s.harts[i].state
        invariant Turn(cur, i, cfg, ran) == Turn(st, i, cfg, 0)
        decreases cfg.quantum - ran
      {
        TurnUnfold(cur, i, cfg, ran);
        var ok;
        ok, tick, total, state := CountedCall(i, tick, total, s0, cur);
        cur := Schedule.Call(cur, i, cfg);
        if ok {
          ran := ran + 1;
        } else {
          return;
        }
      }
      TurnUnfold(cur, i, cfg, ran);
    }

    /** The middle loop: every running hart takes its turn. */
    method PlayRound(timerTick: int, totalSteps: nat, ghost s0: Machine, ghost st: Sched)
      returns (tick: int, total: nat)
      requires At(s0, st) && st.tick == timerTick && st.TotalSteps() == totalSteps
      modifies Footprint()
      ensures var st' := Round(st, cfg); At(s0, st') && tick == st'.tick && total == st'.TotalSteps()
    {
      hide Turn, Turns, HartManager.At, HartManager.Footprint;
      var n := HartCount(s0, st);
      tick, total := timerTick, totalSteps;
      ghost var cur := st;
      NoTurns(st, cfg);
      for i := 0 to n
        invariant cur == Turns(st, i, cfg) && At(s0, cur) && tick == cur.tick && total == cur.TotalSteps()
      {
        var state := CurrentState(i, s0, cur);
        NextTurn(st, i, cfg);
        if state != Running {
          TurnUnfold(cur, i, cfg, 0);
          continue;
        }
        tick, total := TakeTurn(i, tick, total, s0, cur);
        cur := Turn(cur, i, cfg, 0);
      }
    }

    method HartCount(ghost s0: Machine, ghost st: Sched) returns (n: nat)
      requires At(s0, st)
      ensures n == |st.s.harts|
    {
      hide Fine, Tracks;
      n := |harts|;
    }

    /** Whether anything is still alive. */
    method Alive(ghost s0: Machine, ghost st: Sched) returns (anyActive: bool)
      requires At(s0, st)
      ensures anyActive <==> AnyActive(st.s)
    {
      hide Fine, Tracks, Views, Separate, Hart.View;
      anyActive := false;
      for i := 0 to |harts|
        invariant !anyActive
        invariant forall j :: 0 <= j < i ==> st.s.harts[j].state != Running && st.s.harts[j].state != Waiting
      {
        var state := StateOf(i);
        if state == Running || state == Waiting {
          return true;
        }
      }
    }

    /**
     * The scheduler. It plays rounds until the step limit is reached or nothing is alive; the rounds are those of
     * the specification, and so a run. The program does not stop when a round makes no step although something is
     * alive; it would repeat that round for ever.
     */
    method Run() returns (rounds: nat, totalSteps: nat, outcome: Outcome)
      requires Valid()
      modifies Footprint()
      ensures Valid() && EndsAt(old(Value()), cfg, rounds, totalSteps, outcome, Value())
    {
      hide Fine, Round, Rounds, AnyActive, Tracks, Stuck, Continues, Progressed, Views, HartManager.Footprint, EndsAt;
      ghost var s0 := Value();
      ghost var start := Sched(s0, 0, []);
      StartOfRun(s0, cfg);
      rounds, totalSteps := 0, 0;
      var timerTick := 0;
      ghost var cur := start;
      while totalSteps < cfg.maxCycles
        invariant cur == Rounds(start, cfg, rounds) && Progressed(start, cfg, rounds)
        invariant At(s0, cur) && timerTick == cur.tick && totalSteps == cur.TotalSteps()
        decreases cfg.maxCycles - totalSteps
      {
        var anyActive := Alive(s0, cur);
        if !anyActive {
          break;
        }
        MayContinue(cur, cfg);
        StuckIsFixedPoint(s0, cur, cfg);
        var before := totalSteps;
        timerTick, totalSteps := PlayRound(timerTick, totalSteps, s0, cur);
        if totalSteps == before {
          HasEnded(s0, cfg, rounds, Spinning);
          return rounds, totalSteps, Spinning;
        }
        NextRound(start, cfg, rounds);
        cur := Round(cur, cfg);
        rounds := rounds + 1;
      }
      outcome := if totalSteps >= cfg.maxCycles then StepLimit else Finished;
      HasEnded(s0, cfg, rounds, outcome);
    }
  }

  /**
   * What `run` does to a machine: after so many rounds, each of which made a step, it is at `s`; the limit is overrun
   * by less than a round; and why it ended.
   */
  ghost predicate EndsAt(s0: Machine, cfg: Config, rounds: nat, totalSteps: nat, outcome: Outcome, s: Machine) {
    var start := Sched(s0, 0, []);
    var end := Rounds(start, cfg, rounds);
    && Tracks(s0, end) && s == end.s && totalSteps == end.TotalSteps()
    && Progressed(start, cfg, rounds)
    && (rounds > 0 ==> totalSteps <= cfg.maxCycles - 1 + |s0.harts| * Quantum(cfg))
    && match outcome
       case Finished => totalSteps < cfg.maxCycles && !AnyActive(end.s)
       case StepLimit => totalSteps >= cfg.maxCycles
       case Spinning => Stuck(end, cfg)
  }

  lemma HasEnded(s0: Machine, cfg: Config, rounds: nat, outcome: Outcome)
    requires var start := Sched(s0, 0, []);
             var end := Rounds(start, cfg, rounds);
             && Tracks(s0, end) && Progressed(start, cfg, rounds)
             && match outcome
                case Finished => end.TotalSteps() < cfg.maxCycles && !AnyActive(end.s)
                case StepLimit => end.TotalSteps() >= cfg.maxCycles
                case Spinning => Stuck(end, cfg)
    ensures var end := Rounds(Sched(s0, 0, []), cfg, rounds);
            EndsAt(s0, cfg, rounds, end.TotalSteps(), outcome, end.s)
  {
    hide Tracks, Stuck, AnyActive, Rounds, Progressed;
    StepsOnExit(Sched(s0, 0, []), cfg, rounds);
  }
}
