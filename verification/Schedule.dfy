/** The scheduler's loops as functions (scheduler.h, `run`).

A round gives every running hart a turn, and a turn is up to `quantum` calls of `executeOne`. The functions build
the same choices that a run is made of, so that everything proved about runs holds of what the scheduler does.
*/
module Schedule {
  import opened Arithmetic
  import opened Csr
  import opened Isa
  import opened Invariants
  import opened Cpu
  import opened Kernel
  import opened Runs
  import opened History

  datatype Config = Config(quantum: int, timerInterval: int, maxCycles: int)

  /** The state of the loops: the machine, the timer tick, and the choices made so far, one for each step. */
  datatype Sched = Sched(s: Machine, tick: int, cs: seq<Choice>) {
    function TotalSteps(): nat { |cs| }
  }

  predicate Fires(tick: int, cfg: Config) {
    tick + 1 >= cfg.timerInterval
  }

  /** One call of `executeOne` with what follows it in the innermost loop. */
  function Call(st: Sched, i: nat, cfg: Config): (st': Sched)
    requires i < |st.s.harts|
    ensures |st'.s.harts| == |st.s.harts|
  {
    var c := Choice(i, Fires(st.tick, cfg));
    Sched(Step(st.s, c), if c.fire then 0 else st.tick + 1, st.cs + [c])
  }

  predicate Goes(st: Sched, i: nat, cfg: Config, ran: nat)
    requires i < |st.s.harts|
  {
    ran < cfg.quantum && st.s.harts[i].state == Running
  }

  /** The rest of a hart's turn after `ran` instructions: it ends with the quantum, a trap or a halt. */
  function Turn(st: Sched, i: nat, cfg: Config, ran: nat): (st': Sched)
    requires i < |st.s.harts|
    ensures |st'.s.harts| == |st.s.harts|
    decreases cfg.quantum - ran
  {
    if !Goes(st, i, cfg, ran) then st
    else if Executed(st.s.harts[i], st.s.mem).ok then Turn(Call(st, i, cfg), i, cfg, ran + 1)
    else Call(st, i, cfg)
  }

  /** The first `k` turns of a round. */
  function Turns(st: Sched, k: nat, cfg: Config): (st': Sched)
    requires k <= |st.s.harts|
    ensures |st'.s.harts| == |st.s.harts|
  {
    if k == 0 then st else Turn(Turns(st, k - 1, cfg), k - 1, cfg, 0)
  }

  function Round(st: Sched, cfg: Config): (st': Sched)
    ensures |st'.s.harts| == |st.s.harts|
  {
    Turns(st, |st.s.harts|, cfg)
  }

  function Rounds(st: Sched, cfg: Config, n: nat): (st': Sched)
    ensures |st'.s.harts| == |st.s.harts|
  {
    if n == 0 then st else Round(Rounds(st, cfg, n - 1), cfg)
  }

  predicate AnyActive(s: Machine) {
    exists i :: 0 <= i < |s.harts| && (s.harts[i].state == Running || s.harts[i].state == Waiting)
  }

  predicate AnyRunning(s: Machine) {
    exists i :: 0 <= i < |s.harts| && s.harts[i].state == Running
  }

  /** The guard of the outer loop and the check that something is still alive. */
  predicate Continues(st: Sched, cfg: Config) {
    st.TotalSteps() < cfg.maxCycles && AnyActive(st.s)
  }

  // ----- what the scheduler does is a run -----

  /** The choices made so far are a run from `s0` to the present machine. */
  ghost predicate Tracks(s0: Machine, st: Sched) {
    Fine(s0) && IsRun(s0, st.cs) && st.s == After(s0, st.cs)
  }

  lemma CallTracks(s0: Machine, st: Sched, i: nat, cfg: Config)
    requires Tracks(s0, st) && i < |st.s.harts| && st.s.harts[i].state == Running
    ensures Tracks(s0, Call(st, i, cfg))
  {
    hide Step, Fine;
    var c := Choice(i, Fires(st.tick, cfg));
    assert (st.cs + [c])[..|st.cs|] == st.cs;
  }

  lemma TracksFine(s0: Machine, st: Sched)
    requires Tracks(s0, st)
    ensures Fine(st.s) && |st.s.harts| == |s0.harts|
  {
    hide Fine;
    RunFine(s0, st.cs);
  }

  lemma TurnUnfold(st: Sched, i: nat, cfg: Config, ran: nat)
    requires i < |st.s.harts|
    ensures Turn(st, i, cfg, ran)
         == if !(ran < cfg.quantum && st.s.harts[i].state == Running) then st
            else if Executed(st.s.harts[i], st.s.mem).ok then Turn(Call(st, i, cfg), i, cfg, ran + 1)
            else Call(st, i, cfg)
  {
    hide Call, Executed;
  }

  lemma {:induction false} TurnTracks(s0: Machine, st: Sched, i: nat, cfg: Config, ran: nat)
    requires Tracks(s0, st) && i < |st.s.harts|
    ensures Tracks(s0, Turn(st, i, cfg, ran))
    decreases cfg.quantum - ran
  {
    hide Call, Tracks, Executed;
    if Goes(st, i, cfg, ran) {
      CallTracks(s0, st, i, cfg);
      TurnTracks(s0, Call(st, i, cfg), i, cfg, ran + 1);
    }
  }

  lemma {:induction false} TurnsTrack(s0: Machine, st: Sched, k: nat, cfg: Config)
    requires Tracks(s0, st) && k <= |st.s.harts|
    ensures Tracks(s0, Turns(st, k, cfg))
  {
    hide Tracks, Turn;
    if k > 0 {
      TurnsTrack(s0, st, k - 1, cfg);
      TurnTracks(s0, Turns(st, k - 1, cfg), k - 1, cfg, 0);
    }
  }

  /** Every round leads along a run: what is proved of runs holds of the scheduler. */
  lemma {:induction false} RoundsTrack(s0: Machine, st: Sched, cfg: Config, n: nat)
    requires Tracks(s0, st)
    ensures Tracks(s0, Rounds(st, cfg, n))
  {
    hide Tracks, Turns;
    if n > 0 {
      RoundsTrack(s0, st, cfg, n - 1);
      TurnsTrack(s0, Rounds(st, cfg, n - 1), |st.s.harts|, cfg);
    }
  }

  // ----- whose calls a round makes -----

  /** `longer` continues `cs` with calls of harts `lo` up to `hi`, at most `most` of them. */
  predicate Continued(cs: seq<Choice>, longer: seq<Choice>, lo: nat, hi: nat, most: int) {
    && cs <= longer && |longer| - |cs| <= most
    && forall k :: |cs| <= k < |longer| ==> lo <= longer[k].hart < hi
  }

  function Quantum(cfg: Config): nat {
    if cfg.quantum < 0 then 0 else cfg.quantum
  }

  /** A turn makes up to a quantum of calls, all of its own hart, and at least one if the hart is running. */
  lemma {:induction false} TurnCalls(st: Sched, i: nat, cfg: Config, ran: nat)
    requires i < |st.s.harts|
    ensures Continued(st.cs, Turn(st, i, cfg, ran).cs, i, i + 1, if ran < cfg.quantum then cfg.quantum - ran else 0)
    ensures Goes(st, i, cfg, ran) ==> |Turn(st, i, cfg, ran).cs| > |st.cs|
    decreases cfg.quantum - ran
  {
    hide Step, Executed;
    if Goes(st, i, cfg, ran) && Executed(st.s.harts[i], st.s.mem).ok {
      TurnCalls(Call(st, i, cfg), i, cfg, ran + 1);
    }
  }

  /** The turns of a round come in the order of the harts. */
  lemma {:induction false} TurnsInOrder(st: Sched, j: nat, k: nat, cfg: Config)
    requires j <= k <= |st.s.harts|
    ensures Continued(Turns(st, j, cfg).cs, Turns(st, k, cfg).cs, j, k, (k - j) * Quantum(cfg))
  {
    hide Turn;
    if j < k {
      TurnsInOrder(st, j, k - 1, cfg);
      TurnCalls(Turns(st, k - 1, cfg), k - 1, cfg, 0);
      assert (k - j) * Quantum(cfg) == (k - 1 - j) * Quantum(cfg) + Quantum(cfg);
    }
  }

  // ----- how long a turn is -----

  /** A call returns true exactly when its instruction retires, and the hart then goes on running. */
  lemma OkMeans(s: Machine, c: Choice)
    requires Fine(s) && Enabled(s, c)
    ensures Executed(s.harts[c.hart], s.mem).ok <==> ActionOf(s, c.hart) == Retired
    ensures ActionOf(s, c.hart) == Retired ==> Step(s, c).harts[c.hart].state == Running
  {
    hide Perform, TrapVector, StatusEnter, Outside, Csrs.InterruptsEnabled, SyscallAction, Apply;
    FineUser(s, c);
    var h := s.harts[c.hart];
    UserEffects(h.x, h.pc, h.id, s.mem);
  }

  /** From event `from` on: all but the last retire, and the last does too if there are as many as `quantum` of them. */
  predicate FullTurn(es: seq<Event>, from: nat, quantum: int) {
    && from < |es| && |es| - from <= quantum
    && (forall k :: from <= k < |es| - 1 ==> es[k].action == Retired)
    && (|es| - from < quantum ==> es[|es| - 1].action != Retired)
  }

  lemma FullTurnGrows(es: seq<Event>, from: nat, quantum: int)
    requires FullTurn(es, from + 1, quantum) && es[from].action == Retired
    ensures FullTurn(es, from, quantum + 1)
  {}

  /** A turn is cut short by a trap or a halt and by nothing else: otherwise it has exactly a quantum of instructions. */
  lemma {:induction false} TurnIsFull(s0: Machine, st: Sched, i: nat, cfg: Config, ran: nat)
    requires Tracks(s0, st) && i < |st.s.harts| && st.s.harts[i].state == Running && ran < cfg.quantum
    ensures var end := Turn(st, i, cfg, ran);
            IsRun(s0, end.cs) && FullTurn(Events(s0, end.cs), |st.cs|, cfg.quantum - ran)
    decreases cfg.quantum - ran
  {
    hide Fine, Step, ActionOf, Executed, IsRun, After, Events;
    var c, st' := Choice(i, Fires(st.tick, cfg)), Call(st, i, cfg);
    var end := Turn(st, i, cfg, ran);
    RunFine(s0, st.cs);
    OkMeans(st.s, c);
    TurnUnfold(st, i, cfg, ran);
    CallTracks(s0, st, i, cfg);
    TurnTracks(s0, st, i, cfg, ran);
    TurnCalls(st', i, cfg, ran + 1);
    LastEvent(s0, st, c);
    if Executed(st.s.harts[i], st.s.mem).ok {
      if ran + 1 < cfg.quantum {
        TurnIsFull(s0, st', i, cfg, ran + 1);
        EventAt(s0, end.cs, |st.cs|);
        assert end.cs[..|st.cs|] == st.cs;
        FullTurnGrows(Events(s0, end.cs), |st.cs|, cfg.quantum - ran - 1);
      } else {
        TurnUnfold(st', i, cfg, ran + 1);
      }
    }
  }

  lemma LastEvent(s0: Machine, st: Sched, c: Choice)
    requires IsRun(s0, st.cs) && st.s == After(s0, st.cs) && IsRun(s0, st.cs + [c]) && c.hart < |st.s.harts|
    ensures var es := Events(s0, st.cs + [c]);
            |es| == |st.cs| + 1 && es[|st.cs|] == Event(c.hart, ActionOf(st.s, c.hart), c.fire)
  {
    hide Step, ActionOf;
    assert (st.cs + [c])[..|st.cs|] == st.cs;
  }

  // ----- running harts get their turn -----

  /** Other harts' calls leave a running hart running. */
  lemma CallKeeps(s0: Machine, st: Sched, i: nat, cfg: Config, j: nat)
    requires Tracks(s0, st) && i < |st.s.harts| && st.s.harts[i].state == Running
    requires j < |st.s.harts| && j != i && st.s.harts[j].state == Running
    ensures Call(st, i, cfg).s.harts[j].state == Running
  {
    hide Step, Fine, ActionOf, NextHart, NextMem, NextQueue, HartFine;
    var c := Choice(i, Fires(st.tick, cfg));
    RunFine(s0, st.cs);
    StepClosed(st.s, c);
    assert Step(st.s, c).harts[j] == NextOther(st.s, c, j);
  }

  lemma {:induction false} TurnKeeps(s0: Machine, st: Sched, i: nat, cfg: Config, ran: nat, j: nat)
    requires Tracks(s0, st) && i < |st.s.harts| && j < |st.s.harts| && j != i && st.s.harts[j].state == Running
    ensures Turn(st, i, cfg, ran).s.harts[j].state == Running
    decreases cfg.quantum - ran
  {
    hide Call, Tracks, Executed;
    if Goes(st, i, cfg, ran) {
      CallTracks(s0, st, i, cfg);
      CallKeeps(s0, st, i, cfg, j);
      TurnKeeps(s0, Call(st, i, cfg), i, cfg, ran + 1, j);
    }
  }

  /** A hart running at the start of a round is running when its turn comes. */
  lemma {:induction false} RunningUntilTurn(s0: Machine, st: Sched, k: nat, cfg: Config, j: nat)
    requires Tracks(s0, st) && k <= j < |st.s.harts| && st.s.harts[j].state == Running
    ensures Turns(st, k, cfg).s.harts[j].state == Running
  {
    hide Tracks, Turn;
    if k > 0 {
      RunningUntilTurn(s0, st, k - 1, cfg, j);
      TurnsTrack(s0, st, k - 1, cfg);
      TurnKeeps(s0, Turns(st, k - 1, cfg), k - 1, cfg, 0, j);
    }
  }

  /** Bounded fairness: a hart running at the start of a round makes between one and `quantum` calls in it, all in its turn. */
  lemma FairTurn(s0: Machine, st: Sched, cfg: Config, i: nat)
    requires Tracks(s0, st) && i < |st.s.harts| && st.s.harts[i].state == Running && cfg.quantum >= 1
    ensures 1 <= |Turns(st, i + 1, cfg).cs| - |Turns(st, i, cfg).cs| <= cfg.quantum
    ensures var before, after, all := |Turns(st, i, cfg).cs|, |Turns(st, i + 1, cfg).cs|, Round(st, cfg).cs;
            && |st.cs| <= before <= after <= |all|
            && forall k :: |st.cs| <= k < |all| ==> (all[k].hart == i <==> before <= k < after)
  {
    hide Tracks, Turn;
    RunningUntilTurn(s0, st, i, cfg, i);
    TurnCalls(Turns(st, i, cfg), i, cfg, 0);
    TurnsInOrder(st, 0, i, cfg);
    TurnsInOrder(st, i + 1, |st.s.harts|, cfg);
  }

  /**
   * Between a hart's turn in one round and its turn in the next, the other harts make at most (n - 1) * quantum
   * calls, and the hart itself none.
   */
  lemma GapBounded(st: Sched, cfg: Config, i: nat)
    requires i < |st.s.harts|
    ensures var end, next := Turns(st, i + 1, cfg).cs, Turns(Round(st, cfg), i, cfg).cs;
            && end <= next && |next| - |end| <= (|st.s.harts| - 1) * Quantum(cfg)
            && forall k :: |end| <= k < |next| ==> next[k].hart != i
  {
    hide Turns;
    var n, q := |st.s.harts|, Quantum(cfg);
    TurnsInOrder(st, i + 1, n, cfg);
    TurnsInOrder(Round(st, cfg), 0, i, cfg);
    assert Turns(Round(st, cfg), 0, cfg) == Round(st, cfg) by { NoTurns(Round(st, cfg), cfg); }
    assert (n - i - 1) * q + i * q == (n - 1) * q;
  }

  lemma NextTurn(st: Sched, k: nat, cfg: Config)
    requires k < |st.s.harts|
    ensures Turns(st, k + 1, cfg) == Turn(Turns(st, k, cfg), k, cfg, 0)
  {}

  lemma NoTurns(st: Sched, cfg: Config)
    ensures Turns(st, 0, cfg) == st
  {}

  // ----- progress and termination -----

  /** A round with a running hart makes progress. */
  lemma RoundProgress(s0: Machine, st: Sched, cfg: Config)
    requires Tracks(s0, st) && cfg.quantum >= 1 && AnyRunning(st.s)
    ensures |Round(st, cfg).cs| > |st.cs|
  {
    hide Tracks, Turns, Round;
    var i :| 0 <= i < |st.s.harts| && st.s.harts[i].state == Running;
    FairTurn(s0, st, cfg, i);
  }

  /** A round without a running hart, or without a quantum, changes nothing. */
  lemma {:induction false} NoProgress(st: Sched, cfg: Config, k: nat)
    requires cfg.quantum <= 0 || !AnyRunning(st.s)
    requires k <= |st.s.harts|
    ensures Turns(st, k, cfg) == st
  {
    if k > 0 {
      NoProgress(st, cfg, k - 1);
    }
  }

  lemma MayContinue(st: Sched, cfg: Config)
    requires st.TotalSteps() < cfg.maxCycles && AnyActive(st.s)
    ensures Continues(st, cfg)
  {}

  /** The outer loop goes round without end exactly when something is alive but nothing can step. */
  predicate Stuck(st: Sched, cfg: Config) {
    Continues(st, cfg) && (cfg.quantum <= 0 || !AnyRunning(st.s))
  }

  /** The first `n` rounds start with the loop going on, and each makes a step. */
  ghost predicate Progressed(st: Sched, cfg: Config, n: nat) {
    forall k :: 0 <= k < n ==> Continues(Rounds(st, cfg, k), cfg) && !Stuck(Rounds(st, cfg, k), cfg)
  }

  lemma NextRound(st: Sched, cfg: Config, n: nat)
    requires Progressed(st, cfg, n) && Continues(Rounds(st, cfg, n), cfg) && !Stuck(Rounds(st, cfg, n), cfg)
    ensures Progressed(st, cfg, n + 1) && Rounds(st, cfg, n + 1) == Round(Rounds(st, cfg, n), cfg)
  {
    hide Continues, Stuck, Round;
  }

  lemma StuckIsFixedPoint(s0: Machine, st: Sched, cfg: Config)
    requires Tracks(s0, st) && Continues(st, cfg)
    ensures Stuck(st, cfg) <==> Round(st, cfg) == st
    ensures !Stuck(st, cfg) ==> |Round(st, cfg).cs| > |st.cs|
  {
    hide Tracks, Turns, AnyRunning, AnyActive;
    if Stuck(st, cfg) {
      NoProgress(st, cfg, |st.s.harts|);
    } else {
      RoundProgress(s0, st, cfg);
    }
  }

  /** A round makes at most a quantum of steps for each hart. */
  lemma RoundBound(st: Sched, cfg: Config)
    ensures st.cs <= Round(st, cfg).cs && |Round(st, cfg).cs| <= |st.cs| + |st.s.harts| * Quantum(cfg)
  {
    hide Turns;
    NoTurns(st, cfg);
    TurnsInOrder(st, 0, |st.s.harts|, cfg);
  }

  /** A loop that has ended stays ended, were it to go on. */
  lemma EndedStaysEnded(st: Sched, cfg: Config)
    requires !Continues(st, cfg)
    ensures !Continues(Round(st, cfg), cfg)
  {
    hide Turns, Round;
    RoundBound(st, cfg);
    if !AnyActive(st.s) {
      assert Round(st, cfg) == st by { NothingAlive(st, cfg); }
    }
  }

  lemma NothingAlive(st: Sched, cfg: Config)
    requires !AnyActive(st.s)
    ensures Round(st, cfg) == st
  {
    hide Turns;
    NoProgress(st, cfg, |st.s.harts|);
  }

  lemma {:induction false} StuckForever(s0: Machine, st: Sched, cfg: Config, n: nat, m: nat)
    requires Tracks(s0, st) && Stuck(Rounds(st, cfg, n), cfg) && n <= m
    ensures Rounds(st, cfg, m) == Rounds(st, cfg, n)
  {
    hide Tracks, Round, Stuck, Continues;
    if n < m {
      StuckForever(s0, st, cfg, n, m - 1);
      RoundsTrack(s0, st, cfg, n);
      StuckContinues(Rounds(st, cfg, n), cfg);
      StuckIsFixedPoint(s0, Rounds(st, cfg, n), cfg);
    }
  }

  lemma StuckContinues(st: Sched, cfg: Config)
    requires Stuck(st, cfg)
    ensures Continues(st, cfg)
  {}

  lemma {:induction false} EndedStaysEndedFor(st: Sched, cfg: Config, n: nat, m: nat)
    requires !Continues(Rounds(st, cfg, n), cfg) && n <= m
    ensures !Continues(Rounds(st, cfg, m), cfg)
  {
    hide Round, Continues;
    if n < m {
      EndedStaysEndedFor(st, cfg, n, m - 1);
      EndedStaysEnded(Rounds(st, cfg, m - 1), cfg);
    }
  }

  /** As long as the loop goes on and does not get stuck, there are at least as many steps as rounds. */
  lemma {:induction false} StepsOutrunRounds(s0: Machine, st: Sched, cfg: Config, n: nat)
    requires Tracks(s0, st) && Progressed(st, cfg, n)
    ensures |Rounds(st, cfg, n).cs| >= |st.cs| + n
  {
    hide Tracks, Round, Stuck, Continues;
    if n > 0 {
      StepsOutrunRounds(s0, st, cfg, n - 1);
      RoundsTrack(s0, st, cfg, n - 1);
      StuckIsFixedPoint(s0, Rounds(st, cfg, n - 1), cfg);
    }
  }

  lemma LimitReached(st: Sched, cfg: Config)
    requires |st.cs| >= cfg.maxCycles
    ensures !Continues(st, cfg)
  {}

  /** Unless it gets stuck, the loop ends after no more rounds than the step limit. */
  lemma EndsInTime(s0: Machine, st: Sched, cfg: Config)
    requires Tracks(s0, st)
    requires forall n: nat :: !Stuck(Rounds(st, cfg, n), cfg)
    ensures exists n: nat :: (n == 0 || n <= cfg.maxCycles) && !Continues(Rounds(st, cfg, n), cfg)
  {
    hide Tracks, Rounds, Stuck, Continues;
    var limit := if cfg.maxCycles < 0 then 0 else cfg.maxCycles;
    if forall k :: 0 <= k < limit ==> Continues(Rounds(st, cfg, k), cfg) {
      StepsOutrunRounds(s0, st, cfg, limit);
      LimitReached(Rounds(st, cfg, limit), cfg);
    }
  }

  ghost predicate Ends(st: Sched, cfg: Config) {
    exists n: nat :: !Continues(Rounds(st, cfg, n), cfg)
  }

  ghost predicate GetsStuck(st: Sched, cfg: Config) {
    exists n: nat :: Stuck(Rounds(st, cfg, n), cfg)
  }

  /** `run` terminates if and only if it does not reach a state where some hart is waiting and none can step. */
  lemma EndsUnlessStuck(s0: Machine, st: Sched, cfg: Config)
    requires Tracks(s0, st)
    ensures Ends(st, cfg) <==> !GetsStuck(st, cfg)
  {
    hide Tracks, Rounds, Stuck, Continues;
    if GetsStuck(st, cfg) {
      var n: nat :| Stuck(Rounds(st, cfg, n), cfg);
      StuckContinues(Rounds(st, cfg, n), cfg);
      forall m: nat ensures Continues(Rounds(st, cfg, m), cfg) {
        if m < n {
          if !Continues(Rounds(st, cfg, m), cfg) {
            EndedStaysEndedFor(st, cfg, m, n);
          }
        } else {
          StuckForever(s0, st, cfg, n, m);
        }
      }
    } else {
      EndsInTime(s0, st, cfg);
    }
  }

  /** The number of steps on exit: the limit is overrun by less than a round. */
  lemma StepsOnExit(st: Sched, cfg: Config, n: nat)
    requires Progressed(st, cfg, n)
    ensures n > 0 ==> |Rounds(st, cfg, n).cs| <= cfg.maxCycles - 1 + |st.s.harts| * Quantum(cfg)
  {
    hide Round, AnyActive;
    if n > 0 {
      assert Continues(Rounds(st, cfg, n - 1), cfg);
      RoundBound(Rounds(st, cfg, n - 1), cfg);
    }
  }

  /** Step conservation for the scheduler: every step is an instruction some hart counted, a trap or a sentinel halt. */
  lemma StepAccounting(s0: Machine, cfg: Config, n: nat)
    requires Fine(s0)
    ensures var st := Rounds(Sched(s0, 0, []), cfg, n);
            && IsRun(s0, st.cs)
            && var es := Events(s0, st.cs);
               st.TotalSteps() == TotalSteps(st.s.harts) - TotalSteps(s0.harts) + Count(IsTrap, es) + Count(IsSentinel, es)
  {
    hide Fine, Rounds, Count, Events;
    AtStart(s0, cfg);
    RoundsTrack(s0, Sched(s0, 0, []), cfg, n);
    StepConservation(s0, Rounds(Sched(s0, 0, []), cfg, n).cs);
  }

  // ----- the timer -----

  function FireCount(cs: seq<Choice>): nat {
    if cs == [] then 0 else FireCount(cs[..|cs| - 1]) + if cs[|cs| - 1].fire then 1 else 0
  }

  /** The timer is due at step number `n`: at every multiple of the interval, or always if that is below one. */
  predicate Due(n: nat, cfg: Config) {
    cfg.timerInterval < 1 || n % cfg.timerInterval == 0
  }

  /** Steps are counted off in intervals; an interval below one fires at every step. */
  predicate Timed(st: Sched, cfg: Config) {
    && (if cfg.timerInterval >= 1 then
          FireCount(st.cs) * cfg.timerInterval + st.tick == |st.cs| && 0 <= st.tick < cfg.timerInterval
        else
          FireCount(st.cs) == |st.cs| && st.tick == 0)
    && forall k :: 0 <= k < |st.cs| ==> (st.cs[k].fire <==> Due(k + 1, cfg))
  }

  /** One more step of the count: `f` firings and `tick` steps since make `n` steps. */
  lemma Ticking(f: nat, t: int, tick: int, n: nat)
    requires t >= 1 && f * t + tick == n && 0 <= tick < t
    ensures tick + 1 >= t ==> (f + 1) * t == n + 1 && (n + 1) % t == 0
    ensures tick + 1 < t ==> (n + 1) % t != 0
  {
    assert (f + 1) * t == f * t + t;
    if tick + 1 >= t {
      Division(n + 1, f + 1, 0, t);
    } else {
      Division(n + 1, f, tick + 1, t);
    }
  }

  lemma CallTimed(st: Sched, i: nat, cfg: Config)
    requires i < |st.s.harts| && Timed(st, cfg)
    ensures Timed(Call(st, i, cfg), cfg)
  {
    hide Step;
    var c := Choice(i, Fires(st.tick, cfg));
    assert (st.cs + [c])[..|st.cs|] == st.cs;
    if cfg.timerInterval >= 1 {
      Ticking(FireCount(st.cs), cfg.timerInterval, st.tick, |st.cs|);
    }
    assert c.fire <==> Due(|st.cs| + 1, cfg);
  }

  lemma {:induction false} TurnTimed(st: Sched, i: nat, cfg: Config, ran: nat)
    requires i < |st.s.harts| && Timed(st, cfg)
    ensures Timed(Turn(st, i, cfg, ran), cfg)
    decreases cfg.quantum - ran
  {
    hide Call, Timed, Executed;
    if Goes(st, i, cfg, ran) {
      CallTimed(st, i, cfg);
      TurnTimed(Call(st, i, cfg), i, cfg, ran + 1);
    }
  }

  lemma {:induction false} TurnsTimed(st: Sched, k: nat, cfg: Config)
    requires k <= |st.s.harts| && Timed(st, cfg)
    ensures Timed(Turns(st, k, cfg), cfg)
  {
    hide Turn, Timed;
    if k > 0 {
      TurnsTimed(st, k - 1, cfg);
      TurnTimed(Turns(st, k - 1, cfg), k - 1, cfg, 0);
    }
  }

  lemma {:induction false} RoundsTimed(st: Sched, cfg: Config, n: nat)
    requires Timed(st, cfg)
    ensures Timed(Rounds(st, cfg, n), cfg)
  {
    hide Turns, Timed;
    if n > 0 {
      RoundsTimed(st, cfg, n - 1);
      TurnsTimed(Rounds(st, cfg, n - 1), |st.s.harts|, cfg);
    }
  }

  lemma {:induction false} FiresAreEvents(s0: Machine, cs: seq<Choice>)
    requires IsRun(s0, cs)
    ensures Count(IsFire, Events(s0, cs)) == FireCount(cs)
  {
    hide Step, ActionOf, After;
    if cs != [] {
      FiresAreEvents(s0, cs[..|cs| - 1]);
      assert Events(s0, cs)[..|cs| - 1] == Events(s0, cs[..|cs| - 1]);
    }
  }

  /**
   * Timer accounting after any number of rounds: the firings times the interval plus the tick are the steps, and the
   * timer traps of all harts are at most that many firings for each hart.
   */
  lemma TimerAccounting(s0: Machine, cfg: Config, n: nat)
    requires Fine(s0) && cfg.timerInterval >= 1
    requires forall i :: 0 <= i < |s0.harts| ==> !s0.harts[i].timerPending
    ensures var st := Rounds(Sched(s0, 0, []), cfg, n);
            && IsRun(s0, st.cs) && st.s == After(s0, st.cs)
            && FireCount(st.cs) * cfg.timerInterval + st.tick == st.TotalSteps() && 0 <= st.tick < cfg.timerInterval
            && Count(IsTimerTrap, Events(s0, st.cs)) <= |s0.harts| * (st.TotalSteps() / cfg.timerInterval)
  {
    hide Fine, Rounds, Tracks, Timed, Count, FireCount, Events;
    var start := Sched(s0, 0, []);
    assert Tracks(s0, start) && Timed(start, cfg) by { AtStart(s0, cfg); }
    RoundsTrack(s0, start, cfg, n);
    RoundsTimed(start, cfg, n);
    TimedTraps(s0, Rounds(start, cfg, n), cfg);
  }

  /** The timer fires at exactly the steps whose number is a multiple of the interval. */
  lemma FiresRegularly(s0: Machine, cfg: Config, n: nat, k: nat)
    requires Fine(s0)
    ensures var cs := Rounds(Sched(s0, 0, []), cfg, n).cs; k < |cs| ==> (cs[k].fire <==> Due(k + 1, cfg))
  {
    hide Fine, Rounds, Tracks, FireCount, Due;
    AtStart(s0, cfg);
    RoundsTimed(Sched(s0, 0, []), cfg, n);
  }

  lemma AtStart(s0: Machine, cfg: Config)
    requires Fine(s0)
    ensures Tracks(s0, Sched(s0, 0, [])) && Timed(Sched(s0, 0, []), cfg)
  {
    hide Fine;
  }

  lemma StartOfRun(s0: Machine, cfg: Config)
    requires Fine(s0)
    ensures var start := Sched(s0, 0, []);
            Tracks(s0, start) && Rounds(start, cfg, 0) == start && Progressed(start, cfg, 0)
  {
    hide Fine, Tracks;
    AtStart(s0, cfg);
  }

  lemma TimedTraps(s0: Machine, st: Sched, cfg: Config)
    requires Tracks(s0, st) && Timed(st, cfg) && cfg.timerInterval >= 1
    requires forall i :: 0 <= i < |s0.harts| ==> !s0.harts[i].timerPending
    ensures IsRun(s0, st.cs) && st.s == After(s0, st.cs)
    ensures FireCount(st.cs) * cfg.timerInterval + st.tick == st.TotalSteps() && 0 <= st.tick < cfg.timerInterval
    ensures Count(IsTimerTrap, Events(s0, st.cs)) <= |s0.harts| * (st.TotalSteps() / cfg.timerInterval)
  {
    hide Fine, IsRun, After, Count, FireCount, Events;
    TimerTrapsBounded(s0, st.cs);
    FiresAreEvents(s0, st.cs);
    var interval, total := cfg.timerInterval, st.TotalSteps();
    QuotientUnique(FireCount(st.cs), total / interval, interval, st.tick, total % interval);
  }
}
