/** A firing of the timer reaches every running hart, at its next step. */
module Timer {
  import opened Words
  import opened Csr
  import opened Isa
  import opened Cpu
  import opened Kernel
  import opened Runs
  import opened Invariants
  import opened History
  import opened Latency

  /** After a step another hart has an interrupt pending exactly if it had before, or the timer fired and it was running. */
  lemma FiringMarks(s: Machine, c: Choice, j: nat)
    requires Fine(s) && Enabled(s, c) && j < |s.harts| && j != c.hart
    ensures Step(s, c).harts[j].timerPending <==> s.harts[j].timerPending || (c.fire && s.harts[j].state == Running)
  {
    hide Step, ActionOf, HartFine, NextHart, NextMem, NextQueue;
    StepClosed(s, c);
    assert Step(s, c).harts[j] == NextOther(s, c, j);
  }

  /** The stepping hart too, unless it halted on a sentinel; taking the interrupt uses up what was pending before. */
  lemma FiringMarksStepping(s: Machine, c: Choice)
    requires Fine(s) && Enabled(s, c)
    ensures var h, h', a := s.harts[c.hart], Step(s, c).harts[c.hart], ActionOf(s, c.hart);
            h'.timerPending <==> (h.timerPending && a != TimerTrap) || (c.fire && a != Sentinel)
  {
    hide Step, HartFine, NextOther, NextMem, NextQueue, ActionOf, TrapVector, StatusEnter, StatusReturn, FromInt, Perform;
    hide Plus;
    FineUser(s, c);
    StepClosed(s, c);
    PendingSaved(s, c);
  }

  lemma PendingSaved(s: Machine, c: Choice)
    requires UserStep(s, c)
    ensures var h, a := s.harts[c.hart], ActionOf(s, c.hart);
            NextHart(s, c).timerPending <==> (h.timerPending && a != TimerTrap) || (c.fire && a != Sentinel)
  {
    hide TrapVector, StatusEnter, StatusReturn, FromInt, Perform, Plus, ActionOf;
    RetiredMeans(s, c.hart);
    if ActionOf(s, c.hart) == Crashed {
      CrashedMeans(s, c);
    }
  }

  /** A running hart, seen from the steps of others: only the pending flag can change. */
  lemma RunningMeanwhile(s: Machine, c: Choice, i: nat)
    requires Fine(s) && Enabled(s, c) && i < |s.harts| && i != c.hart && s.harts[i].state == Running
    ensures Step(s, c).harts[i] == s.harts[i].(timerPending := s.harts[i].timerPending || c.fire)
  {
    hide Step, ActionOf, HartFine, NextHart, NextMem, NextQueue;
    StepClosed(s, c);
    assert Step(s, c).harts[i] == NextOther(s, c, i);
  }

  /** The timer has fired in a choice after the first `k`. */
  predicate FiredSince(cs: seq<Choice>, k: nat)
    requires k <= |cs|
  {
    exists j :: k <= j < |cs| && cs[j].fire
  }

  lemma {:induction false} MarkedMeanwhile(s: Machine, cs: seq<Choice>, k: nat, i: nat)
    requires Fine(s) && IsRun(s, cs) && i < |s.harts| && Quiescent(cs, k, i)
    ensures IsRun(s, cs[..k])
    ensures var h, h' := After(s, cs[..k]).harts[i], After(s, cs).harts[i];
            h.state == Running ==> h' == h.(timerPending := h.timerPending || FiredSince(cs, k))
  {
    hide Fine, Step, ActionOf;
    RunPrefix(s, cs, k);
    if |cs| == k {
      assert cs[..k] == cs;
    } else {
      var before, c := cs[..|cs| - 1], cs[|cs| - 1];
      assert before[..k] == cs[..k];
      MarkedMeanwhile(s, before, k, i);
      RunFine(s, before);
      FiredSnoc(cs, k);
      if After(s, cs[..k]).harts[i].state == Running {
        RunningMeanwhile(After(s, before), c, i);
      }
    }
  }

  lemma FiredSnoc(cs: seq<Choice>, k: nat)
    requires k < |cs|
    ensures FiredSince(cs, k) <==> FiredSince(cs[..|cs| - 1], k) || cs[|cs| - 1].fire
  {
    var before := cs[..|cs| - 1];
    assert forall j :: k <= j < |before| ==> cs[j] == before[j];
    if FiredSince(before, k) {
      var j :| k <= j < |before| && before[j].fire;
      assert cs[j].fire;
    }
  }

  /**
   * No timer interrupt is lost, and none comes unasked: the next step of a running hart is the timer interrupt exactly
   * if its interrupts are on and one was pending when it last stepped, or the timer has fired since.
   */
  lemma InterruptTaken(s: Machine, cs: seq<Choice>, k: nat, i: nat)
    requires Fine(s) && IsRun(s, cs) && i < |s.harts| && Quiescent(cs, k, i)
    ensures IsRun(s, cs[..k])
    ensures var h := After(s, cs[..k]).harts[i];
            h.state == Running ==>
              (ActionOf(After(s, cs), i) == TimerTrap
               <==> h.csr.InterruptsEnabled() && (h.timerPending || FiredSince(cs, k)))
  {
    hide Fine, Step, ActionOf, FiredSince, IsRun, After, Csrs.InterruptsEnabled;
    MarkedMeanwhile(s, cs, k, i);
    RunFine(s, cs);
    if After(s, cs[..k]).harts[i].state == Running {
      TimerTrapMeans(After(s, cs), i);
    }
  }

  lemma TimerTrapMeans(s: Machine, i: nat)
    requires Fine(s) && i < |s.harts| && s.harts[i].state == Running
    ensures ActionOf(s, i) == TimerTrap <==> s.harts[i].csr.InterruptsEnabled() && s.harts[i].timerPending
  {
    hide Perform, Outside, Csrs.InterruptsEnabled, SyscallAction;
    FineUser(s, Choice(i, false));
  }
}
