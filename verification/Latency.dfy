/** How long a woken hart waits for its message. */
module Latency {
  import opened Kernel
  import opened Cpu
  import opened Runs
  import opened History
  import opened Blocking
  import opened Schedule

  // ----- what happens between two points of a run -----

  /** The events of a run after its first `k`. */
  function EventsSince(s: Machine, cs: seq<Choice>, k: nat): seq<Event>
    requires IsRun(s, cs) && k <= |cs|
  {
    Events(s, cs)[k..]
  }

  lemma EventsSplit(s: Machine, cs: seq<Choice>, k: nat)
    requires IsRun(s, cs) && k <= |cs|
    ensures IsRun(s, cs[..k]) && Events(s, cs) == Events(s, cs[..k]) + EventsSince(s, cs, k)
  {
    hide Events, IsRun, After, ActionOf, Enabled;
    RunPrefix(s, cs, k);
    forall j | 0 <= j < k ensures Events(s, cs)[j] == Events(s, cs[..k])[j] {
      EventAt(s, cs, j);
      EventAt(s, cs[..k], j);
      assert cs[..k][..j] == cs[..j];
    }
    assert Events(s, cs)[..k] == Events(s, cs[..k]);
  }

  /** One more event adds a message, or nothing. */
  lemma SentSnoc(i: int, es: seq<Event>, e: Event)
    ensures SentTo(i, es + [e])
         == if e.action.Sent? && e.action.target == i then SentTo(i, es) + [e.action.msg] else SentTo(i, es)
  {
    assert (es + [e])[..|es|] == es;
  }

  lemma {:induction false} SentJoin(i: int, es: seq<Event>, later: seq<Event>)
    ensures SentTo(i, es + later) == SentTo(i, es) + SentTo(i, later)
  {
    if later == [] {
      assert es + later == es && SentTo(i, later) == [];
    } else {
      hide SentTo;
      var init, e := later[..|later| - 1], later[|later| - 1];
      SentJoin(i, es, init);
      SentSnoc(i, init, e);
      SentSnoc(i, es + init, e);
      assert later == init + [e] && es + later == es + init + [e];
    }
  }

  lemma {:induction false} NoneReceived(i: int, es: seq<Event>, later: seq<Event>)
    requires forall k :: 0 <= k < |later| ==> later[k].hart != i
    ensures ReceivedBy(i, es + later) == ReceivedBy(i, es)
  {
    if later == [] {
      assert es + later == es;
    } else {
      var n := |later| - 1;
      NoneReceived(i, es, later[..n]);
      assert (es + later)[..|es| + n] == es + later[..n];
    }
  }

  lemma SameTail<T>(start: seq<T>, a: seq<T>, received: seq<T>, sent: seq<T>, q: seq<T>)
    requires start + a == received && start + (a + sent) == received + q
    ensures q == sent
  {
    assert start + (a + sent) == (start + a) + sent;
    assert q == (received + q)[|received|..];
    assert sent == (received + sent)[|received|..];
  }

  /** The hart makes none of the choices after the first `k`. */
  predicate Quiescent(cs: seq<Choice>, k: nat, i: nat) {
    k <= |cs| && forall j :: k <= j < |cs| ==> cs[j].hart != i
  }

  lemma QuiescentEvents(s: Machine, cs: seq<Choice>, k: nat, i: nat)
    requires IsRun(s, cs) && Quiescent(cs, k, i)
    ensures forall j :: 0 <= j < |EventsSince(s, cs, k)| ==> EventsSince(s, cs, k)[j].hart != i
  {
    hide Events, IsRun, ActionOf, Enabled, After;
    forall j | 0 <= j < |EventsSince(s, cs, k)| ensures EventsSince(s, cs, k)[j].hart != i {
      EventAt(s, cs, k + j);
    }
  }

  /** While a hart waits and others step, its queue is what is sent to it. */
  lemma QueuedMeanwhile(s: Machine, cs: seq<Choice>, k: nat, i: nat)
    requires Fine(s) && IsRun(s, cs) && i < |s.harts| && Quiescent(cs, k, i)
    ensures IsRun(s, cs[..k])
    ensures After(s, cs[..k]).harts[i].state == Waiting ==> After(s, cs).Queue(i) == SentTo(i, EventsSince(s, cs, k))
  {
    hide Events, IsRun, After, EventsSince, SentTo, ReceivedBy, HartFine;
    EventsSplit(s, cs, k);
    if After(s, cs[..k]).harts[i].state == Waiting {
      RunFine(s, cs[..k]);
      FifoDelivery(s, cs[..k], i);
      FifoDelivery(s, cs, i);
      QuiescentEvents(s, cs, k, i);
      var es, later := Events(s, cs[..k]), EventsSince(s, cs, k);
      SentJoin(i, es, later);
      NoneReceived(i, es, later);
      assert ReceivedBy(i, es) + [] == ReceivedBy(i, es);
      SameTail(s.Queue(i), SentTo(i, es), ReceivedBy(i, es), SentTo(i, later), After(s, cs).Queue(i));
    }
  }

  /**
   * A hart that waits while others step is woken exactly if something is sent to it. Its next step then receives the
   * first such message, if its ecall is out of the others' reach.
   */
  lemma ServedMeanwhile(s: Machine, cs: seq<Choice>, k: nat, i: nat)
    requires Fine(s) && WaitersPoised(s) && IsRun(s, cs) && i < |s.harts| && Quiescent(cs, k, i)
    ensures IsRun(s, cs[..k])
    ensures var t, sent := After(s, cs), SentTo(i, EventsSince(s, cs, k));
            After(s, cs[..k]).harts[i].state == Waiting ==>
              && t.harts[i].state == (if sent == [] then Waiting else Running)
              && (sent != [] && OutOfReach(s, cs, i) ==> ActionOf(t, i) == Received(sent[0]))
  {
    hide Fine, Events, IsRun, After, EventsSince, SentTo, WaitersPoised, ActionOf, AtReceive, OutOfReach, PointsAtEcall;
    hide Parked;
    QueuedMeanwhile(s, cs, k, i);
    if After(s, cs[..k]).harts[i].state == Waiting {
      EventsSplit(s, cs, k);
      QuiescentEvents(s, cs, k, i);
      ParkedRests(s, cs[..k], i);
      ParkedSince(s, Events(s, cs[..k]), i, EventsSince(s, cs, k));
      ParkedRests(s, cs, i);
      WokenReceives(s, cs, i);
      ParkedCode(s, cs, i);
    }
  }

  // ----- in the scheduler -----

  /** A turn of a running hart begins with a call, one of a hart that is not running has none. */
  lemma TurnBegins(st: Sched, i: nat, cfg: Config)
    requires i < |st.s.harts| && cfg.quantum >= 1
    ensures var cs := Turn(st, i, cfg, 0).cs;
            if st.s.harts[i].state == Running then |st.cs| < |cs| && st.cs <= cs && cs[|st.cs|].hart == i
            else Turn(st, i, cfg, 0) == st
  {
    hide Step, Executed, Turn;
    TurnCalls(st, i, cfg, 0);
    TurnUnfold(st, i, cfg, 0);
  }

  /**
   * Wake-up latency. Hart `i` waits at the end of its turn. Until its next turn the others make at most
   * (n - 1) * quantum calls. If nothing is sent to it in them, it goes on waiting and has no turn; otherwise its next
   * turn begins by receiving the first message sent, if its ecall is out of the others' reach.
   */
  lemma WakeUpLatency(s0: Machine, st: Sched, cfg: Config, i: nat)
    requires Tracks(s0, st) && WaitersPoised(s0) && cfg.quantum >= 1 && i < |st.s.harts|
    requires Turns(st, i + 1, cfg).s.harts[i].state == Waiting
    ensures var parked := Turns(st, i + 1, cfg).cs;
            var next := Turns(Round(st, cfg), i, cfg);
            var end := Turns(Round(st, cfg), i + 1, cfg);
            && |s0.harts| == |st.s.harts| && IsRun(s0, next.cs) && IsRun(s0, end.cs)
            && parked <= next.cs <= end.cs && |next.cs| - |parked| <= (|st.s.harts| - 1) * Quantum(cfg)
            && var sent := SentTo(i, EventsSince(s0, next.cs, |parked|));
               if sent == [] then end == next && end.s.harts[i].state == Waiting
               else OutOfReach(s0, next.cs, i) ==>
                      |next.cs| < |end.cs| && Events(s0, end.cs)[|next.cs|].hart == i
                      && Events(s0, end.cs)[|next.cs|].action == Received(sent[0])
  {
    hide Fine, Turns, Turn, IsRun, After, Events, EventsSince, SentTo, OutOfReach, WaitersPoised, ActionOf, Enabled;
    var parked, next := Turns(st, i + 1, cfg), Turns(Round(st, cfg), i, cfg);
    var end := Turns(Round(st, cfg), i + 1, cfg);
    TurnsTrack(s0, st, i + 1, cfg);
    TurnsTrack(s0, st, |st.s.harts|, cfg);
    TurnsTrack(s0, Round(st, cfg), i, cfg);
    TurnsTrack(s0, Round(st, cfg), i + 1, cfg);
    GapBounded(st, cfg, i);
    assert next.cs[..|parked.cs|] == parked.cs;
    ServedMeanwhile(s0, next.cs, |parked.cs|, i);
    NextTurn(Round(st, cfg), i, cfg);
    TurnBegins(next, i, cfg);
    if next.s.harts[i].state == Running {
      EventAt(s0, end.cs, |next.cs|);
      assert end.cs[..|next.cs|] == next.cs;
    }
  }
}
