/** Trap handling, system calls and message queues (kernel.h). */
module Kernel {
  import opened Words
  import opened Csr
  import opened Cpu

  datatype Message = Message(from: int, value: bv32)

  /** The whole machine as a value. */
  datatype Machine = Machine(harts: seq<HartView>, mem: seq<bv8>, queues: map<int, seq<Message>>) {

    function With(i: nat, h: HartView): Machine
      requires i < |harts|
    {
      this.(harts := harts[i := h])
    }

    /** A queue that was never used is empty. */
    function Queue(i: int): seq<Message> {
      if i in queues then queues[i] else []
    }
  }

  /** The faked MRET: back to the mode in MPP, at the trapping instruction or just after it. */
  function Resumed(h: HartView, advance: bool): (h': HartView)
    ensures h'.state == h.state
  {
    h.(csr := h.csr.TrapReturn(), mode := h.csr.PreviousMode(),
       pc := if advance then Plus(h.csr.mepc, 4) else h.csr.mepc)
  }

  function WithReg(h: HartView, r: nat, v: bv32): (h': HartView)
    requires r < 32
    ensures h'.state == h.state
  {
    h.(x := h.x[r := v])
  }

  function Woken(h: HartView): HartView {
    if h.state == Waiting then h.(state := Running) else h
  }

  /** The effect of a SEND before the sender resumes: a0 is the target, a1 the value, a0 the result. */
  function Posted(s: Machine, i: nat): Machine
    requires i < |s.harts|
    ensures |Posted(s, i).harts| == |s.harts|
    ensures s.harts[i].state == Running ==> Posted(s, i).harts[i].state == Running
  {
    var h := s.harts[i];
    var target := SInt(h.x[10]);
    if target < 0 || target >= |s.harts| then
      s.With(i, WithReg(h, 10, 0xFFFF_FFFF))
    else
      var queued := s.(queues := s.queues[target := s.Queue(target) + [Message(h.id, h.x[11])]]);
      var sent := queued.With(i, WithReg(h, 10, 0));
      sent.With(target, Woken(sent.harts[target]))
  }

  function Send(s: Machine, i: nat): (s': Machine)
    requires i < |s.harts|
    ensures |s'.harts| == |s.harts| && s'.mem == s.mem
    ensures s.harts[i].state == Running ==> s'.harts[i].state == Running
  {
    var posted := Posted(s, i);
    posted.With(i, Resumed(posted.harts[i], true))
  }

  /** RECV: take the head of the queue, or block in user mode with the program counter back at the ecall. */
  function Receive(s: Machine, i: nat): (s': Machine)
    requires i < |s.harts|
    ensures |s'.harts| == |s.harts| && s'.mem == s.mem
  {
    var h := s.harts[i];
    var q := s.Queue(h.id);
    if q == [] then
      s.(queues := s.queues[h.id := q]).With(i, h.(mode := U, state := Waiting, pc := h.csr.mepc))
    else
      s.(queues := s.queues[h.id := q[1..]])
       .With(i, Resumed(WithReg(WithReg(h, 10, q[0].value), 11, FromInt(q[0].from)), true))
  }

  function Syscall(s: Machine, i: nat): (s': Machine)
    requires i < |s.harts|
    ensures |s'.harts| == |s.harts| && s'.mem == s.mem
  {
    var h := s.harts[i];
    var number := h.x[17];
    if number == 3 then s.With(i, h.(state := Halted))
    else if number == 5 then Send(s, i)
    else if number == 6 then Receive(s, i)
    else if number == 7 then s.With(i, Resumed(WithReg(h, 10, FromInt(h.id)), true))
    else s.With(i, Resumed(h, true))
  }

  /** What `handleTrap` does for hart `i`, which has trapped. */
  function Handled(s: Machine, i: nat): (s': Machine)
    requires i < |s.harts|
    ensures |s'.harts| == |s.harts| && s'.mem == s.mem
  {
    var h := s.harts[i];
    if h.csr.mcause == TIMER_INT then s.With(i, Resumed(h, false))
    else if h.csr.mcause == ECALL_U then Syscall(s, i)
    else if h.csr.mcause == ECALL_M then s.With(i, h.(state := Halted))
    else s.With(i, h.(state := Faulted))
  }

  /** The harts and the queues after a SEND, one change at a time. */
  lemma PostedParts(s: Machine, i: nat)
    requires i < |s.harts|
    ensures var h := s.harts[i];
            var target := SInt(h.x[10]);
            if 0 <= target < |s.harts| then
              var sent := s.harts[i := WithReg(h, 10, 0)];
              && Posted(s, i).harts == sent[target := Woken(sent[target])]
              && Posted(s, i).queues == s.queues[target := s.Queue(target) + [Message(h.id, h.x[11])]]
            else
              Posted(s, i).harts == s.harts[i := WithReg(h, 10, 0xFFFF_FFFF)] && Posted(s, i).queues == s.queues
  {
    hide SInt, Woken, WithReg;
  }

  // ----- the kernel object -----

  function Views(harts: seq<Hart>): (vs: seq<HartView>)
    requires forall h :: h in harts ==> h.Valid()
    reads harts, set h | h in harts :: h.x, set h | h in harts :: h.csr
    ensures |vs| == |harts|
    ensures forall i :: 0 <= i < |harts| ==> vs[i] == harts[i].View()
  {
    if harts == [] then [] else Views(harts[..|harts| - 1]) + [harts[|harts| - 1].View()]
  }

  /** Harts with distinct storage, numbered by their position. */
  ghost predicate Separate(harts: seq<Hart>) {
    && (forall i :: 0 <= i < |harts| ==> harts[i].Valid() && harts[i].id == i)
    && (forall i, j :: 0 <= i < j < |harts| ==>
          harts[i] != harts[j] && harts[i].x != harts[j].x && harts[i].csr != harts[j].csr)
  }

  class Kernel {
    var queues: map<int, seq<Message>>

    constructor ()
      ensures queues == map[]
    {
      queues := map[];
    }

    method ReturnFromTrap(h: Hart, harts: seq<Hart>, advancePC: bool)
      requires Separate(harts) && 0 <= h.id < |harts| && harts[h.id] == h
      modifies h, h.csr
      ensures Views(harts) == old(Views(harts))[h.id := Resumed(old(Views(harts))[h.id], advancePC)]
    {
      hide Views, StatusReturn, Plus;
      var prev := h.csr.TrapReturn();
      h.mode := prev;
      if advancePC {
        h.pc := Plus(h.csr.mepc, 4);
      } else {
        h.pc := h.csr.mepc;
      }
      assert h.View() == Resumed(old(h.View()), advancePC);
    }

    method SetReg(h: Hart, harts: seq<Hart>, r: nat, v: bv32)
      requires Separate(harts) && 0 <= h.id < |harts| && harts[h.id] == h && r < 32
      modifies h.x
      ensures Views(harts) == old(Views(harts))[h.id := WithReg(old(Views(harts))[h.id], r, v)]
    {
      hide Views;
      h.x[r] := v;
      assert h.View() == old(h.View()).(x := old(h.View()).x[r := v]);
    }

    method SetState(h: Hart, harts: seq<Hart>, state: HartState)
      requires Separate(harts) && 0 <= h.id < |harts| && harts[h.id] == h
      modifies h
      ensures Views(harts) == old(Views(harts))[h.id := old(Views(harts))[h.id].(state := state)]
    {
      hide Views;
      h.state := state;
      assert h.View() == old(h.View()).(state := state);
    }

    method Block(h: Hart, harts: seq<Hart>)
      requires Separate(harts) && 0 <= h.id < |harts| && harts[h.id] == h
      modifies h
      ensures var v := old(h.View());
              Views(harts) == old(Views(harts))[h.id := v.(mode := U, state := Waiting, pc := v.csr.mepc)]
    {
      hide Views;
      h.mode := U;
      h.state := Waiting;
      h.pc := h.csr.mepc;
      assert h.View() == old(h.View()).(mode := U, state := Waiting, pc := old(h.View()).csr.mepc);
    }

    method PostMessage(h: Hart, harts: seq<Hart>, ghost s: Machine)
      requires Separate(harts) && 0 <= h.id < |harts| && harts[h.id] == h
      requires s.harts == Views(harts) && s.queues == queues
      modifies this, h.x, harts
      ensures Views(harts) == Posted(s, h.id).harts && queues == Posted(s, h.id).queues
    {
      hide Views, SInt, Woken, WithReg, Posted;
      PostedParts(s, h.id);
      ghost var vs := Views(harts);
      assert vs[h.id].x[10] == h.x[10] && vs[h.id].x[11] == h.x[11] && vs[h.id].id == h.id;
      hide Hart.View;
      var target, val := SInt(h.x[10]), h.x[11];
      if target < 0 || target >= |harts| {
        SetReg(h, harts, 10, 0xFFFF_FFFF);
        return;
      }
      var q := if target in queues then queues[target] else [];
      queues := queues[target := q + [Message(h.id, val)]];
      SetReg(h, harts, 10, 0);
      WakeUp(harts[target], harts);
    }

    method WakeUp(h: Hart, harts: seq<Hart>)
      requires Separate(harts) && 0 <= h.id < |harts| && harts[h.id] == h
      modifies h
      ensures Views(harts) == old(Views(harts))[h.id := Woken(old(Views(harts))[h.id])]
    {
      hide Views;
      if h.state == Waiting {
        SetState(h, harts, Running);
      }
    }

    method SendMessage(h: Hart, harts: seq<Hart>, ghost m: seq<bv8>)
      requires Separate(harts) && 0 <= h.id < |harts| && harts[h.id] == h
      modifies this, h, h.x, h.csr, harts
      ensures var s := Send(Machine(old(Views(harts)), m, old(queues)), h.id);
              Views(harts) == s.harts && queues == s.queues
    {
      hide Views, Posted, Resumed;
      PostMessage(h, harts, Machine(Views(harts), m, queues));
      ReturnFromTrap(h, harts, true);
    }

    method ReceiveMessage(h: Hart, harts: seq<Hart>, ghost m: seq<bv8>) returns (resume: bool)
      requires Separate(harts) && 0 <= h.id < |harts| && harts[h.id] == h
      modifies this, h, h.x, h.csr
      ensures var s := Receive(Machine(old(Views(harts)), m, old(queues)), h.id);
              Views(harts) == s.harts && queues == s.queues
      ensures old(h.state) == Running ==> (resume <==> Views(harts)[h.id].state == Running)
    {
      hide Views, Resumed, FromInt, WithReg;
      if h.id !in queues {
        queues := queues[h.id := []];
      }
      if queues[h.id] == [] {
        Block(h, harts);
        return false;
      }
      var msg := queues[h.id][0];
      queues := queues[h.id := queues[h.id][1..]];
      SetReg(h, harts, 10, msg.value);
      SetReg(h, harts, 11, FromInt(msg.from));
      ReturnFromTrap(h, harts, true);
      resume := true;
    }

    method HandleSyscall(h: Hart, harts: seq<Hart>, ghost m: seq<bv8>) returns (resume: bool)
      requires Separate(harts) && 0 <= h.id < |harts| && harts[h.id] == h
      modifies this, h, h.x, h.csr, harts
      ensures var s := Syscall(Machine(old(Views(harts)), m, old(queues)), h.id);
              Views(harts) == s.harts && queues == s.queues
      ensures old(h.state) == Running ==> (resume <==> Views(harts)[h.id].state == Running)
    {
      hide Views, Resumed, Send, Receive, FromInt, WithReg;
      match h.x[17] {
        case 3 => SetState(h, harts, Halted); return false;
        case 5 => SendMessage(h, harts, m);
        case 6 => resume := ReceiveMessage(h, harts, m); return;
        case 7 =>
          SetReg(h, harts, 10, FromInt(h.id));
          ReturnFromTrap(h, harts, true);
        case _ => ReturnFromTrap(h, harts, true);
      }
      resume := true;
    }

    /** Called by the scheduler when a hart's `ExecuteOne` returned false and the hart has not halted. */
    method HandleTrap(h: Hart, harts: seq<Hart>, ghost m: seq<bv8>) returns (resume: bool)
      requires Separate(harts) && 0 <= h.id < |harts| && harts[h.id] == h
      modifies this, h, h.x, h.csr, harts
      ensures var s := Handled(Machine(old(Views(harts)), m, old(queues)), h.id);
              Views(harts) == s.harts && queues == s.queues
      ensures old(h.state) == Running ==> (resume <==> Views(harts)[h.id].state == Running)
    {
      hide Views, Resumed, Syscall;
      var cause := h.csr.mcause;
      if cause == TIMER_INT {
        ReturnFromTrap(h, harts, false);
        return true;
      }
      if cause == ECALL_U {
        resume := HandleSyscall(h, harts, m);
        return;
      }
      if cause == ECALL_M {
        SetState(h, harts, Halted);
        return false;
      }
      SetState(h, harts, Faulted);
      return false;
    }
  }
}
