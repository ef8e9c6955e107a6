/** Spawning harts and the image they start from (scheduler.h, `spawnHart`). */
module Boot {
  import opened Options
  import opened Words
  import opened Memory
  import opened Csr
  import opened Cpu
  import opened Kernel
  import opened Runs
  import opened History

  /** `spawnHart` accepts the program as hart `n`. */
  predicate Accepts(n: nat, program: seq<bv32>) {
    n < MAX_HARTS && 4 * |program| <= HART_SLOT_SIZE - STACK_SIZE
  }

  function EntryPC(id: nat): bv32 {
    FromNat(SlotBase(id))
  }

  /** The machine with one more hart, its program at the bottom of its slot. */
  function Spawned(s: Machine, program: seq<bv32>): Machine
    requires Accepts(|s.harts|, program) && |s.mem| == MEM_SIZE
  {
    var n := |s.harts|;
    s.(harts := s.harts + [InitialView(n, EntryPC(n))], mem := Image(s.mem, program, SlotBase(n)))
  }

  /** Whenever a hart is spawned, the invariant of runs is kept. */
  lemma SpawnFine(s: Machine, program: seq<bv32>)
    requires Fine(s) && Accepts(|s.harts|, program)
    ensures Fine(Spawned(s, program))
  {
    hide Image, FromNat, HartFine;
    var n, s' := |s.harts|, Spawned(s, program);
    InitialFine(n, EntryPC(n));
    forall i | 0 <= i < |s'.harts| ensures s'.harts[i].id == i && HartFine(s'.harts[i]) {
      assert i < n ==> s'.harts[i] == s.harts[i];
    }
    forall i: int ensures Addressed(s'.Queue(i), i, |s'.harts|) {
      assert s'.queues == s.queues && s'.Queue(i) == s.Queue(i);
      StillAddressed(s.Queue(i), i, n);
    }
  }

  lemma StillAddressed(q: seq<Message>, i: int, n: nat)
    requires Addressed(q, i, n)
    ensures Addressed(q, i, n + 1)
  {}

  lemma InitialFine(id: nat, pc: bv32)
    ensures InitialView(id, pc).id == id && InitialView(id, pc).state == Running && HartFine(InitialView(id, pc))
  {
    hide FromNat;
    assert Outside(0x88) == 0;
  }

  predicate AllAccepted(programs: seq<seq<bv32>>) {
    |programs| <= MAX_HARTS && forall i :: 0 <= i < |programs| ==> Accepts(i, programs[i])
  }

  /** The machine after spawning one hart for each program, on an empty memory. */
  function Booted(programs: seq<seq<bv32>>): (s: Machine)
    requires AllAccepted(programs)
    ensures |s.harts| == |programs| && |s.mem| == MEM_SIZE && s.queues == map[]
    ensures forall i :: 0 <= i < |programs| ==> s.harts[i] == InitialView(i, EntryPC(i))
  {
    if programs == [] then Machine([], seq(MEM_SIZE, _ => 0), map[])
    else Spawned(Booted(programs[..|programs| - 1]), programs[|programs| - 1])
  }

  lemma {:induction false} BootedFine(programs: seq<seq<bv32>>)
    requires AllAccepted(programs)
    ensures Fine(Booted(programs))
  {
    hide Spawned, Accepts, InitialView;
    if programs == [] {
      assert forall i: int :: Booted(programs).Queue(i) == [];
    } else {
      BootedFine(programs[..|programs| - 1]);
      assert Accepts(|programs| - 1, programs[|programs| - 1]);
      SpawnFine(Booted(programs[..|programs| - 1]), programs[|programs| - 1]);
    }
  }

  /** The slots of two harts have no byte in common, and all of them lie in the array. */
  lemma SlotsDisjoint(i: nat, j: nat)
    requires i < j < MAX_HARTS
    ensures SlotTop(i) <= SlotBase(j) && SlotTop(j) <= MEM_SIZE
  {}

  /**
   * The load image round trip: after all spawns, word `k` of program `i` is at offset 4k of slot `i`. Programs
   * spawned later leave it alone.
   */
  lemma {:induction false} BootedWord(programs: seq<seq<bv32>>, i: nat, k: nat)
    requires AllAccepted(programs) && i < |programs| && k < |programs[i]|
    ensures WordAt(Booted(programs).mem, SlotBase(i) + 4 * k) == programs[i][k]
  {
    hide WordAt, Image, InitialView, AllAccepted;
    var n := |programs| - 1;
    AcceptedParts(programs, i);
    AcceptedParts(programs, n);
    var before := Booted(programs[..n]);
    if i == n {
      ImageWord(before.mem, programs[n], SlotBase(n), k);
    } else {
      BootedWord(programs[..n], i, k);
      SlotsDisjoint(i, n);
      ImageWordFrame(before.mem, programs[n], SlotBase(n), SlotBase(i) + 4 * k);
    }
  }

  lemma AcceptedParts(programs: seq<seq<bv32>>, i: nat)
    requires AllAccepted(programs) && i < |programs|
    ensures Accepts(i, programs[i]) && AllAccepted(programs[..|programs| - 1])
  {}

  /** In user mode hart `i` fetches word `k` of its program at the k-th instruction address after its entry point. */
  lemma BootedFetch(programs: seq<seq<bv32>>, i: nat, k: nat)
    requires AllAccepted(programs) && i < |programs| && k < |programs[i]|
    ensures var pc := WordAddr(EntryPC(i), k);
            && Nat(pc) == SlotBase(i) + 4 * k && pc & 3 == 0
            && Check(Nat(pc), FETCH, i).NoFault? && Check(Nat(pc), LOAD, i).NoFault?
            && WordAt(Booted(programs).mem, Nat(pc)) == programs[i][k]
  {
    hide WordAt, Nat, FromNat, Booted, WordAddr, Check;
    assert Accepts(i, programs[i]);
    BootedWord(programs, i, k);
    NatFromNat(SlotBase(i));
    WordAddrValue(EntryPC(i), k);
    FetchBounds(i, k);
    AlignedValue(WordAddr(EntryPC(i), k));
  }

  lemma FetchBounds(i: nat, k: nat)
    requires i < MAX_HARTS && 4 * k < HART_SLOT_SIZE - STACK_SIZE
    ensures var addr := SlotBase(i) + 4 * k;
            addr % 4 == 0 && addr % TWO_32 == addr && Check(addr, FETCH, i).NoFault? && Check(addr, LOAD, i).NoFault?
  {
    assert SlotBase(i) + 4 * k == 4 * (0x4000 + i * 0x4000 + k);
  }

  /**
   * From boot on, a hart that is running or waiting has interrupts enabled exactly when it has never blocked in RECV,
   * and mstatus stays zero outside MIE, MPIE and MPP.
   */
  lemma EnabledUntilBlocked(programs: seq<seq<bv32>>, cs: seq<Choice>, i: nat)
    requires AllAccepted(programs) && i < |programs|
    ensures var s := Booted(programs);
            IsRun(s, cs) ==>
              var h := After(s, cs).harts[i];
              && (h.state == Running || h.state == Waiting ==> (h.csr.InterruptsEnabled() <==> !EverBlocked(i, Events(s, cs))))
              && Outside(h.csr.mstatus) == 0
  {
    hide Booted, After, Events, FromNat, Outside;
    BootedFine(programs);
    if IsRun(Booted(programs), cs) {
      RunFine(Booted(programs), cs);
      EnableHistory(Booted(programs), cs, i);
      assert MieSet(0x88);
    }
  }

  // ----- the state a hart starts in -----

  /** The memory map: a 64 KiB kernel region, then eight slots of 64 KiB, in a megabyte. */
  lemma MemoryMap(id: nat)
    ensures SlotBase(id) == 0x1_0000 * (id + 1) && SlotTop(id) == 0x1_0000 * (id + 2)
    ensures id < 8 ==> SlotTop(id) <= MEM_SIZE == 0x10_0000
    ensures KERNEL_BASE == 0 && KERNEL_BASE + KERNEL_SIZE == SlotBase(0)
  {}

  /** Eight harts, each with at most 14336 words of program: its slot less 8 KiB for the stack. */
  lemma AcceptsMeans(n: nat, program: seq<bv32>)
    ensures Accepts(n, program) <==> n < 8 && |program| <= 14336
    ensures Accepts(n, program) ==> SlotBase(n) + 4 * |program| + 0x2000 <= SlotTop(n)
  {}

  /**
   * The stack pointer of a new hart is the last word of its own slot: aligned, writable by the hart, and at least 8 KiB
   * less a word above its program.
   */
  lemma BootedStack(programs: seq<seq<bv32>>, i: nat)
    requires AllAccepted(programs) && i < |programs|
    ensures var sp := Nat(Booted(programs).harts[i].x[2]);
            && sp == SlotBase(i) + HART_SLOT_SIZE - 4 == 0x1_0000 * (i + 2) - 4
            && sp % 4 == 0 && Check(sp, STORE, i).NoFault? && Check(sp, LOAD, i).NoFault? && !Straddles(sp, 4, i)
            && SlotBase(i) + 4 * |programs[i]| <= sp - 0x2000 + 4
  {
    hide Nat, FromNat, Booted, Check;
    assert Accepts(i, programs[i]);
    NatFromNat(StackTop(i));
    StackChecked(i);
  }

  lemma StackChecked(i: nat)
    requires i < MAX_HARTS
    ensures var sp := 0x1_0000 * (i + 2) - 4;
            && sp == StackTop(i) < TWO_32
            && sp % 4 == 0 && Check(sp, STORE, i).NoFault? && Check(sp, LOAD, i).NoFault? && !Straddles(sp, 4, i)
  {
    assert 0x1_0000 * (i + 2) - 4 == 4 * (0x4000 * (i + 2) - 1);
  }

  /** Everything else a new hart starts with: in user mode at its first word, all other registers zero. */
  lemma BootedHart(programs: seq<seq<bv32>>, i: nat)
    requires AllAccepted(programs) && i < |programs|
    ensures var h := Booted(programs).harts[i];
            && h.id == i && h.state == Running && h.mode == U && h.steps == 0 && !h.timerPending
            && Nat(h.pc) == 0x1_0000 * (i + 1)
            && (forall r :: 0 <= r < 32 && r != 2 ==> h.x[r] == 0)
  {
    hide Nat, FromNat, Booted;
    NatFromNat(SlotBase(i));
  }

  lemma InitialCsrs(id: nat, pc: bv32)
    ensures InitialView(id, pc).csr == Csrs(0x88, 0, 0, 0, 0, 0, 0x80, FromNat(id), 0)
  {
    hide FromNat;
  }

  lemma InitialReads(c: Csrs)
    ensures c.Read(0x300) == Some(c.mstatus) && c.Read(0x304) == Some(c.mie) && c.Read(0x305) == Some(c.mtvec)
    ensures c.Read(0xF14) == Some(c.hartid)
  {
    hide FromNat;
  }

  /** And its CSRs: interrupts on, the timer's enabled, the vector at 0, its number in mhartid. */
  lemma BootedCsrs(programs: seq<seq<bv32>>, i: nat)
    requires AllAccepted(programs) && i < |programs|
    ensures var c := Booted(programs).harts[i].csr;
            && c.Read(0x300) == Some(0x88) && c.Read(0x304) == Some(0x80) && c.Read(0x305) == Some(0)
            && c.Read(0xF14) == Some(c.hartid) && Nat(c.hartid) == i && c.cycle == 0
  {
    hide Nat, FromNat, Booted, Csrs.Read, InitialView;
    InitialCsrs(i, EntryPC(i));
    InitialReads(Booted(programs).harts[i].csr);
    NatFromNat(i);
  }

  /** Memory is zero wherever no program was loaded. */
  lemma {:induction false} BootedElsewhere(programs: seq<seq<bv32>>, a: nat)
    requires AllAccepted(programs) && a < MEM_SIZE
    requires forall i :: 0 <= i < |programs| ==> a < SlotBase(i) || SlotBase(i) + 4 * |programs[i]| <= a
    ensures Booted(programs).mem[a] == 0
  {
    hide Image, InitialView, AllAccepted;
    if programs != [] {
      var n := |programs| - 1;
      AcceptedParts(programs, n);
      BootedElsewhere(programs[..n], a);
      ImageFrame(Booted(programs[..n]).mem, programs[n], SlotBase(n), a);
    }
  }
}
