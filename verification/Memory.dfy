/** The flat memory and its per-hart slots (memory.h).

Memory contents are a sequence of `MEM_SIZE` bytes; the class `ProtectedMemory` holds them in an array.
Addresses are numbers. `hartId < 0` stands for machine mode.
*/
module Memory {

  const MEM_SIZE: nat := 0x10_0000
  const KERNEL_BASE: nat := 0
  const KERNEL_SIZE: nat := 0x1_0000
  const HART_SLOT_BASE: nat := 0x1_0000
  const HART_SLOT_SIZE: nat := 0x1_0000
  const MAX_HARTS: nat := 8
  const STACK_SIZE: nat := 0x2000

  function SlotBase(id: int): int { HART_SLOT_BASE + id * HART_SLOT_SIZE }
  function SlotTop(id: int): int { SlotBase(id) + HART_SLOT_SIZE }
  function StackTop(id: int): int { SlotTop(id) - 4 }

  // ----- protection -----

  datatype AccessType = FETCH | LOAD | STORE

  datatype FaultReason = MisalignedFetch | OutOfRange | CrossHart

  datatype MemFault = NoFault | Fault(addr: nat, access: AccessType, reason: FaultReason)

  function Check(addr: nat, t: AccessType, hartId: int): MemFault {
    if t == FETCH && addr % 4 != 0 then
      Fault(addr, t, MisalignedFetch)
    else if addr >= MEM_SIZE then
      Fault(addr, t, OutOfRange)
    else if hartId < 0 then
      NoFault
    else if addr < SlotBase(hartId) || addr >= SlotTop(hartId) then
      Fault(addr, t, CrossHart)
    else
      NoFault
  }

  /** The bytes an access touches when the check lets it through all exist. */
  predicate InArray(addr: nat, width: nat, t: AccessType, hartId: int) {
    Check(addr, t, hartId).NoFault? ==> addr + width <= MEM_SIZE
  }

  /** An access that starts inside the slot and runs over its top: the check does not look past the first byte. */
  predicate Straddles(addr: nat, width: nat, hartId: int) {
    SlotBase(hartId) <= addr < SlotTop(hartId) < addr + width
  }

  /** What the check lets through: machine mode everything in the array, a hart its own slot; a fetch only aligned. */
  lemma CheckMeans(addr: nat, t: AccessType, id: int)
    requires id < MAX_HARTS
    ensures Check(addr, t, id).NoFault? <==>
              && (t == FETCH ==> addr % 4 == 0)
              && if id < 0 then addr < MEM_SIZE else SlotBase(id) <= addr < SlotTop(id)
    ensures Check(addr, t, id).Fault? ==>
              var reason := if t == FETCH && addr % 4 != 0 then MisalignedFetch
                            else if addr >= MEM_SIZE then OutOfRange else CrossHart;
              Check(addr, t, id) == Fault(addr, t, reason)
  {}

  /** For a hart id the checked access stays in the array, and ends at most three bytes past the slot. */
  lemma UserAccessBounds(addr: nat, width: nat, t: AccessType, id: int)
    requires 0 <= id < MAX_HARTS && width <= 4
    ensures InArray(addr, width, t, id)
    ensures Check(addr, t, id).NoFault? ==> SlotBase(id) <= addr && addr + width <= SlotTop(id) + 3
  {}

  // ----- memory contents -----

  /** A byte of the contents. Past the end of the array there is nothing to read; the methods never do. */
  function ByteAt(m: seq<bv8>, addr: nat): bv8 {
    if addr < |m| then m[addr] else 0
  }

  /** Little-endian composition. */
  function ComposeHalf(b0: bv8, b1: bv8): bv16 {
    (b0 as bv16) | (b1 as bv16 << 8)
  }

  function ComposeWord(b0: bv8, b1: bv8, b2: bv8, b3: bv8): bv32 {
    (b0 as bv32) | (b1 as bv32 << 8) | (b2 as bv32 << 16) | (b3 as bv32 << 24)
  }

  function HalfAt(m: seq<bv8>, addr: nat): bv16 {
    ComposeHalf(ByteAt(m, addr), ByteAt(m, addr + 1))
  }

  function WordAt(m: seq<bv8>, addr: nat): bv32 {
    ComposeWord(ByteAt(m, addr), ByteAt(m, addr + 1), ByteAt(m, addr + 2), ByteAt(m, addr + 3))
  }

  function HalfBytes(v: bv16): (bytes: seq<bv8>)
    ensures |bytes| == 2
  {
    [(v & 0xFF) as bv8, ((v >> 8) & 0xFF) as bv8]
  }

  function WordBytes(v: bv32): (bytes: seq<bv8>)
    ensures |bytes| == 4
  {
    [(v & 0xFF) as bv8, ((v >> 8) & 0xFF) as bv8, ((v >> 16) & 0xFF) as bv8, ((v >> 24) & 0xFF) as bv8]
  }

  function Put(m: seq<bv8>, addr: nat, bytes: seq<bv8>): (r: seq<bv8>)
    requires addr + |bytes| <= |m|
    ensures |r| == |m|
    ensures forall a :: 0 <= a < |m| ==> r[a] == if addr <= a < addr + |bytes| then bytes[a - addr] else m[a]
  {
    m[..addr] + bytes + m[addr + |bytes|..]
  }

  /** Storing and loading at the same address are inverse. */
  lemma LoadAfterStore(m: seq<bv8>, addr: nat, v: bv32)
    requires addr + 4 <= |m|
    ensures WordAt(Put(m, addr, WordBytes(v)), addr) == v
  {
    Reassemble(v);
  }

  lemma Reassemble(v: bv32)
    ensures ComposeWord((v & 0xFF) as bv8, ((v >> 8) & 0xFF) as bv8, ((v >> 16) & 0xFF) as bv8, ((v >> 24) & 0xFF) as bv8) == v
  {}

  lemma StoreAfterLoad(m: seq<bv8>, addr: nat)
    requires addr + 4 <= |m|
    ensures Put(m, addr, WordBytes(WordAt(m, addr))) == m
  {
    Disassemble(m[addr], m[addr + 1], m[addr + 2], m[addr + 3]);
  }

  lemma Disassemble(b0: bv8, b1: bv8, b2: bv8, b3: bv8)
    ensures WordBytes(ComposeWord(b0, b1, b2, b3)) == [b0, b1, b2, b3]
  {}

  // ----- loading a program -----

  /** The contents after storing the first words of a program, in order. */
  function Image(m: seq<bv8>, words: seq<bv32>, base: nat): (r: seq<bv8>)
    requires base + 4 * |words| <= |m|
    ensures |r| == |m|
  {
    if words == [] then m
    else Put(Image(m, words[..|words| - 1], base), base + 4 * (|words| - 1), WordBytes(words[|words| - 1]))
  }

  /** A word depends on its four bytes only. */
  lemma WordOfBytes(m: seq<bv8>, m': seq<bv8>, addr: nat)
    requires addr + 4 <= |m| == |m'|
    requires m[addr..addr + 4] == m'[addr..addr + 4]
    ensures WordAt(m, addr) == WordAt(m', addr)
  {
    var w, w' := m[addr..addr + 4], m'[addr..addr + 4];
    assert w[0] == w'[0] && w[1] == w'[1] && w[2] == w'[2] && w[3] == w'[3];
  }

  /** Word `k` of a loaded program reads back as it was, and nothing outside the program changes. */
  lemma {:induction false} ImageWord(m: seq<bv8>, words: seq<bv32>, base: nat, k: nat)
    requires base + 4 * |words| <= |m| && k < |words|
    ensures WordAt(Image(m, words, base), base + 4 * k) == words[k]
  {
    hide WordAt, WordBytes, Put;
    var n := |words| - 1;
    var before := Image(m, words[..n], base);
    assert Image(m, words, base) == Put(before, base + 4 * n, WordBytes(words[n]));
    hide Image;
    if k == n {
      LoadAfterStore(before, base + 4 * n, words[n]);
    } else {
      ImageWord(m, words[..n], base, k);
      PutBeside(before, base + 4 * n, WordBytes(words[n]), base + 4 * k);
    }
  }

  lemma PutBeside(m: seq<bv8>, addr: nat, bytes: seq<bv8>, a: nat)
    requires addr + |bytes| <= |m| && a + 4 <= addr
    ensures WordAt(Put(m, addr, bytes), a) == WordAt(m, a)
  {
    hide WordAt, Put;
    WordOfBytes(m, Put(m, addr, bytes), a);
  }

  lemma {:induction false} ImageFrame(m: seq<bv8>, words: seq<bv32>, base: nat, a: nat)
    requires base + 4 * |words| <= |m| && a < |m|
    requires a < base || base + 4 * |words| <= a
    ensures Image(m, words, base)[a] == m[a]
  {
    if words != [] {
      ImageFrame(m, words[..|words| - 1], base, a);
    }
  }

  /** A word beside the program reads as before. */
  lemma ImageWordFrame(m: seq<bv8>, words: seq<bv32>, base: nat, addr: nat)
    requires base + 4 * |words| <= |m| && addr + 4 <= |m|
    requires addr + 4 <= base || base + 4 * |words| <= addr
    ensures WordAt(Image(m, words, base), addr) == WordAt(m, addr)
  {
    hide Image, WordAt;
    forall a | addr <= a < addr + 4 ensures Image(m, words, base)[a] == m[a] {
      ImageFrame(m, words, base, a);
    }
    WordOfBytes(m, Image(m, words, base), addr);
  }

  // ----- the memory object -----

  class ProtectedMemory {
    const data: array<bv8>

    constructor ()
      ensures fresh(data) && data.Length == MEM_SIZE
      ensures forall a :: 0 <= a < MEM_SIZE ==> data[a] == 0
    {
      data := new bv8[MEM_SIZE](_ => 0);
    }

    function RawLoadByte(addr: nat): (v: bv8)
      requires addr < data.Length
      reads data
      ensures v == ByteAt(data[..], addr)
    {
      data[addr]
    }

    function RawLoadHalf(addr: nat): (v: bv16)
      requires addr + 2 <= data.Length
      reads data
      ensures v == HalfAt(data[..], addr)
    {
      ComposeHalf(data[addr], data[addr + 1])
    }

    function RawLoadWord(addr: nat): (v: bv32)
      requires addr + 4 <= data.Length
      reads data
      ensures v == WordAt(data[..], addr)
    {
      ComposeWord(data[addr], data[addr + 1], data[addr + 2], data[addr + 3])
    }

    method RawStoreByte(addr: nat, v: bv8)
      requires addr < data.Length
      modifies data
      ensures data[..] == Put(old(data[..]), addr, [v])
    {
      data[addr] := v;
    }

    method RawStoreHalf(addr: nat, v: bv16)
      requires addr + 2 <= data.Length
      modifies data
      ensures data[..] == Put(old(data[..]), addr, HalfBytes(v))
    {
      data[addr] := (v & 0xFF) as bv8;
      data[addr + 1] := ((v >> 8) & 0xFF) as bv8;
    }

    method RawStoreWord(addr: nat, v: bv32)
      requires addr + 4 <= data.Length
      modifies data
      ensures data[..] == Put(old(data[..]), addr, WordBytes(v))
    {
      data[addr] := (v & 0xFF) as bv8;
      data[addr + 1] := ((v >> 8) & 0xFF) as bv8;
      data[addr + 2] := ((v >> 16) & 0xFF) as bv8;
      data[addr + 3] := ((v >> 24) & 0xFF) as bv8;
    }

    method LoadProgram(words: seq<bv32>, base: nat)
      requires base + 4 * |words| <= data.Length
      modifies data
      ensures data[..] == Image(old(data[..]), words, base)
    {
      for i := 0 to |words|
        invariant data[..] == Image(old(data[..]), words[..i], base)
      {
        RawStoreWord(base + 4 * i, words[i]);
        assert words[..i + 1][..i] == words[..i];
      }
      assert words[..|words|] == words;
    }

    // Protected accessors: a refused load yields 0, a refused store changes nothing.

    function LoadByte(addr: nat, hartId: int): (r: (bv8, MemFault))
      requires InArray(addr, 1, LOAD, hartId) && data.Length == MEM_SIZE
      reads data
      ensures r.1 == Check(addr, LOAD, hartId)
      ensures r.0 == if r.1.NoFault? then ByteAt(data[..], addr) else 0
    {
      var fault := Check(addr, LOAD, hartId);
      if fault != NoFault then (0, fault) else (RawLoadByte(addr), fault)
    }

    function LoadHalf(addr: nat, hartId: int): (r: (bv16, MemFault))
      requires InArray(addr, 2, LOAD, hartId) && data.Length == MEM_SIZE
      reads data
      ensures r.1 == Check(addr, LOAD, hartId)
      ensures r.0 == if r.1.NoFault? then HalfAt(data[..], addr) else 0
    {
      var fault := Check(addr, LOAD, hartId);
      if fault != NoFault then (0, fault) else (RawLoadHalf(addr), fault)
    }

    function LoadWord(addr: nat, hartId: int): (r: (bv32, MemFault))
      requires InArray(addr, 4, LOAD, hartId) && data.Length == MEM_SIZE
      reads data
      ensures r.1 == Check(addr, LOAD, hartId)
      ensures r.0 == if r.1.NoFault? then WordAt(data[..], addr) else 0
    {
      var fault := Check(addr, LOAD, hartId);
      if fault != NoFault then (0, fault) else (RawLoadWord(addr), fault)
    }

    method StoreByte(addr: nat, v: bv8, hartId: int) returns (fault: MemFault)
      requires InArray(addr, 1, STORE, hartId) && data.Length == MEM_SIZE
      modifies data
      ensures fault == Check(addr, STORE, hartId)
      ensures data[..] == if fault.NoFault? then Put(old(data[..]), addr, [v]) else old(data[..])
    {
      fault := Check(addr, STORE, hartId);
      if fault == NoFault {
        RawStoreByte(addr, v);
      }
    }

    method StoreHalf(addr: nat, v: bv16, hartId: int) returns (fault: MemFault)
      requires InArray(addr, 2, STORE, hartId) && data.Length == MEM_SIZE
      modifies data
      ensures fault == Check(addr, STORE, hartId)
      ensures data[..] == if fault.NoFault? then Put(old(data[..]), addr, HalfBytes(v)) else old(data[..])
    {
      fault := Check(addr, STORE, hartId);
      if fault == NoFault {
        RawStoreHalf(addr, v);
      }
    }

    method StoreWord(addr: nat, v: bv32, hartId: int) returns (fault: MemFault)
      requires InArray(addr, 4, STORE, hartId) && data.Length == MEM_SIZE
      modifies data
      ensures fault == Check(addr, STORE, hartId)
      ensures data[..] == if fault.NoFault? then Put(old(data[..]), addr, WordBytes(v)) else old(data[..])
    {
      fault := Check(addr, STORE, hartId);
      if fault == NoFault {
        RawStoreWord(addr, v);
      }
    }
  }
}
