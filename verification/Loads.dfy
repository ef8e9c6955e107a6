/** The numbers that loads read and stores write: little-endian, with the sign of the top byte where asked for. */
module Loads {
  import opened Arithmetic
  import opened Words
  import opened Encode
  import opened Memory
  import opened Isa

  /** The number at `addr`: `width` bytes, least significant first. */
  function NumberAt(m: seq<bv8>, addr: nat, width: nat): nat
    decreases width
  {
    if width == 0 then 0 else Value8(ByteAt(m, addr)) + 0x100 * NumberAt(m, addr + 1, width - 1)
  }

  /** A number of as many bytes as `width` says, read as two's complement. */
  function Signed(n: nat, width: Width): int {
    match width
    case Byte => if n < 0x80 then n else n - 0x100
    case Half => if n < 0x8000 then n else n - 0x1_0000
    case Word => if n < 0x8000_0000 then n else n - TWO_32
  }

  function SignFill(b: bv8): bv8 { if b & 0x80 == 0 then 0 else 0xFF }

  lemma SignFillValue(b: bv8)
    ensures Value8(SignFill(b)) == if Value8(b) < 0x80 then 0 else 0xFF
    ensures SignFill(SignFill(b)) == SignFill(b)
  {}

  lemma ByteExtended(b: bv8)
    ensures var w := SignExt(Widen8(b), 0x80);
            Byte0(w) == b && Byte1(w) == SignFill(b) && Byte2(w) == SignFill(b) && Byte3(w) == SignFill(b)
  {}

  lemma ByteWidened(b: bv8)
    ensures var w := Widen8(b); Byte0(w) == b && Byte1(w) == 0 && Byte2(w) == 0 && Byte3(w) == 0
  {}

  lemma HalfPositive(h: bv32)
    requires h & 0xFFFF_8000 == 0
    ensures SignExt(h, 0x8000) == h
  {}

  lemma HalfNegative(h: bv32)
    requires h & 0xFFFF_8000 == 0x8000
    ensures SignExt(h, 0x8000) == h | 0xFFFF_0000
  {}

  lemma HalfBits(b0: bv8, b1: bv8)
    ensures var h := Widen16(ComposeHalf(b0, b1));
            && h & 0xFFFF_8000 == (if SignFill(b1) == 0 then 0 else 0x8000)
            && Byte0(h) == b0 && Byte1(h) == b1 && Byte2(h) == 0 && Byte3(h) == 0
  {}

  lemma HighOnes(h: bv32)
    ensures var w := h | 0xFFFF_0000;
            Byte0(w) == Byte0(h) && Byte1(w) == Byte1(h) && Byte2(w) == 0xFF && Byte3(w) == 0xFF
  {}

  lemma HalfExtended(b0: bv8, b1: bv8)
    ensures var w := SignExt(Widen16(ComposeHalf(b0, b1)), 0x8000);
            Byte0(w) == b0 && Byte1(w) == b1 && Byte2(w) == SignFill(b1) && Byte3(w) == SignFill(b1)
  {
    hide SignExt, Widen16, ComposeHalf, Byte0, Byte1, Byte2, Byte3;
    var h := Widen16(ComposeHalf(b0, b1));
    HalfBits(b0, b1);
    if SignFill(b1) == 0 {
      HalfPositive(h);
    } else {
      HalfNegative(h);
      HighOnes(h);
    }
  }

  lemma WordComposed(b0: bv8, b1: bv8, b2: bv8, b3: bv8)
    ensures var w := ComposeWord(b0, b1, b2, b3); Byte0(w) == b0 && Byte1(w) == b1 && Byte2(w) == b2 && Byte3(w) == b3
  {}

  lemma SignOfTop(a: bv32)
    ensures a & 0x8000_0000 == 0 <==> SignFill(Byte3(a)) == 0
  {}

  /** The value of a word as two's complement, from its bytes. */
  lemma WordSigned(a: bv32)
    ensures SInt(a) == Nat(a) - if Value8(Byte3(a)) < 0x80 then 0 else TWO_32
  {
    hide Nat, Value8, Byte3, SignFill;
    SignOfTop(a);
    SignFillValue(Byte3(a));
    WholeByte(SignFill(Byte3(a)));
  }

  // ----- the bytes at an address -----

  lemma NumberByte(m: seq<bv8>, addr: nat)
    ensures NumberAt(m, addr, 1) == Value8(ByteAt(m, addr))
  {
    hide ByteAt, Value8;
    assert NumberAt(m, addr + 1, 0) == 0;
  }

  lemma NumberHalf(m: seq<bv8>, addr: nat)
    ensures NumberAt(m, addr, 2) == Value8(ByteAt(m, addr)) + 0x100 * Value8(ByteAt(m, addr + 1))
  {
    hide ByteAt, Value8;
    NumberByte(m, addr + 1);
  }

  lemma NumberWord(m: seq<bv8>, addr: nat)
    ensures NumberAt(m, addr, 4) == Digits(ByteAt(m, addr), ByteAt(m, addr + 1), ByteAt(m, addr + 2), ByteAt(m, addr + 3))
  {
    hide ByteAt, Value8;
    NumberHalf(m, addr + 2);
    assert NumberAt(m, addr + 1, 3) == Value8(ByteAt(m, addr + 1)) + 0x100 * NumberAt(m, addr + 2, 2);
  }

  // ----- loads -----

  lemma ByteLoaded(b: bv8)
    ensures SInt(SignExt(Widen8(b), 0x80)) == Signed(Value8(b), Byte)
    ensures Nat(Widen8(b)) == Value8(b)
  {
    hide Nat, SInt, SignExt, Widen8, SignFill, Value8, Byte0, Byte1, Byte2, Byte3;
    var w := SignExt(Widen8(b), 0x80);
    ByteExtended(b);
    NatDigits(w);
    WordSigned(w);
    SignFillValue(b);
    ByteWidened(b);
    NatDigits(Widen8(b));
    WholeByte(0);
  }

  lemma HalfSigned(b0: bv8, b1: bv8)
    ensures SInt(SignExt(Widen16(ComposeHalf(b0, b1)), 0x8000)) == Signed(Value8(b0) + 0x100 * Value8(b1), Half)
  {
    hide Nat, SInt, SignExt, Widen16, ComposeHalf, SignFill, Value8, Byte0, Byte1, Byte2, Byte3;
    var w := SignExt(Widen16(ComposeHalf(b0, b1)), 0x8000);
    HalfExtended(b0, b1);
    NatDigits(w);
    WordSigned(w);
    SignFillValue(b1);
  }

  lemma HalfUnsigned(b0: bv8, b1: bv8)
    ensures Nat(Widen16(ComposeHalf(b0, b1))) == Value8(b0) + 0x100 * Value8(b1)
  {
    hide Nat, Widen16, ComposeHalf, Value8, Byte0, Byte1, Byte2, Byte3;
    HalfBits(b0, b1);
    NatDigits(Widen16(ComposeHalf(b0, b1)));
    WholeByte(0);
  }

  lemma WordLoaded(b0: bv8, b1: bv8, b2: bv8, b3: bv8)
    ensures SInt(ComposeWord(b0, b1, b2, b3)) == Signed(Digits(b0, b1, b2, b3), Word)
    ensures Nat(ComposeWord(b0, b1, b2, b3)) == Digits(b0, b1, b2, b3)
  {
    hide Nat, SInt, ComposeWord, Value8, Byte0, Byte1, Byte2, Byte3;
    var w := ComposeWord(b0, b1, b2, b3);
    WordComposed(b0, b1, b2, b3);
    NatDigits(w);
    WordSigned(w);
  }

  lemma LoadedForms(m: seq<bv8>, addr: nat, signed: bool)
    ensures Loaded(m, addr, Byte, true) == SignExt(Widen8(ByteAt(m, addr)), 0x80)
    ensures Loaded(m, addr, Byte, false) == Widen8(ByteAt(m, addr))
    ensures Loaded(m, addr, Half, true) == SignExt(Widen16(ComposeHalf(ByteAt(m, addr), ByteAt(m, addr + 1))), 0x8000)
    ensures Loaded(m, addr, Half, false) == Widen16(ComposeHalf(ByteAt(m, addr), ByteAt(m, addr + 1)))
    ensures Loaded(m, addr, Word, signed)
         == ComposeWord(ByteAt(m, addr), ByteAt(m, addr + 1), ByteAt(m, addr + 2), ByteAt(m, addr + 3))
  {
    hide ByteAt, SignExt, Widen8, Widen16, ComposeHalf, ComposeWord;
  }

  /** A load puts the number at the address into the register: as it is, or read as two's complement. */
  lemma LoadedValue(m: seq<bv8>, addr: nat, width: Width, signed: bool)
    ensures signed ==> SInt(Loaded(m, addr, width, signed)) == Signed(NumberAt(m, addr, width.Bytes()), width)
    ensures !signed ==> Nat(Loaded(m, addr, width, signed)) == NumberAt(m, addr, width.Bytes())
  {
    hide ByteAt, Nat, SInt, SignExt, Widen8, Widen16, ComposeHalf, ComposeWord, Digits, Signed, NumberAt, Loaded, Value8;
    LoadedForms(m, addr, signed);
    match width {
      case Byte =>
        NumberByte(m, addr);
        ByteLoaded(ByteAt(m, addr));
      case Half =>
        NumberHalf(m, addr);
        HalfSigned(ByteAt(m, addr), ByteAt(m, addr + 1));
        HalfUnsigned(ByteAt(m, addr), ByteAt(m, addr + 1));
      case Word =>
        NumberWord(m, addr);
        WordLoaded(ByteAt(m, addr), ByteAt(m, addr + 1), ByteAt(m, addr + 2), ByteAt(m, addr + 3));
    }
  }

  // ----- stores -----

  lemma CutBytes(v: bv32)
    ensures Stored(v, Byte) == [Byte0(v)]
    ensures Stored(v, Half) == [Byte0(v), Byte1(v)]
    ensures Stored(v, Word) == [Byte0(v), Byte1(v), Byte2(v), Byte3(v)]
  {}

  function Modulus(width: Width): nat {
    match width case Byte => 0x100 case Half => 0x1_0000 case Word => TWO_32
  }

  lemma NumbersModulo(n: nat, n0: nat, n1: nat, n2: nat, n3: nat)
    requires n == n0 + 0x100 * n1 + 0x1_0000 * n2 + 0x100_0000 * n3 && n < TWO_32
    requires n0 < 0x100 && n1 < 0x100
    ensures n % 0x100 == n0 && n % 0x1_0000 == n0 + 0x100 * n1 && n % TWO_32 == n
  {
    Division(n, n1 + 0x100 * n2 + 0x1_0000 * n3, n0, 0x100);
    Division(n, n2 + 0x100 * n3, n0 + 0x100 * n1, 0x1_0000);
  }

  lemma ValueModulo(v: bv32)
    ensures Nat(v) % 0x100 == Value8(Byte0(v))
    ensures Nat(v) % 0x1_0000 == Value8(Byte0(v)) + 0x100 * Value8(Byte1(v))
    ensures Nat(v) % TWO_32 == Nat(v) == Digits(Byte0(v), Byte1(v), Byte2(v), Byte3(v))
  {
    hide Nat, Value8, Byte0, Byte1, Byte2, Byte3;
    NatDigits(v);
    NatRange(v);
    NumbersModulo(Nat(v), Value8(Byte0(v)), Value8(Byte1(v)), Value8(Byte2(v)), Value8(Byte3(v)));
  }

  /** A store leaves the low bytes of the register at the address: the register's value modulo the width. */
  lemma StoredValue(m: seq<bv8>, addr: nat, width: Width, v: bv32)
    requires addr + width.Bytes() <= |m|
    ensures NumberAt(Put(m, addr, Stored(v, width)), addr, width.Bytes()) == Nat(v) % Modulus(width)
  {
    hide Nat, Digits, Value8, NumberAt, Stored, Byte0, Byte1, Byte2, Byte3;
    CutBytes(v);
    ValueModulo(v);
    var m' := Put(m, addr, Stored(v, width));
    match width {
      case Byte => NumberByte(m', addr);
      case Half => NumberHalf(m', addr);
      case Word => NumberWord(m', addr);
    }
  }
}
