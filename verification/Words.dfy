/** Machine words.

A word is a `bv32`, so the wraparound of `uint32_t` and `int32_t` is that of the bit-vector operators.
A word that indexes memory is turned into a number by `Nat`, which adds up the word's bytes. It is
recursive so that the facts about it (inverse, successor) are ordinary lemmas over four bytes.
*/
module Words {
  import opened Arithmetic

  const TWO_32: int := 0x1_0000_0000

  function Value8(b: bv8): (n: nat)
    ensures n < 0x100
  {
    b as nat
  }

  function Byte0(a: bv32): bv8 { (a & 0xFF) as bv8 }
  function Byte1(a: bv32): bv8 { ((a >> 8) & 0xFF) as bv8 }
  function Byte2(a: bv32): bv8 { ((a >> 16) & 0xFF) as bv8 }
  function Byte3(a: bv32): bv8 { ((a >> 24) & 0xFF) as bv8 }

  /** The number made of the `k` low bytes of a word, least significant byte first. */
  function NatBytes(a: bv32, k: nat): nat {
    if k == 0 then 0 else Value8(Byte0(a)) + 0x100 * NatBytes(a >> 8, k - 1)
  }

  /** The unsigned value of a word. */
  function Nat(a: bv32): nat {
    NatBytes(a, 4)
  }

  /** The two's complement value of a word. */
  function SInt(a: bv32): int {
    if a & 0x8000_0000 == 0 then Nat(a) else Nat(a) - TWO_32
  }

  /** The n-th byte value, counting modulo 256. */
  function CountByte(n: nat): bv8 {
    if n == 0 then 0 else CountByte(n - 1) + 1
  }

  function ByteOf(n: nat): bv8 {
    CountByte(n % 0x100)
  }

  /** The word with a given value, modulo 2^32. */
  function FromNat(n: nat): bv32 {
    (ByteOf(n) as bv32) | (ByteOf(n / 0x100) as bv32 << 8) |
    (ByteOf(n / 0x1_0000) as bv32 << 16) | (ByteOf(n / 0x100_0000) as bv32 << 24)
  }

  /** The word with a given signed value, modulo 2^32. */
  function FromInt(n: int): bv32 {
    FromNat(n % TWO_32)
  }

  // Operations on `int32_t` and `uint32_t` patterns. Shifts take their amount from the low five bits.

  function Plus(a: bv32, b: bv32): bv32 { a + b }
  function Minus(a: bv32, b: bv32): bv32 { a - b }
  function BitAnd(a: bv32, b: bv32): bv32 { a & b }
  function BitOr(a: bv32, b: bv32): bv32 { a | b }
  function BitXor(a: bv32, b: bv32): bv32 { a ^ b }
  function Complement(a: bv32): bv32 { !a }
  function LowByte(a: bv32): bv8 { (a & 0xFF) as bv8 }
  function LowHalf(a: bv32): bv16 { (a & 0xFFFF) as bv16 }
  predicate ULess(a: bv32, b: bv32) { Nat(a) < Nat(b) }
  predicate SLess(a: bv32, b: bv32) { SInt(a) < SInt(b) }
  function ShiftLeft(a: bv32, b: bv32): bv32 { a << (b & 0x1F) }
  function ShiftRight(a: bv32, b: bv32): bv32 { a >> (b & 0x1F) }

  function ShiftRightArith(a: bv32, b: bv32): bv32 {
    if a & 0x8000_0000 == 0 then ShiftRight(a, b) else Complement(ShiftRight(Complement(a), b))
  }

  /** The number with the given bytes, least significant first. */
  function Digits(b0: bv8, b1: bv8, b2: bv8, b3: bv8): (n: nat)
    ensures n < TWO_32
  {
    Value8(b0) + 0x100 * Value8(b1) + 0x1_0000 * Value8(b2) + 0x100_0000 * Value8(b3)
  }

  lemma ShiftedBytes(a: bv32)
    ensures Byte0(a >> 8) == Byte1(a) && Byte0(a >> 8 >> 8) == Byte2(a) && Byte0(a >> 8 >> 8 >> 8) == Byte3(a)
  {}

  /** The value of a word, from its bytes. */
  lemma NatDigits(a: bv32)
    ensures Nat(a) == Digits(Byte0(a), Byte1(a), Byte2(a), Byte3(a))
  {
    hide Value8, Byte0, Byte1, Byte2, Byte3;
    ShiftedBytes(a);
    var a1, a2, a3 := a >> 8, a >> 8 >> 8, a >> 8 >> 8 >> 8;
    assert NatBytes(a3, 1) == Value8(Byte0(a3)) + 0x100 * NatBytes(a3 >> 8, 0);
    assert NatBytes(a2, 2) == Value8(Byte0(a2)) + 0x100 * NatBytes(a3, 1);
    assert NatBytes(a1, 3) == Value8(Byte0(a1)) + 0x100 * NatBytes(a2, 2);
    assert NatBytes(a, 4) == Value8(Byte0(a)) + 0x100 * NatBytes(a1, 3);
  }

  lemma NatRange(a: bv32)
    ensures Nat(a) < TWO_32
  {
    hide Nat, Digits, Byte0, Byte1, Byte2, Byte3;
    NatDigits(a);
  }

  // ----- bytes and numbers -----

  predicate Full(b: bv8) { b == 0xFF }

  /** The byte after `b` if there is a carry, else `b`. */
  function Carried(b: bv8, carry: bool): bv8 { if carry then b + 1 else b }

  lemma ByteIncrement(b: bv8)
    ensures b != 0xFF ==> (b + 1) as nat == b as nat + 1
    ensures b == 0xFF ==> (b + 1) as nat == 0 && b as nat == 0xFF
  {}

  lemma CarriedValue(b: bv8, carry: bool)
    ensures Value8(Carried(b, carry)) == if !carry then Value8(b) else if Full(b) then 0 else Value8(b) + 1
    ensures Full(b) <==> Value8(b) == 0xFF
  {
    ByteIncrement(b);
  }

  lemma {:induction false} CountByteValue(n: nat)
    requires n < 0x100
    ensures Value8(CountByte(n)) == n
  {
    if n == 0 {
      assert CountByte(0) == 0;
    } else {
      CountByteValue(n - 1);
      var b := CountByte(n - 1);
      assert CountByte(n) == Carried(b, true);
      hide CountByte, Value8, Carried, Full;
      CarriedValue(b, true);
    }
  }

  lemma Value8Injective(x: bv8, y: bv8)
    ensures Value8(x) == Value8(y) ==> x == y
  {}

  lemma WholeByte(b: bv8)
    ensures b == 0 <==> Value8(b) == 0
    ensures b == 0xFF <==> Value8(b) == 0xFF
  {}

  // ----- words and numbers correspond one to one -----

  lemma SameBytes(a: bv32, b: bv32)
    requires Byte0(a) == Byte0(b) && Byte1(a) == Byte1(b) && Byte2(a) == Byte2(b) && Byte3(a) == Byte3(b)
    ensures a == b
  {}

  lemma SameDigits(a0: nat, a1: nat, a2: nat, a3: nat, b0: nat, b1: nat, b2: nat, b3: nat)
    requires a0 < 0x100 && a1 < 0x100 && a2 < 0x100 && b0 < 0x100 && b1 < 0x100 && b2 < 0x100
    requires a0 + 0x100 * a1 + 0x1_0000 * a2 + 0x100_0000 * a3 == b0 + 0x100 * b1 + 0x1_0000 * b2 + 0x100_0000 * b3
    ensures a0 == b0 && a1 == b1 && a2 == b2 && a3 == b3
  {}

  lemma DigitsInjective(a0: bv8, a1: bv8, a2: bv8, a3: bv8, b0: bv8, b1: bv8, b2: bv8, b3: bv8)
    requires Digits(a0, a1, a2, a3) == Digits(b0, b1, b2, b3)
    ensures a0 == b0 && a1 == b1 && a2 == b2 && a3 == b3
  {
    hide Value8;
    SameDigits(Value8(a0), Value8(a1), Value8(a2), Value8(a3), Value8(b0), Value8(b1), Value8(b2), Value8(b3));
    Value8Injective(a0, b0);
    Value8Injective(a1, b1);
    Value8Injective(a2, b2);
    Value8Injective(a3, b3);
  }

  /** A word is determined by its value. */
  lemma NatInjective(a: bv32, b: bv32)
    requires Nat(a) == Nat(b)
    ensures a == b
  {
    hide Nat, Digits, Byte0, Byte1, Byte2, Byte3;
    NatDigits(a);
    NatDigits(b);
    DigitsInjective(Byte0(a), Byte1(a), Byte2(a), Byte3(a), Byte0(b), Byte1(b), Byte2(b), Byte3(b));
    SameBytes(a, b);
  }

  lemma PackedBytes(b0: bv8, b1: bv8, b2: bv8, b3: bv8)
    ensures var w := (b0 as bv32) | (b1 as bv32 << 8) | (b2 as bv32 << 16) | (b3 as bv32 << 24);
            Byte0(w) == b0 && Byte1(w) == b1 && Byte2(w) == b2 && Byte3(w) == b3
  {}

  lemma FromNatBytes(n: nat)
    ensures Byte0(FromNat(n)) == ByteOf(n) && Byte1(FromNat(n)) == ByteOf(n / 0x100)
    ensures Byte2(FromNat(n)) == ByteOf(n / 0x1_0000) && Byte3(FromNat(n)) == ByteOf(n / 0x100_0000)
  {
    hide Byte0, Byte1, Byte2, Byte3, ByteOf;
    PackedBytes(ByteOf(n), ByteOf(n / 0x100), ByteOf(n / 0x1_0000), ByteOf(n / 0x100_0000));
  }

  lemma FourDigits(n: nat)
    requires n < TWO_32
    ensures n == n % 0x100 + 0x100 * (n / 0x100 % 0x100) + 0x1_0000 * (n / 0x1_0000 % 0x100)
                 + 0x100_0000 * (n / 0x100_0000 % 0x100)
  {
    var q1 := n / 0x100;
    var q2 := q1 / 0x100;
    var q3 := q2 / 0x100;
    assert n == n % 0x100 + 0x100 * q1 && q1 == q1 % 0x100 + 0x100 * q2 && q2 == q2 % 0x100 + 0x100 * q3;
    assert q2 == n / 0x1_0000 && q3 == n / 0x100_0000;
    assert q3 < 0x100;
  }

  lemma ByteOfValue(n: nat)
    ensures Value8(ByteOf(n)) == n % 0x100
  {
    hide Value8, CountByte;
    CountByteValue(n % 0x100);
  }

  /** `FromNat` is a right inverse of `Nat` on the values a word can hold. */
  lemma NatFromNat(n: nat)
    requires n < TWO_32
    ensures Nat(FromNat(n)) == n
  {
    hide Nat, FromNat, ByteOf, Value8, Byte0, Byte1, Byte2, Byte3;
    NatDigits(FromNat(n));
    FromNatBytes(n);
    ByteOfValue(n);
    ByteOfValue(n / 0x100);
    ByteOfValue(n / 0x1_0000);
    ByteOfValue(n / 0x100_0000);
    FourDigits(n);
  }

  /** Only the low four digits of a number matter. */
  lemma LowDigits(n: nat)
    ensures var m := n % TWO_32;
            && m % 0x100 == n % 0x100 && m / 0x100 % 0x100 == n / 0x100 % 0x100
            && m / 0x1_0000 % 0x100 == n / 0x1_0000 % 0x100 && m / 0x100_0000 % 0x100 == n / 0x100_0000 % 0x100
  {
    var q, m := n / TWO_32, n % TWO_32;
    assert n == q * TWO_32 + m;
    LowDigit(n, m, q, 1, 0x100_0000);
    LowDigit(n, m, q, 0x100, 0x1_0000);
    LowDigit(n, m, q, 0x1_0000, 0x100);
    LowDigit(n, m, q, 0x100_0000, 1);
  }

  lemma LowDigit(n: nat, m: nat, q: nat, d: nat, k: nat)
    requires n == q * (d * 0x100 * k) + m && d > 0
    ensures m / d % 0x100 == n / d % 0x100
  {
    var t, r := m / d, m % d;
    assert m == t * d + r;
    assert q * (d * 0x100 * k) == 0x100 * (q * k) * d;
    assert n == (0x100 * (q * k) + t) * d + r;
    Division(n, 0x100 * (q * k) + t, r, d);
    var u, v := t / 0x100, t % 0x100;
    Division(0x100 * (q * k) + t, q * k + u, v, 0x100);
  }

  /** Conversion of a number to a word, modulo 2^32. */
  lemma FromNatValue(n: nat)
    ensures Nat(FromNat(n)) == n % TWO_32
  {
    hide Nat, FromNat;
    LowDigits(n);
    SameFromNat(n, n % TWO_32);
    NatFromNat(n % TWO_32);
  }

  lemma SameFromNat(n: nat, m: nat)
    requires m % 0x100 == n % 0x100 && m / 0x100 % 0x100 == n / 0x100 % 0x100
    requires m / 0x1_0000 % 0x100 == n / 0x1_0000 % 0x100 && m / 0x100_0000 % 0x100 == n / 0x100_0000 % 0x100
    ensures FromNat(m) == FromNat(n)
  {
    hide CountByte;
  }

  /** Conversion of a signed number to a word, modulo 2^32. */
  lemma FromIntValue(n: int)
    ensures Nat(FromInt(n)) == n % TWO_32
  {
    hide Nat, FromNat;
    NatFromNat(n % TWO_32);
  }

  // ----- addition -----

  function Succ(a: bv32): bv32 { a + 1 }

  lemma SuccBytes(a: bv32)
    ensures Byte0(Succ(a)) == Carried(Byte0(a), true)
    ensures Byte1(Succ(a)) == Carried(Byte1(a), Full(Byte0(a)))
    ensures Byte2(Succ(a)) == Carried(Byte2(a), Full(Byte0(a)) && Full(Byte1(a)))
    ensures Byte3(Succ(a)) == Carried(Byte3(a), Full(Byte0(a)) && Full(Byte1(a)) && Full(Byte2(a)))
  {}

  lemma CarriedDigits(b0: bv8, b1: bv8, b2: bv8, b3: bv8)
    ensures Digits(Carried(b0, true), Carried(b1, Full(b0)), Carried(b2, Full(b0) && Full(b1)),
                   Carried(b3, Full(b0) && Full(b1) && Full(b2)))
         == if Digits(b0, b1, b2, b3) == TWO_32 - 1 then 0 else Digits(b0, b1, b2, b3) + 1
  {
    hide Full, Carried, Value8;
    CarriedValue(b0, true);
    CarriedValue(b1, Full(b0));
    CarriedValue(b2, Full(b0) && Full(b1));
    CarriedValue(b3, Full(b0) && Full(b1) && Full(b2));
  }

  /** Adding one, modulo 2^32. */
  lemma SuccValue(a: bv32)
    ensures Nat(Succ(a)) == if Nat(a) == TWO_32 - 1 then 0 else Nat(a) + 1
  {
    hide Nat, Succ, Full, Carried, Digits, Byte0, Byte1, Byte2, Byte3;
    SuccBytes(a);
    NatDigits(a);
    NatDigits(Succ(a));
    CarriedDigits(Byte0(a), Byte1(a), Byte2(a), Byte3(a));
  }

  /** The n-th word, counting from zero. */
  function CountWord(n: nat): bv32 {
    if n == 0 then 0 else Succ(CountWord(n - 1))
  }

  lemma ZeroBytes()
    ensures Byte0(0) == 0 && Byte1(0) == 0 && Byte2(0) == 0 && Byte3(0) == 0 && Value8(0) == 0
  {}

  lemma ZeroValue()
    ensures Nat(0) == 0
  {
    hide Nat, Value8, Byte0, Byte1, Byte2, Byte3;
    NatDigits(0);
    ZeroBytes();
  }

  lemma {:induction false} CountWordValue(n: nat)
    requires n < TWO_32
    ensures Nat(CountWord(n)) == n
  {
    hide Nat, Succ;
    if n == 0 {
      ZeroValue();
    } else {
      CountWordValue(n - 1);
      SuccValue(CountWord(n - 1));
    }
  }

  lemma PlusSum(a: bv32, c: bv32)
    ensures Plus(a, c) == a + c
  {}

  lemma PlusRegroup(a: bv32, c: bv32)
    ensures Plus(a, c + 1) == Succ(a + c)
  {}

  lemma SuccSum(a: bv32)
    ensures Succ(a) == a + 1
  {}

  lemma PlusSucc(a: bv32, c: bv32)
    ensures Plus(a, Succ(c)) == Succ(Plus(a, c))
  {
    hide Plus, Succ;
    SuccSum(c);
    PlusRegroup(a, c);
    PlusSum(a, c);
  }

  lemma PlusZero(a: bv32)
    ensures Plus(a, 0) == a && Plus(0, a) == a
  {}

  lemma {:induction false} PlusCount(a: bv32, n: nat)
    requires n < TWO_32
    ensures Nat(Plus(a, CountWord(n))) == (Nat(a) + n) % TWO_32
  {
    hide Nat, Plus, Succ;
    NatRange(a);
    if n == 0 {
      PlusZero(a);
    } else {
      PlusCount(a, n - 1);
      PlusSucc(a, CountWord(n - 1));
      SuccValue(Plus(a, CountWord(n - 1)));
      ModuloStep(Nat(a) + (n - 1), 1);
    }
  }

  /** Addition wraps around modulo 2^32. */
  lemma PlusValue(a: bv32, b: bv32)
    ensures Nat(Plus(a, b)) == (Nat(a) + Nat(b)) % TWO_32
  {
    hide Nat, Plus, CountWord;
    NatRange(b);
    CountWordValue(Nat(b));
    NatInjective(b, CountWord(Nat(b)));
    PlusCount(a, Nat(b));
  }

  lemma PlusMinus(a: bv32, b: bv32)
    ensures Plus(a - b, b) == a
  {}

  lemma MinusSum(a: bv32, b: bv32)
    ensures Minus(a, b) == a - b
  {}

  /** Subtraction wraps around modulo 2^32. */
  lemma MinusValue(a: bv32, b: bv32)
    ensures Nat(Minus(a, b)) == (Nat(a) - Nat(b)) % TWO_32
  {
    hide Nat, Plus, Minus;
    MinusSum(a, b);
    PlusMinus(a, b);
    PlusValue(Minus(a, b), b);
    NatRange(a);
    NatRange(b);
    NatRange(Minus(a, b));
  }

  /** Only the difference leads from `a` to `b`. */
  lemma PlusUnique(a: bv32, d: bv32, b: bv32)
    ensures Plus(a, d) == b <==> d == Minus(b, a)
  {
    hide Nat, Plus, Minus;
    PlusValue(a, d);
    MinusValue(b, a);
    NatRange(a);
    NatRange(b);
    NatRange(d);
    NatRange(Minus(b, a));
    if Nat(Plus(a, d)) == Nat(b) {
      NatInjective(Plus(a, d), b);
    }
    if Nat(d) == Nat(Minus(b, a)) {
      NatInjective(d, Minus(b, a));
    }
  }

  // ----- instruction addresses -----

  function NextAddr(a: bv32): bv32 { a + 4 }

  lemma NextIsPlus(a: bv32)
    ensures NextAddr(a) == Plus(a, 4)
  {}

  lemma FourBytes()
    ensures Byte0(4) == 4 && Byte1(4) == 0 && Byte2(4) == 0 && Byte3(4) == 0 && Value8(4) == 4 && Value8(0) == 0
  {}

  lemma NextValue(a: bv32)
    ensures Nat(NextAddr(a)) == (Nat(a) + 4) % TWO_32
  {
    hide Nat, Plus, NextAddr, Value8, Byte0, Byte1, Byte2, Byte3;
    NextIsPlus(a);
    PlusValue(a, 4);
    NatDigits(4);
    FourBytes();
  }

  /** The address of the k-th instruction word after `base`. */
  function WordAddr(base: bv32, k: nat): bv32 {
    if k == 0 then base else NextAddr(WordAddr(base, k - 1))
  }

  lemma {:induction false} WordAddrValue(base: bv32, k: nat)
    ensures Nat(WordAddr(base, k)) == (Nat(base) + 4 * k) % TWO_32
  {
    hide Nat, NextAddr;
    if k == 0 {
      NatRange(base);
    } else {
      WordAddrValue(base, k - 1);
      NextValue(WordAddr(base, k - 1));
      ModuloStep(Nat(base) + 4 * (k - 1), 4);
    }
  }

  lemma ModuloStep(n: nat, d: nat)
    ensures (n % TWO_32 + d) % TWO_32 == (n + d) % TWO_32
  {}

  lemma LowTwoBits(a: bv32)
    ensures a & 3 == 0 <==> Byte0(a) & 3 == 0
  {}

  lemma DigitsModFour(b0: bv8, b1: bv8, b2: bv8, b3: bv8)
    ensures Digits(b0, b1, b2, b3) % 4 == Value8(b0) % 4
  {
    hide Value8;
    var rest := 0x40 * Value8(b1) + 0x4000 * Value8(b2) + 0x40_0000 * Value8(b3);
    assert Digits(b0, b1, b2, b3) == Value8(b0) + 4 * rest;
  }

  lemma ByteModFour(b: bv8)
    ensures b & 3 == 0 <==> Value8(b) % 4 == 0
  {}

  /** A word is a multiple of four when its two low bits are clear. */
  lemma AlignedValue(a: bv32)
    ensures a & 3 == 0 <==> Nat(a) % 4 == 0
  {
    hide Nat, Value8, Digits, Byte0, Byte1, Byte2, Byte3;
    LowTwoBits(a);
    ByteModFour(Byte0(a));
    DigitsModFour(Byte0(a), Byte1(a), Byte2(a), Byte3(a));
    NatDigits(a);
  }
}
