/** The bits of a word, and what the bitwise operations and shifts do to its value. */
module Bits {
  import opened Arithmetic
  import opened Words
  import opened Reach

  function Pow2(k: nat): (p: nat)
    ensures p > 0
  {
    if k == 0 then 1 else 2 * Pow2(k - 1)
  }

  /** Bit `k` of a number. */
  function NumberBit(n: nat, k: nat): (b: nat)
    ensures b < 2
  {
    n / Pow2(k) % 2
  }

  /** Bit `k` of a word, counting from the least significant. */
  function Bit(v: bv32, k: nat): (b: nat)
    ensures b < 2
  {
    NumberBit(Nat(v), k)
  }

  // ----- halves -----

  function Half(v: bv32): bv32 { v >> 1 }
  function LowBit(v: bv32): bv32 { v & 1 }

  lemma HalfParts(v: bv32)
    ensures Plus(Plus(Half(v), Half(v)), LowBit(v)) == v
  {}

  lemma HalfTop(v: bv32)
    ensures Half(v) & 0x8000_0000 == 0
  {}

  lemma LowBitCases(v: bv32)
    ensures LowBit(v) == 0 || LowBit(v) == 1
  {}

  lemma OneValue()
    ensures Nat(1) == 1
  {
    hide Nat;
    CountWordValue(1);
    assert CountWord(1) == Succ(CountWord(0)) == 1;
  }

  lemma HalfValue(v: bv32)
    ensures Nat(Half(v)) == Nat(v) / 2 && Nat(LowBit(v)) == Nat(v) % 2
  {
    hide Nat, Plus, Half, LowBit;
    HalfParts(v);
    HalfTop(v);
    SignOfWord(Half(v));
    LowBitCases(v);
    ZeroValue();
    OneValue();
    PlusValue(Half(v), Half(v));
    PlusValue(Plus(Half(v), Half(v)), LowBit(v));
  }

  /** A word halved `k` times. */
  function Halves(v: bv32, k: nat): bv32 {
    if k == 0 then v else Half(Halves(v, k - 1))
  }

  lemma DivideTwice(n: nat, d: nat, e: nat)
    requires d > 0 && e > 0
    ensures d * e > 0 && n / d / e == n / (d * e)
  {
    var q, r := n / d, n % d;
    assert n == q * d + r;
    assert q == q / e * e + q % e;
    assert q * d == q / e * (d * e) + q % e * d;
    assert q % e * d <= (e - 1) * d;
    Division(n, q / e, q % e * d + r, d * e);
  }

  lemma {:induction false} HalvesValue(v: bv32, k: nat)
    ensures Nat(Halves(v, k)) == Nat(v) / Pow2(k)
  {
    hide Nat, Half;
    if k > 0 {
      HalvesValue(v, k - 1);
      HalfValue(Halves(v, k - 1));
      DivideTwice(Nat(v), Pow2(k - 1), 2);
    }
  }

  lemma BitOfHalves(v: bv32, k: nat)
    ensures Bit(v, k) == Nat(LowBit(Halves(v, k)))
  {
    hide Nat, Halves, LowBit;
    HalvesValue(v, k);
    HalfValue(Halves(v, k));
  }

  // ----- the bitwise operations, bit by bit -----

  lemma HalfAnd(a: bv32, b: bv32)
    ensures Half(BitAnd(a, b)) == BitAnd(Half(a), Half(b))
  {}

  lemma HalfOr(a: bv32, b: bv32)
    ensures Half(BitOr(a, b)) == BitOr(Half(a), Half(b))
  {}

  lemma HalfXor(a: bv32, b: bv32)
    ensures Half(BitXor(a, b)) == BitXor(Half(a), Half(b))
  {}

  lemma {:induction false} HalvesBitwise(a: bv32, b: bv32, k: nat)
    ensures Halves(BitAnd(a, b), k) == BitAnd(Halves(a, k), Halves(b, k))
    ensures Halves(BitOr(a, b), k) == BitOr(Halves(a, k), Halves(b, k))
    ensures Halves(BitXor(a, b), k) == BitXor(Halves(a, k), Halves(b, k))
  {
    hide Half, BitAnd, BitOr, BitXor;
    if k > 0 {
      HalvesBitwise(a, b, k - 1);
      HalfAnd(Halves(a, k - 1), Halves(b, k - 1));
      HalfOr(Halves(a, k - 1), Halves(b, k - 1));
      HalfXor(Halves(a, k - 1), Halves(b, k - 1));
    }
  }

  lemma LowBitwise(a: bv32, b: bv32)
    ensures LowBit(BitAnd(a, b)) == if LowBit(a) == 1 && LowBit(b) == 1 then 1 else 0
    ensures LowBit(BitOr(a, b)) == if LowBit(a) == 1 || LowBit(b) == 1 then 1 else 0
    ensures LowBit(BitXor(a, b)) == if LowBit(a) == LowBit(b) then 0 else 1
  {}

  /** Bit `k` of a conjunction, disjunction and exclusive or. */
  lemma BitwiseBits(a: bv32, b: bv32, k: nat)
    ensures Bit(BitAnd(a, b), k) == if Bit(a, k) == 1 && Bit(b, k) == 1 then 1 else 0
    ensures Bit(BitOr(a, b), k) == if Bit(a, k) == 1 || Bit(b, k) == 1 then 1 else 0
    ensures Bit(BitXor(a, b), k) == if Bit(a, k) == Bit(b, k) then 0 else 1
  {
    hide Bit, Nat, Halves, LowBit, BitAnd, BitOr, BitXor;
    BitOfHalves(a, k);
    BitOfHalves(b, k);
    BitOfHalves(BitAnd(a, b), k);
    BitOfHalves(BitOr(a, b), k);
    BitOfHalves(BitXor(a, b), k);
    HalvesBitwise(a, b, k);
    LowBitwise(Halves(a, k), Halves(b, k));
    LowBitCases(Halves(a, k));
    LowBitCases(Halves(b, k));
    ZeroValue();
    OneValue();
  }

  lemma HalfAndNot(a: bv32, b: bv32)
    ensures Half(BitAnd(a, Complement(b))) == BitAnd(Half(a), Complement(Half(b)))
  {}

  lemma LowAndNot(a: bv32, b: bv32)
    ensures LowBit(BitAnd(a, Complement(b))) == if LowBit(a) == 1 && LowBit(b) == 0 then 1 else 0
  {}

  lemma {:induction false} HalvesAndNot(a: bv32, b: bv32, k: nat)
    ensures Halves(BitAnd(a, Complement(b)), k) == BitAnd(Halves(a, k), Complement(Halves(b, k)))
  {
    hide Half, BitAnd, Complement;
    if k > 0 {
      HalvesAndNot(a, b, k - 1);
      HalfAndNot(Halves(a, k - 1), Halves(b, k - 1));
    }
  }

  /** Bit `k` after the bits of `b` are cleared. */
  lemma AndNotBits(a: bv32, b: bv32, k: nat)
    ensures Bit(BitAnd(a, Complement(b)), k) == if Bit(a, k) == 1 && Bit(b, k) == 0 then 1 else 0
  {
    hide Bit, Nat, Halves, LowBit, BitAnd, Complement;
    BitOfHalves(a, k);
    BitOfHalves(b, k);
    BitOfHalves(BitAnd(a, Complement(b)), k);
    HalvesAndNot(a, b, k);
    LowAndNot(Halves(a, k), Halves(b, k));
    LowBitCases(Halves(a, k));
    LowBitCases(Halves(b, k));
    ZeroValue();
    OneValue();
  }

  lemma {:induction false} SameNumber(m: nat, n: nat, w: nat)
    requires m < Pow2(w) && n < Pow2(w)
    requires forall k :: 0 <= k < w ==> NumberBit(m, k) == NumberBit(n, k)
    ensures m == n
  {
    if w > 0 {
      forall k | 0 <= k < w - 1 ensures NumberBit(m / 2, k) == NumberBit(n / 2, k) {
        assert NumberBit(m, k + 1) == NumberBit(n, k + 1);
        DivideTwice(m, 2, Pow2(k));
        DivideTwice(n, 2, Pow2(k));
      }
      SameNumber(m / 2, n / 2, w - 1);
      assert NumberBit(m, 0) == NumberBit(n, 0) && Pow2(0) == 1;
    }
  }

  lemma Pow32()
    ensures Pow2(32) == TWO_32
  {
    assert Pow2(8) == 0x100;
    assert Pow2(16) == 0x1_0000;
    assert Pow2(24) == 0x100_0000;
  }

  /** The 32 bits determine the word, so that the laws above say all there is to say. */
  lemma BitsDetermine(a: bv32, b: bv32)
    requires forall k :: 0 <= k < 32 ==> Bit(a, k) == Bit(b, k)
    ensures a == b
  {
    hide Nat, NumberBit, Pow2;
    NatRange(a);
    NatRange(b);
    Pow32();
    forall k | 0 <= k < 32 ensures NumberBit(Nat(a), k) == NumberBit(Nat(b), k) {
      assert Bit(a, k) == Bit(b, k);
    }
    SameNumber(Nat(a), Nat(b), 32);
    NatInjective(a, b);
  }

  // ----- the complement -----

  lemma AllOnes(a: bv32)
    ensures Plus(a, Complement(a)) == 0xFFFF_FFFF && Succ(0xFFFF_FFFF) == 0
  {}

  lemma ComplementValue(a: bv32)
    ensures Nat(Complement(a)) == TWO_32 - 1 - Nat(a)
  {
    hide Nat, Plus, Complement, Succ;
    AllOnes(a);
    SuccValue(0xFFFF_FFFF);
    ZeroValue();
    PlusValue(a, Complement(a));
    NatRange(a);
    NatRange(Complement(a));
    NatRange(0xFFFF_FFFF);
  }

  /** Read as a signed number, the complement of `a` is -1 - a. */
  lemma ComplementSigned(a: bv32)
    ensures SInt(Complement(a)) == -1 - SInt(a)
  {
    hide Nat, SInt, Complement;
    ComplementValue(a);
    SIntValue(a);
    SIntValue(Complement(a));
    NatRange(a);
  }

  // ----- shifts -----

  /** The amount of a shift: the low five bits. */
  function Amount(b: bv32): bv5 { (b & 0x1F) as bv5 }

  function Value5(t: bv5): (n: nat)
    ensures n < 32
  {
    t as nat
  }

  function RightBy(a: bv32, t: bv5): bv32 { a >> t }
  function LeftBy(a: bv32, t: bv5): bv32 { a << t }

  lemma ShiftsByAmount(a: bv32, b: bv32)
    ensures ShiftRight(a, b) == RightBy(a, Amount(b)) && ShiftLeft(a, b) == LeftBy(a, Amount(b))
  {}

  lemma AmountByte(b: bv32)
    ensures Amount(b) == (Byte0(b) & 0x1F) as bv5
  {}

  lemma ByteAmount(b: bv8)
    ensures Value5((b & 0x1F) as bv5) == Value8(b) % 32
  {}

  lemma Low5Number(n: nat, n0: nat, n1: nat, n2: nat, n3: nat)
    requires n == n0 + 0x100 * n1 + 0x1_0000 * n2 + 0x100_0000 * n3
    ensures n % 32 == n0 % 32
  {
    Division(n, n0 / 32 + 8 * n1 + 0x800 * n2 + 0x8_0000 * n3, n0 % 32, 32);
  }

  lemma AmountValue(b: bv32)
    ensures Value5(Amount(b)) == Nat(b) % 32
  {
    hide Nat, Value8, Value5, Amount, Byte0, Byte1, Byte2, Byte3;
    WordDigits(b);
    AmountByte(b);
    ByteAmount(Byte0(b));
    Low5Number(Nat(b), Value8(Byte0(b)), Value8(Byte1(b)), Value8(Byte2(b)), Value8(Byte3(b)));
  }

  lemma RightOnce(a: bv32, t: bv5)
    requires t != 31
    ensures RightBy(a, t + 1) == Half(RightBy(a, t))
  {}

  lemma LeftOnce(a: bv32, t: bv5)
    requires t != 31
    ensures LeftBy(a, t + 1) == Plus(LeftBy(a, t), LeftBy(a, t))
  {}

  lemma ShiftNone(a: bv32)
    ensures LeftBy(a, 0) == a && RightBy(a, 0) == a
  {}

  lemma AmountBefore(t: bv5)
    ensures t == 0 <==> Value5(t) == 0
    ensures t != 0 ==> t - 1 != 31 && (t - 1) + 1 == t && Value5(t - 1) == Value5(t) - 1
  {}

  lemma TwiceModulo(n: nat)
    ensures (n % TWO_32 + n % TWO_32) % TWO_32 == 2 * n % TWO_32
  {}

  lemma DoubleValue(v: bv32, n: nat)
    requires Nat(v) == n % TWO_32
    ensures Nat(Plus(v, v)) == 2 * n % TWO_32
  {
    hide Nat, Plus;
    PlusValue(v, v);
    TwiceModulo(n);
  }

  lemma TimesTwice(n: nat, p: nat)
    ensures n * (2 * p) == 2 * (n * p) && n * p >= 0 && n * 1 == n
  {}

  lemma {:induction false} RightByValue(a: bv32, t: bv5)
    ensures Nat(RightBy(a, t)) == Nat(a) / Pow2(Value5(t))
    decreases Value5(t)
  {
    hide Nat, Half, RightBy, Value5;
    AmountBefore(t);
    if t == 0 {
      ShiftNone(a);
      assert Nat(a) / 1 == Nat(a);
    } else {
      RightByValue(a, t - 1);
      RightOnce(a, t - 1);
      HalfValue(RightBy(a, t - 1));
      DivideTwice(Nat(a), Pow2(Value5(t - 1)), 2);
    }
  }

  lemma {:induction false} LeftByValue(a: bv32, t: bv5)
    ensures Nat(LeftBy(a, t)) == Nat(a) * Pow2(Value5(t)) % TWO_32
    decreases Value5(t)
  {
    hide Nat, Plus, LeftBy, Value5;
    AmountBefore(t);
    if t == 0 {
      ShiftNone(a);
      NatRange(a);
      TimesTwice(Nat(a), 1);
    } else {
      var p := Pow2(Value5(t - 1));
      LeftByValue(a, t - 1);
      LeftOnce(a, t - 1);
      assert Pow2(Value5(t)) == 2 * p;
      hide Pow2;
      TimesTwice(Nat(a), p);
      DoubleValue(LeftBy(a, t - 1), Nat(a) * p);
    }
  }

  /** The shifts multiply and divide by a power of two; the amount counts modulo 32. */
  lemma ShiftValues(a: bv32, b: bv32)
    ensures Nat(ShiftLeft(a, b)) == Nat(a) * Pow2(Nat(b) % 32) % TWO_32
    ensures Nat(ShiftRight(a, b)) == Nat(a) / Pow2(Nat(b) % 32)
  {
    hide Nat, Amount, Value5, RightBy, LeftBy, ShiftLeft, ShiftRight, Pow2;
    AmountValue(b);
    ShiftsByAmount(a, b);
    LeftByValue(a, Amount(b));
    RightByValue(a, Amount(b));
  }

  lemma NegativeQuotient(n: int, d: int)
    requires d > 0
    ensures -1 - (-1 - n) / d == n / d
  {
    var m := -1 - n;
    assert m == m / d * d + m % d;
    assert n == (-1 - m / d) * d + (d - 1 - m % d);
    Division(n, -1 - m / d, d - 1 - m % d, d);
  }

  lemma MultipleGrows(q: nat, d: nat)
    requires d > 0
    ensures q * d >= q
  {
    assert q * d == q * (d - 1) + q;
  }

  lemma SmallQuotient(n: nat, d: nat)
    requires d > 0
    ensures 0 <= n / d <= n
  {
    var q := n / d;
    assert n == q * d + n % d;
    if q < 0 {
      MultipleIsLarge(q, d);
    } else {
      MultipleGrows(q, d);
    }
  }

  /** The arithmetic shift divides the signed value, rounding down. */
  lemma ArithmeticShiftValue(a: bv32, b: bv32)
    ensures SInt(ShiftRightArith(a, b)) == SInt(a) / Pow2(Nat(b) % 32)
  {
    hide Nat, SInt, ShiftRight, Complement, Pow2;
    var d := Pow2(Nat(b) % 32);
    SignOfWord(a);
    NatRange(a);
    SIntValue(a);
    if a & 0x8000_0000 == 0 {
      ShiftValues(a, b);
      SmallQuotient(Nat(a), d);
      SIntValue(ShiftRight(a, b));
    } else {
      var c := Complement(a);
      ComplementSigned(a);
      ComplementValue(a);
      SIntValue(c);
      ShiftValues(c, b);
      SmallQuotient(Nat(c), d);
      SIntValue(ShiftRight(c, b));
      ComplementSigned(ShiftRight(c, b));
      NegativeQuotient(SInt(a), d);
    }
  }
}
