/** The numbers behind immediates and offsets: which values fit a format, and how far jumps and branches reach. */
module Reach {
  import opened Arithmetic
  import opened Words
  import opened Encode

  // ----- distances between instruction addresses -----

  lemma ModuloDifference(a: int, b: int)
    ensures (a % TWO_32 - b % TWO_32) % TWO_32 == (a - b) % TWO_32
  {}

  /** The difference of two instruction addresses, from their distance in words. */
  function Distance(words: int): bv32 {
    if words >= 0 then WordAddr(0, words) else Minus(0, WordAddr(0, -words))
  }

  lemma DistanceValue(d: int)
    ensures Nat(Distance(d)) == 4 * d % TWO_32
  {
    hide Nat, Minus, WordAddr;
    ZeroValue();
    if d >= 0 {
      WordAddrValue(0, d);
    } else {
      WordAddrValue(0, -d);
      MinusValue(0, WordAddr(0, -d));
      ModuloDifference(0, 4 * -d);
    }
  }

  lemma AddressDifference(base: bv32, a: nat, b: nat)
    ensures Minus(WordAddr(base, a), WordAddr(base, b)) == Distance(a - b)
  {
    hide Nat, Minus, WordAddr, Distance;
    WordAddrValue(base, a);
    WordAddrValue(base, b);
    MinusValue(WordAddr(base, a), WordAddr(base, b));
    ModuloDifference(Nat(base) + 4 * a, Nat(base) + 4 * b);
    DistanceValue(a - b);
    NatInjective(Minus(WordAddr(base, a), WordAddr(base, b)), Distance(a - b));
  }

  // ----- bits and values -----

  // What a mask tests, byte by byte.

  lemma SignByte(a: bv32)
    ensures a & 0x8000_0000 == 0 <==> Byte3(a) & 0x80 == 0
  {}

  lemma EvenByte(a: bv32)
    ensures a & 1 == 0 <==> Byte0(a) & 1 == 0
  {}

  lemma TopBytesI(a: bv32)
    ensures a & 0xFFFF_F800 == 0 <==> Byte3(a) == 0 && Byte2(a) == 0 && Byte1(a) & 0xF8 == 0
    ensures a & 0xFFFF_F800 == 0xFFFF_F800 <==> Byte3(a) == 0xFF && Byte2(a) == 0xFF && Byte1(a) & 0xF8 == 0xF8
  {}

  lemma TopBytesB(a: bv32)
    ensures a & 0xFFFF_F000 == 0 <==> Byte3(a) == 0 && Byte2(a) == 0 && Byte1(a) & 0xF0 == 0
    ensures a & 0xFFFF_F000 == 0xFFFF_F000 <==> Byte3(a) == 0xFF && Byte2(a) == 0xFF && Byte1(a) & 0xF0 == 0xF0
  {}

  lemma TopBytesJ(a: bv32)
    ensures a & 0xFFF0_0000 == 0 <==> Byte3(a) == 0 && Byte2(a) & 0xF0 == 0
    ensures a & 0xFFF0_0000 == 0xFFF0_0000 <==> Byte3(a) == 0xFF && Byte2(a) & 0xF0 == 0xF0
  {}

  lemma LowBytesB(a: bv32)
    ensures a & 0x1FFE == 0 <==> Byte0(a) & 0xFE == 0 && Byte1(a) & 0x1F == 0
  {}

  lemma LowBytesJ(a: bv32)
    ensures a & 0x1F_FFFE == 0 <==> Byte0(a) & 0xFE == 0 && Byte1(a) == 0 && Byte2(a) & 0x1F == 0
  {}

  // The same tests on the value of a byte.

  lemma TopOfByte(b: bv8)
    ensures b & 0xF8 == 0 <==> Value8(b) < 8
    ensures b & 0xF8 == 0xF8 <==> Value8(b) >= 0xF8
    ensures b & 0xF0 == 0 <==> Value8(b) < 0x10
    ensures b & 0xF0 == 0xF0 <==> Value8(b) >= 0xF0
    ensures b & 0x80 == 0 <==> Value8(b) < 0x80
  {}

  lemma LowOfByte(b: bv8)
    ensures b & 1 == 0 <==> Value8(b) % 2 == 0
    ensures b & 0xFE == 0 <==> Value8(b) < 2
    ensures b & 0x1F == 0 <==> Value8(b) % 0x20 == 0
  {}

  // And on a number of four digits.

  lemma TopOfNumber(n: nat, n0: nat, n1: nat, n2: nat, n3: nat)
    requires n == n0 + 0x100 * n1 + 0x1_0000 * n2 + 0x100_0000 * n3
    requires n0 < 0x100 && n1 < 0x100 && n2 < 0x100 && n3 < 0x100
    ensures n < 0x800 <==> n3 == 0 && n2 == 0 && n1 < 8
    ensures n >= TWO_32 - 0x800 <==> n3 == 0xFF && n2 == 0xFF && n1 >= 0xF8
    ensures n < 0x1000 <==> n3 == 0 && n2 == 0 && n1 < 0x10
    ensures n >= TWO_32 - 0x1000 <==> n3 == 0xFF && n2 == 0xFF && n1 >= 0xF0
    ensures n < 0x10_0000 <==> n3 == 0 && n2 < 0x10
    ensures n >= TWO_32 - 0x10_0000 <==> n3 == 0xFF && n2 >= 0xF0
    ensures n < 0x8000_0000 <==> n3 < 0x80
  {}

  lemma ParityOfNumber(n: nat, n0: nat, n1: nat, n2: nat, n3: nat)
    requires n == n0 + 0x100 * n1 + 0x1_0000 * n2 + 0x100_0000 * n3
    ensures n % 2 == n0 % 2
  {
    Division(n, n0 / 2 + 0x80 * n1 + 0x8000 * n2 + 0x80_0000 * n3, n0 % 2, 2);
  }

  lemma LowOfNumberB(n: nat, n0: nat, n1: nat, n2: nat, n3: nat)
    requires n == n0 + 0x100 * n1 + 0x1_0000 * n2 + 0x100_0000 * n3 && n0 < 0x100
    ensures n % 0x2000 == n0 + 0x100 * (n1 % 0x20)
  {
    var q := n1 / 0x20;
    assert n1 == n1 % 0x20 + 0x20 * q;
    Division(n, q + 8 * n2 + 0x800 * n3, n0 + 0x100 * (n1 % 0x20), 0x2000);
  }

  lemma LowOfNumberJ(n: nat, n0: nat, n1: nat, n2: nat, n3: nat)
    requires n == n0 + 0x100 * n1 + 0x1_0000 * n2 + 0x100_0000 * n3 && n0 < 0x100 && n1 < 0x100
    ensures n % 0x20_0000 == n0 + 0x100 * n1 + 0x1_0000 * (n2 % 0x20)
  {
    var q := n2 / 0x20;
    assert n2 == n2 % 0x20 + 0x20 * q;
    Division(n, q + 8 * n3, n0 + 0x100 * n1 + 0x1_0000 * (n2 % 0x20), 0x20_0000);
  }

  /** A word as a number with the values of its bytes. */
  lemma WordDigits(a: bv32)
    ensures Nat(a) == Value8(Byte0(a)) + 0x100 * Value8(Byte1(a)) + 0x1_0000 * Value8(Byte2(a)) + 0x100_0000 * Value8(Byte3(a))
  {
    hide Nat, Value8, Byte0, Byte1, Byte2, Byte3;
    NatDigits(a);
  }

  // A mask on a word, as a range of its value.

  lemma SignOfWord(a: bv32)
    ensures a & 0x8000_0000 == 0 <==> Nat(a) < 0x8000_0000
  {
    hide Nat, Value8, Byte0, Byte1, Byte2, Byte3;
    WordDigits(a);
    TopOfNumber(Nat(a), Value8(Byte0(a)), Value8(Byte1(a)), Value8(Byte2(a)), Value8(Byte3(a)));
    SignByte(a);
    TopOfByte(Byte3(a));
  }

  lemma TopOfWordI(a: bv32)
    ensures a & 0xFFFF_F800 == 0 <==> Nat(a) < 0x800
    ensures a & 0xFFFF_F800 == 0xFFFF_F800 <==> Nat(a) >= TWO_32 - 0x800
  {
    hide Nat, Value8, Byte0, Byte1, Byte2, Byte3;
    WordDigits(a);
    TopOfNumber(Nat(a), Value8(Byte0(a)), Value8(Byte1(a)), Value8(Byte2(a)), Value8(Byte3(a)));
    TopBytesI(a);
    TopOfByte(Byte1(a));
    WholeByte(Byte2(a));
    WholeByte(Byte3(a));
  }

  lemma TopOfWordB(a: bv32)
    ensures a & 0xFFFF_F000 == 0 <==> Nat(a) < 0x1000
    ensures a & 0xFFFF_F000 == 0xFFFF_F000 <==> Nat(a) >= TWO_32 - 0x1000
  {
    hide Nat, Value8, Byte0, Byte1, Byte2, Byte3;
    WordDigits(a);
    TopOfNumber(Nat(a), Value8(Byte0(a)), Value8(Byte1(a)), Value8(Byte2(a)), Value8(Byte3(a)));
    TopBytesB(a);
    TopOfByte(Byte1(a));
    WholeByte(Byte2(a));
    WholeByte(Byte3(a));
  }

  lemma TopOfWordJ(a: bv32)
    ensures a & 0xFFF0_0000 == 0 <==> Nat(a) < 0x10_0000
    ensures a & 0xFFF0_0000 == 0xFFF0_0000 <==> Nat(a) >= TWO_32 - 0x10_0000
  {
    hide Nat, Value8, Byte0, Byte1, Byte2, Byte3;
    WordDigits(a);
    TopOfNumber(Nat(a), Value8(Byte0(a)), Value8(Byte1(a)), Value8(Byte2(a)), Value8(Byte3(a)));
    TopBytesJ(a);
    TopOfByte(Byte2(a));
    WholeByte(Byte3(a));
  }

  lemma EvenWord(a: bv32)
    ensures a & 1 == 0 <==> Nat(a) % 2 == 0
  {
    hide Nat, Value8, Byte0, Byte1, Byte2, Byte3;
    WordDigits(a);
    ParityOfNumber(Nat(a), Value8(Byte0(a)), Value8(Byte1(a)), Value8(Byte2(a)), Value8(Byte3(a)));
    EvenByte(a);
    LowOfByte(Byte0(a));
  }

  lemma LowOfWordB(a: bv32)
    ensures a & 0x1FFE == 0 <==> Nat(a) % 0x2000 < 2
  {
    hide Nat, Value8, Byte0, Byte1, Byte2, Byte3;
    WordDigits(a);
    LowOfNumberB(Nat(a), Value8(Byte0(a)), Value8(Byte1(a)), Value8(Byte2(a)), Value8(Byte3(a)));
    LowBytesB(a);
    LowOfByte(Byte0(a));
    LowOfByte(Byte1(a));
  }

  lemma LowOfWordJ(a: bv32)
    ensures a & 0x1F_FFFE == 0 <==> Nat(a) % 0x20_0000 < 2
  {
    hide Nat, Value8, Byte0, Byte1, Byte2, Byte3;
    WordDigits(a);
    LowOfNumberJ(Nat(a), Value8(Byte0(a)), Value8(Byte1(a)), Value8(Byte2(a)), Value8(Byte3(a)));
    LowBytesJ(a);
    LowOfByte(Byte0(a));
    WholeByte(Byte1(a));
    LowOfByte(Byte2(a));
  }

  // ----- the ranges of immediates and offsets -----

  lemma SIntValue(a: bv32)
    ensures SInt(a) == if Nat(a) < 0x8000_0000 then Nat(a) else Nat(a) - TWO_32
  {
    hide Nat;
    SignOfWord(a);
  }

  /** What LI tests: the value fits an I-type immediate exactly from -2048 to 2047. */
  lemma FitsIRange(a: bv32)
    ensures FitsI(a) <==> -2048 <= SInt(a) <= 2047
  {
    hide Nat, SInt;
    NatRange(a);
    SIntValue(a);
    TopOfWordI(a);
  }

  /** An offset fits a branch exactly when it is even and from -4096 to 4094. */
  lemma FitsBRange(a: bv32)
    ensures FitsB(a) <==> SInt(a) % 2 == 0 && -4096 <= SInt(a) <= 4094
  {
    hide Nat, SInt;
    NatRange(a);
    SIntValue(a);
    TopOfWordB(a);
    EvenWord(a);
  }

  /** An offset fits a jump exactly when it is even and from -2^20 to 2^20 - 2. */
  lemma FitsJRange(a: bv32)
    ensures FitsJ(a) <==> SInt(a) % 2 == 0 && -0x10_0000 <= SInt(a) <= 0xF_FFFE
  {
    hide Nat, SInt;
    NatRange(a);
    SIntValue(a);
    TopOfWordJ(a);
    EvenWord(a);
  }

  lemma DistanceSigned(d: int)
    requires -0x2000_0000 <= d < 0x2000_0000
    ensures SInt(Distance(d)) == 4 * d
  {
    hide Nat, SInt, Distance;
    DistanceValue(d);
    SIntValue(Distance(d));
  }

  lemma FourTimes(d: int)
    ensures 4 * d % 2 == 0
    ensures -4096 <= 4 * d <= 4094 <==> -0x400 <= d < 0x400
    ensures -0x3_FFFF <= d <= 0x3_FFFF ==> -0x10_0000 <= 4 * d <= 0xF_FFFE
  {
    Division(4 * d, 2 * d, 0, 2);
  }

  /** Within the megabyte every jump fits, and a branch fits exactly from -1024 to 1023 words. */
  lemma DistanceFits(d: int)
    requires -0x3_FFFF <= d <= 0x3_FFFF
    ensures FitsJ(Distance(d))
    ensures FitsB(Distance(d)) <==> -0x400 <= d < 0x400
  {
    hide FitsJ, FitsB, SInt, Distance;
    FourTimes(d);
    DistanceSigned(d);
    FitsJRange(Distance(d));
    FitsBRange(Distance(d));
  }

  /** Reducing modulo 2^32 does not show modulo a smaller power of two. */
  lemma ModuloModulo(n: int, d: int, k: int)
    requires d > 0 && d * k == TWO_32
    ensures n % TWO_32 % d == n % d
  {
    var q := n / TWO_32;
    var m := n % TWO_32;
    assert n == q * TWO_32 + m;
    assert q * TWO_32 == q * k * d;
    Division(n, q * k + m / d, m % d, d);
  }

  lemma FourTimesModulo(d: int, k: int)
    requires k > 0
    ensures 4 * d % (4 * k) == 4 * (d % k)
  {
    assert d == d / k * k + d % k;
    assert d / k * (4 * k) == 4 * (d / k * k);
    Division(4 * d, d / k, 4 * (d % k), 4 * k);
  }

  /** The bits of a distance that a branch or a jump encodes are all zero exactly at multiples of its span. */
  lemma DistanceVanishes(d: int)
    ensures Distance(d) & 0x1FFE == 0 <==> d % 0x800 == 0
    ensures Distance(d) & 0x1F_FFFE == 0 <==> d % 0x8_0000 == 0
  {
    hide Nat, Distance;
    DistanceValue(d);
    FourTimesModulo(d, 0x800);
    FourTimesModulo(d, 0x8_0000);
    ModuloModulo(4 * d, 0x2000, 0x8_0000);
    ModuloModulo(4 * d, 0x20_0000, 0x800);
    LowOfWordB(Distance(d));
    LowOfWordJ(Distance(d));
  }
}
