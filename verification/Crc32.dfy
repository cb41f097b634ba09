/** The bit-serial CRC-32 of the write-ahead log (section 8 of RFC 1952) and
    its detection power: no change confined to four consecutive bytes keeps
    the checksum. 32-bit words are naturals below 2^32, with the bitwise
    operators defined bit by bit. */
module Crc32 {
  import opened ByteStrings

  const POLYNOMIAL: nat := 0xedb8_8320
  const U32_MAX: nat := 0xffff_ffff

  function Pow2(k: nat): (p: nat)
    ensures p > 0
  {
    if k == 0 then 1 else 2 * Pow2(k - 1)
  }

  function Xor(a: nat, b: nat): nat {
    if a == 0 && b == 0 then 0
    else (if a % 2 == b % 2 then 0 else 1) + 2 * Xor(a / 2, b / 2)
  }

  function And(a: nat, b: nat): nat {
    if a == 0 || b == 0 then 0
    else (if a % 2 == 1 && b % 2 == 1 then 1 else 0) + 2 * And(a / 2, b / 2)
  }

  /** One shift of the register with polynomial feedback. */
  function BitStep(c: nat): nat {
    if c % 2 == 1 then Xor(c / 2, POLYNOMIAL) else c / 2
  }

  function BitSteps(c: nat, n: nat): nat
    decreases n
  {
    if n == 0 then c else BitSteps(BitStep(c), n - 1)
  }

  /** The register after feeding `data` into register `c`. */
  function Register(c: nat, data: bytes): nat
    decreases |data|
  {
    if data == [] then c else Register(BitSteps(Xor(c, data[0]), 8), data[1..])
  }

  /** The checksum: all-ones preset, final complement. */
  function Checksum(data: bytes): int {
    U32_MAX - Register(U32_MAX, data)
  }

  method Crc32(data: bytes) returns (crc: nat)
    ensures crc == Checksum(data)
  {
    hide Xor, And, BitStep, Pow2;
    crc := U32_MAX;
    Pow2Of32();
    for i := 0 to |data|
      invariant crc < U32_LIMIT
      invariant Register(crc, data[i..]) == Register(U32_MAX, data)
    {
      XorBound(crc, data[i], 32);
      crc := Xor(crc, data[i]);
      ghost var fed := crc;
      for k := 0 to 8
        invariant crc < U32_LIMIT
        invariant BitSteps(crc, 8 - k) == BitSteps(fed, 8)
      {
        BranchlessFeedback(crc);
        BitStepBound(crc);
        // wrapping_sub turns the low bit into a mask of all zeros or all ones.
        crc := Xor(crc / 2, And(POLYNOMIAL, (0 - And(crc, 1)) % U32_LIMIT));
      }
      assert data[i..][1..] == data[i + 1..];
    }
    crc := U32_MAX - crc;
  }

  // ---- Bitwise operators ----

  lemma Pow2Of32()
    ensures Pow2(8) == 256 && Pow2(31) == 0x8000_0000 && Pow2(32) == U32_LIMIT
  {
    assert Pow2(4) == 16;
    assert Pow2(12) == 16 * Pow2(8) by { assert Pow2(10) == 4 * Pow2(8); }
    assert Pow2(16) == 16 * Pow2(12) by { assert Pow2(14) == 4 * Pow2(12); }
    assert Pow2(20) == 16 * Pow2(16) by { assert Pow2(18) == 4 * Pow2(16); }
    assert Pow2(24) == 16 * Pow2(20) by { assert Pow2(22) == 4 * Pow2(20); }
    assert Pow2(28) == 16 * Pow2(24) by { assert Pow2(26) == 4 * Pow2(24); }
    assert Pow2(30) == 4 * Pow2(28);
  }

  lemma {:induction false} XorLaws(a: nat, b: nat)
    ensures Xor(a, b) == Xor(b, a)
    ensures Xor(a, 0) == a
    ensures Xor(a, b) == 0 <==> a == b
    decreases a + b
  {
    if a > 0 || b > 0 {
      XorLaws(a / 2, b / 2);
    }
  }

  lemma {:induction false} XorAssociative(a: nat, b: nat, c: nat)
    ensures Xor(Xor(a, b), c) == Xor(a, Xor(b, c))
    decreases a + b + c
  {
    if a > 0 || b > 0 || c > 0 {
      XorAssociative(a / 2, b / 2, c / 2);
      XorHalves(a, b);
      XorHalves(b, c);
      XorHalves(Xor(a, b), c);
      XorHalves(a, Xor(b, c));
    }
  }

  lemma XorHalves(a: nat, b: nat)
    ensures Xor(a, b) / 2 == Xor(a / 2, b / 2)
    ensures Xor(a, b) % 2 == (if a % 2 == b % 2 then 0 else 1)
  {
  }

  /** Two pairs may be combined in either order. */
  lemma XorExchange(a: nat, b: nat, c: nat, d: nat)
    ensures Xor(Xor(a, b), Xor(c, d)) == Xor(Xor(a, c), Xor(b, d))
  {
    XorAssociative(a, b, Xor(c, d));
    XorAssociative(b, c, d);
    XorLaws(b, c);
    XorAssociative(c, b, d);
    XorAssociative(a, c, Xor(b, d));
  }

  lemma XorCancel(a: nat, b: nat, c: nat)
    ensures Xor(Xor(a, b), b) == a
    ensures Xor(a, c) == Xor(b, c) ==> a == b
  {
    XorAssociative(a, b, b);
    XorAssociative(a, c, c);
    XorAssociative(b, c, c);
    XorLaws(b, b);
    XorLaws(c, c);
    XorLaws(a, 0);
    XorLaws(b, 0);
  }

  lemma {:induction false} XorBound(a: nat, b: nat, k: nat)
    requires a < Pow2(k) && b < Pow2(k)
    ensures Xor(a, b) < Pow2(k)
    decreases k
  {
    if k > 0 {
      XorBound(a / 2, b / 2, k - 1);
    }
  }

  /** The xor of words on the two sides of a power of two keeps the top bit. */
  lemma {:induction false} XorTopBit(a: nat, b: nat, k: nat)
    requires a < Pow2(k) <= b < 2 * Pow2(k)
    ensures Xor(a, b) >= Pow2(k)
    decreases k
  {
    if k > 0 {
      XorTopBit(a / 2, b / 2, k - 1);
    }
  }

  function ShiftLeft(c: nat, n: nat): nat {
    if n == 0 then c else 2 * ShiftLeft(c, n - 1)
  }

  /** Disjoint bit ranges add. */
  lemma {:induction false} XorDisjoint(high: nat, low: nat, k: nat)
    requires low < Pow2(k)
    ensures Xor(ShiftLeft(high, k), low) == ShiftLeft(high, k) + low
    decreases k
  {
    if k > 0 {
      XorDisjoint(high, low / 2, k - 1);
      XorHalves(ShiftLeft(high, k), low);
    } else {
      XorLaws(high, 0);
    }
  }

  lemma {:induction false} AndOnes(a: nat, k: nat)
    requires a < Pow2(k)
    ensures And(a, Pow2(k) - 1) == a
    decreases k
  {
    if k > 0 {
      var half := Pow2(k - 1) - 1;
      assert Pow2(k) - 1 == 2 * half + 1;
      AndOnes(a / 2, k - 1);
      hide Pow2;
      assert (2 * half + 1) / 2 == half && (2 * half + 1) % 2 == 1;
      assert And(a, 2 * half + 1) == a % 2 + 2 * And(a / 2, half);
    }
  }

  // ---- One step of the register ----

  /** Negating the low bit gives a mask that keeps all of `p` or none of it. */
  lemma MaskOfLowBit(p: nat, c: nat)
    requires p < U32_LIMIT
    ensures And(p, (0 - And(c, 1)) % U32_LIMIT) == if c % 2 == 1 then p else 0
  {
    AndOne(c);
    if c % 2 == 1 {
      hide And, Pow2;
      Pow2Of32();
      AndOnes(p, 32);
    } else {
      assert And(p, 0) == 0;
    }
  }

  lemma AndOne(c: nat)
    ensures And(c, 1) == c % 2
  {
    assert And(c / 2, 0) == 0;
  }

  /** The source's mask trick computes the branch of `BitStep`. */
  lemma BranchlessFeedback(c: nat)
    ensures Xor(c / 2, And(POLYNOMIAL, (0 - And(c, 1)) % U32_LIMIT)) == BitStep(c)
  {
    MaskOfLowBit(POLYNOMIAL, c);
    XorLaws(c / 2, 0);
  }

  lemma BitStepBound(c: nat)
    requires c < U32_LIMIT
    ensures BitStep(c) < U32_LIMIT
  {
    Pow2Of32();
    XorBound(c / 2, POLYNOMIAL, 32);
  }

  lemma BitStepLinear(a: nat, b: nat)
    ensures BitStep(Xor(a, b)) == Xor(BitStep(a), BitStep(b))
  {
    XorHalves(a, b);
    var x, y, p := a / 2, b / 2, POLYNOMIAL;
    XorExchange(x, p, y, p);
    XorExchange(x, p, y, 0);
    XorExchange(x, 0, y, p);
    XorLaws(x, 0);
    XorLaws(y, 0);
    XorLaws(p, p);
    XorLaws(p, 0);
    XorLaws(0, p);
    XorLaws(Xor(x, y), 0);
  }

  lemma BitStepInjective(a: nat, b: nat)
    requires a < U32_LIMIT && b < U32_LIMIT
    requires BitStep(a) == BitStep(b)
    ensures a == b
  {
    Pow2Of32();
    if a % 2 == b % 2 {
      XorCancel(a / 2, b / 2, POLYNOMIAL);
    } else {
      // Feedback sets the top bit of exactly one of the two.
      XorTopBit(a / 2, POLYNOMIAL, 31);
      XorTopBit(b / 2, POLYNOMIAL, 31);
    }
  }

  lemma {:induction false} BitStepsLinear(a: nat, b: nat, n: nat)
    ensures BitSteps(Xor(a, b), n) == Xor(BitSteps(a, n), BitSteps(b, n))
    decreases n
  {
    if n > 0 {
      BitStepLinear(a, b);
      BitStepsLinear(BitStep(a), BitStep(b), n - 1);
    }
  }

  lemma {:induction false} BitStepsInjective(a: nat, b: nat, n: nat)
    requires a < U32_LIMIT && b < U32_LIMIT
    ensures BitSteps(a, n) < U32_LIMIT
    ensures BitSteps(a, n) == BitSteps(b, n) <==> a == b
    decreases n
  {
    if n > 0 {
      BitStepBound(a);
      BitStepBound(b);
      BitStepsInjective(BitStep(a), BitStep(b), n - 1);
      if BitStep(a) == BitStep(b) {
        BitStepInjective(a, b);
      }
    }
  }

  /** Zero low bits are shifted out without feedback. */
  lemma {:induction false} BitStepsShift(c: nat, n: nat)
    ensures BitSteps(ShiftLeft(c, n), n) == c
    decreases n
  {
    if n > 0 {
      BitStepsShift(c, n - 1);
    }
  }

  lemma ShiftByte(c: nat)
    ensures ShiftLeft(c, 8) == 256 * c
  {
    assert ShiftLeft(c, 1) == 2 * c;
    assert ShiftLeft(c, 3) == 4 * ShiftLeft(c, 1);
    assert ShiftLeft(c, 5) == 4 * ShiftLeft(c, 3);
    assert ShiftLeft(c, 7) == 4 * ShiftLeft(c, 5);
  }

  // ---- Whole messages ----

  function XorBytes(a: bytes, b: bytes): (d: bytes)
    requires |a| == |b|
    ensures |d| == |a|
  {
    if a == [] then []
    else
      XorBound(a[0], b[0], 8);
      Pow2Of32();
      [Xor(a[0], b[0])] + XorBytes(a[1..], b[1..])
  }

  lemma {:induction false} RegisterBound(c: nat, data: bytes)
    requires c < U32_LIMIT
    ensures Register(c, data) < U32_LIMIT
    decreases |data|
  {
    if data != [] {
      Pow2Of32();
      XorBound(c, data[0], 32);
      var fed := Xor(c, data[0]);
      BitStepsInjective(fed, fed, 8);
      RegisterBound(BitSteps(fed, 8), data[1..]);
    }
  }

  lemma {:induction false} RegisterConcat(c: nat, a: bytes, b: bytes)
    ensures Register(c, a + b) == Register(Register(c, a), b)
    decreases |a|
  {
    if a == [] {
      assert a + b == b;
    } else {
      assert (a + b)[1..] == a[1..] + b;
      RegisterConcat(BitSteps(Xor(c, a[0]), 8), a[1..], b);
    }
  }

  lemma {:induction false} RegisterLinear(c: nat, d: nat, a: bytes, b: bytes)
    requires |a| == |b|
    ensures Register(Xor(c, d), XorBytes(a, b)) == Xor(Register(c, a), Register(d, b))
    decreases |a|
  {
    if a != [] {
      XorExchange(c, d, a[0], b[0]);
      BitStepsLinear(Xor(c, a[0]), Xor(d, b[0]), 8);
      RegisterLinear(BitSteps(Xor(c, a[0]), 8), BitSteps(Xor(d, b[0]), 8), a[1..], b[1..]);
      assert XorBytes(a, b)[1..] == XorBytes(a[1..], b[1..]);
    }
  }

  lemma {:induction false} RegisterInjective(c: nat, d: nat, data: bytes)
    requires c < U32_LIMIT && d < U32_LIMIT
    requires Register(c, data) == Register(d, data)
    ensures c == d
    decreases |data|
  {
    if data != [] {
      Pow2Of32();
      XorBound(c, data[0], 32);
      XorBound(d, data[0], 32);
      BitStepsInjective(Xor(c, data[0]), Xor(d, data[0]), 8);
      BitStepsInjective(Xor(d, data[0]), Xor(c, data[0]), 8);
      RegisterInjective(BitSteps(Xor(c, data[0]), 8), BitSteps(Xor(d, data[0]), 8), data[1..]);
      XorCancel(c, d, data[0]);
    }
  }

  /** A byte step reaches `next` from one fed register only. */
  lemma StepPreimage(c: nat, b: byte, next: nat)
    requires c < U32_LIMIT && 256 * next < U32_LIMIT
    ensures BitSteps(Xor(c, b), 8) < U32_LIMIT
    ensures BitSteps(Xor(c, b), 8) == next <==> c == 256 * next + b
  {
    Pow2Of32();
    ShiftByte(next);
    XorBound(c, b, 32);
    BitStepsInjective(Xor(c, b), 256 * next, 8);
    BitStepsShift(next, 8);
    XorDisjoint(next, b, 8);
    XorCancel(c, b, b);
    XorCancel(256 * next, b, b);
  }

  /** Up to four bytes bring the register to zero from one state only, the
      word they spell. */
  lemma {:induction false} RegisterZero(c: nat, data: bytes)
    requires c < U32_LIMIT && |data| <= 4
    ensures Register(c, data) == 0 <==> c == FromLE(data)
    decreases |data|
  {
    if data != [] {
      var rest := FromLE(data[1..]);
      FromLEBound(data[1..]);
      assert 256 * rest < U32_LIMIT by { SmallWidths(|data| - 1); }
      StepPreimage(c, data[0], rest);
      RegisterZero(BitSteps(Xor(c, data[0]), 8), data[1..]);
    }
  }

  lemma SmallWidths(k: nat)
    requires k <= 3
    ensures 256 * Pow256(k) <= U32_LIMIT
  {
    assert Pow256(0) == 1 && Pow256(1) == 256 && Pow256(2) == 0x1_0000;
    assert Pow256(3) == 256 * Pow256(2);
  }

  lemma {:induction false} XorBytesZero(a: bytes, b: bytes)
    requires |a| == |b|
    ensures FromLE(XorBytes(a, b)) == 0 <==> a == b
  {
    hide Xor;
    if a != [] {
      XorBytesZero(a[1..], b[1..]);
      XorLaws(a[0], b[0]);
      assert XorBytes(a, b)[1..] == XorBytes(a[1..], b[1..]);
      assert a == b <==> a[0] == b[0] && a[1..] == b[1..] by {
        assert a == [a[0]] + a[1..] && b == [b[0]] + b[1..];
      }
    }
  }

  /** A checksum is a 32-bit word. */
  lemma ChecksumBound(data: bytes)
    ensures 0 <= Checksum(data) < U32_LIMIT
  {
    RegisterBound(U32_MAX, data);
  }

  /** Detection: two messages that differ only inside a window of at most four
      consecutive bytes, wherever it lies, have the same checksum exactly when
      the windows are equal. */
  lemma WindowDetection(before: bytes, w1: bytes, w2: bytes, after: bytes)
    requires |w1| == |w2| <= 4
    ensures Checksum(before + w1 + after) == Checksum(before + w2 + after) <==> w1 == w2
  {
    var c := Register(U32_MAX, before);
    RegisterBound(U32_MAX, before);
    RegisterConcat(U32_MAX, before + w1, after);
    RegisterConcat(U32_MAX, before + w2, after);
    RegisterConcat(U32_MAX, before, w1);
    RegisterConcat(U32_MAX, before, w2);
    var r1, r2 := Register(c, w1), Register(c, w2);
    RegisterBound(c, w1);
    RegisterBound(c, w2);
    if Register(r1, after) == Register(r2, after) {
      RegisterInjective(r1, r2, after);
      RegisterLinear(c, c, w1, w2);
      XorLaws(c, c);
      XorLaws(r1, r2);
      RegisterZero(0, XorBytes(w1, w2));
      XorBytesZero(w1, w2);
    }
  }

  // ---- The table-driven form ----

  /** Section 8 of RFC 1952 precomputes this for the 256 bytes. */
  function Table(b: byte): nat {
    BitSteps(b, 8)
  }

  function ShiftRight(c: nat, n: nat): nat
    decreases n
  {
    if n == 0 then c else ShiftRight(c / 2, n - 1)
  }

  /** Low bits do not reach the high ones. */
  lemma {:induction false} XorHigh(c: nat, low: nat, k: nat)
    requires low < Pow2(k)
    ensures ShiftRight(Xor(c, low), k) == ShiftRight(c, k)
    decreases k
  {
    if k == 0 {
      XorLaws(c, 0);
    } else {
      XorHalves(c, low);
      XorHigh(c / 2, low / 2, k - 1);
    }
  }

  lemma ShiftByteRight(c: nat)
    ensures ShiftRight(c, 8) == c / 256
  {
    assert ShiftRight(c, 8) == ShiftRight(c / 2 / 2 / 2 / 2, 4) by {
      assert ShiftRight(c, 8) == ShiftRight(c / 2 / 2, 6);
    }
    assert ShiftRight(c / 16, 4) == ShiftRight(c / 16 / 2 / 2, 2);
  }

  /** The bit-serial loop computes one table lookup per byte, the form section 8
      of RFC 1952 gives. */
  lemma TableDriven(c: nat, b: byte, data: bytes)
    ensures Register(c, [b] + data) == Register(Xor(Table(Xor(c, b) % 256), c / 256), data)
  {
    hide Xor, BitSteps, ShiftLeft, ShiftRight;
    var x := Xor(c, b);
    var high, low := x / 256, x % 256;
    assert ([b] + data)[1..] == data;
    ShiftByteRight(c);
    ShiftByteRight(x);
    Pow2Of32();
    ShiftByte(high);
    XorDisjoint(high, low, 8);
    BitStepsLinear(ShiftLeft(high, 8), low, 8);
    BitStepsShift(high, 8);
    XorHigh(c, b, 8);
    XorLaws(high, Table(low));
  }

  // ---- Known values ----

  lemma XorOdd(h: nat, bit: nat, half: nat)
    requires bit < 2
    ensures Xor(2 * h + bit, 2 * half + 1) == 2 * Xor(h, half) + (1 - bit)
  {
    var a, b := 2 * h + bit, 2 * half + 1;
    assert a / 2 == h && b / 2 == half && a % 2 == bit && b % 2 == 1;
  }

  /** Words of ones complement. */
  lemma {:induction false} XorOnes(a: nat, k: nat)
    requires a < Pow2(k)
    ensures Xor(a, Pow2(k) - 1) == Pow2(k) - 1 - a
    decreases k
  {
    if k == 0 {
      assert a == 0 && Pow2(k) - 1 == 0;
    } else {
      var h, bit, half := a / 2, a % 2, Pow2(k - 1) - 1;
      XorOnes(h, k - 1);
      XorOdd(h, bit, half);
      hide Xor;
      assert Pow2(k) - 1 == 2 * half + 1;
      hide Pow2;
      assert a == 2 * h + bit;
      assert Xor(a, 2 * half + 1) == 2 * (half - h) + (1 - bit);
    }
  }

  lemma {:induction false} BitStepsLast(c: nat, n: nat)
    ensures BitSteps(c, n + 1) == BitStep(BitSteps(c, n))
    decreases n
  {
    hide BitStep;
    if n > 0 {
      BitStepsLast(BitStep(c), n - 1);
    }
  }

  /** Seven shifts and one feedback: the table entry of the byte 128 is the
      polynomial, as section 8 of RFC 1952 lists it. */
  lemma TopEntry()
    ensures Table(128) == 0xedb8_8320
  {
    hide Xor;
    ShiftByte(1);
    assert ShiftLeft(1, 8) == 2 * ShiftLeft(1, 7);
    hide ShiftLeft;
    BitStepsShift(1, 7);
    BitStepsLast(128, 7);
    hide BitSteps;
    XorLaws(0, POLYNOMIAL);
    XorLaws(POLYNOMIAL, 0);
    assert 1 / 2 == 0;
  }

  /** The register of ones, fed a byte, in terms of the table. */
  lemma FirstByte(b: byte)
    ensures Register(0xffff_ffff, [b]) == Xor(Table(255 - b), 0xff_ffff)
  {
    hide Xor, BitSteps;
    Pow2Of32();
    XorOnes(b, 8);
    XorLaws(b, 255);
    XorDisjoint(0xff_ffff, 255, 8);
    ShiftByte(0xff_ffff);
    XorAssociative(0xffff_ff00, 255, b);
    XorDisjoint(0xff_ffff, 255 - b, 8);
    TableDriven(0xffff_ffff, b, []);
    assert [b] + [] == [b];
  }

  /** Checksums of single bytes, of four bytes and of nothing: preset, final
      complement and polynomial together. */
  lemma KnownChecksums()
    ensures Checksum([]) == 0
    ensures Checksum([255]) == 0xff00_0000
    ensures Checksum([127]) == 0x12b8_8320
    ensures Checksum([255, 255, 255, 255]) == 0xffff_ffff
  {
    hide Xor;
    FirstByte(255);
    assert BitSteps(0, 8) == 0 by {
      assert BitSteps(0, 8) == BitSteps(0, 4);
    }
    XorLaws(0, 0xff_ffff);
    XorLaws(0xff_ffff, 0);
    FirstByte(127);
    TopEntry();
    TopByteOnes();
    RegisterZero(0xffff_ffff, [255, 255, 255, 255]);
    assert FromLE([255, 255, 255, 255]) == 0xffff_ffff;
  }

  lemma TopByteOnes()
    ensures Xor(0xedb8_8320, 0xff_ffff) == 0xed47_7cdf
  {
    hide Xor;
    // Split behind the low 24 bits.
    Pow2Of32();
    assert Pow2(24) == 0x100_0000 by { assert Pow2(16) == 0x1_0000; }
    assert ShiftLeft(0xed, 24) == 0xed00_0000 by {
      ShiftByte(0xed);
      ShiftLeftSum(0xed, 8, 8);
      ShiftByte(0xed00);
      ShiftLeftSum(0xed, 16, 8);
      ShiftByte(0xed_0000);
    }
    XorDisjoint(0xed, 0xb8_8320, 24);
    XorAssociative(0xed00_0000, 0xb8_8320, 0xff_ffff);
    XorOnes(0xb8_8320, 24);
    XorDisjoint(0xed, 0x47_7cdf, 24);
  }

  lemma {:induction false} ShiftLeftSum(c: nat, m: nat, n: nat)
    ensures ShiftLeft(c, m + n) == ShiftLeft(ShiftLeft(c, m), n)
    decreases n
  {
    if n > 0 {
      ShiftLeftSum(c, m, n - 1);
    }
  }
}
