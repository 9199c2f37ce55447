/** The CRC of main/protocol/modbus_crc.c as section 6.2.2 of the MODBUS over Serial Line Specification V1.02 means it:
    the remainder of the message, its first sixteen bits inverted, by the polynomial x^16 + x^15 + x^2 + 1. Nothing here
    is said in terms of the register or its steps. */
module CrcPolynomial {
  import opened CrcBits
  import opened CrcStep
  import opened CrcDetection
  import opened ModbusCrc
  import opened ShiftRegister
  import opened Types

  // ---------- polynomials over two elements, the highest power first ----------

  function Nought(n: nat): (bits: Bits)
    ensures |bits| == n && Zeros(bits)
  {
    seq(n, _ => false)
  }

  /** x^16 + x^15 + x^2 + 1. */
  function Generator(): (bits: Bits)
    ensures |bits| == 17
  {
    [true, true] + Nought(12) + [true, false, true]
  }

  /** One term of a product: the generator, or nothing, times the power `n`. */
  function Shifted(b: bool, n: nat): (bits: Bits)
    ensures |bits| == n + 17
  {
    if b then Generator() + Nought(n) else Nought(n + 17)
  }

  /** The product of `q` and the generator. */
  ghost function Times(q: Bits): (bits: Bits)
    ensures |bits| == |q| + 16
    decreases |q|
  {
    if q == [] then Nought(16) else Differ(Shifted(q[0], |q| - 1), [false] + Times(q[1..]))
  }

  ghost predicate Multiple(bits: Bits) {
    exists q :: |q| + 16 == |bits| && bits == Times(q)
  }

  // ---------- multiples leave nothing in the register ----------

  lemma FeedDiffer(a: Bits, b: Bits)
    requires |a| == |b|
    ensures Feed(0, Differ(a, b)) == Plus(Feed(0, a), Feed(0, b))
  {
    FeedIsLinear();
    PlusSelf(0);
    RunLinear(Step, FlipStep, Plus, 0, a, b);
  }

  lemma StepOnes()
    ensures FlipStep(0) == 0xA001 && FlipStep(0xA001) == 0x5000
  {
  }

  lemma FourZeros(c: bv16)
    requires c & 0xF == 0
    ensures Step(Step(Step(Step(c)))) == c >> 4
  {
  }

  lemma LastThree()
    ensures FlipStep(Step(FlipStep(0x5))) == 0
  {
  }

  lemma FeedOne(c: bv16, bits: Bits, b: bool)
    ensures Feed(c, bits + [b]) == if b then FlipStep(Feed(c, bits)) else Step(Feed(c, bits))
  {
    hide Step, FlipStep;
    RunLast(Step, FlipStep, c, bits, b);
  }

  lemma FeedConcat(c: bv16, x: Bits, y: Bits)
    ensures Feed(c, x + y) == Feed(Feed(c, x), y)
  {
    RunConcat(Step, FlipStep, c, x, y);
  }

  lemma FeedFourZeros(c: bv16, x: Bits)
    requires Feed(c, x) & 0xF == 0
    ensures Feed(c, x + Nought(4)) == Feed(c, x) >> 4
  {
    hide Step, FlipStep, Feed;
    FeedOne(c, x, false);
    FeedOne(c, x + [false], false);
    FeedOne(c, x + [false] + [false], false);
    FeedOne(c, x + [false] + [false] + [false], false);
    assert x + Nought(4) == x + [false] + [false] + [false] + [false];
    FourZeros(Feed(c, x));
  }

  lemma FeedGenerator()
    ensures Feed(0, Generator()) == 0
  {
    hide Step, FlipStep, Feed;
    var a := [true, true];
    FeedNone(0);
    FeedOne(0, [], true);
    FeedOne(0, [true], true);
    StepOnes();
    assert [] + [true] == [true] && [true] + [true] == a;
    assert Feed(0, a) == 0x5000;
    FeedFourZeros(0, a);
    FeedFourZeros(0, a + Nought(4));
    FeedFourZeros(0, a + Nought(4) + Nought(4));
    var b := a + Nought(4) + Nought(4) + Nought(4);
    assert Feed(0, b) == 5;
    FeedOne(0, b, true);
    FeedOne(0, b + [true], false);
    FeedOne(0, b + [true] + [false], true);
    LastThree();
    assert Generator() == b + [true] + [false] + [true];
  }

  lemma FeedNone(c: bv16)
    ensures Feed(c, []) == c
  {
  }

  lemma FeedShifted(b: bool, n: nat)
    ensures Feed(0, Shifted(b, n)) == 0
  {
    hide Step, FlipStep, Feed;
    if b {
      FeedGenerator();
      FeedConcat(0, Generator(), Nought(n));
      ZerosKeep(0, Nought(n));
    } else {
      ZerosKeep(0, Nought(n + 17));
    }
  }

  lemma FeedBehindZero(bits: Bits)
    ensures Feed(0, [false] + bits) == Feed(0, bits)
  {
    hide Step, FlipStep, Feed;
    FeedFirst(0, false, bits);
    StepOnlyZero();
  }

  /** Adding a term of the product leaves the register as it was. */
  lemma TermIsNothing(b: bool, bits: Bits, n: nat)
    requires |bits| == n + 16
    ensures Feed(0, Differ(Shifted(b, n), [false] + bits)) == Feed(0, bits)
  {
    hide *;
    assert |[false] + bits| == n + 17;
    FeedDiffer(Shifted(b, n), [false] + bits);
    FeedShifted(b, n);
    FeedBehindZero(bits);
    PlusZeroFirst(Feed(0, bits));
  }

  lemma PlusZeroFirst(x: bv16)
    ensures Plus(0, x) == x
  {
  }

  lemma {:induction false} ProductLeavesNothing(q: Bits)
    ensures Feed(0, Times(q)) == 0
    decreases |q|
  {
    hide Step, FlipStep, Feed, Shifted, Generator;
    if q == [] {
      ZerosKeep(0, Nought(16));
    } else {
      ProductLeavesNothing(q[1..]);
      TermIsNothing(q[0], Times(q[1..]), |q| - 1);
    }
  }

  // ---------- long division ----------

  lemma DividedOnce(bits: Bits, n: nat) returns (rest: Bits)
    requires |bits| == n + 17
    ensures |rest| == n + 16 && bits == Differ(Shifted(bits[0], n), [false] + rest)
  {
    var d := Differ(Shifted(bits[0], n), bits);
    rest := d[1..];
    assert d[0] == false;
    assert d == [false] + rest;
    assert forall i | 0 <= i < |bits| :: bits[i] == (Shifted(bits[0], n)[i] != d[i]);
  }

  /** A message that leaves nothing in the register is divided without remainder. */
  lemma {:induction false} Quotient(bits: Bits) returns (q: Bits)
    requires |bits| >= 16 && Feed(0, bits) == 0
    ensures |q| + 16 == |bits| && bits == Times(q)
    decreases |bits|
  {
    hide Step, FlipStep, Feed, Shifted, Generator;
    if |bits| == 16 {
      if !Zeros(bits) {
        BurstLeavesTrace(bits, 0);
      }
      q := [];
      assert bits == Nought(16);
    } else {
      var rest := DividedOnce(bits, |bits| - 17);
      TermIsNothing(bits[0], rest, |bits| - 17);
      var t := Quotient(rest);
      q := [bits[0]] + t;
      assert q[1..] == t;
    }
  }

  /** The register that started empty is empty after a message if and only if the message is a multiple of
      x^16 + x^15 + x^2 + 1. */
  lemma EmptyIffMultiple(bits: Bits)
    requires |bits| >= 16
    ensures Feed(0, bits) == 0 <==> Multiple(bits)
  {
    hide Feed, Times;
    if Feed(0, bits) == 0 {
      var q := Quotient(bits);
    } else if Multiple(bits) {
      var q :| |q| + 16 == |bits| && bits == Times(q);
      ProductLeavesNothing(q);
    }
  }

  // ---------- the start of the register ----------

  /** The message with its first sixteen bits inverted. */
  function Inverted(m: Bytes): Bytes
    requires |m| >= 2
  {
    [!m[0], !m[1]] + m[2..]
  }

  /** A waiting word whose low bit is clear rides along. */
  lemma Rides(x: bv16, y: bv16)
    requires !Low(y)
    ensures BitStep(Plus(x, y)) == Plus(BitStep(x), Half(y))
  {
    hide *;
    BitStepIsStep(Plus(x, y));
    BitStepIsStep(x);
    RideAlongClear(x, y);
  }

  function FourSteps(x: bv16): bv16 {
    BitStep(BitStep(BitStep(BitStep(x))))
  }

  lemma FourRide(x: bv16, y: bv16)
    requires !Low(y) && !Low(Half(y)) && !Low(Half(Half(y))) && !Low(Half(Half(Half(y))))
    ensures FourSteps(Plus(x, y)) == Plus(FourSteps(x), Half(Half(Half(Half(y)))))
  {
    hide BitStep, Plus, Half, Low;
    Rides(x, y);
    Rides(BitStep(x), Half(y));
    Rides(BitStep(BitStep(x)), Half(Half(y)));
    Rides(BitStep(BitStep(BitStep(x))), Half(Half(Half(y))));
  }

  lemma UpperByteRides(x: bv16)
    ensures EightSteps(Plus(x, 0xFF00)) == Plus(EightSteps(x), 0xFF)
  {
    hide BitStep, Plus;
    FourRide(x, 0xFF00);
    FourRide(FourSteps(x), 0x0FF0);
  }

  lemma InvertedWide(b: bv8, y: bv16, z: bv16)
    requires y == b as bv16 && z == !b as bv16
    ensures y == Plus(z, 0xFF)
  {
  }

  lemma FirstInverted(z: bv16)
    ensures Plus(0xFFFF, Plus(z, 0xFF)) == Plus(z, 0xFF00)
  {
  }

  lemma SecondInverted(d: bv16, z: bv16)
    ensures Plus(Plus(d, 0xFF), Plus(z, 0xFF)) == Plus(d, z)
  {
  }

  lemma AbsorbIs(c: bv16, b: bv8, y: bv16)
    requires y == b as bv16
    ensures Absorb(c, b) == EightSteps(Plus(c, y))
  {
    hide BitSteps, EightSteps;
    EightIsEight(c ^ y);
  }

  lemma FirstOfTwo(a: bv8, y: bv16, z: bv16)
    requires y == a as bv16 && z == !a as bv16
    ensures Absorb(0xFFFF, a) == Plus(Absorb(0, !a), 0xFF)
  {
    hide *;
    InvertedWide(a, y, z);
    AbsorbIs(0xFFFF, a, y);
    AbsorbIs(0, !a, z);
    FirstInverted(z);
    PlusZeroFirst(z);
    UpperByteRides(Plus(0, z));
  }

  lemma SecondOfTwo(d: bv16, b: bv8, y: bv16, z: bv16)
    requires y == b as bv16 && z == !b as bv16
    ensures Absorb(Plus(d, 0xFF), b) == Absorb(d, !b)
  {
    hide *;
    InvertedWide(b, y, z);
    AbsorbIs(Plus(d, 0xFF), b, y);
    AbsorbIs(d, !b, z);
    SecondInverted(d, z);
  }

  lemma StartOfTwo(a: bv8, b: bv8)
    ensures Absorb(Absorb(0xFFFF, a), b) == Absorb(Absorb(0, !a), !b)
  {
    hide *;
    FirstOfTwo(a, a as bv16, !a as bv16);
    SecondOfTwo(Absorb(0, !a), b, b as bv16, !b as bv16);
  }

  lemma {:induction false} CrcConcat(c: bv16, x: Bytes, y: Bytes)
    ensures CrcFrom(c, x + y) == CrcFrom(CrcFrom(c, x), y)
    decreases |y|
  {
    hide Absorb;
    if y == [] {
      assert x + y == x;
    } else {
      var k := |y| - 1;
      CrcConcat(c, x, y[..k]);
      assert x + y == (x + y[..k]) + [y[k]];
      CrcLast(c, x + y[..k], y[k]);
    }
  }

  lemma CrcOfTwo(c: bv16, a: bv8, b: bv8)
    ensures CrcFrom(c, [a, b]) == Absorb(Absorb(c, a), b)
  {
    hide Absorb;
    assert [] + [a, b] == [a, b];
    CrcTwo(c, [], a, b);
  }

  /** Starting the register at 0xFFFF is starting it empty and inverting the first sixteen bits of the message. */
  lemma StartInverts(m: Bytes)
    requires |m| >= 2
    ensures Crc(m) == CrcFrom(0, Inverted(m))
  {
    hide Absorb, CrcFrom;
    assert m == [m[0], m[1]] + m[2..];
    CrcConcat(0xFFFF, [m[0], m[1]], m[2..]);
    CrcConcat(0, [!m[0], !m[1]], m[2..]);
    CrcOfTwo(0xFFFF, m[0], m[1]);
    CrcOfTwo(0, !m[0], !m[1]);
    StartOfTwo(m[0], m[1]);
  }

  // ---------- whole frames ----------

  /** A frame passes the receiver's test if and only if it is, with its first sixteen bits inverted, a multiple of the
      polynomial. */
  lemma PassesIffMultiple(f: Bytes)
    requires |f| >= 2
    ensures Crc(f) == 0 <==> Multiple(FrameBits(Inverted(f)))
  {
    hide Crc, Feed, CrcFrom, Multiple;
    StartInverts(f);
    CrcIsFeed(0, Inverted(f));
    EmptyIffMultiple(FrameBits(Inverted(f)));
  }

  /** The CRC is the one word that, sent low byte first behind the message, makes it a multiple of the polynomial. */
  lemma CrcCompletes(m: Bytes, lo: bv8, hi: bv8)
    requires |m| >= 2
    ensures Multiple(FrameBits(Inverted(m) + [lo, hi])) <==> lo as bv16 == Crc(m) & 0xFF && hi as bv16 == Crc(m) >> 8
  {
    hide *;
    Residue(m, lo, hi);
    InvertedBefore(m, [lo, hi]);
    PassesIffMultiple(m + [lo, hi]);
  }

  lemma InvertedBefore(m: Bytes, t: Bytes)
    requires |m| >= 2
    ensures |m + t| >= 2 && Inverted(m + t) == Inverted(m) + t
  {
    assert (m + t)[2..] == m[2..] + t;
  }

  // ---------- the order of the bits ----------

  lemma ByteInOrder(b: bv8, y: bv16)
    requires y == b as bv16
    ensures Low(y) == (b & 1 != 0) && Low(Half(y)) == (b & 2 != 0)
    ensures Low(Half(Half(y))) == (b & 4 != 0) && Low(Half(Half(Half(y)))) == (b & 8 != 0)
    ensures var z := Half(Half(Half(Half(y))));
            && Low(z) == (b & 16 != 0) && Low(Half(z)) == (b & 32 != 0)
            && Low(Half(Half(z))) == (b & 64 != 0) && Low(Half(Half(Half(z)))) == (b & 128 != 0)
  {
  }

  lemma FourBits(y: bv16, n: nat)
    requires n >= 4
    ensures LowBits(y, n)
      == [Low(y), Low(Half(y)), Low(Half(Half(y))), Low(Half(Half(Half(y))))]
       + LowBits(Half(Half(Half(Half(y)))), n - 4)
  {
    hide *;
    LowBitsHead(y, n);
    LowBitsHead(Half(y), n - 1);
    LowBitsHead(Half(Half(y)), n - 2);
    LowBitsHead(Half(Half(Half(y))), n - 3);
  }

  /** A byte is on the wire least significant bit first. */
  lemma ByteBitsListed(b: bv8, y: bv16)
    requires y == b as bv16
    ensures ByteBits(b)
      == [b & 1 != 0, b & 2 != 0, b & 4 != 0, b & 8 != 0, b & 16 != 0, b & 32 != 0, b & 64 != 0, b & 128 != 0]
  {
    hide Low, Half, LowBits;
    ByteBitsAre(b, y);
    FourBits(y, 8);
    FourBits(Half(Half(Half(Half(y)))), 4);
    ByteInOrder(b, y);
  }

  /** The bits of byte `k` are the eight from `8 * k` on. */
  lemma {:induction false} FrameBitsAt(m: Bytes, k: nat)
    requires k < |m|
    ensures FrameBits(m)[8 * k..8 * k + 8] == ByteBits(m[k])
    decreases |m|
  {
    hide FrameBits, ByteBits;
    FrameBitsSplit(m);
    var j := |m| - 1;
    if k < j {
      FrameBitsAt(m[..j], k);
      assert FrameBits(m)[..8 * j][8 * k..8 * k + 8] == FrameBits(m)[8 * k..8 * k + 8];
    } else {
      assert FrameBits(m)[8 * k..] == FrameBits(m)[8 * k..8 * k + 8];
    }
  }

  // ---------- a known frame ----------

  lemma KnownSteps()
    ensures EightSteps(Plus(0xFFFF, 1)) == 0x807E && EightSteps(Plus(0x807E, 3)) == 0x2140
    ensures EightSteps(Plus(0x2140, 0)) == 0xF020 && EightSteps(Plus(0xF020, 0)) == 0xD8F1
    ensures EightSteps(Plus(0xD8F1, 0)) == 0x8419 && EightSteps(Plus(0x8419, 1)) == 0x0A84
  {
  }

  lemma KnownByte(m: Bytes, b: bv8, y: bv16, c: bv16, d: bv16)
    requires Crc(m) == c && y == b as bv16 && EightSteps(Plus(c, y)) == d
    ensures Crc(m + [b]) == d
  {
    hide *;
    CrcNext(m, b);
    AbsorbIs(c, b, y);
  }

  lemma CrcNext(m: Bytes, b: bv8)
    ensures Crc(m + [b]) == Absorb(Crc(m), b)
  {
    hide Absorb;
    CrcLast(0xFFFF, m, b);
  }

  lemma CrcOfNothing()
    ensures Crc([]) == 0xFFFF
  {
  }

  /** The request for register 0 of slave 1 carries 84 0A. */
  lemma KnownRequest(f: Bytes)
    requires f == [1, 3, 0, 0, 0, 1]
    ensures Crc(f) == 0x0A84
  {
    hide *;
    KnownSteps();
    CrcOfNothing();
    assert f[..0] == [] && f[..1] == f[..0] + [1] && f[..2] == f[..1] + [3] && f[..3] == f[..2] + [0];
    KnownByte(f[..0], 1, 1, 0xFFFF, 0x807E);
    KnownByte(f[..1], 3, 3, 0x807E, 0x2140);
    KnownByte(f[..2], 0, 0, 0x2140, 0xF020);
    assert f[..4] == f[..3] + [0] && f[..5] == f[..4] + [0] && f == f[..5] + [1];
    KnownByte(f[..3], 0, 0, 0xF020, 0xD8F1);
    KnownByte(f[..4], 0, 0, 0xD8F1, 0x8419);
    KnownByte(f[..5], 1, 1, 0x8419, 0x0A84);
  }
}
