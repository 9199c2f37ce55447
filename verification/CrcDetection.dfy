/** What the CRC of main/protocol/modbus_crc.c detects, for frames of any length.

    The register of the inner loop is fed one message bit at a time, least significant bit of each byte first, the order
    in which the bits are on the wire; a lemma shows that the code's byte-wise absorption computes the same. */
module CrcDetection {
  import opened CrcBits
  import opened CrcStep
  import opened ModbusCrc
  import opened ShiftRegister
  import opened Types

  /** The register after a message. */
  function Feed(c: bv16, bits: Bits): bv16 {
    Run(Step, FlipStep, c, bits)
  }

  /** The `n` low bits of a word, least significant first. */
  function LowBits(y: bv16, n: nat): (bits: Bits)
    ensures |bits| == n
    decreases n
  {
    if n == 0 then [] else [Low(y)] + LowBits(Half(y), n - 1)
  }

  function ByteBits(b: bv8): (bits: Bits)
    ensures |bits| == 8
  {
    LowBits(b as bv16, 8)
  }

  function FrameBits(data: Bytes): (bits: Bits)
    ensures |bits| == 8 * |data|
  {
    if data == [] then [] else FrameBits(data[..|data| - 1]) + ByteBits(data[|data| - 1])
  }

  // ---------- absorbing a byte is feeding its bits ----------

  /** One bit step of the code while the bits of `y` wait. */
  lemma RideAlong(s: bv16, y: bv16)
    ensures BitStep(Plus(s, y)) == Plus(if Low(y) then FlipStep(s) else Step(s), Half(y))
  {
    hide *;
    BitStepIsStep(Plus(s, y));
    if Low(y) {
      RideAlongSet(s, y);
    } else {
      RideAlongClear(s, y);
    }
  }

  lemma {:induction false} StepsFirst(c: bv16, d: bv16, n: nat)
    requires d == BitStep(c)
    ensures BitSteps(c, n + 1) == BitSteps(d, n)
    decreases n
  {
    if n > 0 {
      StepsFirst(c, d, n - 1);
      StepsNext(c, n, n + 1, BitSteps(c, n));
      StepsNext(d, n - 1, n, BitSteps(d, n - 1));
    } else {
      StepsNext(c, 0, 1, c);
    }
  }

  lemma LowBitsHead(y: bv16, n: nat)
    requires n > 0
    ensures LowBits(y, n) == [Low(y)] + LowBits(Half(y), n - 1)
  {
    hide Low, Half;
  }

  lemma DropBitsHead(y: bv16, n: nat)
    ensures DropBits(y, n) == if n == 0 then y else DropBits(Half(y), n - 1)
  {
    hide Half;
  }

  lemma StepsNone(c: bv16)
    ensures BitSteps(c, 0) == c
  {
  }

  lemma FeedFirst(c: bv16, b: bool, bits: Bits)
    ensures Feed(c, [b] + bits) == Feed(if b then FlipStep(c) else Step(c), bits)
  {
    hide Step, FlipStep, Run;
    RunFirst(Step, FlipStep, c, b, bits);
  }

  lemma FeedNothing(c: bv16, y: bv16)
    ensures Feed(c, LowBits(y, 0)) == c
  {
    hide Step, FlipStep;
  }

  lemma {:induction false} Serial(s: bv16, y: bv16, n: nat)
    ensures BitSteps(Plus(s, y), n) == Plus(Feed(s, LowBits(y, n)), DropBits(y, n))
    decreases n
  {
    hide *;
    DropBitsHead(y, n);
    if n == 0 {
      StepsNone(Plus(s, y));
      FeedNothing(s, y);
    } else {
      var t := if Low(y) then FlipStep(s) else Step(s);
      RideAlong(s, y);
      Serial(t, Half(y), n - 1);
      StepsFirst(Plus(s, y), Plus(t, Half(y)), n - 1);
      LowBitsHead(y, n);
      FeedFirst(s, Low(y), LowBits(Half(y), n - 1));
    }
  }

  lemma DropFour(y: bv16, n: nat)
    requires n >= 4
    ensures DropBits(y, n) == DropBits(Half(Half(Half(Half(y)))), n - 4)
  {
    hide *;
    DropBitsHead(y, n);
    DropBitsHead(Half(y), n - 1);
    DropBitsHead(Half(Half(y)), n - 2);
    DropBitsHead(Half(Half(Half(y))), n - 3);
  }

  lemma ByteDropped(b: bv8, y: bv16)
    requires y == b as bv16
    ensures DropBits(y, 8) == 0
  {
    hide *;
    EightHalves(b, y);
    DropFour(y, 8);
    DropFour(Half(Half(Half(Half(y)))), 4);
    DropBitsHead(Half(Half(Half(Half(Half(Half(Half(Half(y)))))))), 0);
  }

  lemma ByteSerial(c: bv16, b: bv8, y: bv16)
    requires y == b as bv16
    ensures BitSteps(Plus(c, y), 8) == Feed(c, LowBits(y, 8))
  {
    hide *;
    Serial(c, y, 8);
    ByteDropped(b, y);
    PlusNought(Feed(c, LowBits(y, 8)));
  }

  lemma AbsorbByte(c: bv16, b: bv8)
    ensures Absorb(c, b) == Feed(c, ByteBits(b))
  {
    hide BitSteps, Feed, LowBits;
    ByteSerial(c, b, b as bv16);
  }

  /** The code's CRC is the bit-serial one. */
  lemma {:induction false} CrcIsFeed(c: bv16, data: Bytes)
    ensures CrcFrom(c, data) == Feed(c, FrameBits(data))
  {
    if data != [] {
      var k := |data| - 1;
      CrcIsFeed(c, data[..k]);
      AbsorbByte(CrcFrom(c, data[..k]), data[k]);
      RunConcat(Step, FlipStep, c, FrameBits(data[..k]), ByteBits(data[k]));
    }
  }

  // ---------- the bits determine the frame ----------

  lemma {:induction false} LowBitsDecide(y: bv16, z: bv16, n: nat)
    requires LowBits(y, n) == LowBits(z, n) && DropBits(y, n) == DropBits(z, n)
    ensures y == z
    decreases n
  {
    hide *;
    DropBitsHead(y, n);
    DropBitsHead(z, n);
    if n > 0 {
      LowBitsHead(y, n);
      LowBitsHead(z, n);
      SameHead(Low(y), LowBits(Half(y), n - 1), Low(z), LowBits(Half(z), n - 1));
      LowBitsDecide(Half(y), Half(z), n - 1);
      HalvesDecide(y, z);
    }
  }

  lemma SameHead(a: bool, x: Bits, b: bool, y: Bits)
    requires [a] + x == [b] + y
    ensures a == b && x == y
  {
    assert ([a] + x)[0] == ([b] + y)[0] && ([a] + x)[1..] == x && ([b] + y)[1..] == y;
  }

  lemma ByteBitsAre(b: bv8, y: bv16)
    requires y == b as bv16
    ensures ByteBits(b) == LowBits(y, 8)
  {
    hide LowBits;
  }

  lemma WideBitsDecide(a: bv8, b: bv8, y: bv16, z: bv16)
    requires y == a as bv16 && z == b as bv16 && ByteBits(a) == ByteBits(b)
    ensures a == b
  {
    hide *;
    ByteBitsAre(a, y);
    ByteBitsAre(b, z);
    ByteDropped(a, y);
    ByteDropped(b, z);
    LowBitsDecide(y, z, 8);
    WideByteDecides(a, b, y, z);
  }

  lemma ByteBitsDecide(a: bv8, b: bv8)
    requires ByteBits(a) == ByteBits(b)
    ensures a == b
  {
    hide *;
    WideBitsDecide(a, b, a as bv16, b as bv16);
  }

  lemma FrameBitsSplit(a: Bytes)
    requires a != []
    ensures var k := |a| - 1;
            FrameBits(a)[..8 * k] == FrameBits(a[..k]) && FrameBits(a)[8 * k..] == ByteBits(a[k])
  {
  }

  lemma LastBitsSame(a: Bytes, b: Bytes, k: nat)
    requires |a| == |b| == k + 1 && FrameBits(a) == FrameBits(b)
    ensures FrameBits(a[..k]) == FrameBits(b[..k]) && a[k] == b[k]
  {
    FrameBitsSplit(a);
    FrameBitsSplit(b);
    ByteBitsDecide(a[k], b[k]);
  }

  lemma {:induction false} FrameBitsDecide(a: Bytes, b: Bytes)
    requires |a| == |b| && FrameBits(a) == FrameBits(b)
    ensures a == b
    decreases |a|
  {
    hide FrameBits;
    if a != [] {
      var k := |a| - 1;
      LastBitsSame(a, b, k);
      FrameBitsDecide(a[..k], b[..k]);
      assert a == a[..k] + [a[k]];
    }
  }

  // ---------- linearity ----------

  lemma FeedIsLinear()
    ensures Additive(Step, FlipStep, Plus)
  {
    AddsZeroZero();
    AddsOneZero();
    AddsZeroOne();
    AddsOneOne();
  }

  /** Two messages of the same length reach the same register if and only if their errors alone reach zero. */
  lemma SameOrNot(c: bv16, a: Bits, b: Bits)
    requires |a| == |b|
    ensures Feed(c, a) == Feed(c, b) <==> Feed(0, Differ(a, b)) == 0
  {
    FeedIsLinear();
    RunLinear(Step, FlipStep, Plus, c, a, b);
    PlusSame(c, c);
    PlusSame(Feed(c, a), Feed(c, b));
  }

  // ---------- bursts ----------

  lemma FifteenHalves()
    ensures Threshold(15) == 1
  {
    assert Threshold(4) == 0x800 by { assert Threshold(2) == 0x2000; }
    assert Threshold(8) == 0x80 by { assert Threshold(6) == 0x200; }
    assert Threshold(12) == 0x8 by { assert Threshold(10) == 0x20; }
    assert Threshold(14) == 0x2;
  }

  lemma {:induction false} ThresholdPositive(k: nat, j: nat)
    requires j <= k && Threshold(k) != 0
    ensures Threshold(j) != 0
    decreases k
  {
    if j < k {
      ShiftOfZero(Threshold(k - 1));
      ThresholdPositive(k - 1, j);
    }
  }

  lemma HighIsNotZero(c: bv16, k: nat)
    requires High(c, k) && k <= 15
    ensures c != 0
  {
    FifteenHalves();
    ThresholdPositive(15, k);
  }

  lemma StaysHigh(c: bv16, bits: Bits)
    requires High(c, 0) && |bits| <= 15
    ensures Feed(c, bits) != 0
  {
    StepKeepsHigh();
    FlipStepKeepsHigh();
    RunKept(Step, FlipStep, High, c, bits);
    HighIsNotZero(Feed(c, bits), |bits|);
  }

  /** After an error the register keeps a bit set for fifteen more message bits, whatever they are. */
  lemma ShortErrors(errors: Bits)
    requires errors != [] && errors[0] && |errors| <= 16
    ensures Feed(0, errors) != 0
  {
    var rest := errors[1..];
    assert errors == [true] + rest;
    RunFirst(Step, FlipStep, 0, true, rest);
    FirstError();
    StaysHigh(FlipStep(0), rest);
  }

  /** Bits without an error keep a register zero, and keep it nonzero. */
  lemma ZerosKeep(c: bv16, bits: Bits)
    requires Zeros(bits)
    ensures Feed(c, bits) == 0 <==> c == 0
  {
    StepOnlyZero();
    RunZeros(Step, FlipStep, 0, c, bits);
  }

  /** Errors confined to sixteen consecutive bits leave the register nonzero. */
  lemma BurstLeavesTrace(errors: Bits, p: nat)
    requires !Zeros(errors)
    requires forall j | 0 <= j < |errors| && errors[j] :: p <= j < p + 16
    ensures Feed(0, errors) != 0
  {
    var i := FirstTrue(errors);
    var j := if i + 16 <= |errors| then i + 16 else |errors|;
    var before, burst, after := errors[..i], errors[i..j], errors[j..];
    assert errors == (before + burst) + after;
    RunConcat(Step, FlipStep, 0, before + burst, after);
    RunConcat(Step, FlipStep, 0, before, burst);
    ZerosKeep(0, before);
    ShortErrors(burst);
    ZerosKeep(Feed(0, burst), after);
  }

  lemma DifferSome(x: Bits, y: Bits)
    requires |x| == |y| && x != y
    ensures !Zeros(Differ(x, y))
  {
    var j :| 0 <= j < |x| && x[j] != y[j];
    assert Differ(x, y)[j];
  }

  lemma BurstInBits(c: bv16, x: Bits, y: Bits, p: nat)
    requires |x| == |y| && x != y
    requires forall i | 0 <= i < |x| && x[i] != y[i] :: p <= i < p + 16
    ensures Feed(c, x) != Feed(c, y)
  {
    SameOrNot(c, x, y);
    DifferSome(x, y);
    BurstLeavesTrace(Differ(x, y), p);
  }

  /** Two different frames of the same length whose bits differ only within sixteen consecutive ones have different
      CRCs; so they never both pass the receiver's zero test. */
  lemma BurstDetected(a: Bytes, b: Bytes, p: nat)
    requires |a| == |b| && a != b
    requires forall i | 0 <= i < 8 * |a| && FrameBits(a)[i] != FrameBits(b)[i] :: p <= i < p + 16
    ensures Crc(a) != Crc(b)
  {
    CrcIsFeed(0xFFFF, a);
    CrcIsFeed(0xFFFF, b);
    if FrameBits(a) == FrameBits(b) {
      FrameBitsDecide(a, b);
    }
    BurstInBits(0xFFFF, FrameBits(a), FrameBits(b), p);
  }

  // ---------- odd numbers of errors ----------

  lemma ZeroIsEven()
    ensures !Odd(0)
  {
  }

  /** Two frames of the same length that differ in an odd number of bits have different CRCs. */
  lemma OddErrorsDetected(a: Bytes, b: Bytes)
    requires |a| == |b| && Count(Differ(FrameBits(a), FrameBits(b))) % 2 == 1
    ensures Crc(a) != Crc(b)
  {
    SameOrNot(0xFFFF, FrameBits(a), FrameBits(b));
    CrcIsFeed(0xFFFF, a);
    CrcIsFeed(0xFFFF, b);
    StepKeepsParity();
    FlipStepFlipsParity();
    RunParity(Step, FlipStep, Odd, 0, Differ(FrameBits(a), FrameBits(b)));
    ZeroIsEven();
  }
}
