/** The bit step of the CRC register (main/protocol/modbus_crc.c:17-26), one fact at a time. This module imports nothing
    and defines nothing recursive, which keeps its bit-vector lemmas cheap. */
module CrcBits {
  /** One turn of the inner loop. */
  function BitStep(c: bv16): bv16 {
    if c & 1 == 1 then (c >> 1) ^ 0xA001 else c >> 1
  }

  /** The step without its branch: the low bit leaves and, when set, flips the taps of the polynomial 0xA001, bits 15,
      13 and 0. */
  function Step(c: bv16): bv16 {
    (c >> 1) ^ ((c & 1) << 15) ^ ((c & 1) << 13) ^ (c & 1)
  }

  /** A step whose message bit, one, enters at the low end. */
  function FlipStep(c: bv16): bv16 {
    Step(c ^ 1)
  }

  function Plus(x: bv16, y: bv16): bv16 {
    x ^ y
  }

  predicate Low(c: bv16) {
    c & 1 == 1
  }

  function Half(c: bv16): bv16 {
    c >> 1
  }

  // ---------- the branch ----------

  lemma StepWhenSet(c: bv16)
    requires Low(c)
    ensures BitStep(c) == Step(c)
  {
  }

  lemma StepWhenClear(c: bv16)
    requires !Low(c)
    ensures BitStep(c) == Step(c)
  {
  }

  lemma BitStepIsStep(c: bv16)
    ensures BitStep(c) == Step(c)
  {
    hide *;
    if Low(c) {
      StepWhenSet(c);
    } else {
      StepWhenClear(c);
    }
  }

  // ---------- bits that wait for their turn ----------

  /** The bits of `y` that have not reached the low end yet ride along unchanged. */
  lemma RideAlongSet(s: bv16, y: bv16)
    requires Low(y)
    ensures Step(Plus(s, y)) == Plus(FlipStep(s), Half(y))
  {
  }

  lemma RideAlongClear(s: bv16, y: bv16)
    requires !Low(y)
    ensures Step(Plus(s, y)) == Plus(Step(s), Half(y))
  {
  }

  lemma HalvesDecide(y: bv16, z: bv16)
    requires Half(y) == Half(z) && Low(y) == Low(z)
    ensures y == z
  {
  }

  lemma EightHalves(b: bv8, y: bv16)
    requires y == b as bv16
    ensures Half(Half(Half(Half(Half(Half(Half(Half(y)))))))) == 0
  {
  }

  lemma WideByteDecides(a: bv8, b: bv8, y: bv16, z: bv16)
    requires y == a as bv16 && z == b as bv16 && y == z
    ensures a == b
  {
  }

  // ---------- sums ----------

  lemma PlusNought(x: bv16)
    ensures Plus(x, 0) == x
  {
  }

  lemma PlusSelf(x: bv16)
    ensures Plus(x, x) == 0
  {
  }

  lemma PlusOnlySame(x: bv16, y: bv16)
    requires Plus(x, y) == 0
    ensures x == y
  {
  }

  lemma PlusSame(x: bv16, y: bv16)
    ensures Plus(x, y) == 0 <==> x == y
  {
    hide *;
    if Plus(x, y) == 0 {
      PlusOnlySame(x, y);
    } else {
      PlusSelf(x);
    }
  }

  lemma ShiftOfZero(t: bv16)
    ensures t == 0 ==> Half(t) == 0
  {
  }

  // ---------- parity ----------

  /** The number of bits set, modulo two, by adding neighbouring fields. */
  function Fold(c: bv16): bv16 {
    var d := (c & 0x5555) + ((c >> 1) & 0x5555);
    var e := (d & 0x3333) + ((d >> 2) & 0x3333);
    var f := (e & 0x0F0F) + ((e >> 4) & 0x0F0F);
    ((f & 0xFF) + (f >> 8)) & 1
  }

  lemma FoldOfStep(d: bv16)
    ensures Fold(Step(d)) == Fold(d)
  {
  }

  lemma FoldOfFlip(c: bv16)
    ensures Fold(c ^ 1) == Fold(c) ^ 1
  {
  }

  lemma FoldIsBit(c: bv16)
    ensures Fold(c) == 0 || Fold(c) == 1
  {
  }

  lemma OtherBit(f: bv16, g: bv16)
    requires (f == 0 || f == 1) && g == f ^ 1
    ensures (g == 1) != (f == 1)
  {
  }
}
