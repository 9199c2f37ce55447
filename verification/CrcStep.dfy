/** What one bit step does to a register value. */
module CrcStep {
  import opened CrcBits
  import opened ShiftRegister

  /** What is left of a word when its `n` low bits have gone. */
  function DropBits(y: bv16, n: nat): bv16
    decreases n
  {
    if n == 0 then y else DropBits(Half(y), n - 1)
  }

  // ---------- linearity ----------

  lemma AddsZeroZero()
    ensures Adds(Step, Step, Step, Plus)
  {
  }

  lemma AddsOneZero()
    ensures Adds(FlipStep, Step, FlipStep, Plus)
  {
  }

  lemma AddsZeroOne()
    ensures Adds(Step, FlipStep, FlipStep, Plus)
  {
  }

  lemma AddsOneOne()
    ensures Adds(FlipStep, FlipStep, Step, Plus)
  {
  }

  // ---------- a bit that stays set ----------

  function Threshold(k: nat): bv16
    decreases k
  {
    if k == 0 then 0x8000 else Half(Threshold(k - 1))
  }

  /** Some bit is set that `k` steps have not shifted below the low end. */
  predicate High(c: bv16, k: nat) {
    c >= Threshold(k)
  }

  lemma StepKeepsHigh()
    ensures Kept(Step, High)
  {
  }

  lemma FlipStepKeepsHigh()
    ensures Kept(FlipStep, High)
  {
  }

  lemma FirstError()
    ensures High(FlipStep(0), 0)
  {
  }

  lemma StepOnlyZero()
    ensures forall c :: Step(c) == 0 <==> c == 0
  {
  }

  // ---------- parity ----------

  /** The parity of the bits of the register. */
  predicate Odd(c: bv16) {
    Fold(c) == 1
  }

  /** The polynomial has an odd number of taps, so a step passes the parity on. */
  lemma StepKeepsParity()
    ensures Keeps(Step, Odd)
  {
  }

  lemma FlipFold(c: bv16, d: bv16, e: bv16)
    requires d == c ^ 1 && e == FlipStep(c)
    ensures Fold(e) == Fold(c) ^ 1
  {
    FoldOfStep(d);
    FoldOfFlip(c);
  }

  lemma FlipStepFlips(c: bv16, f: bv16, g: bv16)
    requires f == Fold(c) && g == Fold(FlipStep(c))
    ensures (g == 1) != (f == 1)
  {
    FlipFold(c, c ^ 1, FlipStep(c));
    FoldIsBit(c);
    OtherBit(f, g);
  }

  lemma FlipStepFlipsParity()
    ensures Flips(FlipStep, Odd)
  {
    forall c: bv16
      ensures Odd(FlipStep(c)) != Odd(c)
    {
      FlipStepFlips(c, Fold(c), Fold(FlipStep(c)));
    }
  }
}
