/** Registers that are fed a message bit by bit, whatever the register is. */
module ShiftRegister {
  type Bits = seq<bool>

  /** The register after the whole message: `zero` and `one` are its steps on a message bit of that value. */
  function Run<T>(zero: T -> T, one: T -> T, c: T, bits: Bits): T
    decreases |bits|
  {
    if bits == [] then c else
      var r := Run(zero, one, c, bits[..|bits| - 1]);
      if bits[|bits| - 1] then one(r) else zero(r)
  }

  lemma RunLast<T>(zero: T -> T, one: T -> T, c: T, bits: Bits, b: bool)
    ensures Run(zero, one, c, bits + [b]) == if b then one(Run(zero, one, c, bits)) else zero(Run(zero, one, c, bits))
  {
    assert (bits + [b])[..|bits|] == bits;
  }

  lemma {:induction false} RunConcat<T>(zero: T -> T, one: T -> T, c: T, x: Bits, y: Bits)
    ensures Run(zero, one, c, x + y) == Run(zero, one, Run(zero, one, c, x), y)
    decreases |y|
  {
    if y == [] {
      assert x + y == x;
    } else {
      var k := |y| - 1;
      RunConcat(zero, one, c, x, y[..k]);
      assert x + y == (x + y[..k]) + [y[k]];
      RunLast(zero, one, c, x + y[..k], y[k]);
    }
  }

  lemma RunFirst<T>(zero: T -> T, one: T -> T, c: T, b: bool, bits: Bits)
    ensures Run(zero, one, c, [b] + bits) == Run(zero, one, if b then one(c) else zero(c), bits)
  {
    RunConcat(zero, one, c, [b], bits);
    assert [b] == [] + [b];
    RunLast(zero, one, c, [], b);
  }

  // ---------- linearity ----------

  ghost function Differ(a: Bits, b: Bits): (d: Bits)
    requires |a| == |b|
    ensures |d| == |a|
  {
    seq(|a|, i requires 0 <= i < |a| => a[i] != b[i])
  }

  /** The step `h` on a sum is the sum of the steps `f` and `g`. */
  ghost predicate Adds<T(!new)>(f: T -> T, g: T -> T, h: T -> T, plus: (T, T) -> T) {
    forall x, y :: h(plus(x, y)) == plus(f(x), g(y))
  }

  ghost predicate Additive<T(!new)>(zero: T -> T, one: T -> T, plus: (T, T) -> T) {
    && Adds(zero, zero, zero, plus) && Adds(one, zero, one, plus)
    && Adds(zero, one, one, plus) && Adds(one, one, zero, plus)
  }

  /** Two runs from the same register differ by the run of the differing bits from their difference at the start. */
  lemma {:induction false} RunLinear<T(!new)>(zero: T -> T, one: T -> T, plus: (T, T) -> T, c: T, a: Bits, b: Bits)
    requires |a| == |b| && Additive(zero, one, plus)
    ensures Run(zero, one, plus(c, c), Differ(a, b)) == plus(Run(zero, one, c, a), Run(zero, one, c, b))
    decreases |a|
  {
    if a != [] {
      var k := |a| - 1;
      RunLinear(zero, one, plus, c, a[..k], b[..k]);
      assert Differ(a, b)[..k] == Differ(a[..k], b[..k]);
      assert Differ(a, b)[k] == (a[k] != b[k]);
    }
  }

  // ---------- invariants of runs ----------

  ghost predicate Kept<T(!new)>(f: T -> T, inv: (T, nat) -> bool) {
    forall x, n: nat {:trigger f(x), inv(x, n)} :: inv(x, n) ==> inv(f(x), n + 1)
  }

  /** A bound that every step keeps, whatever the message. */
  lemma {:induction false} RunKept<T(!new)>(zero: T -> T, one: T -> T, inv: (T, nat) -> bool, c: T, bits: Bits)
    requires Kept(zero, inv) && Kept(one, inv) && inv(c, 0)
    ensures inv(Run(zero, one, c, bits), |bits|)
    decreases |bits|
  {
    if bits != [] {
      var k: nat := |bits| - 1;
      RunKept(zero, one, inv, c, bits[..k]);
      var x := Run(zero, one, c, bits[..k]);
      assert inv(x, k);
      assert inv(one(x), k + 1) && inv(zero(x), k + 1);
    }
  }

  ghost predicate Zeros(bits: Bits) {
    forall i | 0 <= i < |bits| :: !bits[i]
  }

  /** A register that zero bits alone neither reach nor leave. */
  lemma {:induction false} RunZeros<T(!new)>(zero: T -> T, one: T -> T, nought: T, c: T, bits: Bits)
    requires Zeros(bits) && forall x :: zero(x) == nought <==> x == nought
    ensures Run(zero, one, c, bits) == nought <==> c == nought
    decreases |bits|
  {
    if bits != [] {
      RunZeros(zero, one, nought, c, bits[..|bits| - 1]);
    }
  }

  function Count(bits: Bits): nat
    decreases |bits|
  {
    if bits == [] then 0 else Count(bits[..|bits| - 1]) + if bits[|bits| - 1] then 1 else 0
  }

  ghost predicate Keeps<T(!new)>(f: T -> T, odd: T -> bool) {
    forall x :: odd(f(x)) == odd(x)
  }

  ghost predicate Flips<T(!new)>(f: T -> T, odd: T -> bool) {
    forall x :: odd(f(x)) != odd(x)
  }

  lemma {:induction false} RunParity<T(!new)>(zero: T -> T, one: T -> T, odd: T -> bool, c: T, bits: Bits)
    requires Keeps(zero, odd) && Flips(one, odd)
    ensures odd(Run(zero, one, c, bits)) == (odd(c) != (Count(bits) % 2 == 1))
    decreases |bits|
  {
    if bits != [] {
      RunParity(zero, one, odd, c, bits[..|bits| - 1]);
    }
  }

  lemma {:induction false} FirstTrue(bits: Bits) returns (i: nat)
    requires !Zeros(bits)
    ensures i < |bits| && bits[i] && Zeros(bits[..i])
    decreases |bits|
  {
    var k := |bits| - 1;
    if Zeros(bits[..k]) {
      i := k;
      assert forall j | 0 <= j < k :: bits[..k][j] == bits[j];
    } else {
      i := FirstTrue(bits[..k]);
      assert bits[..k][..i] == bits[..i];
    }
  }
}
