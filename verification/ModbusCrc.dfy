/** CRC-16/MODBUS (main/protocol/modbus_crc.c), section 6.2.2 of the MODBUS over Serial Line Specification V1.02. */
module ModbusCrc {
  import opened CrcBits
  import opened Types

  function BitSteps(c: bv16, n: nat): bv16
    decreases n, c
  {
    if n == 0 then c else BitStep(BitSteps(c, n - 1))
  }

  /** One turn of the outer loop. */
  function Absorb(c: bv16, b: bv8): bv16 {
    BitSteps(c ^ (b as bv16), 8)
  }

  function CrcFrom(c: bv16, data: Bytes): bv16 {
    if data == [] then c else Absorb(CrcFrom(c, data[..|data| - 1]), data[|data| - 1])
  }

  function Crc(data: Bytes): bv16 {
    CrcFrom(0xFFFF, data)
  }

  lemma StepsNext(c: bv16, n: nat, next: nat, d: bv16)
    requires d == BitSteps(c, n) && next - 1 == n
    ensures BitSteps(c, next) == BitStep(d)
  {
    assert BitSteps(c, next - 1) == d;
  }

  /** `modbus_crc16`. */
  method ModbusCrc16(data: array<bv8>, len: nat) returns (crc: bv16)
    requires len <= data.Length && len < 0x1_0000
    ensures crc == Crc(data[..len])
  {
    crc := 0xFFFF;
    assert data[..0] == [];
    for i := 0 to len
      invariant crc == Crc(data[..i])
    {
      CrcLast(0xFFFF, data[..i], data[i]);
      assert data[..i + 1] == data[..i] + [data[i]];
      crc := crc ^ (data[i] as bv16);
      ghost var mixed := crc;
      for bit := 0 to 8
        invariant crc == BitSteps(mixed, bit)
      {
        ghost var before := crc;
        if crc & 1 == 1 {
          crc := (crc >> 1) ^ 0xA001;
        } else {
          crc := crc >> 1;
        }
        assert crc == BitStep(before);
        StepsNext(mixed, bit, bit + 1, before);
      }
    }
  }

  // ---------- eight bit steps at once ----------

  function EightSteps(c: bv16): bv16 {
    BitStep(BitStep(BitStep(BitStep(BitStep(BitStep(BitStep(BitStep(c))))))))
  }

  lemma EightIsEight(c: bv16)
    ensures BitSteps(c, 8) == EightSteps(c)
  {
    assert BitSteps(c, 1) == BitStep(c);
    assert BitSteps(c, 2) == BitStep(BitSteps(c, 1));
    assert BitSteps(c, 3) == BitStep(BitSteps(c, 2));
    assert BitSteps(c, 4) == BitStep(BitSteps(c, 3));
    assert BitSteps(c, 5) == BitStep(BitSteps(c, 4));
    assert BitSteps(c, 6) == BitStep(BitSteps(c, 5));
    assert BitSteps(c, 7) == BitStep(BitSteps(c, 6));
    assert BitSteps(c, 8) == BitStep(BitSteps(c, 7));
  }

  // ---------- the residue ----------

  /** The bit step is invertible at zero. */
  lemma StepZero(c: bv16)
    ensures BitStep(c) == 0 <==> c == 0
  {
  }

  lemma {:induction false} StepsZero(c: bv16, n: nat)
    ensures BitSteps(c, n) == 0 <==> c == 0
  {
    if n > 0 {
      StepZero(BitSteps(c, n - 1));
      StepsZero(c, n - 1);
    }
  }

  /** A state whose low byte is zero is only shifted; any other leaves something in the high byte. */
  lemma UpperByteClears(c: bv16)
    ensures EightSteps(c) & 0xFF00 == 0 <==> c & 0xFF == 0
    ensures c & 0xFF == 0 ==> EightSteps(c) == c >> 8
  {
  }

  /** The state after the low byte is a single byte exactly when that byte met its own value in the register. */
  lemma AbsorbLow(c: bv16, lo: bv8)
    ensures var d := Absorb(c, lo);
            && (d & 0xFF00 == 0 <==> (c ^ (lo as bv16)) & 0xFF == 0)
            && ((c ^ (lo as bv16)) & 0xFF == 0 ==> d == (c ^ (lo as bv16)) >> 8)
  {
    EightIsEight(c ^ (lo as bv16));
    UpperByteClears(c ^ (lo as bv16));
  }

  lemma AbsorbToZero(d: bv16, hi: bv8)
    ensures Absorb(d, hi) == 0 <==> d ^ (hi as bv16) == 0
  {
    StepsZero(d ^ (hi as bv16), 8);
  }

  lemma LowThenHigh(c: bv16, d: bv16, lo: bv8, hi: bv8)
    requires d & 0xFF00 == 0 <==> (c ^ (lo as bv16)) & 0xFF == 0
    requires (c ^ (lo as bv16)) & 0xFF == 0 ==> d == (c ^ (lo as bv16)) >> 8
    ensures d ^ (hi as bv16) == 0 <==> lo as bv16 == c & 0xFF && hi as bv16 == c >> 8
  {
  }

  lemma TwoBytesToZero(c: bv16, d: bv16, lo: bv8, hi: bv8)
    requires d == Absorb(c, lo)
    ensures Absorb(d, hi) == 0 <==> lo as bv16 == c & 0xFF && hi as bv16 == c >> 8
  {
    AbsorbLow(c, lo);
    LowThenHigh(c, d, lo, hi);
    AbsorbToZero(d, hi);
  }

  lemma CrcLast(c: bv16, m: Bytes, b: bv8)
    ensures CrcFrom(c, m + [b]) == Absorb(CrcFrom(c, m), b)
  {
    assert (m + [b])[..|m|] == m;
  }

  lemma CrcTwo(c: bv16, m: Bytes, lo: bv8, hi: bv8)
    ensures CrcFrom(c, m + [lo, hi]) == Absorb(Absorb(CrcFrom(c, m), lo), hi)
  {
    assert m + [lo, hi] == (m + [lo]) + [hi];
    CrcLast(c, m + [lo], hi);
    CrcLast(c, m, lo);
  }

  /** A whole frame has residue zero if and only if its last two bytes are the low and the high byte of the CRC of the
      rest: the order in which `modbus_send_request` appends them is the one the receiver's test accepts. */
  lemma Residue(m: Bytes, lo: bv8, hi: bv8)
    ensures Crc(m + [lo, hi]) == 0 <==> lo as bv16 == Crc(m) & 0xFF && hi as bv16 == Crc(m) >> 8
  {
    CrcTwo(0xFFFF, m, lo, hi);
    TwoBytesToZero(Crc(m), Absorb(Crc(m), lo), lo, hi);
  }
}
