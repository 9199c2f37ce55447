/** Modbus RTU frames: section 6.3 of the MODBUS Application Protocol Specification V1.1b3 for the function, section
    6.2.2 of the MODBUS over Serial Line Specification V1.02 for the CRC at the end. */
module Frames {
  import opened ModbusCrc
  import opened Types

  function LowByte(c: bv16): bv8 {
    (c & 0xFF) as bv8
  }

  function HighByte(c: bv16): bv8 {
    (c >> 8) as bv8
  }

  function Join(hi: bv8, lo: bv8): bv16 {
    ((hi as bv16) << 8) | (lo as bv16)
  }

  lemma SplitJoin(c: bv16)
    ensures Join(HighByte(c), LowByte(c)) == c
  {
  }

  lemma LowByteWide(c: bv16)
    ensures LowByte(c) as bv16 == c & 0xFF
  {
  }

  lemma HighByteWide(c: bv16)
    ensures HighByte(c) as bv16 == c >> 8
  {
  }

  /** A message with its CRC, low byte first. */
  function WithCrc(m: Bytes): Bytes {
    m + [LowByte(Crc(m)), HighByte(Crc(m))]
  }

  lemma WithCrcPasses(m: Bytes)
    ensures Crc(WithCrc(m)) == 0
  {
    LowByteWide(Crc(m));
    HighByteWide(Crc(m));
    Residue(m, LowByte(Crc(m)), HighByte(Crc(m)));
  }

  /** The request to read `count` holding registers from `reg` on. */
  function Request(addr: bv8, reg: bv16, count: bv16): Bytes {
    WithCrc([addr, 0x03, HighByte(reg), LowByte(reg), HighByte(count), LowByte(count)])
  }

  /** The frame asks slave `addr` for `count` holding registers from `reg` on, high bytes first, and its CRC passes. */
  ghost predicate Asks(f: Bytes, addr: bv8, reg: bv16, count: bv16) {
    && |f| == 8 && f[0] == addr && f[1] == 0x03
    && f[2] as bv16 == reg >> 8 && f[3] as bv16 == reg & 0xFF
    && f[4] as bv16 == count >> 8 && f[5] as bv16 == count & 0xFF
    && Crc(f) == 0
  }

  /** A slave that takes a request apart finds the address, the register and the count that were asked for, and a CRC
      that passes. */
  lemma RequestCarries(addr: bv8, reg: bv16, count: bv16)
    ensures var f := Request(addr, reg, count);
            Asks(f, addr, reg, count) && Join(f[2], f[3]) == reg && Join(f[4], f[5]) == count
  {
    SplitJoin(reg);
    SplitJoin(count);
    HighByteWide(reg);
    LowByteWide(reg);
    HighByteWide(count);
    LowByteWide(count);
    WithCrcPasses([addr, 0x03, HighByte(reg), LowByte(reg), HighByte(count), LowByte(count)]);
  }

  lemma JoinHigh(hi: bv8, lo: bv8)
    ensures Join(hi, lo) >> 8 == hi as bv16
  {
  }

  lemma JoinLow(hi: bv8, lo: bv8)
    ensures Join(hi, lo) & 0xFF == lo as bv16
  {
  }

  /** The normal response that carries one register. */
  function Reply(addr: bv8, value: bv16): (f: Bytes)
    ensures |f| == 7
  {
    WithCrc([addr, 0x03, 0x02, HighByte(value), LowByte(value)])
  }

  /** An exception response. */
  function Exception(addr: bv8, code: bv8): (f: Bytes)
    ensures |f| == 5
  {
    WithCrc([addr, 0x83, code])
  }

  lemma WideByte(b: bv8, w: bv16)
    requires w == b as bv16
    ensures 0xFFFF ^ w != 0
  {
  }

  /** A frame whose CRC passes has at least two bytes. */
  lemma PassingLength(f: Bytes)
    requires Crc(f) == 0
    ensures |f| >= 2
  {
    if |f| == 1 {
      assert f == [] + [f[0]];
      CrcLast(0xFFFF, [], f[0]);
      StepsZero(0xFFFF ^ (f[0] as bv16), 8);
      WideByte(f[0], f[0] as bv16);
    }
  }
}
