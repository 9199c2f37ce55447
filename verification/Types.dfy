/** The records that the layers share (main/common/types.h). */
module Types {
  datatype Option<+T> = None | Some(value: T)

  type Bytes = seq<bv8>

  /** The number of values of a `uint32_t`. */
  const U32: nat := 0x1_0000_0000

  /** A measurement: the zero of a cleared record, a preset, or a raw register and its scale factor. The product is
      floating point in the source, so it is kept as its two factors. */
  datatype Value = Zero | Preset(value: real) | Scaled(raw: bv16, scale: real)

  /** `device_data_t`; `ts` in milliseconds. */
  datatype Device = Device(id: bv8, name: string, online: bool, ts: bv32, temp: Value, humi: Value, current: Value)

  /** The record after `memset` to zero. */
  const CLEARED := Device(0, "", false, 0, Zero, Zero, Zero)
}
