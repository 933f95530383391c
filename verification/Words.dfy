/** The fixed-width integers the source uses, and the optional value shared by the modules. */
module Words {
  type Byte = x: int | 0 <= x < 0x100
  type Uint16 = x: int | 0 <= x < 0x1_0000
  type Uint32 = x: int | 0 <= x < 0x1_0000_0000
  type Uint64 = x: int | 0 <= x < 0x1_0000_0000_0000_0000
  type Int64 = x: int | -0x8000_0000_0000_0000 <= x < 0x8000_0000_0000_0000

  datatype Option<+T> = None | Some(value: T)

  /** `static_cast<uint8_t>` of a non-negative value. */
  function NarrowToByte(x: nat): Byte {
    x % 0x100
  }

  /** The implicit conversion of a count to a `uint16_t` parameter. */
  function NarrowToUint16(x: nat): Uint16 {
    x % 0x1_0000
  }
}
