/** The machine words of the drivers, and the arithmetic the C code does on them. */
module Words {
  type Byte = x: int | 0 <= x < 0x100
  type Word16 = x: int | 0 <= x < 0x1_0000
  type U32 = x: int | 0 <= x < 0x1_0000_0000
  type U64 = x: int | 0 <= x < 0x1_0000_0000_0000_0000
  type I32 = x: int | -0x8000_0000 <= x < 0x8000_0000

  /** Conversion of a signed value to `u32`, and wrap-around of `u32` arithmetic. */
  function ToU32(x: int): U32 {
    x % 0x1_0000_0000
  }

  datatype Option<T> = None | Some(value: T)

  function Bit(b: bool): nat {
    if b then 1 else 0
  }

  function Min(a: nat, b: nat): nat {
    if a < b then a else b
  }

  /** `b | mask`, for a mask that is a single bit. */
  function SetBit(b: Byte, mask: Byte): (r: int)
    requires mask == 1 || mask == 2 || mask == 4 || mask == 8 || mask == 16 || mask == 32 || mask == 64 || mask == 128
    ensures 0 <= r < 0x100
  {
    if (b / mask) % 2 == 1 then b else b + mask
  }
}
