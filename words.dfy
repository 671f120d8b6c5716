/** Fixed-width integers of the Teensy 4 USB audio core and the bit-level packing it
    uses when it moves 16-bit samples through 32-bit words (ARM, little-endian). */
module Words {

  newtype uint8 = x: int | 0 <= x < 0x100
  newtype uint16 = x: int | 0 <= x < 0x1_0000
  newtype int16 = x: int | -0x8000 <= x < 0x8000
  newtype uint32 = x: int | 0 <= x < 0x1_0000_0000

  datatype Option<T> = None | Some(value: T)

  /** `n & 0xFFFF` of a 32-bit word. */
  function Lo(w: uint32): uint16
  {
    (w as int % 0x1_0000) as uint16
  }

  /** `n >> 16` of a 32-bit word. */
  function Hi(w: uint32): uint16
  {
    (w as int / 0x1_0000) as uint16
  }

  /** `lo | (hi << 16)`: the 32-bit word whose little-endian halves are `lo` then `hi`. */
  function Pack(lo: uint16, hi: uint16): (w: uint32)
    ensures Lo(w) == lo && Hi(w) == hi
  {
    (hi as int * 0x1_0000 + lo as int) as uint32
  }

  /** Splitting a word and packing the halves again gives the word back. */
  lemma PackOfHalves(w: uint32)
    ensures Pack(Lo(w), Hi(w)) == w
  {
  }

  /** Reading a 16-bit pattern as `int16_t` (two's complement). */
  function Signed(u: uint16): int16
  {
    if u < 0x8000 then u as int as int16 else (u as int - 0x1_0000) as int16
  }

  /** The 16-bit pattern of an `int16_t`: what `& 0xFFFF`, or a store into a `uint16_t`, keeps. */
  function Bits(s: int16): uint16
  {
    (s as int % 0x1_0000) as uint16
  }

  lemma SignedOfBits(s: int16)
    ensures Signed(Bits(s)) == s
  {
  }

  lemma BitsOfSigned(u: uint16)
    ensures Bits(Signed(u)) == u
  {
  }

  /** Unsigned 32-bit arithmetic: the result of `x + d` stored into a `uint32_t`. */
  function Add32(x: uint32, d: int): uint32
  {
    ((x as int + d) % 0x1_0000_0000) as uint32
  }

  /** `x++` on a `uint32_t` counter. */
  function Inc32(x: uint32): (r: uint32)
    ensures r != x
    ensures x as int < 0xFFFF_FFFF ==> r as int == x as int + 1
  {
    Add32(x, 1)
  }
}
