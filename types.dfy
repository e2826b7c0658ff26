/** Machine-level types shared by the glyph-to-Unicode resolution model. */
module Types {

  /** Conventional optional value (used for "no glyph name" and "not a ligature"). */
  datatype Option<+T> = None | Some(value: T)

  /** Size of the 32-bit unsigned integer range. */
  const TwoTo32: int := 0x1_0000_0000

  /** A 32-bit unsigned integer, as `unsigned int` on the source's platforms. */
  type uint32 = x: int | 0 <= x < 0x1_0000_0000

  /** A resolved Unicode codepoint (`Unicode` in the source: an unsigned 32-bit value). */
  type Unicode = uint32

  /** A font-local glyph code (`CharCode` in the source: an unsigned 32-bit value). */
  type CharCode = uint32

  /** Unsigned 32-bit wrap-around, as performed by the C++ unsigned `+` on `unsigned int` operands. */
  function Wrap(x: int): (r: uint32)
    ensures 0 <= x < TwoTo32 ==> r == x
    ensures TwoTo32 <= x < 2 * TwoTo32 ==> r == x - TwoTo32
  {
    x % TwoTo32
  }
}
