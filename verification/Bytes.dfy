/** Bytes and the 16-bit packings of the wire formats. Masks and shifts of non-negative
    integers are written as remainders and quotients. */
module Bytes {

  type byte = x: int | 0 <= x < 256

  type u16 = x: int | 0 <= x < 65536

  type i16 = x: int | -32768 <= x < 32768

  /** Both signed and unsigned 16-bit values go out as their low and high byte. */
  function Low(x: int): byte {
    x % 256
  }

  function High(x: int): byte {
    x / 256 % 256
  }

  function U16(low: byte, high: byte): u16 {
    low + 256 * high
  }

  function I16(low: byte, high: byte): i16 {
    var u := U16(low, high);
    if u >= 32768 then u - 65536 else u
  }

  lemma I16RoundTrip(x: i16)
    ensures I16(Low(x), High(x)) == x
  {
  }
}
