/** Octets and the little-endian 16-bit fields every HCI header is made of. */
module Octets {

  type byte = x: int | 0 <= x < 0x100
  type u16 = x: int | 0 <= x < 0x1_0000

  datatype Option<+T> = None | Some(value: T)

  function Le16(lo: byte, hi: byte): u16 {
    lo + 0x100 * hi
  }

  function Lo(v: u16): byte {
    v % 0x100
  }

  function Hi(v: u16): byte {
    v / 0x100
  }

  /** The two octets of a 16-bit field are a bijective encoding of it. */
  lemma Le16RoundTrip(v: u16, lo: byte, hi: byte)
    ensures Le16(Lo(v), Hi(v)) == v
    ensures Lo(Le16(lo, hi)) == lo && Hi(Le16(lo, hi)) == hi
  {
  }
}
