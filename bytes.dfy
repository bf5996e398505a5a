/** Fixed-width unsigned integers and their big-endian byte encodings. */
module Bytes {

  newtype uint8 = x: int | 0 <= x < 0x100
  newtype uint16 = x: int | 0 <= x < 0x1_0000
  newtype uint32 = x: int | 0 <= x < 0x1_0000_0000

  /** The two bytes of `x`, most significant first (`write_u16::<BE>`, `put_u16_be`). */
  function U16Bytes(x: uint16): (r: seq<uint8>)
    ensures |r| == 2
    ensures U16Of(r[0], r[1]) == x
  {
    [(x / 0x100) as uint8, (x % 0x100) as uint8]
  }

  /** The value of two bytes read most significant first (`read_u16::<BE>`). */
  function U16Of(hi: uint8, lo: uint8): (r: uint16)
    ensures r as int == hi as int * 0x100 + lo as int
  {
    (hi as int * 0x100 + lo as int) as uint16
  }

  /** The value of four bytes read most significant first (`read_u32::<BE>`). */
  function U32Of(b0: uint8, b1: uint8, b2: uint8, b3: uint8): (r: uint32)
    ensures r as int == ((b0 as int * 0x100 + b1 as int) * 0x100 + b2 as int) * 0x100 + b3 as int
  {
    (((b0 as int * 0x100 + b1 as int) * 0x100 + b2 as int) * 0x100 + b3 as int) as uint32
  }

  /** Reading back the two bytes written for `x` gives `x`, and the encoding is onto. */
  lemma U16BytesOf(hi: uint8, lo: uint8)
    ensures U16Bytes(U16Of(hi, lo)) == [hi, lo]
  {
  }

  predicate IsAscii(b: uint8) { b < 0x80 }

  predicate AllAscii(s: seq<uint8>) { forall i :: 0 <= i < |s| ==> IsAscii(s[i]) }
}
