/** The byte substitution applied to tunnelled traffic (`transfer/src/byte_shift.rs`): every byte
    is shifted by a fixed amount, modulo 256. Both directions are written in 8-bit arithmetic
    with the branches of `encode` and `decode`, so each intermediate value is checked to stay within a byte. */
module ByteShift {
  import opened Bytes

  datatype ByteShifter = ByteShifter(sugar: uint8) {

    /** `encode`: add the sugar, wrapping past 255 back to 0. */
    function Encode(b: uint8): (r: uint8)
      ensures r as int == (b as int + sugar as int) % 256
    {
      if b <= 255 - sugar then b + sugar
      else sugar - (255 - b) - 1
    }

    /** `decode`: subtract the sugar, wrapping below 0 back to 255. */
    function Decode(b: uint8): (r: uint8)
      ensures r as int == (b as int - sugar as int) % 256
    {
      if b >= sugar then b - sugar
      else 255 - (sugar - b) + 1
    }
  }

  /** `ByteShifter::new`. */
  function New(sugar: uint8): (s: ByteShifter)
    ensures s.sugar == sugar
  {
    ByteShifter(sugar)
  }

  /** Decoding undoes encoding, for every sugar and byte. */
  lemma DecodeEncode(s: ByteShifter, b: uint8)
    ensures s.Decode(s.Encode(b)) == b
  {
  }

  /** Encoding undoes decoding, for every sugar and byte: the shift is a bijection on bytes. */
  lemma EncodeDecode(s: ByteShifter, b: uint8)
    ensures s.Encode(s.Decode(b)) == b
  {
  }

  /** Different bytes are never encoded alike. */
  lemma EncodeInjective(s: ByteShifter, b: uint8, c: uint8)
    ensures s.Encode(b) == s.Encode(c) <==> b == c
  {
    DecodeEncode(s, b);
    DecodeEncode(s, c);
  }

  /** With sugar 0 both directions leave every byte as it is. */
  lemma ZeroSugar(b: uint8)
    ensures New(0).Encode(b) == b && New(0).Decode(b) == b
  {
  }

  /** The encoding vectors for sugar 10. */
  lemma EncodeVectors()
    ensures var s := New(10);
      && s.Encode(0) == 10 && s.Encode(1) == 11 && s.Encode(10) == 20 && s.Encode(245) == 255
      && s.Encode(246) == 0 && s.Encode(250) == 4 && s.Encode(255) == 9
  {
  }

  /** The decoding vectors for sugar 10. */
  lemma DecodeVectors()
    ensures var s := New(10);
      && s.Decode(255) == 245 && s.Decode(254) == 244 && s.Decode(11) == 1 && s.Decode(10) == 0
      && s.Decode(9) == 255 && s.Decode(8) == 254 && s.Decode(1) == 247 && s.Decode(0) == 246
  {
  }
}
