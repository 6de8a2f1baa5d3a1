/** Bytes, an optional value, and the 16-bit big-endian length field of the
    AEAD chunk framing. */
module Bytes {

  newtype byte = x: int | 0 <= x < 256

  type Bytes = seq<byte>

  datatype Option<+T> = None | Some(value: T)

  const U16_LIMIT: nat := 0x1_0000

  /** `n as u16`: keeps the low 16 bits of `n`. */
  function AsU16(n: nat): (r: nat)
    ensures r < U16_LIMIT
    ensures n < U16_LIMIT ==> r == n
  {
    n % U16_LIMIT
  }

  /** `BigEndian::write_u16`: the high byte first, then the low byte;
      reading the field back gives `n`. */
  function WriteU16(n: nat): (r: Bytes)
    requires n < U16_LIMIT
    ensures |r| == 2 && ReadU16(r) == n
  {
    [(n / 256) as byte, (n % 256) as byte]
  }

  /** `BigEndian::read_u16` on a two-byte buffer. */
  function ReadU16(b: Bytes): (r: nat)
    requires |b| == 2
    ensures r < U16_LIMIT
  {
    b[0] as nat * 256 + b[1] as nat
  }

  /** Every two-byte field is the encoding of the value read from it, so
      the encoding is a bijection between [0, 2^16) and two-byte fields. */
  lemma WriteReadU16(b: Bytes)
    requires |b| == 2
    ensures WriteU16(ReadU16(b)) == b
  {
  }

  /** A length field is at most 0x3FFF exactly when its two most significant
      bits, the top bits of the first byte, are clear. */
  lemma ReadU16AtMost3FFF(b: Bytes)
    requires |b| == 2
    ensures ReadU16(b) <= 0x3FFF <==> b[0] < 0x40
  {
  }
}
