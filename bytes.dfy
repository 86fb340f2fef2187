/** Bytes as they sit in a Node.js Buffer, and the little-endian 16-bit read. */
module Bytes {

  /** One element of a Buffer: an integer in 0..255. */
  type Byte = b: int | 0 <= b < 0x100

  const Int16Min: int := -0x8000
  const Int16Max: int := 0x7FFF

  /** The value `Buffer.readInt16LE` returns for the two bytes `lo`, `hi`:
      the unsigned value `lo + 256 * hi` read as two's complement.
      The result is the one 16-bit signed integer congruent to the raw
      unsigned value modulo 2^16, so the two bytes can be recovered from it. */
  function Int16LE(lo: Byte, hi: Byte): (v: int)
    ensures Int16Min <= v <= Int16Max
    ensures v % 0x1_0000 == lo + 0x100 * hi
  {
    var raw := lo + 0x100 * hi;
    if raw >= 0x8000 then raw - 0x1_0000 else raw
  }

  /** The two bytes a 16-bit signed value is stored as, low byte first. */
  function Int16Bytes(v: int): (b: (Byte, Byte))
    requires Int16Min <= v <= Int16Max
  {
    var raw := v % 0x1_0000;
    (raw % 0x100, raw / 0x100)
  }

  /** Reading back what was stored gives the stored value, and reading
      any two bytes and storing the result gives the same two bytes. */
  lemma Int16RoundTrip(v: int, lo: Byte, hi: Byte)
    requires Int16Min <= v <= Int16Max
    ensures Int16LE(Int16Bytes(v).0, Int16Bytes(v).1) == v
    ensures Int16Bytes(Int16LE(lo, hi)) == (lo, hi)
  {
  }
}
