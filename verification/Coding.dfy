/** Fixed-width little-endian words, and the masking of stored checksums. */
module Coding {
  import opened Keys

  type word = w: int | 0 <= w < 0x1_0000_0000

  function Power2(n: nat): (p: nat)
    ensures p > 0
  {
    if n == 0 then 1 else 2 * Power2(n - 1)
  }

  function EncodeFixed32(w: word): (bytes: seq<byte>)
    ensures |bytes| == 4
  {
    [w % 0x100, w / 0x100 % 0x100, w / 0x100 / 0x100 % 0x100, w / 0x100 / 0x100 / 0x100]
  }

  function DecodeFixed32(bytes: seq<byte>): word
    requires |bytes| >= 4
  {
    bytes[0] as int + bytes[1] as int * 0x100 + bytes[2] as int * 0x1_0000 + bytes[3] as int * 0x100_0000
  }

  lemma Fixed32RoundTrip(w: word, rest: seq<byte>)
    ensures DecodeFixed32(EncodeFixed32(w) + rest) == w
  {
    var bytes := EncodeFixed32(w);
    assert (bytes + rest)[..4] == bytes;
    assert forall i :: 0 <= i < 4 ==> (bytes + rest)[i] == bytes[i];
  }

  const MASK_DELTA: word := 0xa282ead8

  /** Rotations by 15 bits. */
  function RotateRight15(x: word): word { x / 0x8000 + x % 0x8000 * 0x2_0000 }

  function RotateLeft15(x: word): word { x / 0x2_0000 + x % 0x2_0000 * 0x8000 }

  /** Rotate right by 15 bits and add a constant, modulo 2^32. */
  function Mask(crc: word): word { (RotateRight15(crc) + MASK_DELTA) % 0x1_0000_0000 }

  /** Subtract the constant, modulo 2^32, and rotate left by 15 bits. */
  function Unmask(masked: word): word { RotateLeft15((masked - MASK_DELTA) % 0x1_0000_0000) }

  lemma Halves(high: int, low: int)
    requires high >= 0
    ensures 0 <= low < 0x2_0000 ==>
      (low + high * 0x2_0000) / 0x2_0000 == high && (low + high * 0x2_0000) % 0x2_0000 == low
    ensures 0 <= low < 0x8000 ==> (low + high * 0x8000) / 0x8000 == high && (low + high * 0x8000) % 0x8000 == low
  {
  }

  lemma RotationsInvert(x: word)
    ensures RotateLeft15(RotateRight15(x)) == x && RotateRight15(RotateLeft15(x)) == x
  {
    Halves(x % 0x8000, x / 0x8000);
    Halves(x % 0x2_0000, x / 0x2_0000);
  }

  lemma UnmaskInvertsMask(crc: word)
    ensures Unmask(Mask(crc)) == crc && Mask(Unmask(crc)) == crc
  {
    hide RotateRight15, RotateLeft15;
    RotationsInvert(crc);
    RotationsInvert((crc - MASK_DELTA) % 0x1_0000_0000);
    AddThenSubtract(RotateRight15(crc));
    SubtractThenAdd(crc);
  }

  lemma AddThenSubtract(x: word)
    ensures ((x + MASK_DELTA) % 0x1_0000_0000 - MASK_DELTA) % 0x1_0000_0000 == x
  {
  }

  lemma SubtractThenAdd(x: word)
    ensures ((x - MASK_DELTA) % 0x1_0000_0000 + MASK_DELTA) % 0x1_0000_0000 == x
  {
  }
}
