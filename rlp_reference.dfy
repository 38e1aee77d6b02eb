/** Reference definitions from Appendix B of the Ethereum Yellow Paper (RLP), restricted
    to what is needed to say what the boolean encoding means: bytes, and the encoding of
    a byte string of at most 55 bytes. These are specifications only; the repository's
    encoder for byte strings is not part of this model. */
module RlpReference {

  /** An octet, the unit of every RLP encoding (Rust's `u8`). */
  newtype Byte = x: int | 0 <= x < 0x100

  /** Offset of the one-byte prefix of a short byte string (its length is added to it). */
  const ShortStringOffset: Byte := 0x80

  /** The longest byte string that takes the one-byte (short-form) prefix. */
  const MaxShortLength: nat := 55

  /** A byte string of one byte below 0x80 is its own encoding. */
  predicate IsSingleByteShortcut(s: seq<Byte>) {
    |s| == 1 && s[0] < ShortStringOffset
  }

  /** The RLP item of a byte string of at most 55 bytes: the single-byte shortcut, or
      the prefix `0x80 + length` followed by the bytes themselves. */
  function ShortString(s: seq<Byte>): (r: seq<Byte>)
    requires |s| <= MaxShortLength
    ensures IsSingleByteShortcut(s) ==> r == s
    ensures !IsSingleByteShortcut(s) ==> |r| == |s| + 1 && r[0] as int == 0x80 + |s| && r[1..] == s
  {
    if IsSingleByteShortcut(s) then s
    else [(ShortStringOffset as int + |s|) as Byte] + s
  }
}
