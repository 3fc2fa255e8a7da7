/** Bytes, and the ones the shell writes as a pair: the byte Meta, then the byte with
    bit 5 turned over (bsh.h, `inittyptab` in utils.c). */
module Bytes {
  type Byte = b: int | 0 <= b < 256 witness 0

  const META: Byte := 0x83
  const NULARG: Byte := 0xa1
  const NEWLINE: Byte := 10
  const SPACE: Byte := 32

  /** `itok`: the lexer's tokens. */
  predicate IsTok(b: Byte) { 0x84 <= b <= 0xa1 }

  /** `imeta`: NUL, Meta itself, the tokens and the marker. */
  predicate IsMeta(b: Byte) { b == 0 || 0x83 <= b <= 0xa2 }

  /** `b ^ 32`. */
  function Flip(b: Byte): (r: Byte)
    ensures r == b + 32 || r == b - 32
    ensures (r / 32) % 2 != (b / 32) % 2
  {
    if (b / 32) % 2 == 0 then b + 32 else b - 32
  }
}
