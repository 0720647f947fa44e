/** Bytes as the terminal sees them, and how it splits them by value. */
module Bytes {
  type byte = x: int | 0 <= x < 256

  const BEL: byte := 0x07
  const CAN: byte := 0x18
  const SUB: byte := 0x1a
  const ESC: byte := 0x1b
  const DEL: byte := 0x7f

  predicate IsDigit(c: byte) { 0x30 <= c <= 0x39 }

  predicate IsIntermed(c: byte) { 0x20 <= c <= 0x2f }

  predicate IsFinal(c: byte) { 0x40 <= c <= 0x7e }
}
