// Fixed-width values of the 8086 instruction stream and their two's-complement readings.

module Numeric {

  /** One byte of the instruction stream (Go's `byte`). */
  type Byte = b: int | 0 <= b < 256

  /** A 16-bit unsigned value (Go's `uint16`). */
  type Word = w: int | 0 <= w < 65536

  /** A one-bit field of an opcode (W, D, S, V, Z). */
  type Bit = b: int | 0 <= b < 2

  /** The two-bit MOD field. */
  type Field2 = f: int | 0 <= f < 4

  /** A three-bit REG or R/M field. */
  type Field3 = f: int | 0 <= f < 8

  /** Bit 0 of a byte (`b & 0b1`). */
  function Bit0(b: Byte): Bit { b % 2 }

  /** Bit 1 of a byte (`(b >> 1) & 0b1`). */
  function Bit1(b: Byte): Bit { (b / 2) % 2 }

  /** Bit 3 of a byte (`(b >> 3) & 0b1`). */
  function Bit3(b: Byte): Bit { (b / 8) % 2 }

  /** Bits 0-2 of a byte (`b & 0b111`). */
  function Low3(b: Byte): Field3 { b % 8 }

  /** Bits 3-5 of a byte (`(b >> 3) & 0b111`). */
  function Middle3(b: Byte): Field3 { (b / 8) % 8 }

  /** `binary.LittleEndian.Uint16([]byte{low, high})`: the low byte comes first. */
  function LittleEndian(low: Byte, high: Byte): (w: Word)
    ensures w % 256 == low && w / 256 == high
  {
    low + 256 * high
  }

  /** Go's `int8(b)`: the two's-complement reading of a byte. */
  function Int8(b: Byte): (s: int)
    ensures -128 <= s < 128
    ensures s < 0 <==> b >= 128
    ensures s == b || s == b - 256
  {
    if b < 128 then b else b - 256
  }

  /** Go's `int16(w)`: the two's-complement reading of a 16-bit value. */
  function Int16(w: Word): (s: int)
    ensures -32768 <= s < 32768
    ensures s < 0 <==> w >= 32768
    ensures s == w || s == w - 65536
  {
    if w < 32768 then w else w - 65536
  }

  /**
   * Go's `^s + 1` on an `int8`: negation modulo 256, read back as an `int8`.
   * It is the magnitude for every negative value except -128, which stays -128.
   */
  function Negate8(s: int): (n: int)
    requires -128 <= s < 128
    ensures s != -128 ==> n == -s
    ensures s == -128 ==> n == -128
  {
    Int8((-s) % 256)
  }

  /** Go's `^s + 1` on an `int16`; -32768 stays -32768. */
  function Negate16(s: int): (n: int)
    requires -32768 <= s < 32768
    ensures s != -32768 ==> n == -s
    ensures s == -32768 ==> n == -32768
  {
    Int16((-s) % 65536)
  }
}
