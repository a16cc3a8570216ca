/**
 Bytes, fixed-width little-endian integers and decimal numerals: the scalar
 encodings shared by every wire format and by the terminal escape sequences.
 */
module Bytes {
  type byte = b: int | 0 <= b < 256

  type bytes = seq<byte>

  const U16: nat := 0x1_0000
  const U32: nat := 0x1_0000_0000
  const U64: nat := 0x1_0000_0000_0000_0000

  /** The low byte of a non-negative integer: Go's `byte(n)` conversion. */
  function LowByte(n: nat): (b: byte) {
    n % 256
  }

  /** `binary.LittleEndian.AppendUint16` of the truncating conversion `uint16(n)`. */
  function LE16(n: nat): (bs: bytes)
    ensures |bs| == 2
  {
    [LowByte(n), LowByte(n / 256)]
  }

  function LE32(n: nat): (bs: bytes)
    ensures |bs| == 4
  {
    LE16(n) + LE16(n / U16)
  }

  function LE64(n: nat): (bs: bytes)
    ensures |bs| == 8
  {
    LE32(n) + LE32(n / U32)
  }

  function ReadLE16(bs: bytes): (n: nat)
    requires |bs| == 2
    ensures n < U16
  {
    var lo: int, hi: int := bs[0], bs[1];
    lo + 256 * hi
  }

  function ReadLE32(bs: bytes): (n: nat)
    requires |bs| == 4
    ensures n < U32
  {
    ReadLE16(bs[..2]) + U16 * ReadLE16(bs[2..])
  }

  function ReadLE64(bs: bytes): (n: nat)
    requires |bs| == 8
    ensures n < U64
  {
    ReadLE32(bs[..4]) + U32 * ReadLE32(bs[4..])
  }

  lemma ReadWrite16(n: nat)
    ensures ReadLE16(LE16(n)) == n % U16
  {
    assert n == 256 * (n / 256) + n % 256;
    assert n / 256 == 256 * (n / 256 / 256) + n / 256 % 256;
    assert n == U16 * (n / 256 / 256) + (256 * (n / 256 % 256) + n % 256);
  }

  /** Writing what was read gives the same two bytes. */
  lemma WriteRead16(bs: bytes)
    requires |bs| == 2
    ensures LE16(ReadLE16(bs)) == bs
  {
    var lo: int, hi: int := bs[0], bs[1];
    assert (lo + 256 * hi) % 256 == lo && (lo + 256 * hi) / 256 == hi;
  }

  /** Reading back a 32-bit field yields exactly what Go's `uint32(n)` keeps. */
  lemma ReadWrite32(n: nat)
    ensures ReadLE32(LE32(n)) == n % U32
  {
    assert LE32(n)[..2] == LE16(n) && LE32(n)[2..] == LE16(n / U16);
    ReadWrite16(n);
    ReadWrite16(n / U16);
    assert n == U16 * (n / U16) + n % U16;
    assert n / U16 == U16 * (n / U16 / U16) + n / U16 % U16;
    assert n == U32 * (n / U16 / U16) + (U16 * (n / U16 % U16) + n % U16);
  }

  lemma ReadWrite64(n: nat)
    requires n < U64
    ensures ReadLE64(LE64(n)) == n
  {
    ReadWrite32(n);
    ReadWrite32(n / U32);
    hide LE32, ReadLE32;
    assert LE64(n)[..4] == LE32(n) && LE64(n)[4..] == LE32(n / U32);
    HighHalf(n);
  }

  lemma HighHalf(n: nat)
    requires n < U64
    ensures n / U32 % U32 == n / U32 && n == U32 * (n / U32) + n % U32
  {
    assert U64 == U32 * U32;
    assert n / U32 < U32;
  }

  /** `strconv.AppendInt(b, n, 10)` for the non-negative numbers the renderer prints. */
  function Decimal(n: nat): (bs: bytes)
    ensures |bs| > 0
    ensures forall i :: 0 <= i < |bs| ==> 48 <= bs[i] <= 57
  {
    if n < 10 then [48 + n] else Decimal(n / 10) + [48 + n % 10]
  }
}
