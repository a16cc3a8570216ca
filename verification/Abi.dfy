/** Wire-level values shared by guests and the host: cells, frames and their limits. */
module Abi {
  import opened Bytes
  import opened Utf8

  datatype Rgb = Rgb(r: byte, g: byte, b: byte)

  /** One rendered character. `ch` is Go's `rune`: any 32-bit integer until it is sanitized. */
  datatype Cell = Cell(ch: int, fg: Rgb, bg: Rgb, decor: byte)

  /** A row-major grid of cells plus the guest's quit flag. */
  datatype Frame = Frame(w: nat, h: nat, quit: bool, cells: seq<Cell>)

  const BLACK := Rgb(0, 0, 0)
  const ZERO_CELL := Cell(0, BLACK, BLACK, 0)
  const BLANK_CELL := Cell(0x20, BLACK, BLACK, 0)

  const MAX_FRAME_WIDTH := 500
  const MAX_FRAME_HEIGHT := 300

  /** The host's gate on a decoded frame: inside the terminal limits and a full grid. */
  predicate ValidFrame(f: Frame) {
    1 <= f.w <= MAX_FRAME_WIDTH && 1 <= f.h <= MAX_FRAME_HEIGHT && |f.cells| == f.w * f.h
  }

  /** Characters the host lets into a screen cell. */
  predicate SafeRune(r: int) {
    ValidRune(r) && r >= 0x20 && r != 0x7F && !(0x80 <= r <= 0x9F)
  }

  /** The host decides what reaches the terminal: controls become spaces, non-scalars question marks. */
  function SanitizeRune(r: int): (s: int)
    ensures SafeRune(s)
    ensures SafeRune(r) ==> s == r
  {
    if r == 0 then 0x20
    else if r < 0x20 || r == 0x7F then 0x20
    else if 0x80 <= r <= 0x9F then 0x20
    else if !ValidRune(r) then 0x3F
    else r
  }
}
