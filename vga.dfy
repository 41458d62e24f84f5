/**
 * The VGA text-mode cell types and the memory-mapped 25x80 screen buffer
 * of kernel/src/vga.rs (`Color`, `ColorCode`, `ScreenChar`, `Buffer`).
 */
module Vga {
  import opened Wrappers

  const VGA_WIDTH: nat := 80
  const VGA_HEIGHT: nat := 25

  const SPACE: bv8 := 0x20

  /** The sixteen text-mode colours; `Value` is the `#[repr(u8)]` discriminant. */
  datatype Color =
    | Black | Blue | Green | Cyan | Red | Magenta | Brown | LightGray
    | DarkGray | LightBlue | LightGreen | LightCyan | LightRed | Pink | Yellow | White
  {
    function Value(): (v: bv8)
      ensures v < 16
    {
      match this
      case Black => 0
      case Blue => 1
      case Green => 2
      case Cyan => 3
      case Red => 4
      case Magenta => 5
      case Brown => 6
      case LightGray => 7
      case DarkGray => 8
      case LightBlue => 9
      case LightGreen => 10
      case LightCyan => 11
      case LightRed => 12
      case Pink => 13
      case Yellow => 14
      case White => 15
    }
  }

  /** The colour whose discriminant is `v`, if there is one: the inverse of `Color.Value`. */
  function ColorOf(v: bv8): (c: Option<Color>)
    ensures c.Some? <==> v < 16
    ensures c.Some? ==> c.value.Value() == v
  {
    if v == 0 then Some(Black) else if v == 1 then Some(Blue)
    else if v == 2 then Some(Green) else if v == 3 then Some(Cyan)
    else if v == 4 then Some(Red) else if v == 5 then Some(Magenta)
    else if v == 6 then Some(Brown) else if v == 7 then Some(LightGray)
    else if v == 8 then Some(DarkGray) else if v == 9 then Some(LightBlue)
    else if v == 10 then Some(LightGreen) else if v == 11 then Some(LightCyan)
    else if v == 12 then Some(LightRed) else if v == 13 then Some(Pink)
    else if v == 14 then Some(Yellow) else if v == 15 then Some(White)
    else None
  }

  /** An attribute byte: foreground in the low nibble, background in the high nibble. */
  datatype ColorCode = ColorCode(bits: bv8) {
    function Foreground(): Option<Color> { ColorOf(bits & 0x0F) }
    function Background(): Option<Color> { ColorOf(bits >> 4) }
  }

  /** `ColorCode::new`: packs two 4-bit colours into one byte. */
  function NewColorCode(fg: Color, bg: Color): (c: ColorCode)
    ensures c.bits & 0x0F == fg.Value() && c.bits >> 4 == bg.Value()
    ensures c.Foreground() == Some(fg) && c.Background() == Some(bg)
  {
    ColorCode((bg.Value() << 4) | fg.Value())
  }

  /** Distinct colour pairs give distinct attribute bytes. */
  lemma NewColorCodeInjective(fg1: Color, bg1: Color, fg2: Color, bg2: Color)
    requires NewColorCode(fg1, bg1) == NewColorCode(fg2, bg2)
    ensures fg1 == fg2 && bg1 == bg2
  {
    assert NewColorCode(fg1, bg1).Foreground() == Some(fg1);
    assert NewColorCode(fg2, bg2).Foreground() == Some(fg2);
    assert NewColorCode(fg1, bg1).Background() == Some(bg1);
    assert NewColorCode(fg2, bg2).Background() == Some(bg2);
  }

  /** The colour every `Option<ColorCode>` parameter falls back to: white on black. */
  const DEFAULT_COLOR: ColorCode := NewColorCode(White, Black)

  lemma DefaultColorIsWhiteOnBlack()
    ensures DEFAULT_COLOR.bits == 0x0F
  {
  }

  datatype ScreenChar = ScreenChar(asciiChar: bv8, colorCode: ColorCode)

  /** One text row of `VGA_WIDTH` cells. */
  type Row = r: seq<ScreenChar> | |r| == VGA_WIDTH
    witness seq(80, _ => ScreenChar(0x20, ColorCode(0x0F)))

  /** A row of spaces in the given colour. */
  function BlankRow(color: ColorCode): (r: Row)
    ensures forall c :: 0 <= c < VGA_WIDTH ==> r[c] == ScreenChar(SPACE, color)
  {
    seq(VGA_WIDTH, _ => ScreenChar(SPACE, color))
  }

  function Min(a: nat, b: nat): nat { if a <= b then a else b }

  /**
   * The memory-mapped text buffer at 0xb8000: `VGA_HEIGHT` rows of cells.
   * An index outside the grid is a Rust bounds-check panic; the methods
   * require in-range positions, so that panic is not modelled.
   */
  class Buffer {
    const chars: array<Row>

    ghost predicate Valid()
    {
      chars.Length == VGA_HEIGHT
    }

    /** A handle onto video memory whose present contents are `init`. */
    constructor (init: seq<Row>)
      requires |init| == VGA_HEIGHT
      ensures Valid() && fresh(chars) && chars[..] == init
    {
      chars := new Row[VGA_HEIGHT](i requires 0 <= i < VGA_HEIGHT => init[i]);
    }

    /** `Buffer::get`: the cell at (`row`, `col`). */
    function Get(row: nat, col: nat): (c: ScreenChar)
      requires Valid() && row < VGA_HEIGHT && col < VGA_WIDTH
      reads chars
    {
      chars[row][col]
    }

    /** `Buffer::put`: stores one cell and leaves every other cell as it was. */
    method Put(row: nat, col: nat, character: ScreenChar)
      requires Valid() && row < VGA_HEIGHT && col < VGA_WIDTH
      modifies chars
      ensures Valid()
      ensures Get(row, col) == character
      ensures forall r, c :: 0 <= r < VGA_HEIGHT && 0 <= c < VGA_WIDTH && (r, c) != (row, col) ==>
                Get(r, c) == old(Get(r, c))
      ensures chars[..] == old(chars[..])[row := old(chars[row])[col := character]]
    {
      chars[row] := chars[row][col := character];
    }

    /**
     * `Buffer::put_str`: writes the first `min(|s|, 80 - col)` bytes of `s`
     * to consecutive cells of `row` from `col`. `VGA_WIDTH - col` underflows
     * (a panic) when `col > 80`; `row` is indexed only when a byte is written.
     */
    method PutStr(row: nat, col: nat, s: seq<bv8>, color: Option<ColorCode>)
      requires Valid() && col <= VGA_WIDTH
      requires Min(|s|, VGA_WIDTH - col) > 0 ==> row < VGA_HEIGHT
      modifies chars
      ensures Valid()
      ensures forall r, c :: 0 <= r < VGA_HEIGHT && 0 <= c < VGA_WIDTH ==>
                chars[r][c] == if r == row && col <= c < col + Min(|s|, VGA_WIDTH - col)
                               then ScreenChar(s[c - col], color.GetOr(DEFAULT_COLOR))
                               else old(chars[r][c])
    {
      var code := color.GetOr(DEFAULT_COLOR);
      var maxLen := VGA_WIDTH - col;
      var n := Min(|s|, maxLen);
      var c := col;
      var k := 0;
      while k < n
        invariant 0 <= k <= n && c == col + k
        invariant forall r, c' :: 0 <= r < VGA_HEIGHT && 0 <= c' < VGA_WIDTH ==>
                    chars[r][c'] == if r == row && col <= c' < col + k
                                    then ScreenChar(s[c' - col], code)
                                    else old(chars[r][c'])
      {
        Put(row, c, ScreenChar(s[k], code));
        c := c + 1;
        k := k + 1;
      }
    }

    /**
     * `Buffer::put_str_wrapped`: byte `k` of `s` lands in linear cell
     * `row * 80 + col + k`, the column wrapping to 0 on the next row at 80.
     * Writing past the last cell is a bounds-check panic.
     */
    method PutStrWrapped(row: nat, col: nat, s: seq<bv8>, color: Option<ColorCode>)
      requires Valid()
      requires |s| > 0 ==> col < VGA_WIDTH && row * VGA_WIDTH + col + |s| <= VGA_HEIGHT * VGA_WIDTH
      modifies chars
      ensures Valid()
      ensures forall r, c :: 0 <= r < VGA_HEIGHT && 0 <= c < VGA_WIDTH ==>
                chars[r][c] == if row * VGA_WIDTH + col <= r * VGA_WIDTH + c < row * VGA_WIDTH + col + |s|
                               then ScreenChar(s[r * VGA_WIDTH + c - (row * VGA_WIDTH + col)], color.GetOr(DEFAULT_COLOR))
                               else old(chars[r][c])
    {
      var code := color.GetOr(DEFAULT_COLOR);
      ghost var start := row * VGA_WIDTH + col;
      var r: nat := row;
      var c: nat := col;
      var k := 0;
      while k < |s|
        invariant 0 <= k <= |s|
        invariant r * VGA_WIDTH + c == start + k
        invariant k < |s| ==> c < VGA_WIDTH
        invariant forall r', c' :: 0 <= r' < VGA_HEIGHT && 0 <= c' < VGA_WIDTH ==>
                    chars[r'][c'] == if start <= r' * VGA_WIDTH + c' < start + k
                                     then ScreenChar(s[r' * VGA_WIDTH + c' - start], code)
                                     else old(chars[r'][c'])
      {
        Put(r, c, ScreenChar(s[k], code));
        c := c + 1;
        if c == VGA_WIDTH {
          c := 0;
          r := r + 1;
        }
        k := k + 1;
      }
    }

    /** `Buffer::clear`: every cell becomes a space in the given colour. */
    method Clear(color: Option<ColorCode>)
      requires Valid()
      modifies chars
      ensures Valid()
      ensures forall r :: 0 <= r < VGA_HEIGHT ==> chars[r] == BlankRow(color.GetOr(DEFAULT_COLOR))
    {
      var code := color.GetOr(DEFAULT_COLOR);
      for row := 0 to VGA_HEIGHT
        invariant forall r :: 0 <= r < row ==> chars[r] == BlankRow(code)
      {
        for col := 0 to VGA_WIDTH
          invariant forall r :: 0 <= r < row ==> chars[r] == BlankRow(code)
          invariant forall c :: 0 <= c < col ==> chars[row][c] == ScreenChar(SPACE, code)
        {
          Put(row, col, ScreenChar(SPACE, code));
        }
        assert chars[row] == BlankRow(code);
      }
    }

    /** `Buffer::clear_row`: blanks one row and no other. */
    method ClearRow(row: nat, color: Option<ColorCode>)
      requires Valid() && row < VGA_HEIGHT
      modifies chars
      ensures Valid()
      ensures chars[..] == old(chars[..])[row := BlankRow(color.GetOr(DEFAULT_COLOR))]
    {
      chars[row] := BlankRow(color.GetOr(DEFAULT_COLOR));
    }
  }
}
