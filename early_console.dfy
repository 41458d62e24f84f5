/**
 * The early-boot console of common/src/lib.rs (the loader keeps a verbatim
 * copy in loader/src/main.rs): a (`LAST_ROW`, `LAST_COL`) cursor over the raw
 * 80x25 text-mode memory, two bytes per cell, and the number printers built
 * on it.
 */
module EarlyConsole {
  import opened Numerals

  const VGA_WIDTH: nat := 80
  const VGA_HEIGHT: nat := 25
  /** Each cell is a character byte followed by an attribute byte. */
  const VGA_BUFFER_SIZE: nat := VGA_WIDTH * VGA_HEIGHT * 2

  const LF: bv8 := 0x0A
  const CR: bv8 := 0x0D
  /** White on black, the attribute `print` gives every character. */
  const ATTRIBUTE: bv8 := 0x0F
  /** `b"0x"`. */
  const HEX_PREFIX: seq<bv8> := [0x30, 0x78]

  type u32 = n: nat | n < 0x1_0000_0000
  type u64 = n: nat | n < 0x1_0000_0000_0000_0000

  /** The 4000 bytes of text-mode memory at 0xb8000. */
  type VgaMemory = m: seq<bv8> | |m| == 4000 witness seq(4000, _ => 0)

  /** Byte offset of the character of cell (`row`, `col`); its attribute follows it. */
  function CellOffset(row: nat, col: nat): (o: nat)
    requires row < VGA_HEIGHT && col < VGA_WIDTH
    ensures o + 1 < VGA_BUFFER_SIZE
  {
    ((80 * row) + col) * 2
  }

  /** The offset is even and decodes back to its cell. */
  lemma CellOffsetDecodes(row: nat, col: nat)
    requires row < VGA_HEIGHT && col < VGA_WIDTH
    ensures CellOffset(row, col) % 2 == 0
    ensures CellOffset(row, col) / 2 / VGA_WIDTH == row && CellOffset(row, col) / 2 % VGA_WIDTH == col
  {
    var o := CellOffset(row, col);
    assert o == 2 * (VGA_WIDTH * row + col);
    assert o / 2 == VGA_WIDTH * row + col;
  }

  /** Distinct cells occupy distinct, non-overlapping byte pairs. */
  lemma CellOffsetInjective(r1: nat, c1: nat, r2: nat, c2: nat)
    requires r1 < VGA_HEIGHT && c1 < VGA_WIDTH && r2 < VGA_HEIGHT && c2 < VGA_WIDTH
    requires (r1, c1) != (r2, c2)
    ensures CellOffset(r1, c1) != CellOffset(r2, c2)
    ensures CellOffset(r1, c1) != CellOffset(r2, c2) + 1
  {
    if r1 == r2 {
      assert c1 != c2;
    } else if r1 < r2 {
      assert 80 * r1 + 80 <= 80 * r2;
    } else {
      assert 80 * r2 + 80 <= 80 * r1;
    }
  }

  /** The cursor globals and the video memory. */
  datatype ConsoleState = ConsoleState(lastRow: nat, lastCol: nat, mem: VgaMemory)
  {
    /** The row `print` uses once an out-of-range row has wrapped to 0. */
    function Row(): (r: nat)
      ensures r < VGA_HEIGHT && (lastRow < VGA_HEIGHT ==> r == lastRow)
      ensures lastRow >= VGA_HEIGHT ==> r == 0
    {
      if lastRow >= VGA_HEIGHT then 0 else lastRow
    }

    /** The column `print` uses once an out-of-range column has wrapped to 0. */
    function Col(): (c: nat)
      ensures c < VGA_WIDTH && (lastCol < VGA_WIDTH ==> c == lastCol)
      ensures lastCol >= VGA_WIDTH ==> c == 0
    {
      if lastCol >= VGA_WIDTH then 0 else lastCol
    }

    /** One byte of `print`: wrap the cursor, then handle the byte. */
    function Step(b: bv8): (r: ConsoleState)
      ensures r.lastRow <= VGA_HEIGHT && r.lastCol <= VGA_WIDTH
    {
      var row := Row();
      var col := Col();
      if b == LF then ConsoleState(row + 1, 0, mem)
      else if b == CR then ConsoleState(row, 0, mem)
      else
        var offset := CellOffset(row, col);
        ConsoleState(row, col + 1, mem[offset := b][offset + 1 := ATTRIBUTE])
    }

    /** `print(s)`: the bytes of `s` in order. */
    function Print(s: seq<bv8>): (r: ConsoleState)
      ensures s != [] ==> r.lastRow <= VGA_HEIGHT && r.lastCol <= VGA_WIDTH
    {
      if s == [] then this else Print(s[..|s| - 1]).Step(s[|s| - 1])
    }

    /** `newline`: next row, column 0, with no bound on the row. */
    function Newline(): (r: ConsoleState)
      ensures r.mem == mem && r.lastCol == 0
      ensures r.lastRow == lastRow + 1
    {
      ConsoleState(lastRow + 1, 0, mem)
    }

    /** `println(s)`. */
    function Println(s: seq<bv8>): (r: ConsoleState)
      ensures r == Print(s).Newline()
      ensures r.lastCol == 0
    {
      Print(s).Newline()
    }
  }

  /** A line feed or carriage return moves only the cursor. */
  lemma StepControl(st: ConsoleState, b: bv8)
    requires b == LF || b == CR
    ensures st.Step(b).mem == st.mem && st.Step(b).lastCol == 0
    ensures b == LF ==> st.Step(b).lastRow == st.Row() + 1
    ensures b == CR ==> st.Step(b).lastRow == st.Row()
  {
  }

  /**
   * Any other byte is stored in the wrapped cursor's cell with attribute
   * 0x0F, every other byte of memory is kept, and the column advances.
   */
  lemma StepStores(st: ConsoleState, b: bv8)
    requires b != LF && b != CR
    ensures var r := st.Step(b);
      var o := CellOffset(st.Row(), st.Col());
      && r.mem[o] == b && r.mem[o + 1] == ATTRIBUTE
      && (forall i :: 0 <= i < VGA_BUFFER_SIZE && i != o && i != o + 1 ==> r.mem[i] == st.mem[i])
      && r.lastRow == st.Row() && r.lastCol == st.Col() + 1
  {
  }

  /** Concatenated output is sequential output. */
  lemma {:induction false} PrintAppend(st: ConsoleState, a: seq<bv8>, b: seq<bv8>)
    ensures st.Print(a + b) == st.Print(a).Print(b)
  {
    if b != [] {
      assert (a + b)[..|a + b| - 1] == a + b[..|b| - 1];
      assert (a + b)[|a + b| - 1] == b[|b| - 1];
      PrintAppend(st, a, b[..|b| - 1]);
    } else {
      assert a + b == a;
    }
  }

  /**
   * What `print(s)` leaves in memory: every attribute byte is kept or 0x0F,
   * every character byte is kept or one of the bytes of `s`, and never a
   * line feed or carriage return.
   */
  lemma {:induction false} PrintFootprint(st: ConsoleState, s: seq<bv8>)
    ensures var r := st.Print(s);
      forall i :: 0 <= i < VGA_BUFFER_SIZE && r.mem[i] != st.mem[i] ==>
        if i % 2 == 1 then r.mem[i] == ATTRIBUTE
        else r.mem[i] in s && r.mem[i] != LF && r.mem[i] != CR
  {
    if s != [] {
      var p := s[..|s| - 1];
      var b := s[|s| - 1];
      PrintFootprint(st, p);
      var m := st.Print(p);
      if b != LF && b != CR {
        StepStores(m, b);
        CellOffsetDecodes(m.Row(), m.Col());
      }
      forall i | 0 <= i < VGA_BUFFER_SIZE && i % 2 == 0 && m.mem[i] in p
        ensures m.mem[i] in s
      {
        var j :| 0 <= j < |p| && p[j] == m.mem[i];
        assert s[j] == p[j];
      }
    }
  }

  /** `t` is laid out left to right from cell (`row`, `col`), each character with attribute 0x0F. */
  ghost predicate LaidOut(mem: VgaMemory, row: nat, col: nat, t: seq<bv8>)
    requires row < VGA_HEIGHT && col + |t| <= VGA_WIDTH
  {
    forall k :: 0 <= k < |t| ==>
      mem[CellOffset(row, col + k)] == t[k] && mem[CellOffset(row, col + k) + 1] == ATTRIBUTE
  }

  /**
   * Text without line breaks that fits on the cursor's row is laid out left
   * to right from the cursor, each character with attribute 0x0F.
   */
  lemma {:induction false} PrintPlainText(st: ConsoleState, s: seq<bv8>)
    requires st.lastRow < VGA_HEIGHT && st.lastCol + |s| <= VGA_WIDTH
    requires forall k :: 0 <= k < |s| ==> s[k] != LF && s[k] != CR
    ensures var r := st.Print(s);
      && r.lastRow == st.lastRow && r.lastCol == st.lastCol + |s|
      && LaidOut(r.mem, st.lastRow, st.lastCol, s)
  {
    if s != [] {
      var p := s[..|s| - 1];
      var b := s[|s| - 1];
      PrintPlainText(st, p);
      PlainTextStep(st, st.Print(p), p, b);
      assert s == p + [b];
    }
  }

  /** One more byte of `PrintPlainText`: `m` has laid out `p`, and `b` goes in the cell after it. */
  lemma PlainTextStep(st: ConsoleState, m: ConsoleState, p: seq<bv8>, b: bv8)
    requires st.lastRow < VGA_HEIGHT && st.lastCol + |p| < VGA_WIDTH && b != LF && b != CR
    requires m.lastRow == st.lastRow && m.lastCol == st.lastCol + |p|
    requires LaidOut(m.mem, st.lastRow, st.lastCol, p)
    ensures var r := m.Step(b);
      && r.lastRow == st.lastRow && r.lastCol == st.lastCol + |p| + 1
      && LaidOut(r.mem, st.lastRow, st.lastCol, p + [b])
  {
    StepStores(m, b);
    var r := m.Step(b);
    var o := CellOffset(st.lastRow, st.lastCol + |p|);
    assert m.Row() == st.lastRow && m.Col() == st.lastCol + |p|;
    forall k | 0 <= k < |p|
      ensures r.mem[CellOffset(st.lastRow, st.lastCol + k)] == (p + [b])[k]
      ensures r.mem[CellOffset(st.lastRow, st.lastCol + k) + 1] == ATTRIBUTE
    {
      var ok := CellOffset(st.lastRow, st.lastCol + k);
      CellOffsetInjective(st.lastRow, st.lastCol + k, st.lastRow, st.lastCol + |p|);
      CellOffsetInjective(st.lastRow, st.lastCol + |p|, st.lastRow, st.lastCol + k);
      assert r.mem[ok] == m.mem[ok] && r.mem[ok + 1] == m.mem[ok + 1];
    }
    assert r.mem[o] == (p + [b])[|p|] && r.mem[o + 1] == ATTRIBUTE;
  }

  /** After `newline` the next character lands at column 0 of the next row, or of row 0 past the bottom. */
  lemma NewlineThenChar(st: ConsoleState, b: bv8)
    requires st.lastRow < VGA_HEIGHT && b != LF && b != CR
    ensures var r := st.Newline().Step(b);
      && st.Newline().Row() == (st.lastRow + 1) % VGA_HEIGHT
      && r.mem[CellOffset((st.lastRow + 1) % VGA_HEIGHT, 0)] == b
      && r.lastRow == (st.lastRow + 1) % VGA_HEIGHT && r.lastCol == 1
  {
    StepStores(st.Newline(), b);
  }

  /** One iteration of the digit loop: the lowest digit of `m` moves to the front of the emitted suffix. */
  lemma PeelDigit(n: nat, m: nat, base: nat, tail: seq<bv8>)
    requires 2 <= base <= 16 && m > 0
    requires Digits(n, base) == Digits(m, base) + tail
    ensures 0 <= m / base < m && |tail| < |Digits(n, base)|
    ensures Digits(n, base) == Digits(m / base, base) + ([DigitOf(m, base)] + tail)
  {
    DivisionShrinks(m, base);
  }

  /**
   * The loop of `print_int`, `print_hex` and `print_hex_64`: fill a
   * `size`-byte buffer from the right with `int_to_char((m % base) as u8)`,
   * dividing `m` by `base`, and return the filled suffix.
   */
  method FormatDigits(n: nat, base: nat, size: nat) returns (ds: seq<bv8>)
    requires 2 <= base <= 16 && n < Pow(base, size)
    ensures ds == Digits(n, base)
  {
    DigitsLength(n, base, size);
    var buf := new bv8[size](_ => 0);
    var m: nat := n;
    var i: nat := 0;
    while m > 0
      invariant i <= size
      invariant Digits(n, base) == Digits(m, base) + buf[size - i..]
      decreases m
    {
      ghost var tail := buf[size - i..];
      PeelDigit(n, m, base, tail);
      var d := DigitOf(m, base);
      buf[size - 1 - i] := d;
      assert buf[size - 1 - i..] == [d] + tail;
      m := m / base;
      i := i + 1;
    }
    ds := buf[size - i..];
  }

  /** The console with its cursor globals and the video memory it writes. */
  class Console {
    var lastRow: nat
    var lastCol: nat
    const vga: array<bv8>

    ghost predicate Valid()
      reads this
    {
      vga.Length == VGA_BUFFER_SIZE
    }

    ghost function State(): ConsoleState
      requires Valid()
      reads this, vga
    {
      ConsoleState(lastRow, lastCol, vga[..])
    }

    /** Both cursor globals start at 0; the memory is whatever `vga` holds. */
    constructor (vga: array<bv8>)
      requires vga.Length == VGA_BUFFER_SIZE
      ensures Valid() && this.vga == vga
      ensures State() == ConsoleState(0, 0, vga[..])
    {
      this.vga := vga;
      lastRow := 0;
      lastCol := 0;
    }

    /** The closure `print` runs for each byte. */
    method PrintByte(byte: bv8)
      requires Valid()
      modifies this, vga
      ensures Valid() && State() == old(State()).Step(byte)
    {
      if lastRow >= VGA_HEIGHT {
        lastRow := 0;
      }
      if lastCol >= VGA_WIDTH {
        lastCol := 0;
      }
      if byte == LF {
        lastRow := lastRow + 1;
        lastCol := 0;
      } else if byte == CR {
        lastCol := 0;
      } else {
        var offset := ((80 * lastRow) + lastCol) * 2;
        vga[offset] := byte;
        vga[offset + 1] := ATTRIBUTE;
        lastCol := lastCol + 1;
      }
    }

    method Print(s: seq<bv8>)
      requires Valid()
      modifies this, vga
      ensures Valid() && State() == old(State()).Print(s)
    {
      var i := 0;
      while i < |s|
        invariant 0 <= i <= |s| && Valid()
        invariant State() == old(State()).Print(s[..i])
      {
        PrintByte(s[i]);
        assert s[..i + 1][..i] == s[..i];
        i := i + 1;
      }
      assert s[..i] == s;
    }

    method Newline()
      requires Valid()
      modifies this
      ensures Valid() && State() == old(State()).Newline()
    {
      lastRow := lastRow + 1;
      lastCol := 0;
    }

    method Println(s: seq<bv8>)
      requires Valid()
      modifies this, vga
      ensures Valid() && State() == old(State()).Println(s)
    {
      Print(s);
      Newline();
    }

    /** The decimal digits of `n`, nothing for 0. */
    method PrintInt(n: u32)
      requires Valid()
      modifies this, vga
      ensures Valid() && State() == old(State()).Print(Digits(n, 10))
    {
      PowValues();
      var ds := FormatDigits(n, 10, 10);
      Print(ds);
    }

    /** `0x` and the hexadecimal digits of `n`, only `0x` for 0. */
    method PrintHex(n: u32)
      requires Valid()
      modifies this, vga
      ensures Valid() && State() == old(State()).Print(HEX_PREFIX + Digits(n, 16))
    {
      PowValues();
      var ds := FormatDigits(n, 16, 8);
      Print(HEX_PREFIX);
      Print(ds);
      PrintAppend(old(State()), HEX_PREFIX, ds);
    }

    /** `0x` and the hexadecimal digits of the 64-bit `n`, from a 20-byte buffer. */
    method PrintHex64(n: u64)
      requires Valid()
      modifies this, vga
      ensures Valid() && State() == old(State()).Print(HEX_PREFIX + Digits(n, 16))
    {
      PowValues();
      PowMonotone(16, 16, 20);
      var ds := FormatDigits(n, 16, 20);
      Print(HEX_PREFIX);
      Print(ds);
      PrintAppend(old(State()), HEX_PREFIX, ds);
    }
  }
}
