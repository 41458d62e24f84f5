/**
 * `Writer` of kernel/src/vga.rs: a cursor, a colour, the 250-row scrollback
 * ring and the screen buffer, updated in place. Every method except
 * `ClearRow` (which blanks one screen row) and `ScrollbackGetLine` (which only
 * reads) is proved to move `State()` exactly as the matching function of
 * `Scrollback.WriterState`.
 */
module VgaWriter {
  import opened Wrappers
  import opened Vga
  import opened Scrollback

  class Writer {
    var columnPos: nat
    var colorCode: ColorCode
    const buffer: Buffer
    const scrollback: array<Row>
    var scrollbackHead: nat
    var scrollbackTail: nat
    var overflowOffset: nat
    var scrollTopline: nat

    ghost predicate Valid()
      reads this
    {
      && buffer.chars.Length == VGA_HEIGHT
      && scrollback.Length == SCROLLBACK_LINE_COUNT
      && scrollback != buffer.chars
      && scrollbackHead < SCROLLBACK_LINE_COUNT
      && scrollbackTail < SCROLLBACK_LINE_COUNT
      && columnPos <= VGA_WIDTH
      && scrollTopline <= MaxTopline(Scrollback.ScrollbackLen(scrollbackHead, scrollbackTail))
    }

    /** The writer's fields and the contents of both arrays, as one value. */
    ghost function State(): (w: WriterState)
      requires Valid()
      reads this, scrollback, buffer.chars
      ensures w.Valid()
    {
      WriterState(columnPos, colorCode, buffer.chars[..], scrollback[..],
                  scrollbackHead, scrollbackTail, overflowOffset, scrollTopline)
    }

    /** `Writer::new`: writes through `buffer` and owns a blank scrollback ring. */
    constructor (buffer: Buffer)
      requires buffer.Valid()
      ensures Valid() && this.buffer == buffer && fresh(scrollback)
      ensures State() == Initial(buffer.chars[..])
    {
      columnPos := 0;
      colorCode := NewColorCode(White, Black);
      this.buffer := buffer;
      scrollback := new Row[SCROLLBACK_LINE_COUNT](_ => BlankRow(DEFAULT_COLOR));
      scrollbackHead := 0;
      scrollbackTail := 0;
      overflowOffset := 0;
      scrollTopline := 0;
      new;
      assert scrollback[..] == Initial(buffer.chars[..]).scrollback;
    }

    /** `scrollback_len`: the rows from `scrollbackTail` up to `scrollbackHead`, below 250. */
    function ScrollbackLen(): (n: nat)
      requires Valid()
      reads this
      ensures n < SCROLLBACK_LINE_COUNT && (scrollbackTail + n) % SCROLLBACK_LINE_COUNT == scrollbackHead
    {
      Scrollback.ScrollbackLen(scrollbackHead, scrollbackTail)
    }

    /** `scrollback_get_line`. */
    method ScrollbackGetLine(line: nat) returns (r: Row)
      requires Valid()
      ensures r == State().GetLine(line)
    {
      var index := (scrollbackTail + line) % scrollback.Length;
      r := scrollback[index];
    }

    /** `scrollback_next_line`. */
    method ScrollbackNextLine()
      requires Valid()
      modifies this
      ensures Valid() && State() == old(State()).NextLine()
    {
      NextLineLen(scrollbackHead, scrollbackTail);
      scrollbackHead := (scrollbackHead + 1) % SCROLLBACK_LINE_COUNT;
      if scrollbackHead == scrollbackTail {
        overflowOffset := overflowOffset + 1;
        scrollbackTail := (scrollbackTail + 1) % SCROLLBACK_LINE_COUNT;
      }
    }

    /** `scrollback_push`. */
    method ScrollbackPush(line: Row)
      requires Valid()
      modifies this, scrollback
      ensures Valid() && State() == old(State()).Push(line)
    {
      scrollback[scrollbackHead] := line;
      ScrollbackNextLine();
    }

    /** `draw_frame`: copies ring rows `[tail + topline, topline + 24)` to the screen. */
    method DrawFrame()
      requires Valid()
      modifies buffer.chars
      ensures Valid() && State() == old(State()).DrawFrame()
    {
      var topline := scrollTopline;
      var startLine := scrollbackTail + topline;
      var endLine := topline + VGA_HEIGHT - 1;
      var i := startLine;
      while i < endLine
        invariant startLine <= i && (i <= endLine || i == startLine)
        invariant forall k :: 0 <= k < VGA_HEIGHT ==>
                    buffer.chars[k] == if k < i - startLine then scrollback[startLine + k] else old(buffer.chars[k])
      {
        var screenrow := i - startLine;
        var line := scrollback[i];
        buffer.chars[screenrow] := line;
        i := i + 1;
      }
      ghost var w := old(State());
      assert buffer.chars[..] == Frame(w.screen, w.scrollback, w.tail, w.topline);
    }

    /** `scroll_up`. */
    method ScrollUp()
      requires Valid()
      modifies this, buffer.chars
      ensures Valid() && State() == old(State()).ScrollUp()
    {
      if scrollTopline > 0 {
        scrollTopline := scrollTopline - 1;
      }
      DrawFrame();
    }

    /**
     * `scroll_down`. `completed` is false exactly when `scrollback_len() - VGA_HEIGHT`
     * underflows; the source panics there, and the model then leaves the state alone.
     */
    method ScrollDown() returns (completed: bool)
      requires Valid()
      modifies this, buffer.chars
      ensures Valid()
      ensures completed == old(State()).ScrollDown().Some?
      ensures completed ==> State() == old(State()).ScrollDown().value
      ensures !completed ==> State() == old(State())
    {
      var len := ScrollbackLen();
      if len < VGA_HEIGHT {
        return false;
      }
      if scrollTopline < len - VGA_HEIGHT {
        scrollTopline := scrollTopline + 1;
      }
      DrawFrame();
      completed := true;
    }

    /** `newline`. */
    method Newline()
      requires Valid()
      modifies this, buffer.chars
      ensures Valid() && State() == old(State()).Newline()
    {
      ScrollbackNextLine();
      columnPos := 0;
      DrawFrame();
    }

    /** `write_byte`. */
    method WriteByte(b: bv8)
      requires Valid()
      modifies this, scrollback, buffer.chars
      ensures Valid() && State() == old(State()).WriteByte(b)
    {
      if b == LF {
        Newline();
      } else if b == CR {
        columnPos := 0;
      } else {
        if columnPos >= VGA_WIDTH {
          Newline();
        }
        var col := columnPos;
        var code := colorCode;
        scrollback[scrollbackHead] := scrollback[scrollbackHead][col := ScreenChar(b, code)];
        columnPos := columnPos + 1;
      }
      DrawFrame();
    }

    /** `write_string`: each byte, with non-text bytes replaced by 0xFE. */
    method WriteString(s: seq<bv8>)
      requires Valid()
      modifies this, scrollback, buffer.chars
      ensures Valid() && State() == old(State()).WriteString(s)
    {
      ghost var start := State();
      var i := 0;
      while i < |s|
        invariant 0 <= i <= |s|
        invariant Valid() && State() == start.WriteString(s[..i])
      {
        var b := s[i];
        var c := if Printable(b) || b == LF || b == CR then b else PLACEHOLDER;
        WriteByte(c);
        WriteStringPrefix(start, s, i);
        i := i + 1;
      }
      assert s[..|s|] == s;
    }

    /** `Writer::clear_row`: blanks one screen row in the writer's colour. */
    method ClearRow(row: nat)
      requires Valid() && row < VGA_HEIGHT
      modifies buffer.chars
      ensures Valid()
      ensures State() == old(State()).(screen := old(State()).screen[row := BlankRow(colorCode)])
    {
      buffer.ClearRow(row, Some(colorCode));
    }
  }
}
