/**
 * The state of the kernel's VGA `Writer` (kernel/src/vga.rs) as a value,
 * with one function per `Writer` operation. The scrollback is a ring of
 * `SCROLLBACK_LINE_COUNT` rows; `head` is the row being written, `tail`
 * the oldest row kept, and `topline` the first logical line shown.
 * The class in writer.dfy is proved against these functions.
 */
module Scrollback {
  import opened Wrappers
  import opened Vga

  const SCROLLBACK_LINE_COUNT: nat := VGA_HEIGHT * 10

  const LF: bv8 := 0x0A
  const CR: bv8 := 0x0D
  /** The glyph `write_string` substitutes for every non-text byte. */
  const PLACEHOLDER: bv8 := 0xFE

  type Ring = s: seq<Row> | |s| == SCROLLBACK_LINE_COUNT
    witness seq(250, _ => BlankRow(ColorCode(0x0F)))

  type Screen = s: seq<Row> | |s| == VGA_HEIGHT
    witness seq(25, _ => BlankRow(ColorCode(0x0F)))

  /** `scrollback_len`: the number of complete rows between `tail` and `head`. */
  function ScrollbackLen(head: nat, tail: nat): (n: nat)
    requires head < SCROLLBACK_LINE_COUNT && tail < SCROLLBACK_LINE_COUNT
    ensures n < SCROLLBACK_LINE_COUNT
    ensures (tail + n) % SCROLLBACK_LINE_COUNT == head
  {
    if head >= tail then head - tail else head + SCROLLBACK_LINE_COUNT - tail
  }

  /** How `scrollback_next_line` changes the length: grows by one, or stays at the maximum when the tail is evicted. */
  lemma NextLineLen(head: nat, tail: nat)
    requires head < SCROLLBACK_LINE_COUNT && tail < SCROLLBACK_LINE_COUNT
    ensures var h := (head + 1) % SCROLLBACK_LINE_COUNT;
      && (h == tail <==> ScrollbackLen(head, tail) == SCROLLBACK_LINE_COUNT - 1)
      && (h != tail ==> ScrollbackLen(h, tail) == ScrollbackLen(head, tail) + 1)
      && (h == tail ==> ScrollbackLen(h, (tail + 1) % SCROLLBACK_LINE_COUNT) == SCROLLBACK_LINE_COUNT - 1)
  {
    if head + 1 < SCROLLBACK_LINE_COUNT {
      assert (head + 1) % SCROLLBACK_LINE_COUNT == head + 1;
    } else {
      assert (head + 1) % SCROLLBACK_LINE_COUNT == 0;
    }
    if tail + 1 < SCROLLBACK_LINE_COUNT {
      assert (tail + 1) % SCROLLBACK_LINE_COUNT == tail + 1;
    } else {
      assert (tail + 1) % SCROLLBACK_LINE_COUNT == 0;
    }
  }

  /** The largest `topline` that `scroll_down` can reach for a given length. */
  function MaxTopline(len: nat): nat
  {
    if len >= VGA_HEIGHT then len - VGA_HEIGHT else 0
  }

  predicate Printable(b: bv8)
  {
    0x20 <= b <= 0x7E
  }

  /** What `write_string` lets through to `write_byte`. */
  predicate IsText(b: bv8)
  {
    Printable(b) || b == PLACEHOLDER
  }

  /** The byte `write_string` hands to `write_byte` in place of `b`. */
  function Sanitize(b: bv8): (r: bv8)
    ensures IsText(r) || r == LF || r == CR
    ensures Printable(b) || b == LF || b == CR ==> r == b
    ensures !(Printable(b) || b == LF || b == CR) ==> r == PLACEHOLDER
  {
    if Printable(b) || b == LF || b == CR then b else PLACEHOLDER
  }

  lemma SanitizeIdempotent(b: bv8)
    ensures Sanitize(Sanitize(b)) == Sanitize(b)
  {
  }

  /**
   * `draw_frame` as written: screen row `i - (tail + topline)` receives ring
   * row `i` for `i` in `[tail + topline, topline + VGA_HEIGHT - 1)`, without
   * reducing `i` modulo the ring size. So only `VGA_HEIGHT - 1 - tail` rows
   * (or none) are refreshed and the bottom row never is.
   */
  function Frame(screen: Screen, ring: Ring, tail: nat, topline: nat): Screen
    requires topline <= SCROLLBACK_LINE_COUNT - VGA_HEIGHT + 1
  {
    seq(VGA_HEIGHT, k requires 0 <= k < VGA_HEIGHT =>
      if tail + k < VGA_HEIGHT - 1 then ring[tail + topline + k] else screen[k])
  }

  /**
   * What that leaves on the screen: the bottom row, and every row with
   * `tail + k >= VGA_HEIGHT - 1`, are untouched (so all of them once
   * `tail >= VGA_HEIGHT - 1`); with `tail == 0` screen row `k` shows ring
   * row `topline + k`.
   */
  lemma FrameMeaning(screen: Screen, ring: Ring, tail: nat, topline: nat)
    requires topline <= SCROLLBACK_LINE_COUNT - VGA_HEIGHT + 1
    ensures var r := Frame(screen, ring, tail, topline);
      && r[VGA_HEIGHT - 1] == screen[VGA_HEIGHT - 1]
      && (tail >= VGA_HEIGHT - 1 ==> r == screen)
      && (tail == 0 ==> forall k :: 0 <= k < VGA_HEIGHT - 1 ==> r[k] == ring[topline + k])
      && (forall k :: 0 <= k < VGA_HEIGHT && tail + k >= VGA_HEIGHT - 1 ==> r[k] == screen[k])
      && (forall k :: 0 <= k < VGA_HEIGHT && tail + k < VGA_HEIGHT - 1 ==> r[k] == ring[tail + topline + k])
  {
  }

  /** Drawing a frame twice with nothing in between gives the same screen. */
  lemma FrameIdempotent(screen: Screen, ring: Ring, tail: nat, topline: nat)
    requires topline <= SCROLLBACK_LINE_COUNT - VGA_HEIGHT + 1
    ensures Frame(Frame(screen, ring, tail, topline), ring, tail, topline) == Frame(screen, ring, tail, topline)
  {
  }

  /** The fields of `Writer`, with both arrays as values. */
  datatype WriterState = WriterState(
    columnPos: nat,
    colorCode: ColorCode,
    screen: Screen,
    scrollback: Ring,
    head: nat,
    tail: nat,
    overflowOffset: nat,
    topline: nat)
  {
    /** What every `Writer` operation keeps: indices in the ring, column at most 80, topline clamped. */
    predicate Valid()
    {
      && head < SCROLLBACK_LINE_COUNT
      && tail < SCROLLBACK_LINE_COUNT
      && columnPos <= VGA_WIDTH
      && topline <= MaxTopline(ScrollbackLen(head, tail))
    }

    /** The number of complete rows kept, as `scrollback_len` counts them. */
    function Len(): (n: nat)
      requires Valid()
      ensures n < SCROLLBACK_LINE_COUNT && (tail + n) % SCROLLBACK_LINE_COUNT == head
    {
      ScrollbackLen(head, tail)
    }

    /** `scrollback_get_line`: logical line `line`, counted from the oldest row. */
    function GetLine(line: nat): Row
      requires Valid()
    {
      scrollback[(tail + line) % SCROLLBACK_LINE_COUNT]
    }

    /** `scrollback_current_line_mut`: the row being written is logical line `Len()`. */
    function CurrentLine(): (r: Row)
      requires Valid()
      ensures r == GetLine(Len())
    {
      scrollback[head]
    }

    /** `scrollback_next_line`: moves `head` on, evicting the oldest row when the ring is full. */
    function NextLine(): (r: WriterState)
      requires Valid()
      ensures r.Valid()
      ensures r.head == (head + 1) % SCROLLBACK_LINE_COUNT && r.head != r.tail
      ensures Len() < SCROLLBACK_LINE_COUNT - 1 ==>
                r.Len() == Len() + 1 && r.tail == tail && r.overflowOffset == overflowOffset
      ensures Len() == SCROLLBACK_LINE_COUNT - 1 ==>
                && r.Len() == Len()
                && r.tail == (tail + 1) % SCROLLBACK_LINE_COUNT
                && r.overflowOffset == overflowOffset + 1
      ensures r.scrollback == scrollback && r.screen == screen
      ensures r.columnPos == columnPos && r.colorCode == colorCode && r.topline == topline
    {
      NextLineLen(head, tail);
      var h := (head + 1) % SCROLLBACK_LINE_COUNT;
      if h == tail then
        this.(head := h, overflowOffset := overflowOffset + 1, tail := (tail + 1) % SCROLLBACK_LINE_COUNT)
      else
        this.(head := h)
    }

    /** `scrollback_push`: stores `line` at the old head row, then `NextLine`. */
    function Push(line: Row): (r: WriterState)
      requires Valid()
      ensures r.Valid()
      ensures r.scrollback[head] == line
      ensures forall i :: 0 <= i < SCROLLBACK_LINE_COUNT && i != head ==> r.scrollback[i] == scrollback[i]
      ensures r.head == (head + 1) % SCROLLBACK_LINE_COUNT && r.head != r.tail
    {
      this.(scrollback := scrollback[head := line]).NextLine()
    }

    /** `draw_frame`: only the screen changes. */
    function DrawFrame(): (r: WriterState)
      requires Valid()
      ensures r.Valid()
      ensures r == this.(screen := r.screen)
    {
      this.(screen := Frame(screen, scrollback, tail, topline))
    }

    /**
     * `newline`: the next scrollback line begins at column 0, evicting the
     * oldest row when the ring is full; the ring's rows are kept and the
     * screen is redrawn from them.
     */
    function Newline(): (r: WriterState)
      requires Valid()
      ensures r.Valid() && r.columnPos == 0
      ensures r.head == (head + 1) % SCROLLBACK_LINE_COUNT && r.head != r.tail
      ensures Len() < SCROLLBACK_LINE_COUNT - 1 ==>
                r.Len() == Len() + 1 && r.tail == tail && r.overflowOffset == overflowOffset
      ensures Len() == SCROLLBACK_LINE_COUNT - 1 ==>
                && r.Len() == Len()
                && r.tail == (tail + 1) % SCROLLBACK_LINE_COUNT
                && r.overflowOffset == overflowOffset + 1
      ensures r.scrollback == scrollback && r.colorCode == colorCode && r.topline == topline
    {
      NextLine().(columnPos := 0).DrawFrame()
    }

    /** `scroll_up`: `topline` drops by one unless it is already 0. */
    function ScrollUp(): (r: WriterState)
      requires Valid()
      ensures r.Valid()
      ensures r.topline <= topline && topline <= r.topline + 1
      ensures topline > 0 <==> r.topline < topline
      ensures r.head == head && r.tail == tail && r.scrollback == scrollback
    {
      (if topline > 0 then this.(topline := topline - 1) else this).DrawFrame()
    }

    /**
     * `scroll_down`: `None` when `scrollback_len() - VGA_HEIGHT` underflows
     * (a panic in the debug build), else `topline` grows by one while it is
     * below `Len() - VGA_HEIGHT`.
     */
    function ScrollDown(): (r: Option<WriterState>)
      requires Valid()
      ensures r.None? <==> Len() < VGA_HEIGHT
      ensures r.Some? ==> r.value.Valid() && r.value.topline <= Len() - VGA_HEIGHT
      ensures r.Some? ==> (r.value.topline == topline + 1 <==> topline < Len() - VGA_HEIGHT)
      ensures r.Some? ==> r.value.topline == topline || r.value.topline == topline + 1
      ensures r.Some? ==> r.value.head == head && r.value.tail == tail && r.value.scrollback == scrollback
    {
      if Len() < VGA_HEIGHT then None
      else Some((if topline < Len() - VGA_HEIGHT then this.(topline := topline + 1) else this).DrawFrame())
    }

    /** `write_byte`. */
    function WriteByte(b: bv8): (r: WriterState)
      requires Valid()
      ensures r.Valid()
    {
      var w :=
        if b == LF then Newline()
        else if b == CR then this.(columnPos := 0)
        else
          var w0 := if columnPos >= VGA_WIDTH then Newline() else this;
          var row := w0.scrollback[w0.head];
          w0.(scrollback := w0.scrollback[w0.head := row[w0.columnPos := ScreenChar(b, w0.colorCode)]],
              columnPos := w0.columnPos + 1);
      w.DrawFrame()
    }

    /** `write_string`: every byte of `s`, sanitised, through `WriteByte` in order. */
    function WriteString(s: seq<bv8>): (r: WriterState)
      requires Valid()
      ensures r.Valid()
      decreases |s|
    {
      if s == [] then this
      else WriteString(s[..|s| - 1]).WriteByte(Sanitize(s[|s| - 1]))
    }
  }

  /** `Writer::new`: empty scrollback of blank white-on-black rows, column 0. */
  function Initial(screen: Screen): (w: WriterState)
    ensures w.Valid() && w.Len() == 0 && w.columnPos == 0 && w.topline == 0
    ensures forall i :: 0 <= i < SCROLLBACK_LINE_COUNT ==> w.scrollback[i] == BlankRow(DEFAULT_COLOR)
  {
    WriterState(0, NewColorCode(White, Black), screen, seq(SCROLLBACK_LINE_COUNT, _ => BlankRow(DEFAULT_COLOR)), 0, 0, 0, 0)
  }

  /** `TextOnly(ring)`: every cell of the ring holds a printable byte or the placeholder. */
  ghost predicate TextOnly(ring: Ring)
  {
    forall i, c :: 0 <= i < SCROLLBACK_LINE_COUNT && 0 <= c < VGA_WIDTH ==> IsText(ring[i][c].asciiChar)
  }

  /** `row` with the bytes of `s` stored from column `col` on, in `color`. */
  function Fill(row: Row, col: nat, s: seq<bv8>, color: ColorCode): (r: Row)
    requires col + |s| <= VGA_WIDTH
  {
    seq(VGA_WIDTH, c requires 0 <= c < VGA_WIDTH =>
      if col <= c < col + |s| then ScreenChar(s[c - col], color) else row[c])
  }

  /** `write_string` over a concatenation is `write_string` over each part in turn. */
  lemma {:induction false} WriteStringAppend(w: WriterState, a: seq<bv8>, b: seq<bv8>)
    requires w.Valid()
    ensures w.WriteString(a + b) == w.WriteString(a).WriteString(b)
    decreases |b|
  {
    if b == [] {
      assert a + b == a;
    } else {
      var b' := b[..|b| - 1];
      assert (a + b)[..|a + b| - 1] == a + b';
      assert (a + b)[|a + b| - 1] == b[|b| - 1];
      WriteStringAppend(w, a, b');
    }
  }

  /** Writing one more byte of `s` is one more sanitised `WriteByte`. */
  lemma WriteStringPrefix(w: WriterState, s: seq<bv8>, i: nat)
    requires w.Valid() && i < |s|
    ensures w.WriteString(s[..i + 1]) == w.WriteString(s[..i]).WriteByte(Sanitize(s[i]))
  {
    assert s[..i + 1][..i] == s[..i];
  }

  /** `'\r'` only resets the column; `'\n'` is exactly `newline`. */
  lemma WriteByteControl(w: WriterState)
    requires w.Valid()
    ensures w.WriteByte(CR) == w.(columnPos := 0).DrawFrame()
    ensures w.WriteByte(LF) == w.Newline()
  {
    var n := w.NextLine().(columnPos := 0);
    FrameIdempotent(n.screen, n.scrollback, n.tail, n.topline);
  }

  /**
   * Any other byte: wrap to a new line when the column is at 80, then store
   * (byte, current colour) at the head row's column and advance the column.
   */
  lemma WriteByteStores(w: WriterState, b: bv8)
    requires w.Valid() && b != LF && b != CR
    ensures var r := w.WriteByte(b);
      && r.topline == w.topline && r.colorCode == w.colorCode
      && (w.columnPos >= VGA_WIDTH ==>
            r.head == (w.head + 1) % SCROLLBACK_LINE_COUNT && r.columnPos == 1 && r.tail == w.NextLine().tail)
      && (w.columnPos < VGA_WIDTH ==>
            r.head == w.head && r.tail == w.tail && r.columnPos == w.columnPos + 1)
      && r.scrollback == w.scrollback[r.head := w.scrollback[r.head][r.columnPos - 1 := ScreenChar(b, w.colorCode)]]
  {
  }

  /** Bytes that passed `Sanitize` keep every ring cell text. */
  lemma WriteByteKeepsText(w: WriterState, b: bv8)
    requires w.Valid() && TextOnly(w.scrollback)
    requires IsText(b) || b == LF || b == CR
    ensures TextOnly(w.WriteByte(b).scrollback)
  {
    if b != LF && b != CR {
      WriteByteStores(w, b);
    }
  }

  /** Every cell `write_string` leaves in the ring holds a printable byte or 0xFE. */
  lemma {:induction false} WriteStringKeepsText(w: WriterState, s: seq<bv8>)
    requires w.Valid() && TextOnly(w.scrollback)
    ensures TextOnly(w.WriteString(s).scrollback)
    decreases |s|
  {
    if s != [] {
      WriteStringKeepsText(w, s[..|s| - 1]);
      WriteByteKeepsText(w.WriteString(s[..|s| - 1]), Sanitize(s[|s| - 1]));
    }
  }

  /** A fresh writer's ring is all spaces, so it is text. */
  lemma InitialIsText(screen: Screen)
    ensures TextOnly(Initial(screen).scrollback)
  {
  }

  /** Printable text that fits in the current row lands in that row from the cursor on. */
  lemma {:induction false} WriteTextFillsCurrentLine(w: WriterState, s: seq<bv8>)
    requires w.Valid() && w.columnPos + |s| <= VGA_WIDTH
    requires forall k :: 0 <= k < |s| ==> Printable(s[k])
    ensures var r := w.WriteString(s);
      && r.head == w.head && r.tail == w.tail && r.topline == w.topline && r.colorCode == w.colorCode
      && r.columnPos == w.columnPos + |s|
      && r.scrollback == w.scrollback[w.head := Fill(w.scrollback[w.head], w.columnPos, s, w.colorCode)]
    decreases |s|
  {
    if s == [] {
      assert Fill(w.scrollback[w.head], w.columnPos, s, w.colorCode) == w.scrollback[w.head];
    } else {
      var p := s[..|s| - 1];
      var x := s[|s| - 1];
      WriteTextFillsCurrentLine(w, p);
      var m := w.WriteString(p);
      WriteByteStores(m, x);
      assert Fill(w.scrollback[w.head], w.columnPos, p, w.colorCode)[w.columnPos + |p| := ScreenChar(x, w.colorCode)]
          == Fill(w.scrollback[w.head], w.columnPos, s, w.colorCode);
    }
  }

  /**
   * Scrollback round trip: printable text of at most one row written from
   * column 0 reads back, cell for cell, from the same logical line.
   */
  lemma ScrollbackRoundTrip(w: WriterState, s: seq<bv8>)
    requires w.Valid() && w.columnPos == 0 && |s| <= VGA_WIDTH
    requires forall k :: 0 <= k < |s| ==> Printable(s[k])
    ensures var r := w.WriteString(s);
      && r.Len() == w.Len() && r.columnPos == |s|
      && forall k :: 0 <= k < |s| ==> r.GetLine(w.Len())[k] == ScreenChar(s[k], w.colorCode)
  {
    WriteTextFillsCurrentLine(w, s);
    var r := w.WriteString(s);
    var line := Fill(w.scrollback[w.head], 0, s, w.colorCode);
    assert r.scrollback[w.head] == line;
    calc {
      r.GetLine(w.Len());
      { assert r.Len() == w.Len(); }
      r.CurrentLine();
      line;
    }
  }

  /** A line of printable text then `'\n'`: the text is kept on the old head row and a new line begins. */
  lemma LineThenNewline(w: WriterState, a: seq<bv8>)
    requires w.Valid() && w.columnPos == 0 && w.Len() < SCROLLBACK_LINE_COUNT - 1 && |a| <= VGA_WIDTH
    requires forall k :: 0 <= k < |a| ==> Printable(a[k])
    ensures var w2 := w.WriteString(a + [LF]);
      && w2.columnPos == 0 && w2.colorCode == w.colorCode
      && w2.Len() == w.Len() + 1 && w2.tail == w.tail && w2.head != w.head
      && w2.scrollback[w.head] == Fill(w.CurrentLine(), 0, a, w.colorCode)
  {
    TextThenLineFeed(w, a);
    TextThenNewline(w, a);
  }

  /** Text followed by `'\n'` is the text, then `newline`. */
  lemma TextThenLineFeed(w: WriterState, a: seq<bv8>)
    requires w.Valid()
    ensures w.WriteString(a + [LF]) == w.WriteString(a).Newline()
  {
    WriteStringAppend(w, a, [LF]);
    WriteLineFeed(w.WriteString(a));
  }

  /** A line of printable text, then `newline`: the text stays on the old head row and a new line begins. */
  lemma TextThenNewline(w: WriterState, a: seq<bv8>)
    requires w.Valid() && w.columnPos == 0 && w.Len() < SCROLLBACK_LINE_COUNT - 1 && |a| <= VGA_WIDTH
    requires forall k :: 0 <= k < |a| ==> Printable(a[k])
    ensures var w2 := w.WriteString(a).Newline();
      && w2.columnPos == 0 && w2.colorCode == w.colorCode
      && w2.Len() == w.Len() + 1 && w2.tail == w.tail && w2.head != w.head
      && w2.scrollback[w.head] == Fill(w.CurrentLine(), 0, a, w.colorCode)
  {
    WriteTextFillsCurrentLine(w, a);
    var w1 := w.WriteString(a);
    var line := Fill(w.CurrentLine(), 0, a, w.colorCode);
    assert w1.scrollback[w.head] == line;
    NewlineKeepsLine(w, w1, w1.Newline(), line);
  }

  /** Writing the string `"\n"` is `newline`. */
  lemma WriteLineFeed(w: WriterState)
    requires w.Valid()
    ensures w.WriteString([LF]) == w.Newline()
  {
    assert [LF][..0] == [];
    assert w.WriteString([LF]) == w.WriteByte(LF);
    WriteByteControl(w);
  }

  /**
   * The half of `LineThenNewline` after the text: `m` has the cursor row
   * and tail of `w` and holds `line` there, and `r` is `m.Newline()` as its
   * contract describes it.
   */
  lemma NewlineKeepsLine(w: WriterState, m: WriterState, r: WriterState, line: Row)
    requires w.Valid() && m.Valid() && r.Valid() && w.Len() < SCROLLBACK_LINE_COUNT - 1
    requires m.head == w.head && m.tail == w.tail && m.colorCode == w.colorCode
    requires r.head == (m.head + 1) % SCROLLBACK_LINE_COUNT && r.columnPos == 0 && r.colorCode == m.colorCode
    requires m.Len() < SCROLLBACK_LINE_COUNT - 1 ==> r.Len() == m.Len() + 1 && r.tail == m.tail
    requires r.scrollback == m.scrollback && m.scrollback[w.head] == line
    ensures r.columnPos == 0 && r.colorCode == w.colorCode
    ensures r.Len() == w.Len() + 1 && r.tail == w.tail && r.head != w.head
    ensures r.scrollback[w.head] == line
  {
  }

  /**
   * A line of printable text, `'\n'`, then more printable text: the first
   * part stays on the current logical line, the second starts the next one.
   */
  lemma TwoLines(w: WriterState, a: seq<bv8>, b: seq<bv8>)
    requires w.Valid() && w.columnPos == 0 && w.Len() < SCROLLBACK_LINE_COUNT - 1
    requires |a| <= VGA_WIDTH && |b| <= VGA_WIDTH
    requires forall k :: 0 <= k < |a| ==> Printable(a[k])
    requires forall k :: 0 <= k < |b| ==> Printable(b[k])
    ensures var r := w.WriteString(a + [LF] + b);
      && r.Len() == w.Len() + 1 && r.columnPos == |b|
      && r.GetLine(w.Len()) == Fill(w.CurrentLine(), 0, a, w.colorCode)
      && forall k :: 0 <= k < |b| ==> r.GetLine(w.Len() + 1)[k] == ScreenChar(b[k], w.colorCode)
  {
    WriteStringAppend(w, a + [LF], b);
    LineThenNewline(w, a);
    var w2 := w.WriteString(a + [LF]);
    TextKeepsOtherRows(w2, b);
    LinesJoin(w, w2, w2.WriteString(b), b);
  }

  /**
   * The two halves of `TwoLines` put together: `m` has just begun the line
   * after `w`'s, and `r` wrote `b` on it without touching any other row.
   */
  lemma LinesJoin(w: WriterState, m: WriterState, r: WriterState, b: seq<bv8>)
    requires w.Valid() && m.Valid() && r.Valid()
    requires m.Len() == w.Len() + 1 && m.tail == w.tail && m.head != w.head && m.colorCode == w.colorCode
    requires r.Len() == m.Len() && r.tail == m.tail && r.columnPos == |b|
    requires forall k :: 0 <= k < |b| ==> r.GetLine(m.Len())[k] == ScreenChar(b[k], m.colorCode)
    requires r.scrollback == m.scrollback[m.head := r.scrollback[m.head]]
    ensures r.Len() == w.Len() + 1 && r.columnPos == |b|
    ensures r.GetLine(w.Len()) == m.scrollback[w.head]
    ensures forall k :: 0 <= k < |b| ==> r.GetLine(w.Len() + 1)[k] == ScreenChar(b[k], w.colorCode)
  {
    LineAtHead(w, m, r);
  }

  /**
   * Logical line `w.Len()` of a later state `r` with the same tail is `w`'s
   * head row, as an intermediate state `m` left it when `r` differs from
   * `m` only in `m`'s own head row.
   */
  lemma LineAtHead(w: WriterState, m: WriterState, r: WriterState)
    requires w.Valid() && m.Valid() && r.Valid() && r.tail == w.tail && m.head != w.head
    requires r.scrollback == m.scrollback[m.head := r.scrollback[m.head]]
    ensures r.GetLine(w.Len()) == m.scrollback[w.head]
  {
  }

  /** Printable text of at most one row written from column 0 reads back from the current line and leaves every other row alone. */
  lemma TextKeepsOtherRows(w: WriterState, s: seq<bv8>)
    requires w.Valid() && w.columnPos == 0 && |s| <= VGA_WIDTH
    requires forall k :: 0 <= k < |s| ==> Printable(s[k])
    ensures var r := w.WriteString(s);
      && r.Len() == w.Len() && r.tail == w.tail && r.columnPos == |s|
      && (forall k :: 0 <= k < |s| ==> r.GetLine(w.Len())[k] == ScreenChar(s[k], w.colorCode))
      && r.scrollback == w.scrollback[w.head := r.scrollback[w.head]]
  {
    ScrollbackRoundTrip(w, s);
    WriteTextFillsCurrentLine(w, s);
  }

  /** From a fresh writer, "Hi\nBye" leaves "Hi" on line 0, "Bye" on line 1 and the column at 3. */
  lemma HiByeScenario(screen: Screen)
    ensures var r := Initial(screen).WriteString([0x48, 0x69, LF, 0x42, 0x79, 0x65]);
      && r.Len() == 1 && r.columnPos == 3
      && r.GetLine(0) == Fill(BlankRow(DEFAULT_COLOR), 0, [0x48, 0x69], DEFAULT_COLOR)
      && r.GetLine(1)[..3] == [ScreenChar(0x42, DEFAULT_COLOR), ScreenChar(0x79, DEFAULT_COLOR), ScreenChar(0x65, DEFAULT_COLOR)]
  {
    var hi: seq<bv8> := [0x48, 0x69];
    var bye: seq<bv8> := [0x42, 0x79, 0x65];
    assert [0x48, 0x69, LF, 0x42, 0x79, 0x65] == hi + [LF] + bye;
    var w := Initial(screen);
    TwoLines(w, hi, bye);
    var r := w.WriteString(hi + [LF] + bye);
    assert w.Len() == 0 && w.colorCode == DEFAULT_COLOR;
    assert forall k :: 0 <= k < 3 ==> r.GetLine(1)[k] == ScreenChar(bye[k], DEFAULT_COLOR);
    assert r.GetLine(1)[0] == ScreenChar(0x42, DEFAULT_COLOR);
    assert r.GetLine(1)[1] == ScreenChar(0x79, DEFAULT_COLOR);
    assert r.GetLine(1)[2] == ScreenChar(0x65, DEFAULT_COLOR);
  }

  /** The 81st printable byte of a line wraps to column 0 of the next ring row. */
  lemma WrapsAfterEightyColumns(w: WriterState, s: seq<bv8>)
    requires w.Valid() && w.columnPos == 0 && |s| == VGA_WIDTH + 1
    requires forall k :: 0 <= k < |s| ==> Printable(s[k])
    ensures var r := w.WriteString(s);
      && r.head == (w.head + 1) % SCROLLBACK_LINE_COUNT && r.columnPos == 1
      && r.scrollback[r.head][0] == ScreenChar(s[VGA_WIDTH], w.colorCode)
      && forall c :: 0 <= c < VGA_WIDTH ==> r.scrollback[w.head][c] == ScreenChar(s[c], w.colorCode)
  {
    var p := s[..VGA_WIDTH];
    var x := s[VGA_WIDTH];
    assert s == p + [x];
    WriteStringAppend(w, p, [x]);
    WriteTextFillsCurrentLine(w, p);
    var m := w.WriteString(p);
    assert m.columnPos == VGA_WIDTH && m.head == w.head;
    assert m.scrollback[w.head] == Fill(w.scrollback[w.head], 0, p, w.colorCode);
    assert [x][..0] == [];
    assert m.WriteString([x]) == m.WriteByte(x);
    WriteByteStores(m, x);
    var r := m.WriteByte(x);
    assert r.head == (w.head + 1) % SCROLLBACK_LINE_COUNT && r.head != w.head;
    assert r.scrollback[w.head] == m.scrollback[w.head];
  }

  /** `draw_frame` twice in a row is `draw_frame` once. */
  lemma DrawFrameIdempotent(w: WriterState)
    requires w.Valid()
    ensures w.DrawFrame().DrawFrame() == w.DrawFrame()
  {
    FrameIdempotent(w.screen, w.scrollback, w.tail, w.topline);
  }

  /** `n` successive `scroll_down` calls, `None` if one of them panics. */
  ghost function ScrollDownTimes(w: WriterState, n: nat): Option<WriterState>
    requires w.Valid()
    decreases n
  {
    if n == 0 then Some(w)
    else match w.ScrollDown()
      case None => None
      case Some(w') => ScrollDownTimes(w', n - 1)
  }

  /** `n` successive `scroll_up` calls. */
  ghost function ScrollUpTimes(w: WriterState, n: nat): WriterState
    requires w.Valid()
    decreases n
  {
    if n == 0 then w else ScrollUpTimes(w.ScrollUp(), n - 1)
  }

  /** Scrolling down saturates at `Len() - VGA_HEIGHT`. */
  lemma {:induction false} ScrollDownClamped(w: WriterState, n: nat)
    requires w.Valid() && w.Len() >= VGA_HEIGHT
    ensures ScrollDownTimes(w, n).Some?
    ensures ScrollDownTimes(w, n).value.topline == Min(w.topline + n, w.Len() - VGA_HEIGHT)
    decreases n
  {
    if n > 0 {
      ScrollDownClamped(w.ScrollDown().value, n - 1);
    }
  }

  /** Scrolling up saturates at 0. */
  lemma {:induction false} ScrollUpClamped(w: WriterState, n: nat)
    requires w.Valid()
    ensures ScrollUpTimes(w, n).topline == if w.topline >= n then w.topline - n else 0
    decreases n
  {
    if n > 0 {
      ScrollUpClamped(w.ScrollUp(), n - 1);
    }
  }
}
