# goose kernel text output and fixed initialisers, in Dafny

This project models the parts of the goose hobby kernel (a Rust i686/x86_64 kernel with a
Multiboot loader) that carry checkable logic:

- the kernel's VGA text writer (`kernel/src/vga.rs`):
  - the screen `Buffer` of 25 rows of 80 cells;
  - the `ColorCode` attribute byte;
  - the `Writer`, with its 250-row scrollback ring (`scrollback_head`, `scrollback_tail`,
    `overflow_offset`), the cursor `column_pos` and the `scroll_topline` window;
- the 128-slot UI event ring queue (`kernel/src/event.rs`, duplicated in `kernel/src/vga.rs`);
- the port-write sequences that program the interval timer and the two cascaded 8259
  interrupt controllers (`kernel/src/pic.rs`, `kernel/src/pit.rs`);
- the early-boot console of `common/src/lib.rs` (copied verbatim into `loader/src/main.rs`).
  It is a (`LAST_ROW`, `LAST_COL`) cursor over raw 4000-byte text-mode memory, plus the
  decimal and hexadecimal number printers;
- the Multiboot header constants (`loader/src/multiboot_header.rs`), checked against
  section 3.1.2 of the Multiboot Specification 0.6.96.

Layout:

| file | module | contents |
|---|---|---|
| wrappers.dfy | `Wrappers` | `Option` |
| vga.dfy | `Vga` | `Color`, `ColorCode`, `ScreenChar`, `Row`, class `Buffer` over an `array<Row>` |
| scrollback.dfy | `Scrollback` | the `Writer` state as a value (`WriterState`), one function per operation, and the lemmas about them |
| writer.dfy | `VgaWriter` | class `Writer` over the screen buffer and a 250-row `array<Row>`; every method is proved to move `State()` exactly as the matching `WriterState` function |
| event.dfy | `Event` | the queue as a value (`QueueState`), its contents, the FIFO lemma, and class `UiEventQueue` over an `array<UiEvent>` |
| port_io.dfy | `PortIo` | `out` as an append to a write trace (class `Bus`) |
| pic.dfy | `Pic` | `init_pit`, `init_pic`, `init`, and the meaning of their bytes |
| pit.dfy | `Pit` | the stand-alone timer `init` |
| numerals.dfy | `Numerals` | `int_to_char`, digit strings, and their parser |
| early_console.dfy | `EarlyConsole` | the raw console as a value and as class `Console` over an `array<bv8>`, plus the shared digit-buffer loop |
| multiboot_header.dfy | `MultibootHeader` | the header constants, their word layout and checksum |

Modelling conventions:

- Widths are explicit. Bytes are `bv8` and port numbers `bv16`. `bv32` is used only for the PIT divisor, its `as u8` truncation and the Multiboot flag bits.
  The `u32` and `u64` arguments of the number printers are `nat` subset types bounded by 2^32 and 2^64,
  which is enough because the printers only apply `%` and `/` to them, and neither can overflow.
  The Multiboot fields use an `i32` newtype, so any overflow would be a verification error.
  Indices are `nat`.
- Panics and failures are modelled in three ways:
  - an array index out of range, or the `VGA_WIDTH - col` underflow in `put_str`, is excluded
    by a `requires`, so those panics are not modelled;
  - the `usize` underflow in `scroll_down` is reachable from a short scrollback. The model
    chooses the semantics in which this subtraction panics (overflow checks on, as in a
    debug build) and makes the panic a result: `None` in `WriterState.ScrollDown`,
    `completed == false` in `Writer.ScrollDown`;
  - `int_to_char` on a value above 15 returns `None`, as in the source.
- `draw_frame` is modelled as written, without reducing ring indices modulo 250. It copies
  scrollback rows `[tail + topline, topline + 24)` to screen rows from 0. It therefore never
  refreshes the bottom screen row, and refreshes nothing once `tail >= 24`.
- The loader's helper functions (`print`, `int_to_char`, `newline`, `println`,
  `print_int`, `print_hex`, `print_hex_64`) are verbatim copies of those in
  `common/src/lib.rs`. They are modelled once, and rows below cite both copies.
- The event queue in `kernel/src/vga.rs` is a verbatim copy of the one in
  `kernel/src/event.rs`. It is modelled once.
- The three `print_*` loops differ only in base and buffer size. They are modelled by one
  method, `EarlyConsole.FormatDigits`, called with (10, 10), (16, 8) and (16, 20).

## Model

| member | source | states |
|---|---|---|
| Vga.Color.Value | kernel/src/vga.rs:82-101 | every colour discriminant is below 16 |
| Vga.ColorOf | kernel/src/vga.rs:82-101 | a byte names a colour iff it is below 16, and that colour's discriminant is the byte (inverse of `Value`) |
| Vga.NewColorCode | kernel/src/vga.rs:107-111 | `ColorCode::new(fg, bg)` puts `fg` in the low nibble and `bg` in the high nibble, and both colours are recovered from the byte |
| Vga.NewColorCodeInjective | kernel/src/vga.rs:108-110 | distinct (fg, bg) pairs give distinct attribute bytes |
| Vga.DefaultColorIsWhiteOnBlack | kernel/src/vga.rs:176 | the fallback colour white on black is attribute byte 0x0F |
| Vga.BlankRow | kernel/src/vga.rs:191-197 | a blank row is 80 spaces in the given colour |
| Vga.Buffer.constructor | kernel/src/vga.rs:119-121 | the buffer wraps video memory whose current contents are given |
| Vga.Buffer.Get | kernel/src/vga.rs:171-173 | `get(row, col)` reads one cell of the grid; what it returns after a store is stated by `Put`'s get-after-put ensures |
| Vga.Buffer.Put | kernel/src/vga.rs:124-126 | get after put: `get(row, col)` afterwards returns the stored cell, `get` of every other cell returns its old value, and the grid is the old grid with that one cell replaced |
| Vga.Buffer.PutStr | kernel/src/vga.rs:128-143 | `put_str` writes byte `c - col` of `s` with the given or default colour to every column `c` in `[col, col + min(len, 80 - col))` of `row`; every other cell is unchanged |
| Vga.Buffer.PutStrWrapped | kernel/src/vga.rs:145-169 | `put_str_wrapped` places byte `k` at linear cell `row*80 + col + k`, wrapping at column 80; every other cell is unchanged |
| Vga.Buffer.Clear | kernel/src/vga.rs:175-189 | after `clear`, every row is spaces in the given or default colour |
| Vga.Buffer.ClearRow | kernel/src/vga.rs:191-197 | `clear_row` blanks the named row and leaves the other 24 as they were |
| Scrollback.ScrollbackLen | kernel/src/vga.rs:226-232 | the length is below 250 and `head == (tail + len) % 250`, so the row being written is logical line `len` |
| Scrollback.NextLineLen | kernel/src/vga.rs:248-256 | the new head meets the tail iff the length was 249; otherwise the length grows by one; after an eviction it stays 249 |
| Scrollback.Sanitize | kernel/src/vga.rs:332-337 | `write_string` passes printable bytes, `\n` and `\r`, and substitutes 0xFE for everything else |
| Scrollback.SanitizeIdempotent | kernel/src/vga.rs:333-336 | substituting twice is substituting once |
| Scrollback.Frame | kernel/src/vga.rs:286-298 | the copy loop of `draw_frame` as written, without reduction modulo 250; its meaning is stated by `FrameMeaning` |
| Scrollback.FrameMeaning | kernel/src/vga.rs:286-298 | the copy loop of `draw_frame`: screen row `k` with `tail + k < 24` receives ring row `tail + topline + k`; rows with `tail + k >= 24`, in particular the bottom row, are untouched; with tail 0 screen row `k` is ring row `topline + k`; with `tail >= 24` nothing changes |
| Scrollback.FrameIdempotent | kernel/src/vga.rs:286-298 | drawing twice gives the same screen as drawing once |
| Scrollback.WriterState.Len | kernel/src/vga.rs:226-232 | `scrollback_len` is below 250 and counts from `tail` to `head` modulo 250 |
| Scrollback.WriterState.GetLine | kernel/src/vga.rs:234-237 | `scrollback_get_line`: ring row `(tail + line) % 250`; `CurrentLine`, `ScrollbackRoundTrip` and `TwoLines` state what it reads back |
| Scrollback.WriterState.CurrentLine | kernel/src/vga.rs:244-246 | `scrollback_current_line_mut` is logical line `scrollback_len()` as `scrollback_get_line` numbers lines |
| Scrollback.WriterState.NextLine | kernel/src/vga.rs:248-263 | head advances modulo 250. Below 249 rows, the length grows by one with tail and overflow offset fixed. At 249 rows, tail and overflow offset advance and the length stays. Head differs from tail afterwards, and nothing else changes |
| Scrollback.WriterState.Push | kernel/src/vga.rs:265-270 | `scrollback_push` stores the line at the old head row, leaves every other ring row alone and advances head |
| Scrollback.WriterState.DrawFrame | kernel/src/vga.rs:286-298 | `draw_frame` changes only the screen |
| Scrollback.WriterState.Newline | kernel/src/vga.rs:343-354 | `newline` moves head to the next ring row at column 0. Below 249 rows the length grows by one with tail and overflow offset kept; at 249 the tail and overflow offset advance and the length stays. The ring rows, colour and topline are kept |
| Scrollback.WriterState.ScrollUp | kernel/src/vga.rs:272-277 | `scroll_up` lowers `topline` by one exactly when it is positive, never below 0, and leaves the ring and its indices alone |
| Scrollback.WriterState.ScrollDown | kernel/src/vga.rs:279-284 | `scroll_down` fails (the `usize` underflow) exactly when the length is below 25. Otherwise it raises `topline` by one exactly when `topline < len - 25`, keeps `topline <= len - 25` and leaves the ring alone |
| Scrollback.WriterState.WriteByte | kernel/src/vga.rs:300-330 | `write_byte` keeps head and tail in the ring, the column at most 80 and `topline` clamped |
| Scrollback.WriterState.WriteString | kernel/src/vga.rs:332-337 | `write_string` keeps the same invariant |
| Scrollback.Initial | kernel/src/vga.rs:212-224 | a new writer has length 0, column 0, topline 0 and a ring of white-on-black blank rows |
| Scrollback.WriteStringAppend | kernel/src/vga.rs:332-337 | writing a concatenation is writing each part in turn |
| Scrollback.WriteStringPrefix | kernel/src/vga.rs:332-337 | one more byte of the string is one more `write_byte` of its substitute |
| Scrollback.WriteByteControl | kernel/src/vga.rs:300-306 | `\r` only sets column 0 (then redraws); `\n` is exactly `newline` |
| Scrollback.WriteByteStores | kernel/src/vga.rs:307-328 | any other byte first starts a new line when the column is at least 80, then stores (byte, current colour) at the head row's column and advances the column; no other ring cell changes |
| Scrollback.WriteByteKeepsText | kernel/src/vga.rs:300-330 | a byte that passed substitution keeps every ring cell printable or 0xFE |
| Scrollback.WriteStringKeepsText | kernel/src/vga.rs:332-337 | every cell `write_string` leaves in the ring holds a printable byte or 0xFE |
| Scrollback.InitialIsText | kernel/src/vga.rs:14-18 | every cell of the initial ring holds a printable byte or 0xFE, so a fresh writer starts in the state `WriteStringKeepsText` preserves |
| Scrollback.WriteTextFillsCurrentLine | kernel/src/vga.rs:307-328 | printable text that fits in the current row is stored there from the cursor on, and the column advances by its length |
| Scrollback.ScrollbackRoundTrip | kernel/src/vga.rs:234-237 | printable text of at most 80 bytes written from column 0 reads back cell for cell from `scrollback_get_line(len)` |
| Scrollback.LineThenNewline | kernel/src/vga.rs:300-354 | below 249 rows, from column 0, a row of printable text then `\n`: the text stays on the old head row, the length grows by one, the tail stays and the column is 0 (with a full ring `newline` evicts the oldest row instead, see `NextLineLen`) |
| Scrollback.TextThenLineFeed | kernel/src/vga.rs:300-306 | writing text then `\n` is writing the text, then `newline` |
| Scrollback.TextThenNewline | kernel/src/vga.rs:300-354 | below 249 rows, from column 0, a row of printable text then `newline`: the text stays on the old head row, the length grows by one and the tail stays |
| Scrollback.WriteLineFeed | kernel/src/vga.rs:300-306 | writing the string `"\n"` is exactly `newline` |
| Scrollback.NewlineKeepsLine | kernel/src/vga.rs:343-354 | below 249 rows, `newline` after a line keeps that line on the old head row, grows the length by one, keeps the tail and moves head off that row |
| Scrollback.TextKeepsOtherRows | kernel/src/vga.rs:307-337 | printable text of at most one row written from column 0 reads back from logical line `len` and leaves every other ring row, the length and the tail alone |
| Scrollback.TwoLines | kernel/src/vga.rs:300-337 | below 249 rows, from column 0, text, `\n`, text: the first part stays on the current logical line, and the second starts the next one |
| Scrollback.LinesJoin | kernel/src/vga.rs:234-237 | a line begun after `w`'s and written without touching other rows leaves `w`'s line readable at index `len` and the new text at `len + 1` |
| Scrollback.LineAtHead | kernel/src/vga.rs:234-237 | `scrollback_get_line(len)` of a later state with the same tail reads the old head row, when only a different row changed since |
| Scrollback.HiByeScenario | kernel/src/vga.rs:212-337 | from a fresh writer, "Hi\nBye" leaves "Hi" on line 0, "Bye" on line 1, the length at 1 and the column at 3 |
| Scrollback.WrapsAfterEightyColumns | kernel/src/vga.rs:311-313 | the 81st printable byte of a line goes to column 0 of the next ring row, and the first 80 stay on the old row |
| Scrollback.DrawFrameIdempotent | kernel/src/vga.rs:286-298 | `draw_frame` twice is `draw_frame` once |
| Scrollback.ScrollDownClamped | kernel/src/vga.rs:279-284 | `n` calls of `scroll_down` with at least 25 rows reach `min(topline + n, len - 25)` |
| Scrollback.ScrollUpClamped | kernel/src/vga.rs:272-277 | `n` calls of `scroll_up` reach `max(topline - n, 0)` |
| VgaWriter.Writer.constructor | kernel/src/vga.rs:212-224 | `Writer::new` yields the initial state over the given screen buffer |
| VgaWriter.Writer.ScrollbackLen | kernel/src/vga.rs:226-232 | the length is below 250 and counts from the tail index to the head index modulo 250 |
| VgaWriter.Writer.ScrollbackGetLine | kernel/src/vga.rs:234-237 | returns ring row `(tail + line) % 250` |
| VgaWriter.Writer.ScrollbackNextLine | kernel/src/vga.rs:248-263 | the fields change as `WriterState.NextLine` says |
| VgaWriter.Writer.ScrollbackPush | kernel/src/vga.rs:265-270 | the ring and the fields change as `WriterState.Push` says |
| VgaWriter.Writer.DrawFrame | kernel/src/vga.rs:286-298 | the loop leaves the screen as `Frame` describes |
| VgaWriter.Writer.ScrollUp | kernel/src/vga.rs:272-277 | as `WriterState.ScrollUp` |
| VgaWriter.Writer.ScrollDown | kernel/src/vga.rs:279-284 | as `WriterState.ScrollDown`; the state is unchanged on the panic path |
| VgaWriter.Writer.Newline | kernel/src/vga.rs:343-354 | as `WriterState.Newline` |
| VgaWriter.Writer.WriteByte | kernel/src/vga.rs:300-330 | as `WriterState.WriteByte` |
| VgaWriter.Writer.WriteString | kernel/src/vga.rs:332-337 | the loop over the bytes yields `WriterState.WriteString` |
| VgaWriter.Writer.ClearRow | kernel/src/vga.rs:339-341 | blanks one screen row in the writer's colour and changes nothing else |
| Event.QueueState.Count | kernel/src/event.rs:41-68 | occupancy `(tail - head) mod 128` is below 128 and reaches `tail` from `head` |
| Event.QueueState.Contents | kernel/src/event.rs:34-38 | the queued events, oldest first, as many as the occupancy |
| Event.QueueState.Push | kernel/src/event.rs:41-53 | on a full queue nothing changes and the event is dropped; otherwise the event goes to slot `tail`, `tail` advances modulo 128 and `head` stays |
| Event.QueueState.Pop | kernel/src/event.rs:55-68 | on an empty queue the result is `None` and nothing changes; otherwise it is `events[head]`, `head` advances and the rest stays |
| Event.QueuedSlotIsNotTail | kernel/src/event.rs:46-51 | no queued slot is the free slot `tail` |
| Event.FullAndEmpty | kernel/src/event.rs:46-60 | the full test means 127 events queued; the empty test means none |
| Event.PushCount | kernel/src/event.rs:46-51 | a push onto a queue that is not full raises the occupancy by one |
| Event.PushContents | kernel/src/event.rs:41-53 | a push appends the event to the contents, unless 127 are queued, when the contents are unchanged |
| Event.NextSlotShift | kernel/src/event.rs:63-65 | counting from the slot after `head` is counting from `head` one further |
| Event.PopCount | kernel/src/event.rs:58-65 | a pop from a non-empty queue lowers the occupancy by one |
| Event.PopContents | kernel/src/event.rs:55-68 | a pop returns and removes the oldest event, or `None` on an empty queue |
| Event.Execute | kernel/src/event.rs:41-68 | any sequence of pushes and pops keeps the queue's indices in range |
| Event.Fifo | kernel/src/vga.rs:50-79 | over any sequence of calls, the initial contents followed by the accepted pushes equal the popped events followed by the final contents; dropped pushes appear nowhere |
| Event.FifoPush | kernel/src/event.rs:41-53 | one push keeps the FIFO equation, adding the event to the accepted ones exactly when the queue changed |
| Event.FifoPop | kernel/src/event.rs:55-68 | one pop keeps the FIFO equation, moving the oldest event to the popped ones |
| Event.UiEventQueue.constructor | kernel/src/event.rs:10-15 | the queue starts with zeroed slots, `head == tail == 0` and no contents |
| Event.UiEventQueue.Push | kernel/src/event.rs:41-53 | as `QueueState.Push`, with the contents appended or unchanged |
| Event.UiEventQueue.Pop | kernel/src/event.rs:55-68 | as `QueueState.Pop`, returning the oldest event |
| PortIo.TruncateToU8 | kernel/src/pic.rs:51-52 | `as u8` keeps the value modulo 256 |
| PortIo.WritesTo | kernel/src/pic.rs:41-45 | a trace restricted to some ports is no longer than the trace and touches only those ports |
| PortIo.WritesToPair | kernel/src/pic.rs:41-45 | filtering a trace two writes at a time keeps each of them exactly when its port is in the set |
| PortIo.Interleave | kernel/src/pic.rs:69-85 | two equally long traces written alternately give a trace twice as long |
| PortIo.InterleaveFilterFirst | kernel/src/pic.rs:69-85 | when only the first of two interleaved traces writes to a port set, filtering by it recovers that trace |
| PortIo.InterleaveFilterSecond | kernel/src/pic.rs:69-85 | the same for the second trace |
| PortIo.PortsOf | kernel/src/pic.rs:41-45 | the ports a trace writes to are exactly the ports of its entries |
| PortIo.PortsOfConcat | kernel/src/pic.rs:87-90 | the ports of two traces one after the other are the union of the ports of each |
| PortIo.Bus.constructor | kernel/src/pic.rs:41-45 | the trace starts empty |
| PortIo.Bus.WriteByte | kernel/src/pic.rs:41-45 | `write_byte` appends one (port, byte) write to the trace |
| Pic.EncodeCommand | kernel/src/pic.rs:10-29 | the command register layout: channel in bits 6-7, access mode in 4-5, operating mode in 1-3, BCD in bit 0; `CommandRoundTrip` proves it inverse to `DecodeCommand` |
| Pic.DecodeCommand | kernel/src/pic.rs:10-29 | a decoded PIT command byte has channel below 4 and mode below 8 |
| Pic.CommandRoundTrip | kernel/src/pic.rs:10-29 | encoding and decoding the command layout are inverse in both directions |
| Pic.PitCommandMeaning | kernel/src/pic.rs:48-49 | the command byte is 0x34: channel 0, low byte then high byte, mode 2 (rate generator), binary |
| Pic.PitDivisorSplit | kernel/src/pic.rs:50-52 | the divisor is 11931 and fits 16 bits; it is written as 0x9B then 0x2E, which reassemble to 11931 |
| Pic.LowHighReassemble | kernel/src/pic.rs:51-52 | for every 16-bit divisor, low byte then high byte reassemble to it |
| Pic.InitPitWrites | kernel/src/pic.rs:47-53 | the three writes of `init_pit`; `PitCommandMeaning` and `PitDivisorSplit` state their bytes |
| Pic.InitPicWrites | kernel/src/pic.rs:69-85 | the ten writes of `init_pic`; `ControllerHandshakes` states what each controller receives |
| Pic.InitPit | kernel/src/pic.rs:47-53 | `init_pit` appends exactly its three writes to the trace |
| Pic.InitPic | kernel/src/pic.rs:69-85 | `init_pic` appends exactly its ten writes, in source order |
| Pic.Init | kernel/src/pic.rs:87-90 | `init` appends the timer writes, then the controller writes |
| Pic.InitTrace | kernel/src/pic.rs:47-90 | the whole trace is 13 writes to exactly ports 0x20, 0x21, 0xA0, 0xA1, 0x40 and 0x43, and every timer write precedes every controller write |
| Pic.PitPorts | kernel/src/pic.rs:47-53 | the timer writes go to exactly ports 0x43 and 0x40 |
| Pic.PicPorts | kernel/src/pic.rs:69-85 | the controller writes go to exactly ports 0x20, 0x21, 0xA0 and 0xA1 |
| Pic.ControllerHandshakes | kernel/src/pic.rs:71-84 | each controller sees ICW1 0x11 on its command port, then its offset (0x20 or 0x28), cascade byte (0x04 or 0x02), mode 0x01 and mask (0xFE or 0xFF) on its data port |
| Pic.OffsetsAboveExceptions | kernel/src/pic.rs:74-75 | the vector windows [32, 40) and [40, 48) are disjoint and above the 32 exception vectors |
| Pic.CascadeWiring | kernel/src/pic.rs:77-78 | the master's cascade byte selects line 2, the slave's identity |
| Pic.OnlyTimerUnmasked | kernel/src/pic.rs:83-84 | the masks leave only master line 0, the timer, enabled |
| Pit.InitWrites | kernel/src/pit.rs:3-15 | the three writes of `pit::init`; `InitMatchesPicTimer` states them |
| Pit.Init | kernel/src/pit.rs:3-15 | `init` appends exactly its three writes to the trace |
| Pit.LowByteForms | kernel/src/pit.rs:12 | `(d & 0xff) as u8` and `(d >> 0) as u8` are the same byte for every 32-bit `d` |
| Pit.InitMatchesPicTimer | kernel/src/pit.rs:4-14 | three writes: 0x34 to 0x43, then 0x9B and 0x2E to 0x40. This is the same trace as `init_pit` in kernel/src/pic.rs |
| Numerals.IntToChar | common/src/lib.rs:37-43 | `int_to_char` succeeds iff the value is below 16, giving a lower-case hex digit, and `'0' + n` for values below 10 |
| Numerals.DigitValue | loader/src/main.rs:51-57 | a byte has a digit value iff it is a lower-case hex digit, and the value is below 16 |
| Numerals.CharRoundTrip | common/src/lib.rs:37-43 | `int_to_char` and digit reading are inverse bijections between 0..15 and `0-9a-f` |
| Numerals.DigitOf | common/src/lib.rs:61 | `int_to_char((n % base) as u8)` is the hex digit of value `n % base` |
| Numerals.Digits | common/src/lib.rs:57-66 | the digit string is all hex digits, and empty exactly for 0 |
| Numerals.ParseSnoc | common/src/lib.rs:60-64 | appending a digit of value `v` to a string denoting `p` denotes `p * base + v` |
| Numerals.DivisionShrinks | common/src/lib.rs:62 | dividing by the base shrinks a positive number and loses exactly the remainder |
| Numerals.DigitsRoundTrip | common/src/lib.rs:57-92 | the emitted digits, most significant first, denote `n` |
| Numerals.DigitsInjective | common/src/lib.rs:57-92 | different numbers print differently |
| Numerals.NoLeadingZero | common/src/lib.rs:68-92 | the first digit of a positive number is not `'0'` |
| Numerals.QuotientBelow | common/src/lib.rs:62 | dividing a number below `base * p` by `base` leaves a number below `p` |
| Numerals.DigitsLength | common/src/lib.rs:57-92 | a number below `base^k` has at most `k` digits |
| Numerals.DigitBudgets | loader/src/main.rs:131-167 | a `u32` needs at most 10 decimal or 8 hex digits and a `u64` at most 16 hex digits, so the 10-, 8- and 20-byte buffers are never overrun |
| Numerals.PowValues | common/src/lib.rs:57-92 | `10^10`, `16^8 = 2^32` and `16^16 = 2^64` |
| Numerals.PowMonotone | common/src/lib.rs:82 | a larger digit budget admits every number a smaller one does |
| EarlyConsole.CellOffset | common/src/lib.rs:28-30 | cell (row, col) with `row < 25`, `col < 80` and the attribute byte after it lie below 4000 |
| EarlyConsole.CellOffsetDecodes | common/src/lib.rs:28-30 | the offset is even and decodes back to (row, col) |
| EarlyConsole.CellOffsetInjective | common/src/lib.rs:28-30 | distinct cells use distinct, non-overlapping byte pairs |
| EarlyConsole.ConsoleState.Row | common/src/lib.rs:13-15 | a row of 25 or more wraps to 0 before the byte is handled; a row below 25 is used as it is |
| EarlyConsole.ConsoleState.Col | common/src/lib.rs:16-18 | a column of 80 or more wraps to 0 before the byte is handled; a column below 80 is used as it is |
| EarlyConsole.ConsoleState.Step | common/src/lib.rs:12-34 | after one byte the row is at most 25 and the column at most 80 |
| EarlyConsole.ConsoleState.Print | loader/src/main.rs:24-49 | after a nonempty `print` the row is at most 25 and the column at most 80 |
| EarlyConsole.ConsoleState.Newline | common/src/lib.rs:45-50 | `newline` leaves memory alone, sets column 0 and raises the row by exactly one, without bound |
| EarlyConsole.ConsoleState.Println | common/src/lib.rs:52-55 | `println` is `print` then `newline`, ending at column 0 |
| EarlyConsole.StepControl | common/src/lib.rs:20-26 | `\n` moves to the next row at column 0 and `\r` to column 0; neither touches memory |
| EarlyConsole.StepStores | common/src/lib.rs:27-32 | any other byte goes to the wrapped cursor's cell with attribute 0x0F; every other byte is kept; the column advances |
| EarlyConsole.PrintAppend | common/src/lib.rs:10-35 | printing a concatenation is printing each part in turn |
| EarlyConsole.PrintFootprint | loader/src/main.rs:24-49 | after `print(s)`, every changed attribute byte is 0x0F and every changed character byte is a byte of `s` other than a line break |
| EarlyConsole.PrintPlainText | common/src/lib.rs:27-32 | text without line breaks that fits on the row is laid out left to right from the cursor with attribute 0x0F |
| EarlyConsole.PlainTextStep | common/src/lib.rs:27-32 | one more non-break byte goes to the cell right after the text already laid out, and every earlier cell keeps its byte and attribute |
| EarlyConsole.NewlineThenChar | loader/src/main.rs:59-64 | after `newline`, the next character lands at column 0 of the next row, or of row 0 past the bottom |
| EarlyConsole.PeelDigit | common/src/lib.rs:60-64 | one loop iteration moves the lowest digit to the front of the emitted suffix |
| EarlyConsole.FormatDigits | common/src/lib.rs:57-92 | the digit loop fills the buffer from the right and returns exactly the digits of `n`, most significant first |
| EarlyConsole.Console.constructor | common/src/lib.rs:7-8 | both cursor globals start at 0 |
| EarlyConsole.Console.PrintByte | common/src/lib.rs:12-34 | one pass of the byte loop moves cursor and memory as `ConsoleState.Step` |
| EarlyConsole.Console.Print | common/src/lib.rs:10-35 | the byte loop moves cursor and memory as `ConsoleState.Print` |
| EarlyConsole.Console.Newline | common/src/lib.rs:45-50 | as `ConsoleState.Newline` |
| EarlyConsole.Console.Println | common/src/lib.rs:52-55 | as `ConsoleState.Println` |
| EarlyConsole.Console.PrintInt | common/src/lib.rs:57-66 | prints exactly the decimal digits of `n`, nothing for 0 |
| EarlyConsole.Console.PrintHex | common/src/lib.rs:68-79 | prints exactly `0x` followed by the hex digits of `n` |
| EarlyConsole.Console.PrintHex64 | common/src/lib.rs:81-92 | prints exactly `0x` followed by the hex digits of the 64-bit `n` |
| MultibootHeader.ToWord | loader/src/multiboot_header.rs:8-13 | an `i32` field is stored as the 32-bit word congruent to it modulo 2^32 |
| MultibootHeader.FromWord | loader/src/multiboot_header.rs:8-13 | a stored word denotes the `i32` congruent to it |
| MultibootHeader.WordRoundTrip | loader/src/multiboot_header.rs:8-13 | storing and reading back are inverse in both directions |
| MultibootHeader.Words | loader/src/multiboot_header.rs:8-13 | the header is three words: magic, flags, checksum, in that order |
| MultibootHeader.WordBytes | loader/src/multiboot_header.rs:8 | a word occupies four bytes |
| MultibootHeader.WordBytesRoundTrip | loader/src/multiboot_header.rs:8 | the little-endian bytes of a word reassemble to it |
| MultibootHeader.Image | loader/src/multiboot_header.rs:34-40 | the 12-byte image holds magic, flags and checksum at offsets 0, 4 and 8 |
| MultibootHeader.FlagsMeaning | loader/src/multiboot_header.rs:15-21 | `ALIGN` is 1, `MEMINFO` is 2 and `FLAGS` is 3, with only bits 0 and 1 set |
| MultibootHeader.HeaderValid | loader/src/multiboot_header.rs:23-40 | `MAGIC + FLAGS` is below 2^31, so the negation does not overflow. Magic, flags and checksum sum to 0, as integers and as 32-bit words. The image starts with the magic bytes 02 B0 AD 1B |

## Left out

- Descriptor tables, TSS setup and table loading (kernel/src/gdt.rs, kernel/src/idt.rs) are done inside the `x86_64` crate; they are not part of this model, and neither are the interrupt handlers.
- kernel/src/boot_info.rs wraps Multiboot2 parsing by an external crate; it is not part of this model.
- The loader's `load_elf_module` and `loader_main` are left out. They depend on the `elf` and `multiboot` crates, copy raw physical memory, and call assembly routines.
- The `print!`/`println!` macros, `fmt`, the `core::fmt::Write` impls and `FmtWriter` are left out. They are formatting glue around `write_string` and depend on `core::fmt`.
- The `Lazy`/`Mutex` singletons, `without_interrupts` and the atomic orderings of the queue indices are left out, because concurrency is out of scope. Head and tail are plain fields.
- `push_event`/`pop_event` forward to the global queue and are only `UiEventQueue.Push`/`Pop`.
- `scrollback_get_line_mut` is left out. It returns a mutable reference into the ring; `write_byte`'s update of the current row stands in for it.
- `read_byte` (the `in` instruction) in kernel/src/pic.rs is never called and is left out. The `out` instruction and `Port::write` become appends to a write trace, and the hardware's response is not modelled.
- The video memory at 0xb8000 is a constructor parameter (`Vga.Buffer`, `EarlyConsole.Console`), so its initial contents are whatever the caller supplies.
- `QUEUE_BUFFER` is zero-initialised memory reinterpreted as `UiEvent`s; the model fills the unused slots with `ScrollDown`, the variant with discriminant 0.
- Scrollback.WriterState.ScrollDown: models the debug build, where `scrollback_len() - VGA_HEIGHT` panics on underflow. The release build's wrap-around is not modelled.
- Scrollback.WriterState: `overflow_offset` is an unbounded `nat`; a `usize` wrap after 2^64 evictions is not modelled.
- EarlyConsole.ConsoleState.Newline: the row is an unbounded `nat`; a `usize` wrap after 2^64 calls of `newline` is not modelled.
- Vga.Buffer.PutStr, Vga.Buffer.PutStrWrapped, Vga.Buffer.Put, VgaWriter.Writer.DrawFrame and VgaWriter.Writer.ClearRow require in-range positions where the source would panic on an out-of-range index or on the `VGA_WIDTH - col` underflow.
