/**
 * loader/src/multiboot_header.rs: the header that marks the loader as a
 * Multiboot kernel (Multiboot Specification 0.6.96, section 3.1.2). Its
 * three `i32` fields are stored as 32-bit two's-complement words in the
 * order magic, flags, checksum, and must sum to zero modulo 2^32.
 */
module MultibootHeader {

  /** Rust's `i32`: arithmetic on it that leaves this range is an overflow the verifier rejects. */
  newtype i32 = x: int | -0x8000_0000 <= x < 0x8000_0000

  /** Bit 0: align loaded modules on page (4 KiB) boundaries. */
  const ALIGN: i32 := ((1 as bv32) << 0) as i32
  /** Bit 1: provide the memory map. */
  const MEMINFO: i32 := ((1 as bv32) << 1) as i32
  /** The flags field, `ALIGN | MEMINFO`. */
  const FLAGS: i32 := (ALIGN as bv32 | MEMINFO as bv32) as i32
  /** The magic number a boot loader searches for. */
  const MAGIC: i32 := 0x1BADB002
  /** `-(MAGIC + FLAGS)`: both the sum and its negation stay within `i32`. */
  const CHECKSUM: i32 := -(MAGIC + FLAGS)

  datatype Header = Header(magic: i32, flags: i32, checksum: i32)

  const HEADER: Header := Header(MAGIC, FLAGS, CHECKSUM)

  /** An unsigned 32-bit word and a byte, as numbers. */
  type Word = w: nat | w < 0x1_0000_0000
  type Byte = b: nat | b < 0x100

  /** The 32-bit two's-complement word that stores an `i32`. */
  function ToWord(x: i32): (w: Word)
    ensures (w - x as int) % 0x1_0000_0000 == 0
  {
    if x >= 0 then x as int else x as int + 0x1_0000_0000
  }

  /** The `i32` a stored word denotes. */
  function FromWord(w: Word): (x: i32)
    ensures (x as int - w) % 0x1_0000_0000 == 0
  {
    if w < 0x8000_0000 then w as i32 else (w - 0x1_0000_0000) as i32
  }

  /** Storing and reading back are inverse in both directions. */
  lemma WordRoundTrip(x: i32, w: Word)
    ensures FromWord(ToWord(x)) == x
    ensures ToWord(FromWord(w)) == w
  {
  }

  /** The `repr(C)` layout: three words in declaration order. */
  function Words(h: Header): (ws: seq<Word>)
    ensures |ws| == 3
    ensures FromWord(ws[0]) == h.magic && FromWord(ws[1]) == h.flags && FromWord(ws[2]) == h.checksum
  {
    WordRoundTrip(h.magic, 0);
    WordRoundTrip(h.flags, 0);
    WordRoundTrip(h.checksum, 0);
    [ToWord(h.magic), ToWord(h.flags), ToWord(h.checksum)]
  }

  /** The little-endian bytes of a word, lowest first. */
  function WordBytes(w: Word): (bs: seq<Byte>)
    ensures |bs| == 4
  {
    var q1 := w / 0x100;
    var q2 := q1 / 0x100;
    [w % 0x100, q1 % 0x100, q2 % 0x100, q2 / 0x100]
  }

  /** Reads a little-endian word back from four bytes. */
  function ReadWord(bs: seq<Byte>): Word
    requires |bs| == 4
  {
    bs[0] as int + 0x100 * bs[1] as int + 0x1_0000 * bs[2] as int + 0x100_0000 * bs[3] as int
  }

  lemma WordBytesRoundTrip(w: Word)
    ensures ReadWord(WordBytes(w)) == w
  {
    var q1 := w / 0x100;
    var q2 := q1 / 0x100;
    assert w == w % 0x100 + 0x100 * q1;
    assert q1 == q1 % 0x100 + 0x100 * q2;
    assert q2 == q2 % 0x100 + 0x100 * (q2 / 0x100);
  }

  /** The twelve bytes of the header as it sits in the `.multiboot` section. */
  function Image(h: Header): (bs: seq<Byte>)
    ensures |bs| == 12
    ensures forall k :: 0 <= k < 3 ==> FromWord(ReadWord(bs[4 * k..4 * k + 4])) == [h.magic, h.flags, h.checksum][k]
  {
    var ws := Words(h);
    var bs := WordBytes(ws[0]) + WordBytes(ws[1]) + WordBytes(ws[2]);
    assert bs[0..4] == WordBytes(ws[0]) && bs[4..8] == WordBytes(ws[1]) && bs[8..12] == WordBytes(ws[2]);
    WordBytesRoundTrip(ws[0]);
    WordBytesRoundTrip(ws[1]);
    WordBytesRoundTrip(ws[2]);
    bs
  }

  /** The flag bits: exactly bits 0 (page-aligned modules) and 1 (memory information). */
  lemma FlagsMeaning()
    ensures ALIGN == 1 && MEMINFO == 2 && FLAGS == 3
    ensures FLAGS as bv32 & 1 == 1 && FLAGS as bv32 & 2 == 2 && FLAGS as bv32 & !3 == 0
  {
  }

  /** The header is valid in the sense of section 3.1.2 of the Multiboot Specification. */
  lemma HeaderValid()
    ensures MAGIC as int + FLAGS as int < 0x8000_0000
    ensures HEADER.magic as int + HEADER.flags as int + HEADER.checksum as int == 0
    ensures Words(HEADER)[0] == 0x1BADB002
    ensures (Words(HEADER)[0] as int + Words(HEADER)[1] as int + Words(HEADER)[2] as int) % 0x1_0000_0000 == 0
    ensures Image(HEADER)[..4] == [0x02, 0xB0, 0xAD, 0x1B]
  {
    FlagsMeaning();
    assert CHECKSUM as int == -0x1BADB005;
    var ws := Words(HEADER);
    assert ws == [0x1BADB002, 3, 0x1_0000_0000 - 0x1BADB005];
    assert Image(HEADER)[..4] == WordBytes(ws[0]);
  }
}
