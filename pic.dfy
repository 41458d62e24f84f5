/**
 * kernel/src/pic.rs: programs the interval timer (PIT) and remaps the two
 * cascaded 8259 interrupt controllers, as fixed sequences of port writes.
 */
module Pic {
  import opened PortIo

  const PIT_CHANNEL0: bv16 := 0x40
  const PIT_COMMAND_PORT: bv16 := 0x43

  const MASTER_COMM: bv16 := 0x20
  const MASTER_DATA: bv16 := 0x21
  const SLAVE_COMM: bv16 := 0xA0
  const SLAVE_DATA: bv16 := 0xA1

  /** ICW1: initialise, cascade mode, ICW4 follows. */
  const INIT: bv8 := 0x11

  const MASTER_OFFSET: bv8 := 0x20
  const SLAVE_OFFSET: bv8 := 0x28
  /** ICW3 of the master: a slave hangs on line 2. */
  const MASTER_CASCADE: bv8 := 0x04
  /** ICW3 of the slave: its cascade identity. */
  const SLAVE_CASCADE: bv8 := 0x02
  /** ICW4: 8086 mode. */
  const MODE_8086: bv8 := 0x01
  const MASTER_MASK: bv8 := 0xFE
  const SLAVE_MASK: bv8 := 0xFF

  /** The PIT mode/command byte `(1 << 2) | (3 << 4)`. */
  const PIT_COMMAND: bv8 := (1 << 2) | (3 << 4)
  /** Reload value for a 100 Hz tick from the 1193182 Hz input clock. */
  const PIT_DIVISOR: bv32 := 1193182 / 100

  /** Access modes of bits 4-5 of the PIT command byte. */
  datatype Access = LatchCount | LoByteOnly | HiByteOnly | LoByteHiByte

  /** The fields of the PIT mode/command byte. */
  datatype PitCommand = PitCommand(channel: bv8, access: Access, mode: bv8, bcd: bool)
  {
    predicate Valid() { channel < 4 && mode < 8 }
  }

  function AccessBits(a: Access): bv8
  {
    match a
    case LatchCount => 0
    case LoByteOnly => 1
    case HiByteOnly => 2
    case LoByteHiByte => 3
  }

  /** Bits 6-7 channel, 4-5 access mode, 1-3 operating mode, 0 BCD. */
  function EncodeCommand(c: PitCommand): bv8
    requires c.Valid()
  {
    (c.channel << 6) | (AccessBits(c.access) << 4) | (c.mode << 1) | (if c.bcd then 1 else 0)
  }

  function DecodeCommand(b: bv8): (c: PitCommand)
    ensures c.Valid()
  {
    var a := (b >> 4) & 3;
    PitCommand(b >> 6,
               if a == 0 then LatchCount else if a == 1 then LoByteOnly else if a == 2 then HiByteOnly else LoByteHiByte,
               (b >> 1) & 7,
               b & 1 == 1)
  }

  /** The command layout round-trips in both directions. */
  lemma CommandRoundTrip(c: PitCommand, b: bv8)
    requires c.Valid()
    ensures DecodeCommand(EncodeCommand(c)) == c
    ensures EncodeCommand(DecodeCommand(b)) == b
  {
  }

  /** 0x34 selects channel 0, low byte then high byte, mode 2 (rate generator), binary counting. */
  lemma PitCommandMeaning()
    ensures PIT_COMMAND == 0x34
    ensures DecodeCommand(PIT_COMMAND) == PitCommand(0, LoByteHiByte, 2, false)
  {
  }

  /** The reload value fits 16 bits and its two bytes reassemble to it. */
  lemma PitDivisorSplit()
    ensures PIT_DIVISOR == 11931 && PIT_DIVISOR < 0x1_0000
    ensures TruncateToU8(PIT_DIVISOR >> 0) == 0x9B && TruncateToU8(PIT_DIVISOR >> 8) == 0x2E
    ensures (TruncateToU8(PIT_DIVISOR >> 0) as bv16) | ((TruncateToU8(PIT_DIVISOR >> 8) as bv16) << 8) == 11931
  {
  }

  /** For every 16-bit reload value, low byte then high byte reassemble to it. */
  lemma LowHighReassemble(d: bv32)
    requires d < 0x1_0000
    ensures (TruncateToU8(d >> 0) as bv32) | ((TruncateToU8(d >> 8) as bv32) << 8) == d
  {
  }

  /** What `init_pit` writes. */
  function InitPitWrites(): seq<PortWrite>
  {
    [ PortWrite(PIT_COMMAND_PORT, PIT_COMMAND),
      PortWrite(PIT_CHANNEL0, TruncateToU8(PIT_DIVISOR >> 0)),
      PortWrite(PIT_CHANNEL0, TruncateToU8(PIT_DIVISOR >> 8)) ]
  }

  /** What `init_pic` writes: ICW1 to both, then ICW2 (offsets), ICW3 (cascade), ICW4 (mode), masks. */
  function InitPicWrites(): seq<PortWrite>
  {
    [ PortWrite(MASTER_COMM, INIT), PortWrite(SLAVE_COMM, INIT),
      PortWrite(MASTER_DATA, MASTER_OFFSET), PortWrite(SLAVE_DATA, SLAVE_OFFSET),
      PortWrite(MASTER_DATA, MASTER_CASCADE), PortWrite(SLAVE_DATA, SLAVE_CASCADE),
      PortWrite(MASTER_DATA, MODE_8086), PortWrite(SLAVE_DATA, MODE_8086),
      PortWrite(MASTER_DATA, MASTER_MASK), PortWrite(SLAVE_DATA, SLAVE_MASK) ]
  }

  method InitPit(bus: Bus)
    modifies bus
    ensures bus.trace == old(bus.trace) + InitPitWrites()
  {
    var data: bv8 := (1 << 2) | (3 << 4);
    bus.WriteByte(0x43, data);
    var divisor: bv32 := 1193182 / 100;
    bus.WriteByte(0x40, TruncateToU8(divisor >> 0));
    bus.WriteByte(0x40, TruncateToU8(divisor >> 8));
  }

  method InitPic(bus: Bus)
    modifies bus
    ensures bus.trace == old(bus.trace) + InitPicWrites()
  {
    bus.WriteByte(MASTER_COMM, INIT);
    bus.WriteByte(SLAVE_COMM, INIT);

    bus.WriteByte(MASTER_DATA, 0x20);
    bus.WriteByte(SLAVE_DATA, 0x28);

    bus.WriteByte(MASTER_DATA, 0x04);
    bus.WriteByte(SLAVE_DATA, 0x02);

    bus.WriteByte(MASTER_DATA, 0x01);
    bus.WriteByte(SLAVE_DATA, 0x01);

    bus.WriteByte(MASTER_DATA, 0xFE);
    bus.WriteByte(SLAVE_DATA, 0xFF);
  }

  /** `init`: the timer first, then the controllers. */
  method Init(bus: Bus)
    modifies bus
    ensures bus.trace == old(bus.trace) + InitPitWrites() + InitPicWrites()
  {
    InitPit(bus);
    InitPic(bus);
  }

  const PIT_PORTS: set<bv16> := {PIT_CHANNEL0, PIT_COMMAND_PORT}
  const MASTER_PORTS: set<bv16> := {MASTER_COMM, MASTER_DATA}
  const SLAVE_PORTS: set<bv16> := {SLAVE_COMM, SLAVE_DATA}

  /** Thirteen writes, to six ports, and every timer write precedes every controller write. */
  lemma InitTrace()
    ensures |InitPitWrites() + InitPicWrites()| == 13
    ensures PortsOf(InitPitWrites() + InitPicWrites()) == PIT_PORTS + MASTER_PORTS + SLAVE_PORTS
    ensures var t := InitPitWrites() + InitPicWrites();
      forall i, j :: 0 <= i < |t| && 0 <= j < |t| && t[i].port in PIT_PORTS && t[j].port !in PIT_PORTS ==> i < j
  {
    var t := InitPitWrites() + InitPicWrites();
    assert forall i :: 0 <= i < |t| ==> (t[i].port in PIT_PORTS <==> i < 3);
    PortsOfConcat(InitPitWrites(), InitPicWrites());
    PitPorts();
    PicPorts();
  }

  /** The timer writes go to its command port and channel 0. */
  lemma PitPorts()
    ensures PortsOf(InitPitWrites()) == PIT_PORTS
  {
    var t := InitPitWrites();
    assert t[0].port == PIT_COMMAND_PORT && t[1].port == PIT_CHANNEL0;
  }

  /** The controller writes go to the command and data ports of both chips. */
  lemma PicPorts()
    ensures PortsOf(InitPicWrites()) == MASTER_PORTS + SLAVE_PORTS
  {
    var t := InitPicWrites();
    assert t[0].port == MASTER_COMM && t[1].port == SLAVE_COMM && t[2].port == MASTER_DATA && t[3].port == SLAVE_DATA;
  }

  /**
   * Each controller sees the four-step handshake in order: ICW1 on its
   * command port, then offset, cascade byte, mode byte and mask on its data port.
   */
  lemma ControllerHandshakes()
    ensures WritesTo(InitPicWrites(), MASTER_PORTS) ==
      [ PortWrite(MASTER_COMM, INIT), PortWrite(MASTER_DATA, MASTER_OFFSET), PortWrite(MASTER_DATA, MASTER_CASCADE),
        PortWrite(MASTER_DATA, MODE_8086), PortWrite(MASTER_DATA, MASTER_MASK) ]
    ensures WritesTo(InitPicWrites(), SLAVE_PORTS) ==
      [ PortWrite(SLAVE_COMM, INIT), PortWrite(SLAVE_DATA, SLAVE_OFFSET), PortWrite(SLAVE_DATA, SLAVE_CASCADE),
        PortWrite(SLAVE_DATA, MODE_8086), PortWrite(SLAVE_DATA, SLAVE_MASK) ]
  {
    var m := [ PortWrite(MASTER_COMM, INIT), PortWrite(MASTER_DATA, MASTER_OFFSET), PortWrite(MASTER_DATA, MASTER_CASCADE),
               PortWrite(MASTER_DATA, MODE_8086), PortWrite(MASTER_DATA, MASTER_MASK) ];
    var s := [ PortWrite(SLAVE_COMM, INIT), PortWrite(SLAVE_DATA, SLAVE_OFFSET), PortWrite(SLAVE_DATA, SLAVE_CASCADE),
               PortWrite(SLAVE_DATA, MODE_8086), PortWrite(SLAVE_DATA, SLAVE_MASK) ];
    assert Interleave(m[4..], s[4..]) == [m[4], s[4]] + Interleave([], []);
    assert Interleave(m[3..], s[3..]) == [m[3], s[3]] + Interleave(m[4..], s[4..]);
    assert Interleave(m[2..], s[2..]) == [m[2], s[2]] + Interleave(m[3..], s[3..]);
    assert Interleave(m[1..], s[1..]) == [m[1], s[1]] + Interleave(m[2..], s[2..]);
    assert InitPicWrites() == Interleave(m, s);
    assert MASTER_COMM in MASTER_PORTS && MASTER_DATA in MASTER_PORTS;
    assert SLAVE_COMM !in MASTER_PORTS && SLAVE_DATA !in MASTER_PORTS;
    assert MASTER_COMM !in SLAVE_PORTS && MASTER_DATA !in SLAVE_PORTS;
    assert SLAVE_COMM in SLAVE_PORTS && SLAVE_DATA in SLAVE_PORTS;
    InterleaveFilterFirst(m, s, MASTER_PORTS);
    InterleaveFilterSecond(m, s, SLAVE_PORTS);
  }

  /** Vector `v` is raised by one of the eight lines of a controller remapped to `offset`. */
  predicate InWindow(offset: bv8, v: nat)
  {
    offset as nat <= v < offset as nat + 8
  }

  /** The remapped windows [32, 40) and [40, 48) are disjoint and above the 32 exception vectors. */
  lemma OffsetsAboveExceptions()
    ensures forall v: nat :: !(InWindow(MASTER_OFFSET, v) && InWindow(SLAVE_OFFSET, v))
    ensures forall v: nat :: InWindow(MASTER_OFFSET, v) ==> 32 <= v < 40
    ensures forall v: nat :: InWindow(SLAVE_OFFSET, v) ==> 40 <= v < 48
  {
  }

  /** The master's cascade byte selects line 2, which is the slave's identity. */
  lemma CascadeWiring()
    ensures MASTER_CASCADE == 1 << SLAVE_CASCADE
  {
  }

  /** The interrupt lines from `line` up that a mask byte leaves enabled (a clear bit enables). */
  function UnmaskedLines(mask: bv8, line: nat): set<nat>
    requires line <= 8
    decreases 8 - line
  {
    if line == 8 then {}
    else (if (mask >> line) & 1 == 0 then {line} else {}) + UnmaskedLines(mask, line + 1)
  }

  /** Only master line 0, the timer, is left unmasked. */
  lemma OnlyTimerUnmasked()
    ensures UnmaskedLines(MASTER_MASK, 0) == {0}
    ensures UnmaskedLines(SLAVE_MASK, 0) == {}
  {
  }
}
