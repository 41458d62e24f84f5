/**
 * kernel/src/pit.rs: the stand-alone timer set-up, programming channel 0
 * through the command port 0x43 and the data port 0x40.
 */
module Pit {
  import opened PortIo
  import Pic

  const COMMAND_PORT: bv16 := 0x43
  const CHANNEL0_PORT: bv16 := 0x40

  /** What `init` writes: the command byte, then the low and the high byte of the divisor. */
  function InitWrites(): seq<PortWrite>
  {
    var data: bv8 := (1 << 2) | (3 << 4);
    var divisor: bv32 := 1193182 / 100;
    [ PortWrite(COMMAND_PORT, data),
      PortWrite(CHANNEL0_PORT, TruncateToU8(divisor & 0xFF)),
      PortWrite(CHANNEL0_PORT, TruncateToU8(divisor >> 8)) ]
  }

  method Init(bus: Bus)
    modifies bus
    ensures bus.trace == old(bus.trace) + InitWrites()
  {
    var data: bv8 := (1 << 2) | (3 << 4);
    bus.WriteByte(COMMAND_PORT, data);
    var divisor: bv32 := 1193182 / 100;
    bus.WriteByte(CHANNEL0_PORT, TruncateToU8(divisor & 0xFF));
    bus.WriteByte(CHANNEL0_PORT, TruncateToU8(divisor >> 8));
  }

  /** Masking with 0xFF and shifting by zero select the same low byte of any 32-bit value. */
  lemma LowByteForms(d: bv32)
    ensures TruncateToU8(d & 0xFF) == TruncateToU8(d >> 0)
  {
  }

  /**
   * Three writes: command 0x34 to port 0x43, then 0x9B and 0x2E to port 0x40,
   * exactly what the timer part of the controller set-up writes.
   */
  lemma InitMatchesPicTimer()
    ensures InitWrites() == [PortWrite(0x43, 0x34), PortWrite(0x40, 0x9B), PortWrite(0x40, 0x2E)]
    ensures InitWrites() == Pic.InitPitWrites()
  {
    LowByteForms(1193182 / 100);
  }
}
