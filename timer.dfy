/** timer.c: programming counter 0 of the 8253/8254 PIT for CLK_TICK interrupts
    a second. The IRQ0 attach and enable calls are not part of this model. */
module Timer {
  import opened CTypes
  import opened Utils

  /** PIT_CLOCK: the PIT's input clock in Hz. */
  const PIT_CLOCK: u32 := 1193180
  /** CLK_TICK: the wanted number of ticks per second. */
  const CLK_TICK: u32 := 100

  const PIT_REG_COUNTER0: u16 := 0x40
  const PIT_REG_COMMAND: u16 := 0x43

  /** The command-byte fields: mode in bits 1..3, read/load access in bits 4..5, the counter
      in bits 6..7. */
  const PIT_OCW_MODE_SHIFT: nat := 1
  const PIT_OCW_RL_SHIFT: nat := 4
  const PIT_OCW_COUNTER_SHIFT: nat := 6
  const PIT_OCW_MODE_SQUARE: u8 := 3 * 2
  const PIT_OCW_RL_DATA: u8 := 3 * 16
  const PIT_OCW_COUNTER_0: u8 := 0 * 64

  /** PIT_DIVISOR: unsigned 32-bit division, rounding down. */
  const PIT_DIVISOR: u32 := PIT_CLOCK / CLK_TICK

  /** The command byte timer__init sends: the three fields or-ed together. */
  const PIT_COMMAND: u8 := PIT_OCW_MODE_SQUARE + PIT_OCW_RL_DATA + PIT_OCW_COUNTER_0

  /** The divisor is the largest count whose CLK_TICK periods fit in one second of the input
      clock, and it passes the `divisor <= 0xffff` assertion of the 16-bit counter. */
  lemma DivisorFits()
    ensures PIT_DIVISOR == 11931 && PIT_DIVISOR <= 0xFFFF
    ensures PIT_DIVISOR * CLK_TICK <= PIT_CLOCK < (PIT_DIVISOR + 1) * CLK_TICK
  {
  }

  /** The byte timer__init writes first: `divisor & 0xff`. */
  function DivisorLow(d: u32): u8
  {
    d % 0x100
  }

  /** The byte timer__init writes second: `(divisor >> 8) & 0xff`. */
  function DivisorHigh(d: u32): u8
  {
    (d / 0x100) % 0x100
  }

  /** The two bytes give back any divisor the counter can hold, so the counter is loaded
      with exactly PIT_DIVISOR (0x2E9B). */
  lemma DivisorBytesRecombine(d: u32)
    requires d <= 0xFFFF
    ensures DivisorHigh(d) * 0x100 + DivisorLow(d) == d
    ensures DivisorLow(PIT_DIVISOR) == 0x9B && DivisorHigh(PIT_DIVISOR) == 0x2E
  {
  }

  /** 0x36: counter 0 (bits 6..7 = 0), low byte then high byte (bits 4..5 = 3), square-wave
      mode 3 (bits 1..3), binary counting (bit 0 = 0). */
  lemma CommandByte()
    ensures PIT_COMMAND == 0x36
    ensures PIT_COMMAND / Pow2(PIT_OCW_COUNTER_SHIFT) == 0
    ensures (PIT_COMMAND / Pow2(PIT_OCW_RL_SHIFT)) % 4 == 3
    ensures (PIT_COMMAND / Pow2(PIT_OCW_MODE_SHIFT)) % 8 == 3
    ensures PIT_COMMAND % 2 == 0
  {
    Pow2Values();
  }

  /** The writes timer__init makes: the command to port 0x43, then the divisor's low and high
      bytes to counter 0's port 0x40. */
  const TIMER_WRITES: seq<PortWrite> := [
    PortWrite(PIT_COMMAND, PIT_REG_COMMAND),
    PortWrite(DivisorLow(PIT_DIVISOR), PIT_REG_COUNTER0),
    PortWrite(DivisorHigh(PIT_DIVISOR), PIT_REG_COUNTER0)]

  /** timer__init (timer.c:65-83) without the IRQ0 attach and enable. */
  method TimerInit(ports: Ports)
    modifies ports
    ensures ports.log == old(ports.log) + TIMER_WRITES
  {
    var divisor := PIT_DIVISOR;
    ports.Outb(PIT_OCW_MODE_SQUARE + PIT_OCW_RL_DATA + PIT_OCW_COUNTER_0, PIT_REG_COMMAND);
    ports.Outb(DivisorLow(divisor), PIT_REG_COUNTER0);
    ports.Outb(DivisorHigh(divisor), PIT_REG_COUNTER0);
  }

  /** The write sequence, value by value: 0x36 to 0x43, 0x9B to 0x40, 0x2E to 0x40. */
  lemma TimerWriteOrder()
    ensures TIMER_WRITES == [PortWrite(0x36, 0x43), PortWrite(0x9B, 0x40), PortWrite(0x2E, 0x40)]
  {
    CommandByte();
    DivisorBytesRecombine(PIT_DIVISOR);
  }
}
