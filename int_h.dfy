/** include/int.h: the layout of the register frame the interrupt stubs push,
    the 8259A PIC control words, and the packed IDT gate and IDTR structures
    (section 6.11 of the Intel SDM Vol. 3A). */
module IntH {
  import opened CTypes

  // ---------------------------------------------------------------------
  // The saved register frame

  const REG_DS: nat := 0
  const REG_EDI: nat := 1
  const REG_ESI: nat := 2
  const REG_EBP: nat := 3
  const REG_ESP: nat := 4
  const REG_EBX: nat := 5
  const REG_EDX: nat := 6
  const REG_ECX: nat := 7
  const REG_EAX: nat := 8
  const REG_IRQNO: nat := 9
  const REG_ERRCODE: nat := 10
  const REG_EIP: nat := 11
  const REG_CS: nat := 12
  const REG_EFLAGS: nat := 13
  const REG_SP: nat := 14
  const REG_SS: nat := 15

  /** The number of 32-bit words in a saved frame. */
  const REG_FRAME_WORDS: nat := 16

  /** The frame indices in the order the header lists them. */
  const REG_INDICES: seq<nat> := [REG_DS, REG_EDI, REG_ESI, REG_EBP, REG_ESP, REG_EBX, REG_EDX,
    REG_ECX, REG_EAX, REG_IRQNO, REG_ERRCODE, REG_EIP, REG_CS, REG_EFLAGS, REG_SP, REG_SS]

  /** The indices are 0..15, each once and in order, so every one names a distinct word of
      the 16-word frame; the interrupt number is word 9 and the error code word 10. */
  lemma RegIndicesConsecutive()
    ensures |REG_INDICES| == REG_FRAME_WORDS
    ensures forall k :: 0 <= k < |REG_INDICES| ==> REG_INDICES[k] == k
    ensures REG_IRQNO == 9 && REG_ERRCODE == 10
  {
  }

  // ---------------------------------------------------------------------
  // The 8259A PIC

  /** The I/O ports of the two controllers (master, slave): OCW1 and OCW2 share them. */
  const PIC1_OCW1: u16 := 0x20
  const PIC2_OCW1: u16 := 0xA0
  const PIC1_OCW2: u16 := 0x20
  const PIC2_OCW2: u16 := 0xA0

  /** PIC1_OCW1_IRQn and PIC2_OCW1_IRQ(8+k): the OCW1 mask bit of an IRQ line. */
  function Ocw1MaskBit(irq: nat): (bit: u8)
    requires irq < 16
    ensures bit == Pow2(irq % 8)
  {
    Pow2Values();
    if irq < 8 then Pow2(irq) else Pow2(irq - 8)
  }

  /** The port of the controller that owns an IRQ line: lines 0..7 are the master's, 8..15
      the slave's. */
  function Ocw1Port(irq: nat): (port: u16)
    requires irq < 16
  {
    if irq < 8 then PIC1_OCW1 else PIC2_OCW1
  }

  /** Line n is bit n mod 8 of controller n / 8, and the sixteen lines get sixteen distinct
      (controller, bit) pairs. */
  lemma MaskBitsDistinct(m: nat, n: nat)
    requires m < 16 && n < 16 && m != n
    ensures Ocw1Port(m) == (if m / 8 == 0 then PIC1_OCW1 else PIC2_OCW1)
    ensures Ocw1MaskBit(m) as int == Pow2(m % 8)
    ensures Ocw1Port(m) != Ocw1Port(n) || Ocw1MaskBit(m) != Ocw1MaskBit(n)
  {
    Pow2Values();
  }

  const PIC_OCW2_EOI_SHIFT: nat := 5
  const PIC_OCW2_EOI_MASK: u8 := 7 * 32
  const PIC_OCW2_EOI_NONSPEC: u8 := 1 * 32

  /** The non-specific EOI command is 0x20: EOI field value 1, all other bits clear, so it
      lies wholly inside the EOI mask 0xE0. */
  lemma EoiNonSpecificInMask()
    ensures PIC_OCW2_EOI_NONSPEC == 0x20 && PIC_OCW2_EOI_MASK == 0xE0
    ensures PIC_OCW2_EOI_NONSPEC / Pow2(PIC_OCW2_EOI_SHIFT) == 1
    ensures PIC_OCW2_EOI_NONSPEC % Pow2(PIC_OCW2_EOI_SHIFT) == 0
  {
    Pow2Values();
  }

  // ---------------------------------------------------------------------
  // IDT gates

  /** IDT_ENTRIES: the number of slots int__idt_init clears and loads; the array itself has
      one more. */
  const IDT_ENTRIES: nat := 0xFF
  const IDT_SLOTS: nat := IDT_ENTRIES + 1
  const IDT_T_SIZE: nat := 8
  const DEF_INTGATE_FLAGS: u8 := 0x8E

  /** The type/attribute byte of a gate: present bit 7, privilege level bits 5-6, a 0 in bit 4
      for a system descriptor, gate type bits 0-3. */
  datatype GateFlags = GateFlags(present: nat, dpl: nat, storage: nat, gateType: nat)

  function DecodeGateFlags(flags: u8): (g: GateFlags)
    ensures g.present < 2 && g.dpl < 4 && g.storage < 2 && g.gateType < 16
    ensures g.present * 128 + g.dpl * 32 + g.storage * 16 + g.gateType == flags
  {
    GateFlags(flags / 128, (flags / 32) % 4, (flags / 16) % 2, flags % 16)
  }

  /** 0x8E is a present, privilege-0, 32-bit interrupt gate (type 0xE). */
  lemma InterruptGateFlags()
    ensures DecodeGateFlags(DEF_INTGATE_FLAGS) == GateFlags(1, 0, 0, 0xE)
  {
  }

  /** idt_t: lobase, sel, zero, flags, hibase, packed. */
  datatype IdtEntry = IdtEntry(lobase: u16, sel: u16, zero: u8, flags: u8, hibase: u16)

  const ZERO_IDT_ENTRY := IdtEntry(0, 0, 0, 0, 0)

  /** The handler address a gate holds. */
  function GateOffset(e: IdtEntry): (offset: u32)
  {
    e.hibase * 0x1_0000 + e.lobase
  }

  /** The eight bytes of a packed idt_t in memory: lobase at 0, sel at 2, zero at 4, flags
      at 5, hibase at 6, each little-endian. */
  function IdtEntryBytes(e: IdtEntry): (b: seq<u8>)
    ensures |b| == IDT_T_SIZE
  {
    [e.lobase % 0x100, e.lobase / 0x100, e.sel % 0x100, e.sel / 0x100,
     e.zero, e.flags, e.hibase % 0x100, e.hibase / 0x100]
  }

  /** Reading a gate back from its eight bytes. */
  function IdtEntryOfBytes(b: seq<u8>): (e: IdtEntry)
    requires |b| == IDT_T_SIZE
  {
    IdtEntry(b[0] as int + 0x100 * b[1] as int, b[2] as int + 0x100 * b[3] as int, b[4], b[5],
             b[6] as int + 0x100 * b[7] as int)
  }

  /** The packed layout loses nothing: the bytes read back as the gate, and reading then
      packing eight bytes gives them back. */
  lemma IdtEntryLayout(e: IdtEntry, b: seq<u8>)
    requires |b| == IDT_T_SIZE
    ensures IdtEntryOfBytes(IdtEntryBytes(e)) == e
    ensures IdtEntryBytes(IdtEntryOfBytes(b)) == b
  {
  }

  /** The all-zero gate is eight zero bytes and is not present. */
  lemma ZeroGateNotPresent()
    ensures IdtEntryBytes(ZERO_IDT_ENTRY) == [0, 0, 0, 0, 0, 0, 0, 0]
    ensures DecodeGateFlags(ZERO_IDT_ENTRY.flags).present == 0
  {
  }

  /** idtr_t: the operand of `lidt`. */
  datatype Idtr = Idtr(limit: u16, base: u32)
}
