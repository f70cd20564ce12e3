/** int.c: the interrupt descriptor table and the C side of trap and IRQ
    entry.

    The vector numbers come from int_vectors.h, which is not part of this
    model: ISRk is taken to be vector k (the CPU exceptions) and IRQk vector
    32 + k (the PIC lines remapped onto 32..47). The handler addresses of the
    assembly stubs and the address of the table itself are link-time values
    and come in as parameters. */
module Interrupts {
  import opened CTypes
  import opened Utils
  import opened MemH
  import opened IntH
  import opened Console

  const ISR_COUNT: nat := 32
  const IRQ_COUNT: nat := 16
  const IRQ0: nat := 32
  const IRQ8: nat := 40

  /** The number of populated gates: ISR0..ISR31, then IRQ0..IRQ15. */
  const STUB_COUNT: nat := 48

  /** How a trap ends: common_handler reports it and halts, never returning. */
  datatype Outcome = Halted(irq: i32)

  // ---------------------------------------------------------------------
  // Gates

  /** The gate __set_idt (int.c:96-103) writes: the handler address split into its low and
      high halves, the selector and flags as given, the reserved byte 0. */
  function MakeGate(base: u32, sel: u16, flags: u8): (e: IdtEntry)
    ensures GateOffset(e) == base && e.sel == sel && e.flags == flags && e.zero == 0
  {
    IdtEntry(base % 0x1_0000, sel, 0, flags, (base / 0x1_0000) % 0x1_0000)
  }

  /** Slot v after int__idt_init, for v below IDT_ENTRIES: an interrupt gate to its stub for
      the 48 populated vectors, all zero for the rest. */
  function InitialGate(stubs: seq<u32>, v: nat): IdtEntry
    requires |stubs| == STUB_COUNT
  {
    if v < STUB_COUNT then MakeGate(stubs[v], KERNEL_CS, DEF_INTGATE_FLAGS) else ZERO_IDT_ENTRY
  }

  /** Every populated gate is a present ring-0 interrupt gate into the kernel code segment at
      its stub; every other cleared slot is not present. */
  lemma InitialGates(stubs: seq<u32>, v: nat)
    requires |stubs| == STUB_COUNT
    ensures var e := InitialGate(stubs, v);
      && (v < STUB_COUNT ==> GateOffset(e) == stubs[v] && e.sel == 0x08
                             && DecodeGateFlags(e.flags) == GateFlags(1, 0, 0, 0xE))
      && (v >= STUB_COUNT ==> DecodeGateFlags(e.flags).present == 0 && GateOffset(e) == 0)
  {
    InterruptGateFlags();
  }

  /** kidt and kidtr. */
  class InterruptTable {
    /** kidt: IDT_ENTRIES + 1 gates. */
    const kidt: array<IdtEntry>
    /** kidtr: what `lidt` loads. */
    var kidtr: Idtr

    constructor (table: array<IdtEntry>)
      requires table.Length == IDT_SLOTS
      ensures kidt == table && kidtr == Idtr(0, 0)
    {
      kidt := table;
      kidtr := Idtr(0, 0);
    }

    /** __set_idt (int.c:96-103): only slot num changes. */
    method SetIdt(num: u8, base: u32, sel: u16, flags: u8)
      requires kidt.Length == IDT_SLOTS
      modifies kidt
      ensures kidt[..] == old(kidt[..])[num := MakeGate(base, sel, flags)]
    {
      kidt[num] := MakeGate(base, sel, flags);
    }

    /** int__idt_init (int.c:116-174) up to the `lidt`: clear the first IDT_ENTRIES slots,
        point ISR0..31 and IRQ0..15 at their stubs (`stubs` lists vector_isr0..31 then
        vector_irq0..15), and set the IDTR to 8 * IDT_ENTRIES bytes at `tableAddr`. The 48
        calls of the source are the two loops here. */
    method IdtInit(stubs: seq<u32>, tableAddr: u32)
      requires kidt.Length == IDT_SLOTS && |stubs| == STUB_COUNT
      modifies this, kidt
      ensures forall v :: 0 <= v < IDT_ENTRIES ==> kidt[v] == InitialGate(stubs, v)
      ensures kidt[IDT_ENTRIES] == old(kidt[IDT_ENTRIES])
      ensures kidtr == Idtr(2040, tableAddr)
    {
      Memset(kidt, 0, ZERO_IDT_ENTRY, IDT_ENTRIES);
      var isr := 0;
      while isr < ISR_COUNT
        invariant 0 <= isr <= ISR_COUNT && kidt[IDT_ENTRIES] == old(kidt[IDT_ENTRIES])
        invariant forall v :: 0 <= v < isr ==> kidt[v] == InitialGate(stubs, v)
        invariant forall v :: isr <= v < IDT_ENTRIES ==> kidt[v] == ZERO_IDT_ENTRY
      {
        SetIdt(isr, stubs[isr], KERNEL_CS, DEF_INTGATE_FLAGS);
        isr := isr + 1;
      }
      var irq := 0;
      while irq < IRQ_COUNT
        invariant 0 <= irq <= IRQ_COUNT && kidt[IDT_ENTRIES] == old(kidt[IDT_ENTRIES])
        invariant forall v :: 0 <= v < IRQ0 + irq ==> kidt[v] == InitialGate(stubs, v)
        invariant forall v :: IRQ0 + irq <= v < IDT_ENTRIES ==> kidt[v] == ZERO_IDT_ENTRY
      {
        SetIdt(IRQ0 + irq, stubs[ISR_COUNT + irq], KERNEL_CS, DEF_INTGATE_FLAGS);
        irq := irq + 1;
      }
      kidtr := Idtr(IDT_T_SIZE * IDT_ENTRIES, tableAddr);
    }
  }

  // ---------------------------------------------------------------------
  // Trap and IRQ entry

  /** "Unexpected interrupt " */
  const UNEXPECTED_PREFIX: seq<u8> :=
    [85, 110, 101, 120, 112, 101, 99, 116, 101, 100, 32, 105, 110, 116, 101, 114, 114, 117, 112, 116, 32]

  /** The format common_handler prints: "Unexpected interrupt %d\n". */
  const UNEXPECTED_FORMAT: seq<u8> := UNEXPECTED_PREFIX + [PERCENT, 'd' as u8, NEWLINE, 0]

  /** The text common_handler prints for interrupt number irq. */
  function UnexpectedText(irq: i32): seq<u8>
  {
    UNEXPECTED_PREFIX + SignedDecimal(irq) + [NEWLINE]
  }

  /** printf turns the format and the interrupt number into the report. */
  lemma UnexpectedMessage(irq: i32)
    ensures Format(UNEXPECTED_FORMAT, [Word(Wrap32(irq))]) == Some(UnexpectedText(irq))
  {
    var rest: seq<u8> := [PERCENT, 'd' as u8] + ([NEWLINE] + [0]);
    assert UNEXPECTED_FORMAT == UNEXPECTED_PREFIX + rest;
    FormatLiteral(UNEXPECTED_PREFIX, rest, [Word(Wrap32(irq))]);
    SignedWrapRoundTrip(irq);
    var nl: seq<u8> := [NEWLINE];
    FormatPlain(NEWLINE, [0], []);
    assert nl + [] == nl;
    assert [Word(Wrap32(irq))][1..] == [];
    FormatConversion('d' as u8, [NEWLINE] + [0], [Word(Wrap32(irq))]);
    assert UNEXPECTED_PREFIX + (SignedDecimal(irq) + nl) == UnexpectedText(irq);
  }

  /** common_handler (int.c:46-55): report the interrupt number and halt. The interrupt
      handler table is not consulted. */
  method CommonHandler(con: Terminal, irq: i32) returns (outcome: Outcome)
    requires con.Valid()
    modifies con, con.buffer
    ensures con.Valid() && con.State() == WriteSpec(old(con.State()), UnexpectedText(irq))
    ensures outcome == Halted(irq)
  {
    UnexpectedMessage(irq);
    con.Printf(UNEXPECTED_FORMAT, [Word(Wrap32(irq))]);
    outcome := Halted(irq);
  }

  /** isr_handler (int.c:58-66): a CPU exception goes straight to common_handler with the
      frame's interrupt number read as a signed int; no port is written. */
  method IsrHandler(ports: Ports, con: Terminal, regs: seq<u32>) returns (outcome: Outcome)
    requires con.Valid() && |regs| == REG_FRAME_WORDS
    modifies con, con.buffer
    ensures con.Valid() && con.State() == WriteSpec(old(con.State()), UnexpectedText(AsSigned32(regs[REG_IRQNO])))
    ensures outcome == Halted(AsSigned32(regs[REG_IRQNO]))
    ensures ports.log == old(ports.log)
  {
    outcome := CommonHandler(con, AsSigned32(regs[REG_IRQNO]));
  }

  /** The end-of-interrupt writes irq_handler makes for interrupt number irq. */
  function EoiWrites(irq: int): (w: seq<PortWrite>)
  {
    (if irq >= IRQ8 then [PortWrite(PIC_OCW2_EOI_NONSPEC, PIC2_OCW2)] else [])
    + [PortWrite(PIC_OCW2_EOI_NONSPEC, PIC1_OCW2)]
  }

  /** The EOI sequence: one non-specific EOI (0x20) to the master (port 0x20), always and
      last; before it one to the slave (port 0xA0) exactly when the number is IRQ8 or more. */
  lemma EoiSequence(irq: int)
    ensures var w := EoiWrites(irq);
      && |w| == (if irq >= IRQ8 then 2 else 1)
      && w[|w| - 1] == PortWrite(0x20, 0x20)
      && (forall k :: 0 <= k < |w| - 1 ==> w[k] == PortWrite(0x20, 0xA0))
      && (PortWrite(0x20, 0xA0) in w <==> irq >= IRQ8)
  {
  }

  /** The comparison is signed: a frame word of 2^31 or more reads as a negative number and
      gets only the master's EOI. */
  lemma NegativeIrqMasterOnly(word: u32)
    requires word >= 0x8000_0000
    ensures EoiWrites(AsSigned32(word)) == [PortWrite(0x20, 0x20)]
  {
  }

  /** irq_handler (int.c:69-90): EOIs to the PICs, slave first, then common_handler. */
  method IrqHandler(ports: Ports, con: Terminal, regs: seq<u32>) returns (outcome: Outcome)
    requires con.Valid() && |regs| == REG_FRAME_WORDS
    modifies ports, con, con.buffer
    ensures ports.log == old(ports.log) + EoiWrites(AsSigned32(regs[REG_IRQNO]))
    ensures con.Valid() && con.State() == WriteSpec(old(con.State()), UnexpectedText(AsSigned32(regs[REG_IRQNO])))
    ensures outcome == Halted(AsSigned32(regs[REG_IRQNO]))
  {
    var irq := AsSigned32(regs[REG_IRQNO]);
    if irq >= IRQ8 {
      ports.Outb(PIC_OCW2_EOI_NONSPEC, PIC2_OCW2);
    }
    ports.Outb(PIC_OCW2_EOI_NONSPEC, PIC1_OCW2);
    outcome := CommonHandler(con, irq);
  }
}
