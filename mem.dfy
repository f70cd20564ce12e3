/** mem.c outside the frame allocator: the memory layout read from the
    Multiboot information, the walk over the BIOS memory map, the flat GDT,
    the page directory and page table that identity-map the first 4 MiB, and
    the page-fault handler's decoding of the error code.

    Addresses the linker or the hardware supplies (`__TEXT_START`,
    `__BSS_END`, `&kgdt`, CR2, the frames `__get_kframe` hands out) come in
    as parameters. */
module Mem {
  import opened CTypes
  import opened Arith
  import opened Utils
  import opened MemH
  import opened IntH
  import opened FrameAlloc
  import opened Console
  import opened Interrupts

  // ---------------------------------------------------------------------
  // __get_multiboot_info

  /** memphy_layout_t */
  datatype MemLayout = MemLayout(memsizeKb: u32, memsizeNframes: u32, kernelStart: u32, kernelEnd: u32)

  /** __get_multiboot_info (mem.c:132-139). `mem_upper` is the number of KiB of memory
      above 1 MiB (Multiboot 0.6.96, section 3.3); the sum is taken in 32 bits. */
  function GetMultibootInfo(memUpper: u32, textStart: u32, bssEnd: u32): (layout: MemLayout)
    ensures 1024 + memUpper < U32_MODULUS ==> layout.memsizeKb == 1024 + memUpper
    ensures layout.memsizeNframes * 4 <= layout.memsizeKb < layout.memsizeNframes * 4 + 4
    ensures layout.kernelStart % PAGE_SIZE == 0 && layout.kernelEnd % PAGE_SIZE == 0
  {
    var kb := Wrap32(1024 + memUpper);
    MemLayout(kb, kb / (PAGE_SIZE / 1024), AlignPage(textStart), AlignPage(bssEnd))
  }

  /** The frame count is the number of whole 4 KiB frames below the top of upper memory;
      for less than 4 GiB of memory it fits the frame table's bound. */
  lemma LayoutFrames(memUpper: u32, textStart: u32, bssEnd: u32)
    requires 1024 + memUpper < 0x40_0000
    ensures var layout := GetMultibootInfo(memUpper, textStart, bssEnd);
      && layout.memsizeNframes * PAGE_SIZE <= (1024 + memUpper) * 1024 < (layout.memsizeNframes + 1) * PAGE_SIZE
      && layout.memsizeNframes < MAX_FRAMES
  {
  }

  /** A `mem_upper` within 1 MiB of 4 G KiB wraps the sum: 0xFFFFFFFF reads as 1023 KiB. */
  lemma LayoutWraps()
    ensures GetMultibootInfo(0xFFFF_FFFF, 0, 0).memsizeKb == 1023
    ensures GetMultibootInfo(0xFFFF_FFFF, 0, 0).memsizeNframes == 255
  {
  }

  // ---------------------------------------------------------------------
  // __scan_memory_map

  /** memory_map_t */
  datatype MemoryMapEntry = MemoryMapEntry(
    size: u32, baseAddrLow: u32, baseAddrHigh: u32, lengthLow: u32, lengthHigh: u32, kind: u32)

  /** CHECK_FLAG(flags, bit) (multiboot.h:43): is bit `bit` of `flags` set? */
  predicate CheckFlag(flags: u32, bit: nat)
  {
    (flags / Pow2(bit)) % 2 == 1
  }

  /** A region of type 1 is usable RAM; every other type is reserved. */
  function RegionState(e: MemoryMapEntry): (s: FrameState)
    ensures s == Avail <==> e.kind == 1
    ensures s != Avail ==> s == Reserv
  {
    if e.kind == 1 then Avail else Reserv
  }

  /** The allocator after __set_frame_state has been called for each entry in turn, with the
      low 32 bits of its base and length. */
  function ScanSpec(st: AllocState, entries: seq<MemoryMapEntry>): (r: AllocState)
    requires |st.areas| == BUDDY_MAX_ORDER
    ensures |r.areas| == BUDDY_MAX_ORDER && |r.frames| == |st.frames|
    decreases |entries|
  {
    if entries == [] then st
    else
      var e := entries[0];
      ScanSpec(SetFrameStateSpec(st, e.baseAddrLow, e.lengthLow, RegionState(e)).0, entries[1..])
  }

  /** A frame that no entry's range touches keeps its state through the whole scan. */
  lemma {:induction false} ScanUntouched(st: AllocState, entries: seq<MemoryMapEntry>, f: nat)
    requires |st.areas| == BUDDY_MAX_ORDER && |st.frames| < MAX_FRAMES && f < |st.frames|
    requires forall k :: 0 <= k < |entries| ==>
               !Touched(entries[k].baseAddrLow, entries[k].baseAddrLow + entries[k].lengthLow, f)
    ensures ScanSpec(st, entries).frames[f] == st.frames[f]
    decreases |entries|
  {
    if entries != [] {
      var e := entries[0];
      var next := SetFrameStateSpec(st, e.baseAddrLow, e.lengthLow, RegionState(e)).0;
      SetFrameStateEffect(st, e.baseAddrLow, e.lengthLow, RegionState(e));
      assert next.frames[f] == st.frames[f];
      ScanUntouched(next, entries[1..], f);
    }
  }

  /** A map with no usable region never touches the free lists. */
  lemma {:induction false} ScanReservedKeepsLists(st: AllocState, entries: seq<MemoryMapEntry>)
    requires |st.areas| == BUDDY_MAX_ORDER && |st.frames| < MAX_FRAMES
    requires forall k :: 0 <= k < |entries| ==> entries[k].kind != 1
    ensures ScanSpec(st, entries).areas == st.areas
    decreases |entries|
  {
    if entries != [] {
      var e := entries[0];
      SetFrameStateEffect(st, e.baseAddrLow, e.lengthLow, RegionState(e));
      ScanReservedKeepsLists(SetFrameStateSpec(st, e.baseAddrLow, e.lengthLow, RegionState(e)).0, entries[1..]);
    }
  }

  /** __scan_memory_map (mem.c:245-265): with flag bit 6 set, each entry of the map, in
      order, marks its range AVAIL (type 1) or RESERV (any other type); without it nothing
      changes. The outcome of each call is dropped, as in the source. */
  method ScanMemoryMap(fa: FrameAllocator, flags: u32, entries: seq<MemoryMapEntry>)
    requires fa.Valid()
    modifies fa.frames, fa.freeArea
    ensures fa.State() == if CheckFlag(flags, 6) then ScanSpec(old(fa.State()), entries) else old(fa.State())
  {
    if CheckFlag(flags, 6) {
      ghost var final := ScanSpec(fa.State(), entries);
      var i := 0;
      while i < |entries|
        invariant 0 <= i <= |entries| && fa.Valid()
        invariant |fa.State().areas| == BUDDY_MAX_ORDER
        invariant final == ScanSpec(fa.State(), entries[i..])
      {
        var e := entries[i];
        assert entries[i..][1..] == entries[i + 1..];
        var _ := fa.SetFrameState(e.baseAddrLow, e.lengthLow, RegionState(e));
        i := i + 1;
      }
    }
  }

  /** The four ranges mem__paging_init marks after the map scan, in order: the first 128 KiB
      RESERV, 1 MiB from the kernel's start KERNEL, the kernel image KUSED, the frame table
      KUSED. The lengths are 32-bit differences and products, as in C. */
  function BootMarks(st: AllocState, layout: MemLayout, frameList: u32, nbFrames: nat): (r: AllocState)
    requires |st.areas| == BUDDY_MAX_ORDER
    ensures |r.areas| == BUDDY_MAX_ORDER && |r.frames| == |st.frames|
  {
    var s1 := SetFrameStateSpec(st, 0x0000_0000, 0x0002_0000, Reserv).0;
    var s2 := SetFrameStateSpec(s1, layout.kernelStart, KERNEL_RESERVED_MEM, Kernel).0;
    var s3 := SetFrameStateSpec(s2, layout.kernelStart, Wrap32(layout.kernelEnd - layout.kernelStart), KUsed).0;
    SetFrameStateSpec(s3, frameList, Wrap32(nbFrames * FRAME_T_SIZE), KUsed).0
  }

  /** None of the four marks is AVAIL, so none of them touches a free list: whatever the map
      scan threaded stays threaded, even frames now marked RESERV, KERNEL or KUSED. */
  lemma BootMarksKeepLists(st: AllocState, layout: MemLayout, frameList: u32, nbFrames: nat)
    requires |st.areas| == BUDDY_MAX_ORDER && |st.frames| < MAX_FRAMES
    ensures BootMarks(st, layout, frameList, nbFrames).areas == st.areas
  {
    var s1 := SetFrameStateSpec(st, 0x0000_0000, 0x0002_0000, Reserv).0;
    SetFrameStateEffect(st, 0x0000_0000, 0x0002_0000, Reserv);
    var s2 := SetFrameStateSpec(s1, layout.kernelStart, KERNEL_RESERVED_MEM, Kernel).0;
    SetFrameStateEffect(s1, layout.kernelStart, KERNEL_RESERVED_MEM, Kernel);
    var len3 := Wrap32(layout.kernelEnd - layout.kernelStart);
    var s3 := SetFrameStateSpec(s2, layout.kernelStart, len3, KUsed).0;
    SetFrameStateEffect(s2, layout.kernelStart, len3, KUsed);
    SetFrameStateEffect(s3, frameList, Wrap32(nbFrames * FRAME_T_SIZE), KUsed);
  }

  /** The `__set_frame_state` calls of mem__paging_init (mem.c:325-328); their outcomes are
      dropped, as in the source. */
  method MarkBootRanges(fa: FrameAllocator, layout: MemLayout)
    requires fa.Valid()
    modifies fa.frames, fa.freeArea
    ensures fa.State() == BootMarks(old(fa.State()), layout, fa.frameList, fa.nbFrames)
  {
    var _ := fa.SetFrameState(0x0000_0000, 0x0002_0000, Reserv);
    var _ := fa.SetFrameState(layout.kernelStart, KERNEL_RESERVED_MEM, Kernel);
    var _ := fa.SetFrameState(layout.kernelStart, Wrap32(layout.kernelEnd - layout.kernelStart), KUsed);
    var _ := fa.SetFrameState(fa.frameList, Wrap32(fa.nbFrames * FRAME_T_SIZE), KUsed);
  }

  // ---------------------------------------------------------------------
  // The GDT

  /** The segment base a descriptor holds (bits 16..39 and 56..63 of the descriptor). */
  function DescriptorBase(e: GdtEntry): nat
  {
    e.baseLow + 0x1_0000 * e.baseMiddle + 0x100_0000 * e.baseHigh
  }

  /** The 20-bit segment limit: limit_low and the low nibble of `granularity`. */
  function DescriptorLimit(e: GdtEntry): nat
  {
    e.limitLow + 0x1_0000 * (e.granularity % 16)
  }

  /** The descriptor __set_gdt (mem.c:103-111) writes: base split into bits 0..15, 16..23 and
      24..31, the limit's bits 0..15 and 16..19, the high nibble of `gran` as the flags. */
  function EncodeDescriptor(base: u32, limit: u32, access: u8, gran: u8): GdtEntry
  {
    GdtEntry(limit % 0x1_0000, base % 0x1_0000, (base / 0x1_0000) % 0x100, access,
             (limit / 0x1_0000) % 0x10 + gran / 16 * 16, (base / 0x100_0000) % 0x100)
  }

  /** The descriptor holds the whole 32-bit base, the low 20 bits of the limit, the access
      byte and the flag nibble of `gran`. */
  lemma EncodeDescriptorFields(base: u32, limit: u32, access: u8, gran: u8)
    ensures var e := EncodeDescriptor(base, limit, access, gran);
      && DescriptorBase(e) == base
      && DescriptorLimit(e) == limit % 0x10_0000
      && e.granularity / 16 == gran / 16 && e.access == access
  {
    var e := EncodeDescriptor(base, limit, access, gran);
    var q := base / 0x1_0000;
    DivDiv(base, 0x1_0000, 0x100);
    DivModUnique(q, 0x100, base / 0x100_0000, q % 0x100);
    DivModUnique(base / 0x100_0000, 0x100, 0, base / 0x100_0000);
    assert DescriptorBase(e) == base % 0x1_0000 + 0x1_0000 * q;
    DivDiv(limit, 0x1_0000, 0x10);
    var lo := (limit / 0x1_0000) % 0x10;
    DivModUnique(e.granularity, 16, gran / 16, lo);
  }

  /** The access bytes mem__gdt_init gives entries 0..4: null, kernel code, kernel data,
      user code, user data. */
  const GDT_ACCESS: seq<u8> := [0x00, 0x9A, 0x92, 0xFA, 0xF2]

  /** Entry k after mem__gdt_init: the null descriptor, then four flat 4 GiB segments. */
  function InitialDescriptor(k: nat): GdtEntry
    requires k < 5
  {
    if k == 0 then EncodeDescriptor(0, 0, 0, 0) else EncodeDescriptor(0, 0xFFFF_FFFF, GDT_ACCESS[k], 0xCF)
  }

  /** The five descriptors, field by field. */
  lemma InitialDescriptorValues(k: nat)
    requires k < 5
    ensures InitialDescriptor(k) == if k == 0 then ZERO_GDT_ENTRY else GdtEntry(0xFFFF, 0, 0, GDT_ACCESS[k], 0xCF, 0)
  {
    var e := InitialDescriptor(k);
    if k == 0 {
      assert e.granularity == 0;
    } else {
      assert e.limitLow == 0xFFFF && e.granularity == 0xCF;
    }
  }

  /** Entry 0 is the null descriptor: eight zero bytes. */
  lemma NullDescriptor()
    ensures InitialDescriptor(0) == ZERO_GDT_ENTRY
    ensures GdtEntryBytes(ZERO_GDT_ENTRY) == [0, 0, 0, 0, 0, 0, 0, 0]
  {
    InitialDescriptorValues(0);
  }

  /** The flat memory model: entries 1..4 start at 0 and have the largest limit, counted in
      4 KiB units (flag nibble 0xC: G = 1 and D/B = 1, a 32-bit segment), so each spans all
      2^32 bytes. */
  lemma FlatSegments(k: nat)
    requires 1 <= k < 5
    ensures DescriptorBase(InitialDescriptor(k)) == 0
    ensures DescriptorLimit(InitialDescriptor(k)) == 0xF_FFFF
    ensures (DescriptorLimit(InitialDescriptor(k)) + 1) * PAGE_SIZE == U32_MODULUS
    ensures InitialDescriptor(k).granularity / 16 == 0xC
  {
    InitialDescriptorValues(k);
  }

  /** The access byte has the layout of a gate's flags (P, DPL, S, type): entries 1..4 are
      present code or data segments (S = 1), execute/read code (type 0xA) for the odd entries
      and read/write data (type 0x2) for the even ones, at privilege level 0 for the kernel's
      entries 1 and 2 and 3 for the user's entries 3 and 4. */
  lemma SegmentAccess(k: nat)
    requires 1 <= k < 5
    ensures DecodeGateFlags(InitialDescriptor(k).access)
            == GateFlags(1, if k <= 2 then 0 else 3, 1, if k % 2 == 1 then 0xA else 0x2)
  {
    InitialDescriptorValues(k);
    if k == 1 {
      assert DecodeGateFlags(0x9A) == GateFlags(1, 0, 1, 0xA);
    } else if k == 2 {
      assert DecodeGateFlags(0x92) == GateFlags(1, 0, 1, 0x2);
    } else if k == 3 {
      assert DecodeGateFlags(0xFA) == GateFlags(1, 3, 1, 0xA);
    } else {
      assert DecodeGateFlags(0xF2) == GateFlags(1, 3, 1, 0x2);
    }
  }

  /** The selectors mem.h names are the byte offsets of entries 1..4: kernel code and data
      (0x08, 0x10), user code and data (0x18, 0x20). */
  lemma SegmentSelectors()
    ensures KERNEL_CS == 1 * GDT_T_SIZE && KERNEL_DS == 2 * GDT_T_SIZE
    ensures USER_CS == 3 * GDT_T_SIZE && USER_DS == 4 * GDT_T_SIZE
    ensures InitialDescriptor(KERNEL_CS / GDT_T_SIZE).access == 0x9A
    ensures InitialDescriptor(KERNEL_DS / GDT_T_SIZE).access == 0x92
    ensures InitialDescriptor(USER_CS / GDT_T_SIZE).access == 0xFA
    ensures InitialDescriptor(USER_DS / GDT_T_SIZE).access == 0xF2
  {
    InitialDescriptorValues(1);
    InitialDescriptorValues(2);
    InitialDescriptorValues(3);
    InitialDescriptorValues(4);
  }

  /** kgdt and kgdtr. */
  class GlobalDescriptorTable {
    /** kgdt[GDT_NUMBERS] */
    const kgdt: array<GdtEntry>
    /** kgdtr: what `lgdt` loads. */
    var kgdtr: Gdtr

    constructor (table: array<GdtEntry>)
      requires table.Length == GDT_NUMBERS
      ensures kgdt == table && kgdtr == Gdtr(0, 0)
    {
      kgdt := table;
      kgdtr := Gdtr(0, 0);
    }

    /** __set_gdt (mem.c:103-111): only entry num changes. */
    method SetGdt(num: nat, base: u32, limit: u32, access: u8, gran: u8)
      requires num < kgdt.Length
      modifies kgdt
      ensures kgdt[..] == old(kgdt[..])[num := EncodeDescriptor(base, limit, access, gran)]
    {
      kgdt[num] := EncodeDescriptor(base, limit, access, gran);
    }

    /** mem__gdt_init (mem.c:280-293) up to the `lgdt`: entries 0..4 as InitialDescriptor
        says, entry 5 (the TSS slot, commented out) untouched, and the GDTR covering the six
        entries at `tableAddr`. */
    method GdtInit(tableAddr: u32)
      requires kgdt.Length == GDT_NUMBERS
      modifies this, kgdt
      ensures forall k :: 0 <= k < 5 ==> kgdt[k] == InitialDescriptor(k)
      ensures kgdt[5] == old(kgdt[5])
      ensures kgdtr == Gdtr(48, tableAddr)
    {
      SetGdt(0, 0x0000_0000, 0x0000_0000, 0x00, 0x00);
      SetGdt(1, 0x0000_0000, 0xFFFF_FFFF, 0x9A, 0xCF);
      SetGdt(2, 0x0000_0000, 0xFFFF_FFFF, 0x92, 0xCF);
      SetGdt(3, 0x0000_0000, 0xFFFF_FFFF, 0xFA, 0xCF);
      SetGdt(4, 0x0000_0000, 0xFFFF_FFFF, 0xF2, 0xCF);
      kgdtr := Gdtr(GDT_NUMBERS * GDT_T_SIZE, tableAddr);
    }
  }

  // ---------------------------------------------------------------------
  // The paging bootstrap

  /** The fill of mem__paging_init (mem.c:340-354): directory entry 0 points, present and
      writable, at the page table at `tabAddr`, the other 1023 are 0; table entry i maps page
      i present and writable. */
  method PagingFill(dir: array<u32>, tab: array<u32>, tabAddr: u32)
    requires dir.Length == 1024 && tab.Length == 1024 && dir != tab
    modifies dir, tab
    ensures dir[0] == PageDirPresentRw(tabAddr)
    ensures forall i :: 1 <= i < 1024 ==> dir[i] == 0
    ensures forall i :: 0 <= i < 1024 ==> tab[i] == i * PAGE_SIZE + 3
  {
    dir[0] := PageDirPresentRw(tabAddr);
    var i := 1;
    while i < 1024
      invariant 1 <= i <= 1024 && dir[0] == PageDirPresentRw(tabAddr)
      invariant forall j :: 1 <= j < i ==> dir[j] == 0
    {
      dir[i] := 0;
      i := i + 1;
    }
    i := 0;
    while i < 1024
      invariant 0 <= i <= 1024 && dir[0] == PageDirPresentRw(tabAddr)
      invariant forall j :: 1 <= j < 1024 ==> dir[j] == 0
      invariant forall j :: 0 <= j < i ==> tab[j] == j * PAGE_SIZE + 3
    {
      FrameOfFrameAddress(i);
      assert (i * PAGE_SIZE) % PAGE_SIZE == 0;
      tab[i] := PageTabPresentRw(i * PAGE_SIZE);
      i := i + 1;
    }
  }

  /** What the MMU makes of linear address `a` under 32-bit paging (section 4.3 of the Intel
      SDM Vol. 3A) with 4 KiB pages: the directory entry GET_PD(a), if present, names the
      page table (looked up in `tables` by physical address); its entry GET_PT(a), if present,
      names the frame. None is a page fault. */
  function Translate(dir: seq<u32>, tables: map<nat, seq<u32>>, a: u32): Option<nat>
    requires |dir| == 1024
  {
    var pde := dir[GetPd(a)];
    if pde % 2 == 0 then None
    else
      var tableAddr := pde / PAGE_SIZE * PAGE_SIZE;
      if tableAddr !in tables || |tables[tableAddr]| != 1024 then None
      else
        var pte := tables[tableAddr][GetPt(a)];
        if pte % 2 == 0 then None else Some(pte / PAGE_SIZE * PAGE_SIZE + a % PAGE_SIZE)
  }

  /** The filled directory and table map every address below 4 MiB to itself and leave
      every address above unmapped. */
  lemma IdentityMap(dir: seq<u32>, tab: seq<u32>, tabAddr: u32, a: u32)
    requires |dir| == 1024 && |tab| == 1024 && tabAddr % PAGE_SIZE == 0
    requires dir[0] == PageDirPresentRw(tabAddr) && forall i :: 1 <= i < 1024 ==> dir[i] == 0
    requires forall i :: 0 <= i < 1024 ==> tab[i] == i * PAGE_SIZE + 3
    ensures Translate(dir, map[tabAddr as nat := tab], a) == if a < 0x40_0000 then Some(a as nat) else None
  {
    PdPtSplit(a);
    if a < 0x40_0000 {
      assert GetPd(a) == 0;
      var pt := GetPt(a);
      DivModUnique(tabAddr + 3, PAGE_SIZE, tabAddr / PAGE_SIZE, 3);
      DivModUnique(pt * PAGE_SIZE + 3, PAGE_SIZE, pt, 3);
    } else {
      assert GetPd(a) != 0;
    }
  }

  // ---------------------------------------------------------------------
  // isr_pagefault

  /** The four facts isr_pagefault reports about a fault. */
  datatype FaultCause = FaultCause(present: bool, rw: bool, us: bool, reserved: bool)

  /** mem.c:68-71 as written: `present = !(error_code & 0x1)`. */
  function DecodeErrorCodeAsWritten(err: u32): FaultCause
  {
    FaultCause(err % 2 == 0, (err / 2) % 2 == 1, (err / 4) % 2 == 1, (err / 8) % 2 == 1)
  }

  /** The error code read as section 4.7 of the Intel SDM Vol. 3A defines it: bit 0 (P) is
      1 for a protection violation on a present page and 0 for a not-present page; bits 1,
      2 and 3 are W/R, U/S and RSVD. */
  function DecodeErrorCode(err: u32): FaultCause
  {
    FaultCause(err % 2 == 1, (err / 2) % 2 == 1, (err / 4) % 2 == 1, (err / 8) % 2 == 1)
  }

  /** The error code's four low bits, rebuilt from the decoded facts. */
  function EncodeFaultCause(c: FaultCause): (err: nat)
    ensures err < 16
  {
    (if c.present then 1 else 0) + (if c.rw then 2 else 0) + (if c.us then 4 else 0)
    + (if c.reserved then 8 else 0)
  }

  /** The corrected decode keeps all of the four low bits: encoding what it read gives them
      back. */
  lemma EncodeDecodedErrorCode(err: u32)
    ensures EncodeFaultCause(DecodeErrorCode(err)) == err % 16
  {
    ModDouble(err, 2);
    ModDouble(err, 4);
    ModDouble(err, 8);
  }

  /** And it reads every combination of the four facts back from its encoding. */
  lemma DecodeEncodedFaultCause(c: FaultCause)
    ensures DecodeErrorCode(EncodeFaultCause(c)) == c
  {
    var p, r, u, v := if c.present then 1 else 0, if c.rw then 1 else 0, if c.us then 1 else 0,
                      if c.reserved then 1 else 0;
    var e := EncodeFaultCause(c);
    assert e == p + 2 * r + 4 * u + 8 * v;
    DivModUnique(e, 2, r + 2 * u + 4 * v, p);
    DivModUnique(e / 2, 2, u + 2 * v, r);
    DivModUnique(e, 4, u + 2 * v, p + 2 * r);
    DivModUnique(e / 4, 2, v, u);
    DivModUnique(e, 8, v, p + 2 * r + 4 * u);
  }

  /** As written, the flag is inverted: error code 0 (a kernel-mode read of a page that is
      not present) is reported as PRESENT, and error code 1 (a protection violation on a
      present page) is not. */
  lemma PresentFlagInverted()
    ensures DecodeErrorCodeAsWritten(0).present && !DecodeErrorCode(0).present
    ensures !DecodeErrorCodeAsWritten(1).present && DecodeErrorCode(1).present
  {
  }

  /** "PAGE FAULT: 0x" */
  const FAULT_PREFIX: seq<u8> := [80, 65, 71, 69, 32, 70, 65, 85, 76, 84, 58, 32, 48, 120]
  /** The format of the first line: "PAGE FAULT: 0x%x ". */
  const FAULT_FORMAT: seq<u8> := FAULT_PREFIX + [PERCENT, 'x' as u8, SPACE, 0]
  /** "PRESENT " */
  const PRESENT_LABEL: seq<u8> := [80, 82, 69, 83, 69, 78, 84, 32]
  /** "READ-ONLY " */
  const READ_ONLY_LABEL: seq<u8> := [82, 69, 65, 68, 45, 79, 78, 76, 89, 32]
  /** "USER-MODE " */
  const USER_MODE_LABEL: seq<u8> := [85, 83, 69, 82, 45, 77, 79, 68, 69, 32]
  /** "KERNEL-MODE " */
  const KERNEL_MODE_LABEL: seq<u8> := [75, 69, 82, 78, 69, 76, 45, 77, 79, 68, 69, 32]
  /** "RESERVED " */
  const RESERVED_LABEL: seq<u8> := [82, 69, 83, 69, 82, 86, 69, 68, 32]

  function Label(show: bool, text: seq<u8>): seq<u8>
  {
    if show then text else []
  }

  /** The report isr_pagefault writes for a fault at `addr` with the given cause. */
  function FaultReport(addr: u32, c: FaultCause): seq<u8>
  {
    FAULT_PREFIX + Hex8(addr) + [SPACE] + CauseText(c)
  }

  /** The labels after the address: PRESENT, READ-ONLY, USER-MODE or else KERNEL-MODE, and
      RESERVED, each when its fact holds, then the newline. */
  function CauseText(c: FaultCause): seq<u8>
  {
    Label(c.present, PRESENT_LABEL) + Label(c.rw, READ_ONLY_LABEL)
    + Label(c.us, USER_MODE_LABEL) + Label(!c.us, KERNEL_MODE_LABEL)
    + Label(c.reserved, RESERVED_LABEL) + [NEWLINE]
  }

  /** printf turns the first format into the header line. */
  lemma FaultHeader(addr: u32)
    ensures Format(FAULT_FORMAT, [Word(addr)]) == Some(FAULT_PREFIX + Hex8(addr) + [SPACE])
  {
    var rest: seq<u8> := [PERCENT, 'x' as u8] + ([SPACE] + [0]);
    assert FAULT_FORMAT == FAULT_PREFIX + rest;
    FormatLiteral(FAULT_PREFIX, rest, [Word(addr)]);
    var sp: seq<u8> := [SPACE];
    FormatPlain(SPACE, [0], []);
    assert sp + [] == sp;
    assert [Word(addr)][1..] == [];
    FormatConversion('x' as u8, [SPACE] + [0], [Word(addr)]);
    assert FAULT_PREFIX + (Hex8(addr) + sp) == FAULT_PREFIX + Hex8(addr) + sp;
  }

  /** console__write of a label when `show` holds, after `before` has been written. */
  method WriteLabel(con: Terminal, show: bool, text: seq<u8>, ghost s0: Screen, ghost before: seq<u8>)
    requires con.Valid() && ScreenOk(s0) && 0 !in text && con.State() == WriteSpec(s0, before)
    modifies con, con.buffer
    ensures con.Valid() && con.State() == WriteSpec(s0, before + Label(show, text))
  {
    if show {
      CStringOfTerminated(text, []);
      assert text + [0] + [] == text + [0];
      con.Write(text + [0]);
      WriteConcat(s0, before, text);
    } else {
      assert before + [] == before;
    }
  }

  /** The console__write calls of isr_pagefault (mem.c:75-94). */
  method WriteCause(con: Terminal, c: FaultCause)
    requires con.Valid()
    modifies con, con.buffer
    ensures con.Valid() && con.State() == WriteSpec(old(con.State()), CauseText(c))
  {
    ghost var s0 := con.State();
    ghost var text: seq<u8> := [];
    WriteLabel(con, c.present, PRESENT_LABEL, s0, text);
    assert text + Label(c.present, PRESENT_LABEL) == Label(c.present, PRESENT_LABEL);
    text := Label(c.present, PRESENT_LABEL);
    WriteLabel(con, c.rw, READ_ONLY_LABEL, s0, text);
    text := text + Label(c.rw, READ_ONLY_LABEL);
    WriteLabel(con, c.us, USER_MODE_LABEL, s0, text);
    text := text + Label(c.us, USER_MODE_LABEL);
    WriteLabel(con, !c.us, KERNEL_MODE_LABEL, s0, text);
    text := text + Label(!c.us, KERNEL_MODE_LABEL);
    WriteLabel(con, c.reserved, RESERVED_LABEL, s0, text);
    text := text + Label(c.reserved, RESERVED_LABEL);
    WriteLabel(con, true, [NEWLINE], s0, text);
  }

  /** isr_pagefault (mem.c:53-96), with the present flag read as the Intel SDM defines it:
      the report for the CR2 address and the frame's error code, then the halt. */
  method IsrPageFault(con: Terminal, irq: u8, regs: seq<u32>, faultAddr: u32) returns (outcome: Outcome)
    requires con.Valid() && |regs| == REG_FRAME_WORDS
    modifies con, con.buffer
    ensures con.Valid()
    ensures con.State() == WriteSpec(old(con.State()), FaultReport(faultAddr, DecodeErrorCode(regs[REG_ERRCODE])))
    ensures outcome == Halted(irq)
  {
    var cause := DecodeErrorCode(regs[REG_ERRCODE]);
    ghost var s0 := con.State();
    FaultHeader(faultAddr);
    con.Printf(FAULT_FORMAT, [Word(faultAddr)]);
    WriteCause(con, cause);
    WriteConcat(s0, FAULT_PREFIX + Hex8(faultAddr) + [SPACE], CauseText(cause));
    outcome := Halted(irq);
  }
}
