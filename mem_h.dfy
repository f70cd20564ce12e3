/** include/mem.h: paging constants, the address macros, the frame-state
    enumeration, the `addr_u` bit-field views of a 32-bit word and the
    packed GDT descriptor.

    Bit-fields follow GCC's layout on x86 (the first member takes the
    least significant bits); the views below fix that layout explicitly. */
module MemH {
  import opened CTypes
  import opened Arith

  const PAGE_SHIFT: nat := 12
  const PAGE_SIZE: nat := 0x1000
  const PAGE_MASK: u32 := 0xFFFF_F000
  const PAGING_FLAG: u32 := 0x8000_0000
  const KERNEL_RESERVED_MEM: u32 := 0x0010_0000
  const BUDDY_MAX_ORDER: nat := 10

  const GDT_NUMBERS: nat := 6
  const KERNEL_CS: u16 := 0x08
  const KERNEL_DS: u16 := 0x10
  const USER_CS: u16 := 0x18
  const USER_DS: u16 := 0x20

  /** sizeof(frame_t) on i386: a 4-byte enum and two 4-byte pointers. */
  const FRAME_T_SIZE: nat := 12
  /** sizeof(gdt_t): the packed descriptor. */
  const GDT_T_SIZE: nat := 8
  /** Number of 4 KiB frames in the 32-bit physical address space. */
  const MAX_FRAMES: nat := 0x10_0000

  type bit = x: int | 0 <= x < 2
  type u3 = x: int | 0 <= x < 8
  type u20 = x: int | 0 <= x < 0x10_0000

  /** frame_state_t, in declaration order. */
  datatype FrameState = Undef | Avail | Reserv | Kernel | KUsed | Used

  /** The integer value C gives each enumerator. */
  function FrameStateValue(s: FrameState): (v: nat)
    ensures v < 6
    ensures v == 0 <==> s == Undef
  {
    match s
    case Undef => 0
    case Avail => 1
    case Reserv => 2
    case Kernel => 3
    case KUsed => 4
    case Used => 5
  }

  /** The six states have six distinct values, FRAME_UNDEF being 0. */
  lemma FrameStateValuesDistinct(s: FrameState, t: FrameState)
    ensures FrameStateValue(s) == FrameStateValue(t) ==> s == t
  {
  }

  /** The orders of the buddy free lists run 0..9; the largest block holds 512 frames. */
  lemma BuddyOrders()
    ensures BUDDY_MAX_ORDER == 10 && Pow2(BUDDY_MAX_ORDER - 1) == 512
  {
    Pow2Values();
  }

  /** FRAME(addr): the index of the frame that holds byte `addr` (`addr >> 12`). */
  function Frame(addr: u32): (f: nat)
    ensures f < MAX_FRAMES
    ensures f * PAGE_SIZE <= addr < f * PAGE_SIZE + PAGE_SIZE
  {
    addr / PAGE_SIZE
  }

  /** The first byte of frame `i` lies in frame `i`. */
  lemma FrameOfFrameAddress(i: nat)
    requires i < MAX_FRAMES
    ensures i * PAGE_SIZE < U32_MODULUS && Frame(i * PAGE_SIZE) == i
  {
  }

  /** ALIGN_PAGE(x): `(x + 4095) & ~4095` in 32-bit arithmetic. */
  function AlignPage(x: u32): (r: u32)
    ensures r % PAGE_SIZE == 0
    ensures x + (PAGE_SIZE - 1) < U32_MODULUS ==> x <= r < x + PAGE_SIZE
    ensures r == x <==> x % PAGE_SIZE == 0
  {
    Wrap32(x + (PAGE_SIZE - 1)) / PAGE_SIZE * PAGE_SIZE
  }

  lemma AlignPageIdempotent(x: u32)
    ensures AlignPage(AlignPage(x)) == AlignPage(x)
  {
  }

  /** GET_PD(addr): bits 22..31, the page-directory index. */
  function GetPd(addr: u32): (pd: nat)
    ensures pd < 1024
  {
    (addr - addr % 0x40_0000) / 0x40_0000
  }

  /** GET_PT(addr): bits 12..21, the page-table index. */
  function GetPt(addr: u32): (pt: nat)
    ensures pt < 1024
  {
    (addr % 0x40_0000 - addr % PAGE_SIZE) / PAGE_SIZE
  }

  /** An address is the directory index, the table index and the page offset put back together. */
  lemma {:induction false} PdPtSplit(addr: u32)
    ensures GetPd(addr) * 0x40_0000 + GetPt(addr) * PAGE_SIZE + addr % PAGE_SIZE == addr
  {
    DivDiv(addr, PAGE_SIZE, 1024);
    assert PAGE_SIZE * 1024 == 0x40_0000;
  }

  /** The `vaddr` member of union addr_u. */
  datatype VAddr = VAddr(offset: nat, ptab: nat, pdir: nat)

  /** Reading a word through `vaddr`: offset in bits 0..11, ptab in 12..21, pdir in 22..31. */
  function ToVAddr(x: u32): (v: VAddr)
    ensures v.offset < PAGE_SIZE && v.ptab < 1024 && v.pdir < 1024
  {
    VAddr(x % PAGE_SIZE, (x / PAGE_SIZE) % 1024, x / 0x40_0000)
  }

  function FromVAddr(v: VAddr): nat
  {
    v.offset + PAGE_SIZE * v.ptab + 0x40_0000 * v.pdir
  }

  /** The `vaddr` view agrees with GET_PT / GET_PD and loses nothing. */
  lemma {:induction false} VAddrAgreesWithMacros(x: u32)
    ensures ToVAddr(x).ptab == GetPt(x) && ToVAddr(x).pdir == GetPd(x)
    ensures FromVAddr(ToVAddr(x)) == x
  {
    DivDiv(x, PAGE_SIZE, 1024);
    assert PAGE_SIZE * 1024 == 0x40_0000;
    PdPtSplit(x);
    var m := x % 0x40_0000;
    DivModUnique(m - x % PAGE_SIZE, PAGE_SIZE, (x / PAGE_SIZE) % 1024, 0);
  }

  /** The `page_dir` member of union addr_u (a page-directory entry). */
  datatype PageDirBits = PageDirBits(
    p: bit, r: bit, u: bit, w: bit, d: bit, a: bit, unused: bit, s: bit, g: bit,
    avail: u3, pdir: u20)

  /** The `page_tab` member of union addr_u (a page-table entry). */
  datatype PageTabBits = PageTabBits(
    p: bit, r: bit, u: bit, w: bit, c: bit, a: bit, d: bit, unused: bit, g: bit,
    avail: u3, ptab: u20)

  /** Reading a word through `page_dir`: present is bit 0, read/write bit 1, the frame bits 12..31. */
  function ToPageDir(x: u32): (e: PageDirBits)
    ensures e.p == x % 2 && e.r == (x / 2) % 2 && e.pdir == x / PAGE_SIZE
  {
    PageDirBits(x % 2, (x / 2) % 2, (x / 4) % 2, (x / 8) % 2, (x / 16) % 2, (x / 32) % 2,
                (x / 64) % 2, (x / 128) % 2, (x / 256) % 2, (x / 512) % 8, x / PAGE_SIZE)
  }

  function FromPageDir(e: PageDirBits): u32
  {
    e.p + 2 * e.r + 4 * e.u + 8 * e.w + 16 * e.d + 32 * e.a + 64 * e.unused + 128 * e.s
    + 256 * e.g + 512 * e.avail + PAGE_SIZE * e.pdir
  }

  /** Reading a word through `page_tab`: present is bit 0, read/write bit 1, the frame bits 12..31. */
  function ToPageTab(x: u32): (e: PageTabBits)
    ensures e.p == x % 2 && e.r == (x / 2) % 2 && e.ptab == x / PAGE_SIZE
  {
    PageTabBits(x % 2, (x / 2) % 2, (x / 4) % 2, (x / 8) % 2, (x / 16) % 2, (x / 32) % 2,
                (x / 64) % 2, (x / 128) % 2, (x / 256) % 2, (x / 512) % 8, x / PAGE_SIZE)
  }

  function FromPageTab(e: PageTabBits): u32
  {
    e.p + 2 * e.r + 4 * e.u + 8 * e.w + 16 * e.c + 32 * e.a + 64 * e.d + 128 * e.unused
    + 256 * e.g + 512 * e.avail + PAGE_SIZE * e.ptab
  }

  /** A word is the sum of its low twelve bits, weighted, and its frame number times 4096. */
  lemma {:induction false} LowBitsSplit(x: u32)
    ensures x == x % 2 + 2 * ((x / 2) % 2) + 4 * ((x / 4) % 2) + 8 * ((x / 8) % 2)
               + 16 * ((x / 16) % 2) + 32 * ((x / 32) % 2) + 64 * ((x / 64) % 2)
               + 128 * ((x / 128) % 2) + 256 * ((x / 256) % 2) + 512 * ((x / 512) % 8)
               + PAGE_SIZE * (x / PAGE_SIZE)
  {
    ModDouble(x, 1);
    ModDouble(x, 2);
    ModDouble(x, 4);
    ModDouble(x, 8);
    ModDouble(x, 16);
    ModDouble(x, 32);
    ModDouble(x, 64);
    ModDouble(x, 128);
    ModDouble(x, 256);
    DivDiv(x, 512, 8);
  }

  /** Both views cover the word exactly: reading and writing back changes nothing. */
  lemma PageViewsRoundTrip(x: u32)
    ensures FromPageDir(ToPageDir(x)) == x
    ensures FromPageTab(ToPageTab(x)) == x
  {
    LowBitsSplit(x);
  }

  /** The two low bits of a word are bits 0 and 1; a page-aligned word has both clear. */
  lemma {:induction false} LowTwoBits(x: u32)
    ensures x % 4 == x % 2 + 2 * ((x / 2) % 2)
    ensures x % PAGE_SIZE == 0 ==> x % 4 == 0
  {
    ModDouble(x, 1);
    ModDouble(x, 2);
    DivDiv(x, 4, 1024);
  }

  /** `addr.page_dir.r = 1; addr.page_dir.p = 1;` on `addr.addr = x`: the word `x | 3`. */
  function PageDirPresentRw(x: u32): (e: u32)
    ensures e == x - x % 4 + 3
    ensures x % PAGE_SIZE == 0 ==> e == x + 3
  {
    var v := ToPageDir(x);
    PageViewsRoundTrip(x);
    LowTwoBits(x);
    assert FromPageDir(v.(r := 1, p := 1)) == FromPageDir(v) - v.p - 2 * v.r + 3;
    FromPageDir(v.(r := 1, p := 1))
  }

  /** `addr.page_tab.r = 1; addr.page_tab.p = 1;` on `addr.addr = x`: the word `x | 3`. */
  function PageTabPresentRw(x: u32): (e: u32)
    ensures e == x - x % 4 + 3
    ensures x % PAGE_SIZE == 0 ==> e == x + 3
  {
    var v := ToPageTab(x);
    PageViewsRoundTrip(x);
    LowTwoBits(x);
    assert FromPageTab(v.(r := 1, p := 1)) == FromPageTab(v) - v.p - 2 * v.r + 3;
    FromPageTab(v.(r := 1, p := 1))
  }

  /** gdt_t: a packed 8-byte segment descriptor, fields in declaration order. */
  datatype GdtEntry = GdtEntry(
    limitLow: u16, baseLow: u16, baseMiddle: u8, access: u8, granularity: u8, baseHigh: u8)

  const ZERO_GDT_ENTRY := GdtEntry(0, 0, 0, 0, 0, 0)

  /** The eight bytes of a packed gdt_t in memory (little-endian fields, no padding). */
  function GdtEntryBytes(e: GdtEntry): (b: seq<u8>)
    ensures |b| == GDT_T_SIZE
    ensures b[0] as int + 0x100 * b[1] as int == e.limitLow
    ensures b[2] as int + 0x100 * b[3] as int == e.baseLow
    ensures b[4] == e.baseMiddle && b[5] == e.access && b[6] == e.granularity && b[7] == e.baseHigh
  {
    [e.limitLow % 0x100, e.limitLow / 0x100, e.baseLow % 0x100, e.baseLow / 0x100,
     e.baseMiddle, e.access, e.granularity, e.baseHigh]
  }

  /** gdtr_t: the operand of `lgdt`. */
  datatype Gdtr = Gdtr(limit: u16, base: u32)
}
