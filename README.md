# simOS kernel core in Dafny

simOS is a small 32-bit x86 kernel written in C. This project models the
parts of it that are deterministic once inline assembly and port reads are
set aside, and proves what they compute:

- **The boot-time frame allocator** (`mem.c`, `include/mem.h`). This is the
  frame table of per-page states, `__set_frame_state` with its two
  all-or-nothing rejections and its greedy power-of-two threading into the
  per-order free lists, the first-fit `__get_kframe`, the Multiboot memory
  size arithmetic and the memory-map scan.
- **Descriptor packing and paging** (`mem.c`, `include/mem.h`). This covers
  the GDT descriptor packing (section 3.4.5 of the Intel SDM Vol. 3A), the
  4 MiB identity-mapping page directory and table (section 4.3), and the
  page-fault error-code decode and report (section 4.7).
- **The interrupt descriptor table and trap entry** (`int.c`,
  `include/int.h`). This covers gate packing (section 6.11), the table's
  initialisation, the 8259A end-of-interrupt writes, and the fact that every
  trap and IRQ ends in "Unexpected interrupt" and a halt.
- **The VGA text console** (`console.c`). This covers colour and cell
  packing, the decimal and hexadecimal formatting into a character buffer,
  the 80x25 cursor state machine with scrolling, and the `printf` directive
  interpreter.
- **`memset`, `memcpy` and `strlen`** (`utils.c`), and the port writes
  `outb` makes, as an appended log.
- **The PIT programming** (`timer.c`) and **the scan-code table and
  press/release test** (`kbd.c`).

## Modules

- **CTypes** (`ctypes.dfy`) holds the C integer widths as subset types
  (`u8`, `u16`, `u32`, `i32`), 32-bit wrap-around, the signed reading of a
  word, and `Option`.
- **Arith** (`arith.dfy`) holds division and remainder facts that the other
  proofs use.
- **MemH** (`mem_h.dfy`) holds `include/mem.h`: the address macros, the
  `addr_u` bit-field views, the frame states and the `gdt_t` layout.
- **FrameAlloc** (`frame_alloc.dfy`) holds the allocator.
  - The class `FrameAllocator` holds the frame table (`kframelist`) and the
    ten `free_area` records as arrays.
  - Its methods are proved against the functional specification
    `SetFrameStateSpec`.
  - A free list is a sequence of first-frame indices.
- **Utils** (`utils.dfy`) holds `memset`, `memcpy`, `strlen`, C strings and
  the port-write log.
- **Console** (`console.dfy`) holds the console.
  - The class `Terminal` holds `console_row`, `console_column`,
    `console_color` and the VGA buffer.
  - Every method is proved against the screen functions `PutcharSpec`,
    `WriteSpec` and `Format`.
- **IntH** and **Interrupts** (`int_h.dfy`, `int.dfy`) hold `include/int.h`
  and `int.c`. The class `InterruptTable` holds `kidt` and `kidtr`.
- **Mem** (`mem.dfy`) holds the rest of `mem.c`:
  - `__get_multiboot_info`;
  - `__scan_memory_map`;
  - the boot marks of `mem__paging_init`;
  - `__set_gdt` and `mem__gdt_init` (the class `GlobalDescriptorTable`);
  - the page directory and table fill and what the MMU makes of it;
  - `isr_pagefault`.
- **Timer** (`timer.dfy`) and **Kbd** (`kbd.dfy`) hold `timer.c` and
  `kbd.c`.

## Model

| member | source | states |
|---|---|---|
| CTypes.AsSigned32 | int.c:63 | the `(int)` cast of a word wraps back to the same word, and it is negative exactly when bit 31 is set |
| CTypes.SignedWrapRoundTrip | int.c:75 | reading a wrapped signed value back as `int` gives the original value |
| MemH.FrameStateValue | include/mem.h:104-111 | the six frame states have values below 6, and only FRAME_UNDEF is 0 |
| MemH.FrameStateValuesDistinct | include/mem.h:104-111 | distinct frame states have distinct values |
| MemH.BuddyOrders | include/mem.h:99 | BUDDY_MAX_ORDER is 10, so the largest block is 2^9 = 512 frames |
| MemH.Frame | include/mem.h:101 | FRAME(a) is the index of the 4 KiB page containing a, and it lies below 2^20 |
| MemH.FrameOfFrameAddress | include/mem.h:101 | FRAME(i*4096) == i for every frame index i |
| MemH.AlignPage | include/mem.h:28 | ALIGN_PAGE(x) is a multiple of 4096 in [x, x+4096) when the sum does not wrap, and equals x exactly when x is page-aligned |
| MemH.AlignPageIdempotent | include/mem.h:28 | aligning twice is aligning once |
| MemH.GetPd | include/mem.h:33 | GET_PD(a) is below 1024 |
| MemH.GetPt | include/mem.h:34 | GET_PT(a) is below 1024 |
| MemH.PdPtSplit | include/mem.h:33-34 | (GET_PD(a) << 22) \| (GET_PT(a) << 12) \| (a & 0xFFF) == a |
| MemH.ToVAddr | include/mem.h:38-43 | the `vaddr` bit-field view has offset < 4096, ptab < 1024 and pdir < 1024 |
| MemH.VAddrAgreesWithMacros | include/mem.h:33-43 | the `vaddr` view's ptab and pdir equal GET_PT and GET_PD, and packing the view back gives the address |
| MemH.ToPageDir | include/mem.h:45-58 | in the `page_dir` view, p is bit 0, r is bit 1 and the frame is bits 12-31 |
| MemH.ToPageTab | include/mem.h:60-73 | in the `page_tab` view, p is bit 0, r is bit 1 and the frame is bits 12-31 |
| MemH.LowBitsSplit | include/mem.h:45-73 | a word is the sum of its page-entry bit fields, bit 0 up to the 20-bit frame |
| MemH.PageViewsRoundTrip | include/mem.h:45-73 | both page bit-field views give back the word they were read from |
| MemH.PageDirPresentRw | include/mem.h:45-58 | setting p and r of a directory entry sets its two low bits, giving addr \| 3 for a page-aligned address |
| MemH.PageTabPresentRw | include/mem.h:60-73 | setting p and r of a table entry gives addr \| 3 for a page-aligned address |
| MemH.GdtEntryBytes | include/mem.h:143-153 | a packed `gdt_t` is 8 bytes: limit_low and base_low little-endian, then base_middle, access, granularity and base_high |
| FrameAlloc.FrameAllocator.InitFrameList | mem.c:153-163 | after `__init_framelist(n, addr)`, nb_frames == n, the table sits at addr, and every frame below n is FRAME_UNDEF |
| FrameAlloc.FrameAllocator.InitFreeArea | mem.c:142-150 | all ten free lists are emptied with a zero map, and the frame table is unchanged |
| FrameAlloc.FrameAllocator.SetFrameState | mem.c:184-228 | the new table, free lists and outcome are those of SetFrameStateSpec on the old ones |
| FrameAlloc.FrameAllocator.RegionIsUndef | mem.c:197-204 | the check loop answers whether every frame the range touches is FRAME_UNDEF |
| FrameAlloc.FrameAllocator.MarkRegion | mem.c:206-208 | the marking loop sets exactly the touched frames to the new state |
| FrameAlloc.FrameAllocator.ThreadOrder | mem.c:216-225 | one pass of the inner loop appends the order-o blocks, leaving Remaining(n, o-1) frames with the cursor past the appended blocks |
| FrameAlloc.FrameAllocator.ThreadAvail | mem.c:210-226 | the nested loops append to each free list exactly the blocks of the greedy decomposition |
| FrameAlloc.FrameAllocator.AppendBlocks | mem.c:220-222 | only list `order` changes, and it gains `count` blocks spaced `fpo` frames apart from `current` |
| FrameAlloc.FrameAllocator.GetKFrame | mem.c:166-181 | returns the address of the lowest FRAME_KERNEL frame and turns only that frame into FRAME_KUSED; with none it returns None (NULL) and changes nothing |
| FrameAlloc.FirstKernel | mem.c:170-175 | the result is the lowest FRAME_KERNEL index at or after `from`, and None means there is no such index |
| FrameAlloc.KFramesDistinct | mem.c:166-181 | after one `__get_kframe`, the next one returns a strictly higher frame or none, so two calls never return the same frame |
| FrameAlloc.SetFrameStateEffect | mem.c:184-228 | the outcome is OutOfMemory exactly when the range is rejected, and AlreadyDefined exactly when an AVAIL range touches a defined frame; either rejection changes nothing; on success the touched frames take the state, all others keep theirs, and a non-AVAIL state never touches the free lists |
| FrameAlloc.SpecDone | mem.c:206-226 | a successful call is the region marking followed, for AVAIL only, by the threading from FRAME(start) of FRAME(len) frames |
| FrameAlloc.ThreadedBlocksAvail | mem.c:206-226 | after a successful AVAIL call, each free list gains exactly its order's blocks, and every frame of every such block is AVAIL |
| FrameAlloc.TouchedRange | mem.c:206-208 | the frames the marking loop touches are exactly FRAME(start) up to FRAME(start) + k - 1 when k pages cover the range |
| FrameAlloc.TouchedBelow | mem.c:192-195 | a range that passes the bound check ends at least a page below 4 GiB, and each frame it touches is in the table |
| FrameAlloc.RangeAccepted | mem.c:192-195 | an accepted range does not wrap, so start+len and start+len-1 are computed exactly |
| FrameAlloc.WholeFramesTouched | mem.c:206-208 | each of the len/4096 frames from FRAME(start) is touched |
| FrameAlloc.FrameOfStep | mem.c:206-208 | the k-th step of the marking loop is frame FRAME(start)+k |
| FrameAlloc.Remaining | mem.c:212-225 | the frames still unthreaded after order o are at most n, and fewer than 2^(o+1) below the top order |
| FrameAlloc.RemainingStep | mem.c:215-225 | order o takes Count(n,o) blocks of 2^o frames from what remains |
| FrameAlloc.CountIsBit | mem.c:215-225 | order 9 receives n >> 9 blocks, and each order k < 9 receives bit k of n |
| FrameAlloc.RunTiles | mem.c:220-223 | the blocks of one order are contiguous and cover count * 2^o frames |
| FrameAlloc.BlocksFromTile | mem.c:210-226 | the blocks threaded from order o down tile the last Remaining(n,o) frames of the region |
| FrameAlloc.BlocksFromDescending | mem.c:210-226 | blocks are appended in non-increasing order |
| FrameAlloc.RunIsOrderBlocks | mem.c:218-224 | the frames free_area[o] receives, read as blocks of order o, are a run of Count(n, o) blocks of 2^o frames starting where the higher orders stopped |
| FrameAlloc.DecompositionExact | mem.c:210-226 | the blocks the free lists receive, order 9 first, tile exactly the FRAME(len) frames from FRAME(start) in descending order, with n >> 9 blocks of order 9 and bit k of n blocks of order k |
| FrameAlloc.ThreeFrames | mem.c:210-226 | three frames give an order-1 block followed by an order-0 block: free_area[1] receives the first frame, free_area[0] the third, and no other list anything |
| FrameAlloc.BlockInside | mem.c:220-224 | every threaded block ends inside the region |
| FrameAlloc.BoundCheckWraps | mem.c:192-195 | as written, start 0xFFFFF000 and len 0x2000 pass the bound check on a 16-frame table and thread frame 0xFFFFF; the corrected check refuses them |
| FrameAlloc.MarkingLoopWraps | mem.c:192-208 | as written, a table of 2^20 frames or more passes start 0xFFFFF000, len 0xFFF, and the loop address then wraps to 0 and stays below start + len at every step |
| FrameAlloc.LoopAddressExact | mem.c:206 | while start + 4096 k fits in 32 bits, the loop address after k steps is exactly that |
| FrameAlloc.MarkingLoopEnds | mem.c:192-208 | with fewer than 2^20 frames, an accepted range is below start + len for the first ceil(len / 4096) loop steps and reaches it after them, so the loops end |
| Mem.GetMultibootInfo | mem.c:132-139 | memsize_kb is 1024 + mem_upper when that sum fits, memsize_nframes is its floor division by 4, and both kernel addresses are page-aligned |
| Mem.LayoutFrames | mem.c:135-136 | below 4 GiB of memory, the frame count is the number of whole frames below the top of upper memory, and it fits the frame table |
| Mem.LayoutWraps | mem.c:135 | mem_upper 0xFFFFFFFF wraps the sum to 1023 KiB, which is 255 frames |
| Mem.RegionState | mem.c:255-262 | a map entry of type 1 is marked AVAIL and every other type RESERV |
| Mem.ScanMemoryMap | mem.c:245-265 | with flag bit 6 set, the allocator ends as ScanSpec over the entries, in order; otherwise it is unchanged |
| Mem.ScanUntouched | mem.c:245-265 | a frame no entry touches keeps its state through the scan |
| Mem.ScanReservedKeepsLists | mem.c:245-265 | a map with no usable region leaves every free list unchanged |
| Mem.MarkBootRanges | mem.c:325-328 | the four marks of mem__paging_init leave the allocator as BootMarks says |
| Mem.BootMarksKeepLists | mem.c:325-328 | none of the four boot marks is AVAIL, so they never touch a free list |
| Mem.EncodeDescriptorFields | mem.c:103-111 | a packed descriptor gives back the whole 32-bit base, limit & 0xFFFFF, the high nibble of gran and the access byte |
| Mem.GlobalDescriptorTable.SetGdt | mem.c:103-111 | only entry num changes, and it becomes the packed descriptor |
| Mem.GlobalDescriptorTable.GdtInit | mem.c:280-293 | entries 0-4 are the null descriptor and the four flat segments, entry 5 is untouched, and kgdtr is (6*8, table address) |
| Mem.InitialDescriptorValues | mem.c:282-286 | entries 1-4 are limit 0xFFFF, base 0, granularity 0xCF with access 0x9A, 0x92, 0xFA and 0xF2 |
| Mem.NullDescriptor | mem.c:282 | entry 0 is eight zero bytes |
| Mem.FlatSegments | mem.c:283-286 | entries 1-4 have base 0 and a 20-bit limit of 0xFFFFF in 4 KiB units, covering exactly 4 GiB |
| Mem.SegmentAccess | mem.c:283-286 | entries 1-4 are present code/data segments, ring 0 for the kernel pair and ring 3 for the user pair, code type 0xA and data type 0x2 |
| Mem.SegmentSelectors | include/mem.h:138-141 | KERNEL_CS, KERNEL_DS, USER_CS and USER_DS are the byte offsets of entries 1-4, and those entries carry the matching access bytes |
| Mem.PagingFill | mem.c:341-354 | dir[0] == tab_addr with p and r set, dir[1..1023] are 0, and tab[i] == i*4096 \| 3 |
| Mem.IdentityMap | mem.c:341-354 | under 32-bit paging, the filled directory and table map each address below 4 MiB to itself and leave every other address unmapped |
| Mem.EncodeFaultCause | mem.c:68-71 | the four decoded flags pack back into the low four bits of an error code |
| Mem.EncodeDecodedErrorCode | mem.c:68-71 | decoding then re-encoding gives back the low four bits of the error code |
| Mem.DecodeEncodedFaultCause | mem.c:68-71 | encoding then decoding gives back the flags |
| Mem.PresentFlagInverted | mem.c:68 | as written, error code 0 (a not-present fault) reports PRESENT and error code 1 does not; the corrected decode does the reverse |
| Mem.FaultHeader | mem.c:73 | the report starts "PAGE FAULT: 0x", then the 8 hex digits of the fault address and a space |
| Mem.WriteCause | mem.c:75-94 | the labels for the decoded flags are written in source order, then a newline |
| Mem.IsrPageFault | mem.c:53-96 | the console receives the header and the labels for the decoded error code, and the handler halts |
| Utils.Memset | utils.c:31-39 | buf[0..len) become val and nothing else changes |
| Utils.ForwardCopyCorrect | utils.c:41-50 | an ascending copy changes only dst[0..len), and it copies src faithfully when the regions are disjoint or dst <= src |
| Utils.OverlappingCopyUpRepeats | utils.c:46-49 | an ascending copy upward over an overlap repeats the first element |
| Utils.Memcpy | utils.c:41-50 | the copy is an ascending copy: only dst[0..len) change, and they hold the old src when the regions are disjoint or dst <= src |
| Utils.Strlen | utils.c:52-58 | the result is the least index holding 0 |
| Utils.CString | utils.c:52-58 | the C string is the zero-free prefix before the first NUL |
| Utils.CStringOfTerminated | utils.c:52-58 | a zero-free body followed by a NUL reads back as that body |
| Utils.Ports.Outb | utils.c:67-70 | one (value, port) write is appended to the log |
| Console.MakeColor | console.c:42-45 | the foreground is the low nibble and the background the high nibble |
| Console.MakeVgaEntry | console.c:48-53 | the low byte is the character; for ASCII the high byte is the colour, and for a character with bit 7 set the sign extension makes it 0xFF |
| Console.BlankCell | console.c:122-136 | the default colour is 0x07 and a blank cell is 0x0720 |
| Console.DecimalRoundTrip | console.c:56-76 | the decimal digits parse back to the value, with a leading zero only for 0 |
| Console.DecimalFits | console.c:56-76 | a 32-bit value has at most 10 digits, so the buffer suffices |
| Console.DigitsAreDigits | console.c:61-64 | every character produced is '0'..'9' |
| Console.DigitsAreText | console.c:56-76 | the digits contain neither NUL nor '-' |
| Console.SignedRoundTrip | console.c:79-92 | `__ltoa` output starts with '-' exactly for negative values, followed by the digits of the magnitude, and it parses back to the value |
| Console.HexRoundTrip | console.c:95-102 | the 8 uppercase hex digits parse back to the value, zero-padded, each from the digit table |
| Console.HexPrefix | console.c:98-100 | the first k hex digits are the value shifted right by 32-4k |
| Console.HexTableValues | console.c:98-100 | table entry n of "0123456789ABCDEF" is the digit of value n |
| Console.HexHasNoNul | console.c:95-102 | hex output contains no NUL |
| Console.ReverseInPlace | console.c:67-72 | the swap loop reverses the window and leaves the rest of the buffer unchanged |
| Console.ReverseTwice | console.c:67-72 | reversing twice restores the digits |
| Console.DigitsReversed | console.c:61-64 | the digit loop writes the decimal digits least significant first |
| Console.Ultoa | console.c:56-76 | the buffer holds the decimal digits of the value and a NUL, and the rest is unchanged |
| Console.Ltoa | console.c:79-92 | the buffer holds the signed decimal text and a NUL |
| Console.Ltox | console.c:95-102 | the buffer holds exactly 8 hex digits and a NUL |
| Console.ScrollMovesRows | console.c:105-116 | scrolling moves each row j up to row j-1 and zeroes row 24 |
| Console.Terminal.Scroll | console.c:105-116 | the cell buffer becomes ScrollCells of the old one |
| Console.Terminal.Initialize | console.c:122-136 | row and column 0, colour 0x07, and all 2000 cells 0x0720 |
| Console.Terminal.SetColor | console.c:139-142 | only the colour changes |
| Console.Terminal.PutEntryAt | console.c:145-149 | only cell (x, y) changes, to the packed character and colour |
| Console.PutcharSpec | console.c:152-182 | the cursor stays on screen and the colour is unchanged |
| Console.PutcharCursor | console.c:152-182 | a newline moves to column 0 of the next row or scrolls on row 24; another character is written at the cursor, and the cursor advances with wrap at 80 and the same row rule; without a scroll no other cell changes and a newline changes no cell; with a scroll the cells become ScrollCells of the old cells, with the character first stored at the cursor |
| Console.Terminal.Putchar | console.c:152-182 | the console becomes PutcharSpec of the old state |
| Console.WriteConcat | console.c:185-190 | writing a then b is writing a + b |
| Console.WriteOne | console.c:185-190 | writing one character is one putchar |
| Console.Terminal.Write | console.c:185-190 | the console receives the characters of the C string, up to its NUL |
| Console.Terminal.PrintSigned | console.c:219-222 | `%d` writes the signed decimal text of the argument |
| Console.Terminal.PrintUnsigned | console.c:224-227 | `%u` writes the decimal digits of the argument |
| Console.Terminal.PrintHex | console.c:229-233 | `%x` and `%p` write the 8 hex digits of the argument |
| Console.Terminal.Convert | console.c:218-246 | one conversion writes what Conversion says and consumes its arguments |
| Console.Conversion | console.c:218-246 | a conversion consumes no more arguments than there are |
| Console.FormatPlain | console.c:249-253 | a character other than '%' is copied verbatim |
| Console.FormatConversion | console.c:218-246 | %d, %u, %x, %p, %c and %s each print their conversion and consume one argument |
| Console.FormatLongConversion | console.c:209-216 | an `l` prefix selects the same conversion |
| Console.FormatLiteral | console.c:204-253 | text without '%' or NUL is copied verbatim |
| Console.FormatStops | console.c:207-211 | a '%' or '%l' at the end of the string stops output |
| Console.FormatSigned | console.c:219-222 | "a%db" prints the argument as signed decimal between 'a' and 'b' |
| Console.FormatLongAndHex | console.c:209-233 | "%lu%x" prints decimal digits then 8 hex digits |
| Console.FormatStringAndChar | console.c:235-241 | %s prints the C string and %c the low byte of its argument |
| Console.FormatUnknown | console.c:243-245 | an unknown directive, including %%, prints the directive character |
| Console.FormatTruncated | console.c:207-211 | "ab%" prints "ab" and "a%l" prints "a" |
| Console.FormatMissingArgument | console.c:218-241 | a conversion without an argument is undefined (None) |
| Console.Terminal.PrintDirective | console.c:206-247 | one directive writes exactly the text Format assigns to it |
| Console.Terminal.PrintfStep | console.c:204-254 | one loop iteration writes the text Format assigns to the consumed part of the format, or stops where Format ends |
| Console.Terminal.Printf | console.c:193-260 | the console receives exactly the text Format produces for the format and arguments |
| IntH.RegIndicesConsecutive | include/int.h:24-39 | the REG_* indices are 0..15 in order, with REG_IRQNO 9 and REG_ERRCODE 10 |
| IntH.Ocw1MaskBit | include/int.h:51-68 | the mask bit of line n is 1 << (n mod 8) |
| IntH.MaskBitsDistinct | include/int.h:51-68 | line n is on the master for n < 8 and on the slave otherwise, and no two lines share a port and bit |
| IntH.EoiNonSpecificInMask | include/int.h:98-101 | the non-specific EOI is 1 << 5 == 0x20 and lies within the mask 0xE0 |
| IntH.DecodeGateFlags | include/int.h:112-123 | flags decompose into P, DPL, S and type fields that pack back to the byte |
| IntH.InterruptGateFlags | include/int.h:112 | 0x8E decodes to a present, DPL 0, 32-bit interrupt gate (type 0xE) |
| IntH.IdtEntryLayout | include/int.h:114-123 | the 8-byte layout lobase, sel, zero, flags, hibase round-trips in both directions |
| IntH.ZeroGateNotPresent | include/int.h:114-123 | an all-zero gate is eight zero bytes and not present |
| Interrupts.MakeGate | int.c:96-103 | (hibase << 16) \| lobase == base, sel and flags are stored, and zero is 0 |
| Interrupts.InterruptTable.SetIdt | int.c:96-103 | only slot num changes |
| Interrupts.InitialGates | int.c:116-168 | the 48 populated gates point at their stubs with selector 0x08 and interrupt-gate flags, and every other slot is not present |
| Interrupts.InterruptTable.IdtInit | int.c:116-174 | slots 0..254 hold the initial gates, slot 255 is untouched, and kidtr is (2040, table address) |
| Interrupts.UnexpectedMessage | int.c:46-55 | the report is "Unexpected interrupt ", the signed number and a newline |
| Interrupts.CommonHandler | int.c:46-55 | it prints the report and halts with the number, without consulting the handler table |
| Interrupts.IsrHandler | int.c:58-66 | it reports the frame's number read as signed and halts, with no port write |
| Interrupts.EoiSequence | int.c:78-84 | the master EOI comes once and last; a slave EOI precedes it exactly when the number is IRQ8 or more |
| Interrupts.NegativeIrqMasterOnly | int.c:75-79 | a frame word of 2^31 or more reads as negative and gets only the master EOI |
| Interrupts.IrqHandler | int.c:69-90 | the EOI writes are appended, then the report is printed and the handler halts |
| Timer.DivisorFits | timer.c:47 | the divisor is 11931, passes the <= 0xFFFF assertion, and is floor division |
| Timer.DivisorBytesRecombine | timer.c:78-79 | the low and high bytes recombine to the divisor, and are 0x9B and 0x2E |
| Timer.CommandByte | timer.c:75 | the command is 0x36: counter 0, lo/hi access, square-wave mode, binary |
| Timer.TimerInit | timer.c:65-83 | the three writes are appended to the port log |
| Timer.TimerWriteOrder | timer.c:75-79 | the writes are 0x36 to port 0x43, then 0x9B and 0x2E to port 0x40 |
| Kbd.TableShape | kbd.c:35-73 | the table has 128 entries, and every entry after the initialiser is 0 |
| Kbd.DigitRow | kbd.c:37-38 | codes 2..11 are '1'..'9', '0' |
| Kbd.ControlKeys | kbd.c:37-49 | codes 1, 14, 15, 28 and 57 are ESC, backspace, tab, newline and space |
| Kbd.SilentKeys | kbd.c:42-72 | Ctrl, both Shifts, Alt, Caps Lock and F1-F10 are 0 |
| Kbd.KeyPress | kbd.c:82-83 | a code means a key exactly when bit 7 is clear, and then it indexes the table in bounds |
| Kbd.KeyMessage | kbd.c:83 | "Key: %c\n" prints "Key: ", the character and a newline |
| Kbd.IsrKbd | kbd.c:79-86 | a release prints nothing, and a press prints the key's message |

## Left out

- Inline assembly is not modelled. This covers `__load_gdt`, `__load_idt`, enabling paging (`EnablePaging`) and `hlt`.
  - The CR2 read in `isr_pagefault` becomes the `faultAddr` parameter.
  - `lgdt` and `lidt` are represented only by the `kgdtr` and `kidtr` values they would load.
- Port reads (`inb`) are not modelled. The scan code in `isr_kbd` is a parameter. Port writes are a log of (value, port) pairs.
- `int__irq_attach`, `int__enable_irq`, `int__irqenable` and `int__irqdisable` are defined in no file of this model. The calls to them in `timer__init`, `kbd__init`, `__enablekbd` and `mem__pagefaultirq` are left out; `mem__pagefaultirq` (mem.c:366-374) does nothing else and is not modelled, and `int_handler_table` is never read, as in `common_handler`.
- `int_vectors.h` is not part of this model. ISRk is taken to be vector k and IRQk vector 32 + k.
- `HALT()` never returns. It is modelled as the handler's `Halted` outcome.
- `isr_timer` has an empty body and is not modelled.
- The error messages that `__set_frame_state` and `__get_kframe` print on their rejection paths are not modelled. Only the outcome is modelled: OutOfMemory or AlreadyDefined for the first, None for the second.
- `__enablekbd` busy-waits on the controller's status port for an unbounded time, so it is not modelled.
- `kernel.c` (boot orchestration) and `multiboot.c` (diagnostic printing) are not part of this model.
- `mem__bss_init` and `mem__dump_map` depend on linker symbols and printing, so they are not modelled.
- Interrupt delivery is asynchronous on real hardware. Each handler is modelled as one sequential call.
- The `prev`/`next` links of `frame_t` are not modelled. Each free list is modelled as a sequence of first-frame indices, and the `map` bitmap of a free area as a number.
- The free lists are not claimed to hold exactly the AVAIL frames. The boot marks can re-mark frames already threaded into a list, so no such invariant holds.
- Buddy allocation and freeing are not modelled, because they do not exist in the source.
- `__scan_memory_map` walks the Multiboot map by raw pointer arithmetic, stepping from entry to entry by each entry's `size` field (mem.c:251-253). The model replaces that size-driven walk with a sequence of entries, so the `size` field plays no part. Like the source, it ignores the high words of base and length.
- The paging fill is modelled on two given arrays. The NULL that `__get_kframe` can return to `mem__paging_init` is modelled in `GetKFrame`, but the writes through a NULL pointer are not.
- `printf`'s `va_list` becomes a sequence of tagged arguments (a word or a C string). A conversion with no argument left is undefined behaviour in C; here `Format` returns None for it, and `Printf` requires a defined format.
- The 48 `__set_idt` calls of `int__idt_init` are written as two loops.
- `memset` and `memcpy` work on elements of an array rather than on raw bytes. This lets the same model serve the byte buffers, the VGA cells and the IDT gates.
- Console.MakeVgaEntry: models the sign extension of a `char` with bit 7 set rather than restricting the input to ASCII.
- FrameAlloc.FrameAllocator.InitFrameList: requires fewer than 2^20 frames. Its own loop (mem.c:159) cannot wrap. With a larger table, the marking loops of `__set_frame_state` can run forever (third Findings row); this bound is the corrected behaviour the model uses.
- Mem.GlobalDescriptorTable.GdtInit: the GDTR limit is 48 as written, which is one more than the 8N - 1 that section 3.5.1 of the Intel SDM Vol. 3A asks for.
- Mem.IsrPageFault: the Findings table explains why this uses the corrected present flag.
- FrameAlloc.FrameAllocator.SetFrameState, Mem.ScanMemoryMap, Mem.MarkBootRanges: use the corrected range check of `SetFrameStateSpec`, so a range running past 4 GiB is refused where mem.c:192-195 accepts it and threads its frames (first Findings row). `FrameAlloc.SetFrameStateAsWritten` is the code as written.

## Findings

| source | as written | input that shows it | evidently intended | confidence | as-written member | corrected member |
|---|---|---|---|---|---|---|
| mem.c:192-195 | the bound check computes `FRAME(start + len - 1)` in 32 bits, so a range running past 4 GiB wraps to a low frame and is accepted | start 0xFFFFF000, len 0x2000, a 16-frame table: the check sees frame 0, and the threading appends frame 0xFFFFF to the order-1 list | a range past the end of the address space is refused with the out-of-memory outcome, like one past the table | not executed | FrameAlloc.SetFrameStateAsWritten, FrameAlloc.BoundCheckWraps | FrameAlloc.SetFrameStateSpec, FrameAlloc.SetFrameStateEffect |
| mem.c:68 | `present = !(error_code & 1)` prints PRESENT when bit 0 is clear, which section 4.7 of the Intel SDM Vol. 3A defines as a not-present page | error code 0 (a read of a not-present page in kernel mode) prints "PRESENT" | PRESENT is printed when bit 0 is set, the protection-violation case | not executed | Mem.DecodeErrorCodeAsWritten, Mem.PresentFlagInverted | Mem.DecodeErrorCode, Mem.EncodeDecodedErrorCode, Mem.DecodeEncodedFaultCause |
| mem.c:192-208 | with a table of 2^20 frames or more, which `memsize_nframes` (mem.c:136) allows, the bound check passes every range, and `i += PAGE_SIZE` can wrap below `start + len` | 2^20 frames, start 0xFFFFF000, len 0xFFF: `i` goes 0xFFFFF000, 0, 4096, … and stays below 0xFFFFFFFF, so the loop never ends | the frame table covers at most the 2^20 frames of the 32-bit address space, so every accepted range ends at least a page below 4 GiB and the loops end | not executed | FrameAlloc.MarkingLoopWraps | FrameAlloc.FrameAllocator.InitFrameList, FrameAlloc.MarkingLoopEnds |
