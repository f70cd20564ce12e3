/** The boot-time frame allocator of mem.c: the frame table `kframelist`
    (one state per 4 KiB physical frame), the ten buddy free lists
    `free_area`, and the operations that fill them while the kernel boots.

    A free list is kept as the sequence of the frame indices threaded into
    it, in list order (a `frame_t *` pointing at `kframelist[k]` is `k`);
    the `prev`/`next` links themselves are not modelled. */
module FrameAlloc {
  import opened CTypes
  import opened Arith
  import opened MemH

  /** free_area_t: the frames threaded into one free list, and the `map` word (`bitmap`). */
  datatype FreeArea = FreeArea(freeList: seq<nat>, bitmap: u32)

  const EMPTY_AREA: FreeArea := FreeArea([], 0)

  /** The highest buddy order, 9: a block of 512 frames. */
  const TOP_ORDER: nat := BUDDY_MAX_ORDER - 1

  /** How `__set_frame_state` returns: after doing its work, or after printing
      one of its two diagnostics and leaving everything as it was. */
  datatype SetOutcome = Done | OutOfMemory | AlreadyDefined

  /** The frame table and the free lists, as values. */
  datatype AllocState = AllocState(frames: seq<FrameState>, areas: seq<FreeArea>)

  // ---------------------------------------------------------------------
  // The frames a byte range covers

  /** Frame `f` is visited by `for (i = start; i < end; i += PAGE_SIZE)`, which
      visits FRAME(start), FRAME(start) + 1, … while the address stays below end. */
  predicate Touched(start: nat, end: nat, f: nat)
  {
    start / 4096 <= f && start + (f - start / 4096) * 4096 < end
  }

  /** Step k of that loop is at address start + 4096 k, in frame FRAME(start) + k. */
  lemma {:induction false} FrameOfStep(start: u32, k: nat)
    requires start + k * 4096 < U32_MODULUS
    ensures Frame(start + k * 4096) == start / 4096 + k
  {
    DivModUnique(start + k * 4096, 4096, start / 4096 + k, start % 4096);
  }

  /** When the loop stops after k steps, having passed `end`, the frames it visited are
      exactly the k frames from FRAME(start) on. */
  lemma TouchedRange(start: nat, end: nat, k: nat, f: nat)
    requires end <= start + k * 4096 < end + 4096
    ensures Touched(start, end, f) <==> start / 4096 <= f < start / 4096 + k
  {
    if start / 4096 <= f {
      var g := f - start / 4096;
      if g < k {
        MulMono(4096, g, k - 1);
        assert 4096 * (k - 1) == k * 4096 - 4096;
      } else {
        MulMono(4096, k, g);
      }
    }
  }

  /** Every frame of the range holds `state`; every other frame is as before. */
  function SetRegion(s: seq<FrameState>, start: nat, end: nat, state: FrameState): (r: seq<FrameState>)
    ensures |r| == |s|
  {
    seq(|s|, f requires 0 <= f < |s| => if Touched(start, end, f) then state else s[f])
  }

  /** Every frame of the range is FRAME_UNDEF. */
  predicate RegionUndef(s: seq<FrameState>, start: nat, end: nat)
  {
    forall f :: 0 <= f < |s| && Touched(start, end, f) ==> s[f] == Undef
  }

  // ---------------------------------------------------------------------
  // The greedy cut of an available region into buddy blocks

  /** The number of frames still to place when the loop of mem.c:215-226 reaches
      order o (9 down to 0), and, for o = -1, when it has finished. */
  function Remaining(n: nat, o: int): (r: nat)
    requires -1 <= o < BUDDY_MAX_ORDER
    ensures r <= n
    ensures o < TOP_ORDER ==> r < Pow2(o + 1)
  {
    if o == TOP_ORDER then n
    else
      ModBounds(n, Pow2(o + 1));
      n % Pow2(o + 1)
  }

  /** `num_order`: the number of blocks of order o. */
  function Count(n: nat, o: nat): nat
    requires o < BUDDY_MAX_ORDER
  {
    DivBounds(Remaining(n, o), Pow2(o));
    Remaining(n, o) / Pow2(o)
  }

  /** The first frames of the blocks appended to free_area[o], in append order,
      for a region of n frames starting at frame `first`. */
  function OrderBlocks(first: nat, n: nat, o: nat): seq<nat>
    requires o < BUDDY_MAX_ORDER
  {
    var start: nat := first + n - Remaining(n, o);
    var size: nat := Pow2(o);
    seq(Count(n, o), (j: nat) => start + j * size)
  }

  /** Each free list of order `lo` or above with its blocks appended. */
  function Thread(areas: seq<FreeArea>, first: nat, n: nat, lo: nat): (r: seq<FreeArea>)
    requires |areas| == BUDDY_MAX_ORDER && lo <= BUDDY_MAX_ORDER
    ensures |r| == BUDDY_MAX_ORDER
  {
    seq(BUDDY_MAX_ORDER, o requires 0 <= o < BUDDY_MAX_ORDER =>
      if o >= lo then areas[o].(freeList := areas[o].freeList + OrderBlocks(first, n, o)) else areas[o])
  }

  /** Threading one more order appends that order's blocks to its list and changes no other list. */
  lemma ThreadStep(areas: seq<FreeArea>, first: nat, n: nat, i: nat)
    requires |areas| == BUDDY_MAX_ORDER && 1 <= i <= BUDDY_MAX_ORDER
    ensures var t := Thread(areas, first, n, i);
      Thread(areas, first, n, i - 1) == t[i - 1 := t[i - 1].(freeList := t[i - 1].freeList + OrderBlocks(first, n, i - 1))]
  {
  }

  /** What one order of the loop takes away: the blocks of order o, then what is left. */
  lemma {:induction false} RemainingStep(n: nat, o: nat)
    requires o < BUDDY_MAX_ORDER
    ensures Remaining(n, o) == Count(n, o) * Pow2(o) + Remaining(n, o - 1)
  {
    var r, p := Remaining(n, o), Pow2(o);
    assert Remaining(n, o - 1) == n % p;
    assert r % p == n % p by {
      if o < TOP_ORDER {
        assert Pow2(o + 1) == 2 * p;
        ModDouble(n, p);
      }
    }
    assert r == p * (r / p) + r % p;
    assert Count(n, o) * p == p * (r / p);
  }

  /** The block count of order k < 9 is bit k of the frame count; order 9 takes all the
      multiples of 512. */
  lemma {:induction false} CountIsBit(n: nat, o: nat)
    requires o < BUDDY_MAX_ORDER
    ensures o < TOP_ORDER ==> Count(n, o) == (n / Pow2(o)) % 2
    ensures o == TOP_ORDER ==> Count(n, o) == n / 512
  {
    Pow2Values();
    if o < TOP_ORDER {
      assert Pow2(o + 1) == 2 * Pow2(o);
      ModDouble(n, Pow2(o));
    }
  }

  /** A buddy block: its first frame and its order (it spans 2^order frames). */
  datatype Block = Block(first: int, order: nat)

  /** The blocks, laid end to end in sequence order, cover exactly the frames lo .. hi-1. */
  predicate Tiles(bs: seq<Block>, lo: int, hi: int)
    decreases |bs|
  {
    if bs == [] then lo == hi else bs[0].first == lo && Tiles(bs[1..], lo + Pow2(bs[0].order), hi)
  }

  /** `count` consecutive blocks of one order, the first starting at `start`. */
  function Run(start: int, count: nat, o: nat): (bs: seq<Block>)
    ensures |bs| == count
  {
    seq(count, j => Block(start + j * Pow2(o), o))
  }

  /** The frames appended to one free list, each read as a block of that list's order. */
  function Tagged(fs: seq<nat>, o: nat): seq<Block>
  {
    seq(|fs|, j requires 0 <= j < |fs| => Block(fs[j], o))
  }

  /** Every block the loop appends, order 9 first, in the order DL_APPEND sees them: what
      free_area[o] receives, for o from 9 down. */
  function BlocksFrom(first: nat, n: nat, o: int): seq<Block>
    requires -1 <= o < BUDDY_MAX_ORDER
    decreases o + 1
  {
    if o < 0 then []
    else Tagged(OrderBlocks(first, n, o), o) + BlocksFrom(first, n, o - 1)
  }

  /** The list of order o receives a run of Count(n, o) blocks of 2^o frames, starting where
      the higher orders stopped. */
  lemma RunIsOrderBlocks(first: nat, n: nat, o: nat)
    requires o < BUDDY_MAX_ORDER
    ensures Tagged(OrderBlocks(first, n, o), o) == Run(first + n - Remaining(n, o), Count(n, o), o)
  {
  }

  lemma {:induction false} TilesAppend(a: seq<Block>, b: seq<Block>, lo: int, mid: int, hi: int)
    requires Tiles(a, lo, mid) && Tiles(b, mid, hi)
    ensures Tiles(a + b, lo, hi)
    decreases |a|
  {
    if a == [] {
      assert a + b == b;
    } else {
      assert (a + b)[0] == a[0];
      assert (a + b)[1..] == a[1..] + b;
      TilesAppend(a[1..], b, lo + Pow2(a[0].order), mid, hi);
    }
  }

  lemma {:induction false} RunTiles(start: int, count: nat, o: nat)
    ensures Tiles(Run(start, count, o), start, start + count * Pow2(o))
    decreases count
  {
    if count > 0 {
      var p := Pow2(o);
      var bs := Run(start, count, o);
      assert bs[1..] == Run(start + p, count - 1, o) by {
        forall j | 0 <= j < count - 1
          ensures bs[1..][j] == Run(start + p, count - 1, o)[j]
        {
          assert (j + 1) * p == j * p + p;
        }
      }
      RunTiles(start + p, count - 1, o);
      assert start + p + (count - 1) * p == start + count * p;
    }
  }

  /** The blocks of orders o..0 cover, with no gap and no overlap, the frames the loop
      still has to place when it reaches order o. */
  lemma {:induction false} BlocksFromTile(first: nat, n: nat, o: int)
    requires -1 <= o < BUDDY_MAX_ORDER
    ensures Tiles(BlocksFrom(first, n, o), first + n - Remaining(n, o), first + n)
    decreases o + 1
  {
    if o >= 0 {
      var lo := first + n - Remaining(n, o);
      RemainingStep(n, o);
      RunIsOrderBlocks(first, n, o);
      RunTiles(lo, Count(n, o), o);
      BlocksFromTile(first, n, o - 1);
      TilesAppend(Run(lo, Count(n, o), o), BlocksFrom(first, n, o - 1),
                  lo, first + n - Remaining(n, o - 1), first + n);
    }
  }

  /** No block of orders o..0 is of an order above o, and the orders never increase. */
  lemma {:induction false} BlocksFromDescending(first: nat, n: nat, o: int)
    requires -1 <= o < BUDDY_MAX_ORDER
    ensures forall i :: 0 <= i < |BlocksFrom(first, n, o)| ==> BlocksFrom(first, n, o)[i].order <= o
    ensures forall i, j :: 0 <= i < j < |BlocksFrom(first, n, o)| ==>
              BlocksFrom(first, n, o)[i].order >= BlocksFrom(first, n, o)[j].order
    decreases o + 1
  {
    if o >= 0 {
      BlocksFromDescending(first, n, o - 1);
    }
  }

  /** The decomposition of mem.c:210-226 is exact: its blocks start at the first frame of
      the region, are contiguous, never overlap, come in non-increasing order, and cover
      exactly n frames; order 9 receives n / 512 blocks and order k < 9 receives bit k of n. */
  lemma DecompositionExact(first: nat, n: nat)
    ensures Tiles(BlocksFrom(first, n, TOP_ORDER), first, first + n)
    ensures forall i, j :: 0 <= i < j < |BlocksFrom(first, n, TOP_ORDER)| ==>
              BlocksFrom(first, n, TOP_ORDER)[i].order >= BlocksFrom(first, n, TOP_ORDER)[j].order
    ensures |OrderBlocks(first, n, TOP_ORDER)| == n / 512
    ensures forall k :: 0 <= k < TOP_ORDER ==> |OrderBlocks(first, n, k)| == (n / Pow2(k)) % 2
  {
    BlocksFromTile(first, n, TOP_ORDER);
    BlocksFromDescending(first, n, TOP_ORDER);
    forall k | 0 <= k < BUDDY_MAX_ORDER
      ensures k < TOP_ORDER ==> |OrderBlocks(first, n, k)| == (n / Pow2(k)) % 2
      ensures k == TOP_ORDER ==> |OrderBlocks(first, n, k)| == n / 512
    {
      CountIsBit(n, k);
    }
  }

  /** Three free frames become one order-1 block and then one order-0 block: free_area[1]
      receives the first frame, free_area[0] the third, and no other list anything. */
  lemma ThreeFrames(first: nat)
    ensures BlocksFrom(first, 3, TOP_ORDER) == [Block(first, 1), Block(first + 2, 0)]
    ensures OrderBlocks(first, 3, 1) == [first] && OrderBlocks(first, 3, 0) == [first + 2]
    ensures forall o :: 2 <= o < BUDDY_MAX_ORDER ==> OrderBlocks(first, 3, o) == []
  {
    Pow2Values();
    var bs := BlocksFrom(first, 3, TOP_ORDER);
    forall o | 2 <= o < BUDDY_MAX_ORDER
      ensures Count(3, o) == 0 && Remaining(3, o) == 3
    {
      CountIsBit(3, o);
      if o < TOP_ORDER {
        assert Pow2(o + 1) >= 8 by { Pow2Values(); PowMono(3, o + 1); }
      } else {
        assert Pow2(o) == 512;
      }
      if o < TOP_ORDER {
        assert Pow2(o) >= 4 by { PowMono(2, o); }
      }
    }
    assert Remaining(3, 1) == 3 && Count(3, 1) == 1;
    assert Remaining(3, 0) == 1 && Count(3, 0) == 1;
    assert BlocksFrom(first, 3, 1) == [Block(first, 1), Block(first + 2, 0)];
    assert BlocksFrom(first, 3, 2) == BlocksFrom(first, 3, 1);
    assert BlocksFrom(first, 3, 3) == BlocksFrom(first, 3, 2);
    assert BlocksFrom(first, 3, 4) == BlocksFrom(first, 3, 3);
    assert BlocksFrom(first, 3, 5) == BlocksFrom(first, 3, 4);
    assert BlocksFrom(first, 3, 6) == BlocksFrom(first, 3, 5);
    assert BlocksFrom(first, 3, 7) == BlocksFrom(first, 3, 6);
    assert BlocksFrom(first, 3, 8) == BlocksFrom(first, 3, 7);
  }

  lemma {:induction false} PowMono(a: nat, b: nat)
    requires a <= b
    ensures Pow2(a) <= Pow2(b)
    decreases b
  {
    if a < b {
      PowMono(a, b - 1);
    }
  }

  // ---------------------------------------------------------------------
  // __set_frame_state

  /** `__set_frame_state` as mem.c:184-228 computes it: `start + len` and `start + len - 1`
      wrap modulo 2^32. (It assumes a table of fewer than 2^20 frames, without which the
      C loops need not terminate.) */
  function SetFrameStateAsWritten(st: AllocState, start: u32, len: u32, state: FrameState): (AllocState, SetOutcome)
    requires |st.areas| == BUDDY_MAX_ORDER
  {
    var end := Wrap32(start + len);
    if Frame(Wrap32(start + len - 1)) >= |st.frames| then (st, OutOfMemory)
    else if state == Avail && !RegionUndef(st.frames, start, end) then (st, AlreadyDefined)
    else
      (AllocState(SetRegion(st.frames, start, end, state),
                  if state == Avail then Thread(st.areas, Frame(start), Frame(len), 0) else st.areas),
       Done)
  }

  /** The range check, corrected: a region that runs past the end of the 32-bit address
      space is refused like one that runs past the frame table. */
  predicate RangeRejected(nb: nat, start: u32, len: u32)
  {
    start + len > U32_MODULUS || Frame(Wrap32(start + len - 1)) >= nb
  }

  /** `__set_frame_state` with the corrected range check; the model uses this one. */
  function SetFrameStateSpec(st: AllocState, start: u32, len: u32, state: FrameState): (AllocState, SetOutcome)
    requires |st.areas| == BUDDY_MAX_ORDER
  {
    if start + len > U32_MODULUS then (st, OutOfMemory)
    else SetFrameStateAsWritten(st, start, len, state)
  }

  /** A range whose last byte lies in a frame of a table of fewer than 2^20 frames ends at
      least a page below 4 GiB, and every frame it touches is inside the table. */
  lemma TouchedBelow(nb: nat, start: nat, end: nat)
    requires nb < MAX_FRAMES && 1 <= end && (end - 1) / 4096 < nb
    ensures end <= U32_MODULUS - PAGE_SIZE
    ensures forall f: nat :: Touched(start, end, f) ==> f < nb
  {
    forall f: nat | Touched(start, end, f)
      ensures f < nb
    {
      var a := start + (f - start / 4096) * 4096;
      DivModUnique(a, 4096, f, start % 4096);
      assert a <= end - 1;
    }
  }

  /** A region the corrected check lets through: `start + len` does not wrap, the region
      ends at least a page below 4 GiB, and every frame it touches is inside the table. */
  lemma RangeAccepted(nb: nat, start: u32, len: u32)
    requires nb < MAX_FRAMES && !RangeRejected(nb, start, len)
    ensures 1 <= start + len <= U32_MODULUS - PAGE_SIZE
    ensures Wrap32(start + len) == start + len && Wrap32(start + len - 1) == start + len - 1
  {
    assert start + len >= 1;
    TouchedBelow(nb, start, start + len);
  }

  /** What the corrected `__set_frame_state` does: it refuses (and changes nothing) exactly
      when the range leaves the table or the address space, or when an AVAIL region holds a
      frame whose state is already defined; otherwise every frame of the range, all inside
      the table, takes the new state, no other frame changes, and a state other than AVAIL
      leaves the free lists alone. */
  lemma SetFrameStateEffect(st: AllocState, start: u32, len: u32, state: FrameState)
    requires |st.areas| == BUDDY_MAX_ORDER && |st.frames| < MAX_FRAMES
    ensures var (r, outcome) := SetFrameStateSpec(st, start, len, state);
      && (outcome == OutOfMemory <==> RangeRejected(|st.frames|, start, len))
      && (outcome == AlreadyDefined <==>
            !RangeRejected(|st.frames|, start, len) && state == Avail
            && exists f :: 0 <= f < |st.frames| && Touched(start, start + len, f) && st.frames[f] != Undef)
      && (outcome != Done ==> r == st)
      && (outcome == Done ==>
            && |r.frames| == |st.frames|
            && (forall f: nat :: Touched(start, start + len, f) ==> f < |st.frames| && r.frames[f] == state)
            && (forall f :: 0 <= f < |st.frames| && !Touched(start, start + len, f) ==> r.frames[f] == st.frames[f])
            && (state != Avail ==> r.areas == st.areas))
  {
    if !RangeRejected(|st.frames|, start, len) {
      RangeAccepted(|st.frames|, start, len);
      TouchedBelow(|st.frames|, start, start + len);
    }
  }

  /** Block j of order o ends no later than the region: its frames come before first + n. */
  lemma {:induction false} BlockInside(first: nat, n: nat, o: nat, j: nat)
    requires o < BUDDY_MAX_ORDER && j < Count(n, o)
    ensures first + n - Remaining(n, o) + j * Pow2(o) + Pow2(o) <= first + n
  {
    var p := Pow2(o);
    RemainingStep(n, o);
    MulMono(p, j + 1, Count(n, o));
    assert (j + 1) * p == j * p + p;
    assert Count(n, o) * p == p * Count(n, o);
  }

  /** The FRAME(len) frames from FRAME(start) on are all touched by the marking loop. */
  lemma {:induction false} WholeFramesTouched(start: u32, len: u32, f: nat)
    requires start / 4096 <= f < start / 4096 + len / 4096
    ensures Touched(start, start + len, f)
  {
    var k := f - start / 4096;
    assert k + 1 <= len / 4096;
    assert (len / 4096) * 4096 <= len;
    assert k * 4096 + 4096 <= (len / 4096) * 4096;
  }

  /** A call that returns normally leaves the marked table and, for AVAIL, the threaded lists. */
  lemma SpecDone(st: AllocState, start: u32, len: u32, state: FrameState)
    requires |st.areas| == BUDDY_MAX_ORDER && |st.frames| < MAX_FRAMES
    requires SetFrameStateSpec(st, start, len, state).1 == Done
    ensures !RangeRejected(|st.frames|, start, len)
    ensures SetFrameStateSpec(st, start, len, state).0 ==
      AllocState(SetRegion(st.frames, start, start + len, state),
                 if state == Avail then Thread(st.areas, Frame(start), Frame(len), 0) else st.areas)
  {
    RangeAccepted(|st.frames|, start, len);
  }

  /** The corrected property: every block an AVAIL region threads into a free list lies
      wholly inside the frame table, in frames that the same call has just made AVAIL. */
  lemma ThreadedBlocksAvail(st: AllocState, start: u32, len: u32, o: nat, j: nat, f: nat)
    requires |st.areas| == BUDDY_MAX_ORDER && |st.frames| < MAX_FRAMES && o < BUDDY_MAX_ORDER
    requires SetFrameStateSpec(st, start, len, Avail).1 == Done
    requires j < |OrderBlocks(Frame(start), Frame(len), o)|
    requires OrderBlocks(Frame(start), Frame(len), o)[j] <= f < OrderBlocks(Frame(start), Frame(len), o)[j] + Pow2(o)
    ensures var r := SetFrameStateSpec(st, start, len, Avail).0;
      && r.areas[o].freeList == st.areas[o].freeList + OrderBlocks(Frame(start), Frame(len), o)
      && f < |st.frames| && r.frames[f] == Avail
  {
    var first, n := Frame(start), Frame(len);
    SpecDone(st, start, len, Avail);
    RangeAccepted(|st.frames|, start, len);
    TouchedBelow(|st.frames|, start, start + len);
    var b := OrderBlocks(first, n, o)[j];
    assert b == first + n - Remaining(n, o) + j * Pow2(o);
    MulMono(Pow2(o), 0, j);
    BlockInside(first, n, o, j);
    assert first <= f < first + n;
    WholeFramesTouched(start, len, f);
    assert f < |st.frames|;
    assert SetRegion(st.frames, start, start + len, Avail)[f] == Avail;
  }

  /** The wrap-around defeats the check as written: a two-frame AVAIL region at the top
      of the address space passes it against a 16-frame table, and frame 0xFFFFF, far
      past the table's end, is threaded into the order-1 free list. The corrected check
      refuses the same call. */
  lemma BoundCheckWraps()
    ensures var st := AllocState(seq(16, _ => Undef), seq(BUDDY_MAX_ORDER, _ => EMPTY_AREA));
      && SetFrameStateAsWritten(st, 0xFFFF_F000, 0x2000, Avail).1 == Done
      && SetFrameStateAsWritten(st, 0xFFFF_F000, 0x2000, Avail).0.areas[1].freeList == [0xF_FFFF]
      && SetFrameStateSpec(st, 0xFFFF_F000, 0x2000, Avail).1 == OutOfMemory
  {
    var st := AllocState(seq(16, _ => Undef), seq(BUDDY_MAX_ORDER, _ => EMPTY_AREA));
    assert Wrap32(0xFFFF_F000 + 0x2000) == 0x1000;
    assert Wrap32(0xFFFF_F000 + 0x2000 - 1) == 0xFFF;
    assert RegionUndef(st.frames, 0xFFFF_F000, 0x1000);
    Pow2Values();
    assert Remaining(2, 1) == 2 && Count(2, 1) == 1;
    assert OrderBlocks(0xF_FFFF, 2, 1) == [0xF_FFFF];
  }

  /** The address `i` of `for (i = start; i < start + len; i += PAGE_SIZE)` after k steps,
      in 32-bit arithmetic. */
  function LoopAddress(start: u32, k: nat): u32
  {
    if k == 0 then start else Wrap32(LoopAddress(start, k - 1) + PAGE_SIZE)
  }

  /** As written, a table of 2^20 frames or more (which mem.c:136 allows) lets every range
      through the bound check. For start 0xFFFFF000 and len 0xFFF the loop address steps from
      0xFFFFF000 to 0 and stays page-aligned, so it never reaches start + len = 0xFFFFFFFF:
      the loops of mem.c:197-208 never end. */
  lemma {:induction false} MarkingLoopWraps(nb: nat, k: nat)
    requires nb >= MAX_FRAMES
    ensures Frame(Wrap32(0xFFFF_F000 + 0xFFF - 1)) < nb
    ensures LoopAddress(0xFFFF_F000, k) % PAGE_SIZE == 0
    ensures LoopAddress(0xFFFF_F000, k) < 0xFFFF_F000 + 0xFFF
  {
    if k > 0 {
      MarkingLoopWraps(nb, k - 1);
    }
  }

  /** While start + 4096 k fits in 32 bits, the loop address is exactly that. */
  lemma {:induction false} LoopAddressExact(start: u32, k: nat)
    requires start + k * PAGE_SIZE < U32_MODULUS
    ensures LoopAddress(start, k) == start + k * PAGE_SIZE
  {
    if k > 0 {
      LoopAddressExact(start, k - 1);
    }
  }

  /** With a table of fewer than 2^20 frames, a range the check accepts ends at least a page
      below 4 GiB, so the loop address never wraps: it stays below start + len for the first
      ceil(len / 4096) steps and has reached it after them. */
  lemma MarkingLoopEnds(nb: nat, start: u32, len: u32)
    requires nb < MAX_FRAMES && !RangeRejected(nb, start, len)
    ensures var steps := (len + PAGE_SIZE - 1) / PAGE_SIZE;
      && LoopAddress(start, steps) >= start + len
      && forall k :: 0 <= k < steps ==> LoopAddress(start, k) < start + len
  {
    RangeAccepted(nb, start, len);
    var steps := (len + PAGE_SIZE - 1) / PAGE_SIZE;
    assert steps * PAGE_SIZE < len + PAGE_SIZE;
    LoopAddressExact(start, steps);
    forall k | 0 <= k < steps
      ensures LoopAddress(start, k) < start + len
    {
      MulMono(PAGE_SIZE, k, steps - 1);
      LoopAddressExact(start, k);
    }
  }

  // ---------------------------------------------------------------------
  // __get_kframe

  /** The lowest frame at or after `from` in state FRAME_KERNEL, if there is one. */
  function FirstKernel(s: seq<FrameState>, from: nat): (r: Option<nat>)
    ensures r.Some? ==> from <= r.value < |s| && s[r.value] == Kernel
                        && forall j :: from <= j < r.value ==> s[j] != Kernel
    ensures r.None? ==> forall j :: from <= j < |s| ==> s[j] != Kernel
    decreases |s| - from
  {
    if from >= |s| then None
    else if s[from] == Kernel then Some(from)
    else FirstKernel(s, from + 1)
  }

  /** Two calls in a row hand out different frames: the second one finds a frame above
      the first, or none. */
  lemma KFramesDistinct(s: seq<FrameState>, f: nat)
    requires FirstKernel(s, 0) == Some(f)
    ensures var g := FirstKernel(s[f := KUsed], 0); g.None? || g.value > f
  {
    var g := FirstKernel(s[f := KUsed], 0);
    if g.Some? {
      assert s[f := KUsed][g.value] == Kernel;
    }
  }

  // ---------------------------------------------------------------------
  // The allocator's state

  class FrameAllocator {
    /** nb_frames */
    const nbFrames: nat
    /** kframelist: the table's physical address (it sits at the end of the kernel image). */
    const frameList: u32
    /** The frame states of kframelist[0 .. nb_frames). */
    const frames: array<FrameState>
    /** free_area[BUDDY_MAX_ORDER] */
    const freeArea: array<FreeArea>

    ghost predicate Valid()
    {
      frames.Length == nbFrames && nbFrames < MAX_FRAMES && freeArea.Length == BUDDY_MAX_ORDER
    }

    function State(): (st: AllocState)
      reads frames, freeArea
    {
      AllocState(frames[..], freeArea[..])
    }

    /** __init_framelist (mem.c:153-163): a table of `nframes` frames placed at the end
        of the kernel, every frame FRAME_UNDEF. */
    constructor InitFrameList(nframes: u32, kernelEndAddr: u32)
      requires nframes < MAX_FRAMES
      ensures Valid() && fresh(frames) && fresh(freeArea)
      ensures nbFrames == nframes && frameList == kernelEndAddr
      ensures frames[..] == seq(nframes, _ => Undef)
    {
      nbFrames := nframes;
      frameList := kernelEndAddr;
      frames := new FrameState[nframes];
      freeArea := new FreeArea[BUDDY_MAX_ORDER];
      new;
      var i := 0;
      while i < nframes
        invariant 0 <= i <= nframes
        invariant forall k :: 0 <= k < i ==> frames[k] == Undef
      {
        frames[i] := Undef;
        i := i + 1;
      }
    }

    /** __init_freearea (mem.c:142-150): every free list empty, every map 0. */
    method InitFreeArea()
      requires Valid()
      modifies freeArea
      ensures frames[..] == old(frames[..])
      ensures freeArea[..] == seq(BUDDY_MAX_ORDER, _ => EMPTY_AREA)
    {
      var i := 0;
      while i < BUDDY_MAX_ORDER
        invariant 0 <= i <= BUDDY_MAX_ORDER
        invariant forall k :: 0 <= k < i ==> freeArea[k] == EMPTY_AREA
      {
        freeArea[i] := FreeArea([], 0);
        i := i + 1;
      }
    }

    /** __set_frame_state (mem.c:184-228), with the corrected range check. */
    method SetFrameState(start: u32, len: u32, state: FrameState) returns (outcome: SetOutcome)
      requires Valid()
      modifies frames, freeArea
      ensures (State(), outcome) == SetFrameStateSpec(old(State()), start, len, state)
    {
      if start + len > U32_MODULUS || Frame(Wrap32(start + len - 1)) >= nbFrames {
        return OutOfMemory;
      }
      RangeAccepted(nbFrames, start, len);
      var end: u32 := start + len;
      if state == Avail {
        var undef := RegionIsUndef(start, end);
        if !undef {
          return AlreadyDefined;
        }
      }
      MarkRegion(start, end, state);
      if state == Avail {
        ThreadAvail(Frame(start), Frame(len));
      }
      outcome := Done;
    }

    /** The check loop of mem.c:197-204: is every frame of [start, end) FRAME_UNDEF? */
    method RegionIsUndef(start: u32, end: u32) returns (undef: bool)
      requires Valid() && start <= end && 1 <= end && (end - 1) / 4096 < nbFrames
      ensures undef == RegionUndef(frames[..], start, end)
    {
      TouchedBelow(nbFrames, start, end);
      var i: u32 := start;
      ghost var k: nat := 0;
      while i < end
        invariant i == start + k * 4096 && i < end + 4096
        invariant forall f :: start / 4096 <= f < start / 4096 + k && f < frames.Length ==> frames[f] == Undef
      {
        FrameOfStep(start, k);
        assert Touched(start, end, Frame(i));
        if frames[Frame(i)] != Undef {
          assert frames[..][Frame(i)] != Undef;
          return false;
        }
        i := i + PAGE_SIZE;
        k := k + 1;
      }
      forall f | 0 <= f < frames.Length && Touched(start, end, f)
        ensures frames[f] == Undef
      {
        TouchedRange(start, end, k, f);
      }
      return true;
    }

    /** The marking loop of mem.c:206-208: every frame of [start, end) takes `state`. */
    method MarkRegion(start: u32, end: u32, state: FrameState)
      requires Valid() && start <= end && 1 <= end && (end - 1) / 4096 < nbFrames
      modifies frames
      ensures frames[..] == SetRegion(old(frames[..]), start, end, state)
    {
      TouchedBelow(nbFrames, start, end);
      var i: u32 := start;
      ghost var k: nat := 0;
      while i < end
        invariant i == start + k * 4096 && i < end + 4096
        invariant forall f :: 0 <= f < frames.Length ==>
                    frames[f] == if start / 4096 <= f < start / 4096 + k then state else old(frames[f])
      {
        FrameOfStep(start, k);
        assert Touched(start, end, Frame(i));
        frames[Frame(i)] := state;
        i := i + PAGE_SIZE;
        k := k + 1;
      }
      forall f | 0 <= f < frames.Length
        ensures frames[f] == SetRegion(old(frames[..]), start, end, state)[f]
      {
        TouchedRange(start, end, k, f);
      }
    }

    /** One order of the loop of mem.c:215-226: the blocks of order `order` go onto their
        free list and the frames they cover come off the region. */
    method ThreadOrder(ghost areas: seq<FreeArea>, first: nat, n: nat, order: nat, current: nat, numFrames: nat)
      returns (current': nat, numFrames': nat)
      requires Valid() && order < BUDDY_MAX_ORDER && |areas| == BUDDY_MAX_ORDER
      requires numFrames == Remaining(n, order) && current == first + n - numFrames
      requires freeArea[..] == Thread(areas, first, n, order + 1)
      modifies freeArea
      ensures numFrames' == Remaining(n, order - 1) && current' == first + n - numFrames'
      ensures freeArea[..] == Thread(areas, first, n, order)
    {
      var framesPerOrder := Pow2(order);
      var numOrder := numFrames / framesPerOrder;
      assert numOrder == Count(n, order);
      RemainingStep(n, order);
      ThreadStep(areas, first, n, order + 1);
      current', numFrames' := current, numFrames;
      if numOrder > 0 {
        AppendBlocks(order, current, numOrder, framesPerOrder);
        assert seq(numOrder, j => current + j * framesPerOrder) == OrderBlocks(first, n, order);
        current' := current + numOrder * framesPerOrder;
        numFrames' := numFrames - numOrder * framesPerOrder;
      } else {
        assert OrderBlocks(first, n, order) == [];
        ghost var t := freeArea[..];
        assert t[order].freeList + [] == t[order].freeList;
        assert t[order := t[order].(freeList := t[order].freeList + [])] == t;
      }
    }

    /** The loop of mem.c:210-226: cut `n` frames from frame `first` into blocks of orders
        9 down to 0 and append each block to the free list of its order. */
    method ThreadAvail(first: nat, n: nat)
      requires Valid()
      modifies freeArea
      ensures freeArea[..] == Thread(old(freeArea[..]), first, n, 0)
    {
      var numFrames := n;
      var current := first;
      var i := BUDDY_MAX_ORDER;
      while i > 0
        invariant 0 <= i <= BUDDY_MAX_ORDER
        invariant numFrames == Remaining(n, i - 1)
        invariant current == first + n - numFrames
        invariant freeArea[..] == Thread(old(freeArea[..]), first, n, i)
      {
        current, numFrames := ThreadOrder(old(freeArea[..]), first, n, i - 1, current, numFrames);
        i := i - 1;
      }
    }

    /** The inner loop of mem.c:220-222: DL_APPEND of `count` blocks of `fpo` frames each,
        the first at frame `current`, to free_area[order]. */
    method AppendBlocks(order: nat, current: nat, count: nat, fpo: nat)
      requires Valid() && order < BUDDY_MAX_ORDER
      modifies freeArea
      ensures freeArea[..] == old(freeArea[..])[order := old(freeArea[order]).(
                freeList := old(freeArea[order].freeList) + seq(count, j => current + j * fpo))]
    {
      ghost var base := freeArea[order];
      var j := 0;
      while j < count
        invariant 0 <= j <= count
        invariant forall o :: 0 <= o < BUDDY_MAX_ORDER && o != order ==> freeArea[o] == old(freeArea[o])
        invariant freeArea[order] == base.(freeList := base.freeList + seq(j, k => current + k * fpo))
      {
        assert seq(j + 1, k => current + k * fpo) == seq(j, k => current + k * fpo) + [current + j * fpo];
        freeArea[order] := freeArea[order].(freeList := freeArea[order].freeList + [current + j * fpo]);
        j := j + 1;
      }
    }

    /** __get_kframe (mem.c:166-181): the lowest FRAME_KERNEL frame becomes FRAME_KUSED and
        its address is returned; with none left, the error path returns NULL (None). */
    method GetKFrame() returns (addr: Option<u32>)
      requires Valid()
      modifies frames
      ensures match FirstKernel(old(frames[..]), 0)
        case None => addr == None && frames[..] == old(frames[..])
        case Some(f) => addr == Some(f * PAGE_SIZE) && frames[..] == old(frames[..])[f := KUsed]
    {
      var i := 0;
      while i < nbFrames
        invariant 0 <= i <= nbFrames
        invariant forall j :: 0 <= j < i ==> frames[j] != Kernel
      {
        if frames[i] == Kernel {
          frames[i] := KUsed;
          return Some(i * PAGE_SIZE);
        }
        i := i + 1;
      }
      return None;
    }
  }
}
