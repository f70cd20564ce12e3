/** console.c: the 80x25 VGA text console. Pure helpers pack colours and
    cells; buffer-filling routines turn numbers into decimal and hexadecimal
    text; the console's globals (cursor row and column, colour, the cell
    buffer at 0xB8000) form the class `Terminal`, whose methods move the
    cursor, scroll, and interpret printf's format directives.

    Characters are bytes. A `char` in the C code is signed on i386, which
    matters in one place, `__make_vgaentry`. */
module Console {
  import opened CTypes
  import opened Arith
  import opened Utils

  const VGA_NUMCOLS: nat := 80
  const VGA_NUMROWS: nat := 25
  const VGA_CELLS: nat := 2000
  const MAXDIGITS: nat := 39

  const COLOR_BLACK: nat := 0
  const COLOR_LIGHT_GREY: nat := 7

  const NEWLINE: u8 := 10
  const SPACE: u8 := 32
  const PERCENT: u8 := 37
  const MINUS: u8 := 45
  const DIGIT_ZERO: u8 := 48
  const LAST_ROW: nat := 24

  type Color4 = x: int | 0 <= x < 16

  // ---------------------------------------------------------------------
  // Colours and cells

  /** __make_color (console.c:42-45): foreground in the low nibble, background in the high one. */
  function MakeColor(fg: Color4, bg: Color4): (color: u8)
    ensures color % 16 == fg && color / 16 == bg
  {
    fg + 16 * bg
  }

  /** __make_vgaentry (console.c:48-53). The character byte is a signed `char`: one of
      0x80..0xFF sign-extends to 0xFF00 | c, and the colour's bits are lost under the ones. */
  function MakeVgaEntry(c: u8, color: u8): (cell: u16)
    ensures cell % 256 == c
    ensures c < 0x80 ==> cell / 256 == color
    ensures c >= 0x80 ==> cell / 256 == 0xFF
  {
    if c < 0x80 then c + 256 * color else 0xFF00 + c
  }

  /** The cell console__initialize writes everywhere: a space, light grey on black. */
  lemma BlankCell()
    ensures MakeColor(COLOR_LIGHT_GREY, COLOR_BLACK) == 0x07
    ensures MakeVgaEntry(SPACE, MakeColor(COLOR_LIGHT_GREY, COLOR_BLACK)) == 0x0720
  {
  }

  // ---------------------------------------------------------------------
  // Decimal text

  /** The decimal digits of v, most significant first, as ASCII: "0" for 0, otherwise no
      leading zero. */
  function DecimalDigits(v: nat): (d: seq<u8>)
    ensures |d| >= 1
    decreases v
  {
    (if v < 10 then [] else DecimalDigits(v / 10)) + [DIGIT_ZERO + v % 10]
  }

  /** The digits of v before its last one: nothing when v has a single digit. */
  function Leading(v: nat): (d: seq<u8>)
  {
    if v == 0 then [] else DecimalDigits(v)
  }

  /** The value of a decimal digit. */
  function DigitValue(c: u8): nat
  {
    if DIGIT_ZERO <= c <= DIGIT_ZERO + 9 then c - DIGIT_ZERO else 0
  }

  /** The number a string of decimal digits denotes. */
  function DecimalValue(d: seq<u8>): nat
  {
    if d == [] then 0 else 10 * DecimalValue(d[..|d| - 1]) + DigitValue(d[|d| - 1])
  }

  /** Appending a digit multiplies the value by ten and adds the digit. */
  lemma DecimalValueSnoc(init: seq<u8>, c: u8)
    ensures DecimalValue(init + [c]) == 10 * DecimalValue(init) + DigitValue(c)
  {
    assert (init + [c])[..|init|] == init;
  }

  /** Reading the digits back gives the number, and the first digit is '0' only for 0. */
  lemma {:induction false} DecimalRoundTrip(v: nat)
    ensures DecimalValue(DecimalDigits(v)) == v
    ensures DecimalDigits(v)[0] == DIGIT_ZERO <==> v == 0
    decreases v
  {
    var init: seq<u8> := if v < 10 then [] else DecimalDigits(v / 10);
    var c: u8 := DIGIT_ZERO + v % 10;
    assert DecimalDigits(v) == init + [c];
    DecimalValueSnoc(init, c);
    assert DigitValue(c) == v % 10;
    if v >= 10 {
      DecimalRoundTrip(v / 10);
      assert (init + [c])[0] == init[0];
    }
  }

  function Pow10(k: nat): (r: nat)
    ensures r >= 1
  {
    if k == 0 then 1 else 10 * Pow10(k - 1)
  }

  /** A number below 10^k has at most k digits. */
  lemma {:induction false} DecimalLength(v: nat, k: nat)
    requires 1 <= k && v < Pow10(k)
    ensures |DecimalDigits(v)| <= k
    decreases k
  {
    if v >= 10 {
      assert k >= 2;
      DecimalLength(v / 10, k - 1);
    }
  }

  /** A 32-bit value has at most ten digits, so __ultoa never writes past buf[10]. */
  lemma DecimalFits(v: u32)
    ensures |DecimalDigits(v)| <= 10
  {
    assert Pow10(4) == 10000;
    assert Pow10(8) == 100000000;
    assert Pow10(10) == 10000000000;
    DecimalLength(v, 10);
  }

  /** Peeling the last digit: the digits of v are those of v / 10, if any, then v's last digit. */
  lemma DigitsSnoc(v: nat)
    ensures DecimalDigits(v) == Leading(v / 10) + [DIGIT_ZERO + v % 10]
  {
  }

  /** The text __ltoa produces: a minus sign for a negative value, then the magnitude. */
  function SignedDecimal(v: i32): (d: seq<u8>)
  {
    if v < 0 then [MINUS] + DecimalDigits(-(v as int)) else DecimalDigits(v)
  }

  /** Every byte of the text is a digit '0'..'9'. */
  lemma {:induction false} DigitsAreDigits(v: nat)
    ensures forall k :: 0 <= k < |DecimalDigits(v)| ==> DIGIT_ZERO <= DecimalDigits(v)[k] <= DIGIT_ZERO + 9
    decreases v
  {
    if v >= 10 {
      DigitsAreDigits(v / 10);
    }
  }

  /** Digit text holds neither a NUL nor a minus sign. */
  lemma DigitsAreText(v: nat)
    ensures 0 !in DecimalDigits(v) && MINUS !in DecimalDigits(v)
  {
    DigitsAreDigits(v);
    var d := DecimalDigits(v);
    forall k | 0 <= k < |d|
      ensures d[k] != 0 && d[k] != MINUS
    {
    }
  }

  /** The signed text reads back as the value it came from. */
  lemma SignedRoundTrip(v: i32)
    ensures var d := SignedDecimal(v);
      && 0 !in d && |d| <= 11
      && (v < 0 <==> d[0] == MINUS)
      && (v < 0 ==> DecimalValue(d[1..]) == -(v as int))
      && (v >= 0 ==> DecimalValue(d) == v)
  {
    var d := SignedDecimal(v);
    if v < 0 {
      var m: nat := -(v as int);
      var digits := DecimalDigits(m);
      DecimalRoundTrip(m);
      DecimalFits(m);
      DigitsAreText(m);
      assert d == [MINUS] + digits;
      assert d[1..] == digits;
    } else {
      DecimalRoundTrip(v);
      DecimalFits(v);
      DigitsAreText(v);
      assert d[0] != MINUS;
    }
  }

  // ---------------------------------------------------------------------
  // Hexadecimal text

  /** The table "0123456789ABCDEF" of __ltox. */
  const HEX_TABLE: seq<u8> := [48, 49, 50, 51, 52, 53, 54, 55, 56, 57, 65, 66, 67, 68, 69, 70]

  /** The value of a hexadecimal digit (upper case). */
  function HexDigitValue(c: u8): nat
  {
    if 48 <= c <= 57 then c - 48 else if 65 <= c <= 70 then c - 55 else 0
  }

  /** The number a string of hexadecimal digits denotes. */
  function HexValue(d: seq<u8>): nat
  {
    if d == [] then 0 else 16 * HexValue(d[..|d| - 1]) + HexDigitValue(d[|d| - 1])
  }

  /** The eight digits __ltox writes: digit k is nibble 7-k, bits 28-4k .. 31-4k. */
  function Hex8(w: u32): (d: seq<u8>)
    ensures |d| == 8
  {
    seq(8, k requires 0 <= k < 8 => HEX_TABLE[(w / Pow2(28 - 4 * k)) % 16])
  }

  lemma {:induction false} Pow2Plus4(m: nat)
    ensures Pow2(m + 4) == 16 * Pow2(m)
  {
    assert Pow2(m + 4) == 2 * Pow2(m + 3);
    assert Pow2(m + 3) == 2 * Pow2(m + 2);
    assert Pow2(m + 2) == 2 * Pow2(m + 1);
  }

  lemma Pow2ThirtyTwo()
    ensures Pow2(32) == U32_MODULUS
  {
    Pow2Values();
    Pow2Plus4(10);
    Pow2Plus4(14);
    Pow2Plus4(18);
    Pow2Plus4(22);
    Pow2Plus4(26);
    Pow2Plus4(28);
  }

  lemma HexTableValues(n: nat)
    requires n < 16
    ensures HexDigitValue(HEX_TABLE[n]) == n && HEX_TABLE[n] != 0
  {
  }

  /** Digit k-1 of __ltox is nibble (w >> (32-4k)) & 0xF, whatever came before it. */
  lemma HexDigitStep(w: u32, k: nat)
    requires 1 <= k <= 8
    ensures HexValue(Hex8(w)[..k]) == 16 * HexValue(Hex8(w)[..k - 1]) + (w / Pow2(32 - 4 * k)) % 16
  {
    var d := Hex8(w)[..k];
    assert d[..k - 1] == Hex8(w)[..k - 1];
    var q := w / Pow2(32 - 4 * k);
    assert d[k - 1] == HEX_TABLE[q % 16];
    HexTableValues(q % 16);
  }

  /** Shifting right by 4 more bits divides by 16. */
  lemma ShiftFour(w: u32, e: nat)
    ensures w / Pow2(e + 4) == (w / Pow2(e)) / 16
  {
    Pow2Plus4(e);
    DivDiv(w, Pow2(e), 16);
  }

  /** The first k digits read back as the word shifted right by 32-4k bits. */
  lemma {:induction false} HexPrefix(w: u32, k: nat)
    requires k <= 8
    ensures HexValue(Hex8(w)[..k]) == w / Pow2(32 - 4 * k)
    decreases k
  {
    if k == 0 {
      Pow2ThirtyTwo();
      assert Hex8(w)[..0] == [];
      DivModUnique(w, Pow2(32), 0, w);
    } else {
      var e := 32 - 4 * k;
      var q := w / Pow2(e);
      var hi := HexValue(Hex8(w)[..k - 1]);
      assert hi == q / 16 by {
        HexPrefix(w, k - 1);
        assert 32 - 4 * (k - 1) == e + 4;
        ShiftFour(w, e);
      }
      HexDigitStep(w, k);
      assert 16 * (q / 16) + q % 16 == q;
    }
  }

  /** __ltox is exact: its eight digits read back as the word, zero-padded on the left. */
  lemma HexRoundTrip(w: u32)
    ensures HexValue(Hex8(w)) == w
    ensures forall k :: 0 <= k < 8 ==> Hex8(w)[k] in HEX_TABLE
  {
    HexPrefix(w, 8);
    assert Hex8(w)[..8] == Hex8(w);
    assert Pow2(0) == 1;
  }

  // ---------------------------------------------------------------------
  // Reversal

  function Reverse(s: seq<u8>): (r: seq<u8>)
    ensures |r| == |s|
  {
    seq(|s|, k requires 0 <= k < |s| => s[|s| - 1 - k])
  }

  // ---------------------------------------------------------------------
  // __ultoa, __ltoa, __ltox

  /** The second loop of __ultoa: swaps buf[lo+i] and buf[lo+n-1-i] for i < n/2, reversing
      buf[lo..lo+n] in place. */
  method ReverseInPlace(buf: array<u8>, lo: nat, n: nat)
    requires lo + n <= buf.Length
    modifies buf
    ensures buf[..] == old(buf[..lo]) + Reverse(old(buf[lo..lo + n])) + old(buf[lo + n..])
  {
    var i := 0;
    while i < n / 2
      invariant 0 <= i <= n / 2
      invariant forall q :: 0 <= q < buf.Length ==>
                  buf[q] == if lo <= q < lo + i || lo + n - i <= q < lo + n then old(buf[2 * lo + n - 1 - q]) else old(buf[q])
    {
      var swapPos := n - (i + 1);
      var t := buf[lo + i];
      buf[lo + i] := buf[lo + swapPos];
      buf[lo + swapPos] := t;
      i := i + 1;
    }
    ghost var r := Reverse(old(buf[lo..lo + n]));
    forall q | 0 <= q < buf.Length
      ensures buf[..][q] == if lo <= q < lo + |r| then r[q - lo] else old(buf[..])[q]
    {
    }
    PointwiseSplice(buf[..], old(buf[..]), lo, r);
  }

  lemma ReverseTwice(s: seq<u8>)
    ensures Reverse(Reverse(s)) == s
  {
  }

  /** The digits still to be produced once v is left: all of v's before the first digit
      is out (the do-while runs at least once), none of a 0 after it. */
  function Pending(v: nat, ndigits: nat): seq<u8>
  {
    if ndigits == 0 then DecimalDigits(v) else Leading(v)
  }

  /** One round of the first loop of __ultoa: v's last digit comes off the end of what is
      pending, leaving v / 10's digits to do. */
  lemma PendingSnoc(v: nat, ndigits: nat)
    requires ndigits == 0 || v > 0
    ensures Pending(v, ndigits) == Pending(v / 10, ndigits + 1) + [DIGIT_ZERO + v % 10]
  {
    DigitsSnoc(v);
  }

  /** An array described cell by cell as `r` placed at `off` over `o`. */
  lemma PointwiseSplice(b: seq<u8>, o: seq<u8>, off: nat, r: seq<u8>)
    requires |b| == |o| && off + |r| <= |o|
    requires forall q :: 0 <= q < |b| ==> b[q] == if off <= q < off + |r| then r[q - off] else o[q]
    ensures b == o[..off] + r + o[off + |r|..]
  {
  }

  /** The first loop of __ultoa: the digits of `value`, least significant first, at buf[off..]. */
  method DigitsReversed(buf: array<u8>, off: nat, value: u32) returns (ndigits: nat)
    requires off + |DecimalDigits(value)| <= buf.Length
    modifies buf
    ensures ndigits == |DecimalDigits(value)|
    ensures buf[..] == old(buf[..off]) + Reverse(DecimalDigits(value)) + old(buf[off + ndigits..])
  {
    ghost var digits := DecimalDigits(value);
    ghost var len := |digits|;
    var v: nat := value;
    ndigits := 0;
    while ndigits == 0 || v > 0
      invariant ndigits <= len && (ndigits == 0 ==> v == value)
      invariant Pending(v, ndigits) == digits[..len - ndigits]
      invariant forall q :: 0 <= q < buf.Length ==>
                  buf[q] == if off <= q < off + ndigits then digits[len - 1 - (q - off)] else old(buf[q])
      decreases v, 1 - ndigits
    {
      var digit := DIGIT_ZERO + v % 10;
      assert digits[..len - ndigits] == Pending(v / 10, ndigits + 1) + [digit] by {
        PendingSnoc(v, ndigits);
      }
      assert digits[len - 1 - ndigits] == digit && digits[..len - ndigits - 1] == Pending(v / 10, ndigits + 1) by {
        assert digits[..len - ndigits - 1] == digits[..len - ndigits][..len - ndigits - 1];
      }
      buf[off + ndigits] := digit;
      v := v / 10;
      ndigits := ndigits + 1;
    }
    assert ndigits == len by {
      assert Pending(v, ndigits) == [];
    }
    PointwiseSplice(buf[..], old(buf[..]), off, Reverse(digits));
  }

  /** __ultoa (console.c:56-76): writes the decimal digits of `value` and a NUL at buf[off..]. */
  method Ultoa(buf: array<u8>, off: nat, value: u32)
    requires off + |DecimalDigits(value)| + 1 <= buf.Length
    modifies buf
    ensures buf[..] == old(buf[..off]) + DecimalDigits(value) + [0]
                       + old(buf[off + |DecimalDigits(value)| + 1..])
  {
    ghost var o := buf[..];
    ghost var digits := DecimalDigits(value);
    var ndigits := DigitsReversed(buf, off, value);
    ghost var reversed := buf[..];
    ReverseInPlace(buf, off, ndigits);
    ghost var restored := buf[..];
    ReverseWindow(o, off, digits, reversed, restored);
    buf[off + ndigits] := 0;
    Terminate(o, off, digits, restored, buf[..]);
  }

  /** Reversing, in place, a window that holds reversed text restores the text. */
  lemma ReverseWindow(o: seq<u8>, off: nat, d: seq<u8>, reversed: seq<u8>, restored: seq<u8>)
    requires off + |d| <= |o|
    requires reversed == o[..off] + Reverse(d) + o[off + |d|..]
    requires restored == reversed[..off] + Reverse(reversed[off..off + |d|]) + reversed[off + |d|..]
    ensures restored == o[..off] + d + o[off + |d|..]
  {
    SliceOfConcat(o[..off], Reverse(d), o[off + |d|..]);
    ReverseTwice(d);
  }

  /** The three parts of a concatenation are its slices. */
  lemma SliceOfConcat(a: seq<u8>, b: seq<u8>, c: seq<u8>)
    ensures (a + b + c)[..|a|] == a && (a + b + c)[|a|..|a| + |b|] == b && (a + b + c)[|a| + |b|..] == c
  {
  }

  /** Storing a NUL right after text placed at `off` keeps everything else. */
  lemma Terminate(o: seq<u8>, off: nat, d: seq<u8>, placed: seq<u8>, terminated: seq<u8>)
    requires off + |d| < |o| && placed == o[..off] + d + o[off + |d|..]
    requires terminated == placed[off + |d| := 0]
    ensures terminated == o[..off] + d + [0] + o[off + |d| + 1..]
  {
  }

  /** __ltoa (console.c:79-92): a '-' for a negative value, then the magnitude's digits. */
  method Ltoa(buf: array<u8>, value: i32)
    requires |SignedDecimal(value)| + 1 <= buf.Length
    modifies buf
    ensures buf[..] == SignedDecimal(value) + [0] + old(buf[|SignedDecimal(value)| + 1..])
  {
    if value < 0 {
      ghost var o := buf[..];
      buf[0] := MINUS;
      var raw: u32 := -(value as int);
      assert buf[..1] == [MINUS] && buf[2 + |DecimalDigits(raw)|..] == o[2 + |DecimalDigits(raw)|..];
      Ultoa(buf, 1, raw);
      assert buf[..] == [MINUS] + DecimalDigits(raw) + [0] + o[|SignedDecimal(value)| + 1..];
    } else {
      var raw: u32 := value;
      Ultoa(buf, 0, raw);
    }
  }

  /** __ltox (console.c:95-102): eight upper-case hexadecimal digits and a NUL. */
  method Ltox(buf: array<u8>, value: u32)
    requires 9 <= buf.Length
    modifies buf
    ensures buf[..] == Hex8(value) + [0] + old(buf[9..])
  {
    var i: int := 28;
    var p := 0;
    while i >= 0
      invariant 0 <= p <= 8 && i == 28 - 4 * p
      invariant buf[..p] == Hex8(value)[..p]
      invariant forall q :: p <= q < buf.Length ==> buf[q] == old(buf[q])
    {
      buf[p] := HEX_TABLE[(value / Pow2(i)) % 16];
      p := p + 1;
      i := i - 4;
    }
    buf[p] := 0;
    assert buf[..] == buf[..8] + [0] + buf[9..];
  }

  // ---------------------------------------------------------------------
  // The screen

  /** The console's globals as a value: cursor row and column, colour, the 2000 cells. */
  datatype Screen = Screen(row: nat, column: nat, color: u8, cells: seq<u16>)

  /** The cursor is on the screen and the buffer holds 80x25 cells. */
  predicate ScreenOk(s: Screen)
  {
    s.row < VGA_NUMROWS && s.column < VGA_NUMCOLS && |s.cells| == VGA_CELLS
  }

  /** The cell at column x of row y: index y * 80 + x. */
  function At(cells: seq<u16>, x: nat, y: nat): u16
    requires |cells| == VGA_CELLS && x < VGA_NUMCOLS && y < VGA_NUMROWS
  {
    cells[y * VGA_NUMCOLS + x]
  }

  /** The cells after __scroll. */
  function ScrollCells(c: seq<u16>): (r: seq<u16>)
    requires |c| == VGA_CELLS
    ensures |r| == VGA_CELLS
  {
    c[VGA_NUMCOLS..] + seq(VGA_NUMCOLS, _ => 0)
  }

  /** __scroll moves every row but the first up by one and blanks the last row to 0. */
  lemma ScrollMovesRows(c: seq<u16>)
    requires |c| == VGA_CELLS
    ensures forall x, y :: 0 <= x < VGA_NUMCOLS && 0 <= y < VGA_NUMROWS - 1 ==> At(ScrollCells(c), x, y) == At(c, x, y + 1)
    ensures forall x :: 0 <= x < VGA_NUMCOLS ==> At(ScrollCells(c), x, LAST_ROW) == 0
  {
  }

  /** The cursor moves to the next row, or the screen scrolls when it is on the last one. */
  function NewLine(s: Screen): (r: Screen)
    requires ScreenOk(s)
    ensures ScreenOk(r)
  {
    if s.row == VGA_NUMROWS - 1 then s.(cells := ScrollCells(s.cells)) else s.(row := s.row + 1)
  }

  /** console__putchar (console.c:152-182) on the screen's value. */
  function PutcharSpec(s: Screen, c: u8): (r: Screen)
    requires ScreenOk(s)
    ensures ScreenOk(r) && r.color == s.color
  {
    if c == NEWLINE then NewLine(s.(column := 0))
    else
      var placed := s.(cells := s.cells[s.row * VGA_NUMCOLS + s.column := MakeVgaEntry(c, s.color)]);
      if s.column + 1 == VGA_NUMCOLS then NewLine(placed.(column := 0))
      else placed.(column := s.column + 1)
  }

  /** How console__putchar moves the cursor and where the character lands. A newline
      returns to column 0 of the next row; any other byte is stored at the cursor, which
      advances and wraps at column 80. Past the last row the screen scrolls, taking the
      character with it. */
  lemma PutcharCursor(s: Screen, c: u8)
    requires ScreenOk(s)
    ensures var r := PutcharSpec(s, c);
      var nextRow := if s.row == VGA_NUMROWS - 1 then s.row else s.row + 1;
      var scrolled := s.row == VGA_NUMROWS - 1 && (c == NEWLINE || s.column == VGA_NUMCOLS - 1);
      && (c == NEWLINE ==> r.column == 0 && r.row == nextRow)
      && (c != NEWLINE ==> r.column == (s.column + 1) % VGA_NUMCOLS)
      && (c != NEWLINE && s.column < VGA_NUMCOLS - 1 ==> r.row == s.row)
      && (c != NEWLINE && s.column == VGA_NUMCOLS - 1 ==> r.row == nextRow)
      && (c != NEWLINE && !scrolled ==> At(r.cells, s.column, s.row) == MakeVgaEntry(c, s.color))
      && (c != NEWLINE && scrolled ==> At(r.cells, s.column, s.row - 1) == MakeVgaEntry(c, s.color))
      && (!scrolled ==> forall x, y :: 0 <= x < VGA_NUMCOLS && 0 <= y < VGA_NUMROWS && (x, y) != (s.column, s.row) ==>
                           At(r.cells, x, y) == At(s.cells, x, y))
      && (c == NEWLINE && !scrolled ==> r.cells == s.cells)
      && (scrolled ==> r.cells == ScrollCells(if c == NEWLINE then s.cells
                                             else s.cells[s.row * VGA_NUMCOLS + s.column := MakeVgaEntry(c, s.color)]))
  {
  }

  /** The screen after putting each byte in turn. */
  function WriteSpec(s: Screen, text: seq<u8>): (r: Screen)
    requires ScreenOk(s)
    ensures ScreenOk(r) && r.color == s.color
    decreases |text|
  {
    if text == [] then s else PutcharSpec(WriteSpec(s, text[..|text| - 1]), text[|text| - 1])
  }

  /** Writing two texts one after the other is writing their concatenation. */
  lemma {:induction false} WriteConcat(s: Screen, a: seq<u8>, b: seq<u8>)
    requires ScreenOk(s)
    ensures WriteSpec(s, a + b) == WriteSpec(WriteSpec(s, a), b)
    decreases |b|
  {
    if b == [] {
      assert a + b == a;
    } else {
      assert (a + b)[..|a + b| - 1] == a + b[..|b| - 1];
      WriteConcat(s, a, b[..|b| - 1]);
    }
  }

  /** A plain byte of the format is printed as it is. */
  lemma FormatPlainStep(fmt: seq<u8>, p: nat, args: seq<Arg>)
    requires p < |fmt| && fmt[p] != 0 && fmt[p] != PERCENT && Format(fmt[p..], args).Some?
    ensures Format(fmt[p + 1..], args).Some?
    ensures Format(fmt[p..], args).value == [fmt[p]] + Format(fmt[p + 1..], args).value
  {
    assert fmt[p..][1..] == fmt[p + 1..];
  }

  /** A `%` or `%l` followed by the end of the format prints nothing more. */
  lemma FormatStops(fmt: seq<u8>, p: nat, args: seq<Arg>)
    requires p < |fmt| && fmt[p] == PERCENT
    requires |fmt| == p + 1 || fmt[p + 1] == 0 || (fmt[p + 1] == 'l' as u8 && (|fmt| == p + 2 || fmt[p + 2] == 0))
    ensures Format(fmt[p..], args) == Some([])
  {
    assert fmt[p..][1..] == fmt[p + 1..];
  }

  /** A conversion at fmt[at] (after a `%` at p and perhaps an `l`) prints what Conversion
      says and consumes its arguments. */
  lemma FormatConversionStep(fmt: seq<u8>, p: nat, at: nat, args: seq<Arg>, a: nat)
    requires p < at < |fmt| && fmt[p] == PERCENT && fmt[at] != 0 && a <= |args|
    requires (at == p + 1 && fmt[at] != 'l' as u8) || (at == p + 2 && fmt[p + 1] == 'l' as u8)
    requires Format(fmt[p..], args[a..]).Some?
    ensures var c := Conversion(fmt[at], args[a..]);
      && c.Some? && a + c.value.1 <= |args|
      && Format(fmt[at + 1..], args[a + c.value.1..]).Some?
      && Format(fmt[p..], args[a..]).value == c.value.0 + Format(fmt[at + 1..], args[a + c.value.1..]).value
  {
    var c := Conversion(fmt[at], args[a..]);
    assert fmt[p..][at - p] == fmt[at];
    assert fmt[p..][at - p + 1..] == fmt[at + 1..];
    if c.Some? {
      assert args[a..][c.value.1..] == args[a + c.value.1..];
    }
  }

  /** Hexadecimal text holds no NUL. */
  lemma HexHasNoNul(w: u32)
    ensures 0 !in Hex8(w)
  {
    var d := Hex8(w);
    forall k | 0 <= k < 8
      ensures d[k] != 0
    {
      HexTableValues((w / Pow2(28 - 4 * k)) % 16);
    }
  }

  lemma WriteOne(s: Screen, c: u8)
    requires ScreenOk(s)
    ensures WriteSpec(s, [c]) == PutcharSpec(s, c)
  {
    assert [c][..0] == [];
  }

  /** The screen console__initialize leaves: cursor home, light grey on black, all blank. */
  const BLANK_SCREEN: Screen := Screen(0, 0, 0x07, seq(VGA_CELLS, _ => 0x0720))

  // ---------------------------------------------------------------------
  // printf

  /** A variadic argument: a 32-bit word (int, unsigned, long, char or pointer: all the same
      width on i386) or the bytes a `char *` points at. */
  datatype Arg = Word(w: u32) | Text(s: seq<u8>)

  function Prepend(out: seq<u8>, rest: Option<seq<u8>>): Option<seq<u8>>
  {
    if rest.None? then None else Some(out + rest.value)
  }

  /** What one conversion prints and how many arguments it takes; None when the argument is
      missing or of the wrong kind, which C leaves undefined. */
  function Conversion(conv: u8, args: seq<Arg>): (r: Option<(seq<u8>, nat)>)
    ensures r.Some? ==> r.value.1 <= |args|
  {
    if conv == 'd' as u8 || conv == 'u' as u8 || conv == 'x' as u8 || conv == 'p' as u8 || conv == 'c' as u8 then
      if args == [] || !args[0].Word? then None
      else
        var w := args[0].w;
        if conv == 'd' as u8 then Some((SignedDecimal(AsSigned32(w)), 1))
        else if conv == 'u' as u8 then Some((DecimalDigits(w), 1))
        else if conv == 'c' as u8 then Some(([w % 256], 1))
        else Some((Hex8(w), 1))
    else if conv == 's' as u8 then
      if args == [] || !args[0].Text? || 0 !in args[0].s then None
      else Some((CString(args[0].s), 1))
    else Some(([conv], 0))
  }

  /** The bytes console__printf (console.c:193-260) hands to console__putchar for the format
      `fmt` (read up to its NUL) and the arguments `args`. */
  function Format(fmt: seq<u8>, args: seq<Arg>): Option<seq<u8>>
    decreases |fmt|
  {
    if fmt == [] || fmt[0] == 0 then Some([])
    else if fmt[0] != PERCENT then Prepend([fmt[0]], Format(fmt[1..], args))
    else if |fmt| < 2 || fmt[1] == 0 then Some([])
    else if fmt[1] == 'l' as u8 && (|fmt| < 3 || fmt[2] == 0) then Some([])
    else
      var at := if fmt[1] == 'l' as u8 then 2 else 1;
      var c := Conversion(fmt[at], args);
      if c.None? then None else Prepend(c.value.0, Format(fmt[at + 1..], args[c.value.1..]))
  }

  lemma FormatPlain(c: u8, rest: seq<u8>, args: seq<Arg>)
    requires c != 0 && c != PERCENT
    ensures Format([c] + rest, args) == Prepend([c], Format(rest, args))
  {
    assert ([c] + rest)[1..] == rest;
  }

  lemma FormatConversion(conv: u8, rest: seq<u8>, args: seq<Arg>)
    requires conv != 0 && conv != 'l' as u8 && Conversion(conv, args).Some?
    ensures var c := Conversion(conv, args).value;
      Format([PERCENT, conv] + rest, args) == Prepend(c.0, Format(rest, args[c.1..]))
  {
    assert ([PERCENT, conv] + rest)[2..] == rest;
  }

  lemma FormatLongConversion(conv: u8, rest: seq<u8>, args: seq<Arg>)
    requires conv != 0 && Conversion(conv, args).Some?
    ensures var c := Conversion(conv, args).value;
      Format([PERCENT, 'l' as u8, conv] + rest, args) == Prepend(c.0, Format(rest, args[c.1..]))
  {
    assert ([PERCENT, 'l' as u8, conv] + rest)[3..] == rest;
  }

  /** Text with no NUL and no `%` passes through printf unchanged. */
  lemma {:induction false} FormatLiteral(text: seq<u8>, rest: seq<u8>, args: seq<Arg>)
    requires 0 !in text && PERCENT !in text
    ensures Format(text + rest, args) == Prepend(text, Format(rest, args))
    decreases |text|
  {
    if text == [] {
      assert text + rest == rest;
      if Format(rest, args).Some? {
        assert text + Format(rest, args).value == Format(rest, args).value;
      }
    } else {
      assert text + rest == [text[0]] + (text[1..] + rest);
      FormatPlain(text[0], text[1..] + rest, args);
      FormatLiteral(text[1..], rest, args);
      if Format(rest, args).Some? {
        assert [text[0]] + (text[1..] + Format(rest, args).value) == text + Format(rest, args).value;
      }
    }
  }

  /** printf's directives: plain bytes are copied and `%d` prints the argument as a signed int. */
  lemma FormatSigned(w: u32)
    ensures Format(CLiteral("a%db"), [Word(w)]) == Some([97] + SignedDecimal(AsSigned32(w)) + [98])
  {
    var d := SignedDecimal(AsSigned32(w));
    var tail: seq<u8> := [98];
    assert CLiteral("a%db") == [97] + ([PERCENT, 100] + (tail + [0]));
    FormatPlain(98, [0], []);
    assert tail + [] == tail;
    assert [Word(w)][1..] == [];
    FormatConversion(100, tail + [0], [Word(w)]);
    FormatPlain(97, [PERCENT, 100] + (tail + [0]), [Word(w)]);
    assert [97] + (d + tail) == [97] + d + tail;
  }

  /** An `l` is skipped; `%u` and `%x` each take their own argument, in order. */
  lemma FormatLongAndHex(w: u32, v: u32)
    ensures Format(CLiteral("%lu%x"), [Word(w), Word(v)]) == Some(DecimalDigits(w) + Hex8(v))
  {
    var tail: seq<u8> := [PERCENT, 120] + [0];
    assert CLiteral("%lu%x") == [PERCENT, 108, 117] + tail;
    assert [Word(v)][1..] == [];
    FormatConversion(120, [0], [Word(v)]);
    assert Hex8(v) + [] == Hex8(v);
    assert [Word(w), Word(v)][1..] == [Word(v)];
    FormatLongConversion(117, tail, [Word(w), Word(v)]);
  }

  /** `%s` prints up to the string's NUL; `%c` prints the low byte of its argument. */
  lemma FormatStringAndChar(s: seq<u8>)
    requires 0 in s
    ensures Format(CLiteral("%s%c"), [Text(s), Word(0x141)]) == Some(CString(s) + [0x41])
  {
    var c: seq<u8> := [0x41];
    assert CLiteral("%s%c") == [PERCENT, 115] + ([PERCENT, 99] + [0]);
    assert [Word(0x141)][1..] == [];
    FormatConversion(99, [0], [Word(0x141)]);
    assert c + [] == c;
    assert [Text(s), Word(0x141)][1..] == [Word(0x141)];
    FormatConversion(115, [PERCENT, 99] + [0], [Text(s), Word(0x141)]);
  }

  /** An unknown directive, `%%` among them, prints its own character and takes no argument. */
  lemma FormatUnknown()
    ensures Format(CLiteral("%%%q"), []) == Some([PERCENT, 'q' as u8])
  {
    var q: seq<u8> := ['q' as u8];
    assert CLiteral("%%%q") == [PERCENT, PERCENT] + ([PERCENT, 113] + [0]);
    FormatConversion(113, [0], []);
    assert q + [] == q;
    FormatConversion(PERCENT, [PERCENT, 113] + [0], []);
    assert [PERCENT] + q == [PERCENT, 'q' as u8];
  }

  /** A `%` or `%l` at the end of the format stops the output. */
  lemma FormatTruncated()
    ensures Format(CLiteral("ab%"), []) == Some([97, 98])
    ensures Format(CLiteral("a%l"), []) == Some([97])
  {
    var a: seq<u8> := [97];
    var b: seq<u8> := [98];
    assert CLiteral("ab%") == a + (b + [PERCENT, 0]);
    FormatPlain(98, [PERCENT, 0], []);
    assert b + [] == b;
    FormatPlain(97, b + [PERCENT, 0], []);
    assert a + b == [97, 98];
    assert CLiteral("a%l") == a + [PERCENT, 108, 0];
    FormatPlain(97, [PERCENT, 108, 0], []);
    assert a + [] == a;
  }

  /** A conversion with no argument left is undefined: no output is defined for it. */
  lemma FormatMissingArgument()
    ensures Format(CLiteral("%d"), []) == None
  {
    assert CLiteral("%d") == [37, 100, 0];
  }

  // ---------------------------------------------------------------------
  // The console

  class Terminal {
    /** console_row, console_column, console_color */
    var row: nat
    var column: nat
    var color: u8
    /** console_buffer: the VGA text memory at 0xB8000. */
    const buffer: array<u16>

    ghost predicate Valid()
      reads this
    {
      buffer.Length == VGA_CELLS && row < VGA_NUMROWS && column < VGA_NUMCOLS
    }

    function State(): Screen
      reads this, buffer
    {
      Screen(row, column, color, buffer[..])
    }

    /** The console's globals before console__initialize runs: zero, as the BSS leaves them. */
    constructor (vga: array<u16>)
      requires vga.Length == VGA_CELLS
      ensures Valid() && buffer == vga && row == 0 && column == 0 && color == 0
    {
      row, column, color := 0, 0, 0;
      buffer := vga;
    }

    /** console__initialize (console.c:122-136). */
    method Initialize()
      requires Valid()
      modifies this, buffer
      ensures Valid() && State() == BLANK_SCREEN
    {
      row := 0;
      column := 0;
      color := MakeColor(COLOR_LIGHT_GREY, COLOR_BLACK);
      var y := 0;
      while y < VGA_NUMROWS
        invariant 0 <= y <= VGA_NUMROWS && row == 0 && column == 0 && color == 0x07
        invariant forall k :: 0 <= k < y * VGA_NUMCOLS ==> buffer[k] == 0x0720
      {
        var x := 0;
        while x < VGA_NUMCOLS
          invariant 0 <= x <= VGA_NUMCOLS && row == 0 && column == 0 && color == 0x07
          invariant forall k :: 0 <= k < y * VGA_NUMCOLS + x ==> buffer[k] == 0x0720
        {
          var index := y * VGA_NUMCOLS + x;
          buffer[index] := MakeVgaEntry(SPACE, color);
          x := x + 1;
        }
        y := y + 1;
      }
      assert buffer[..] == BLANK_SCREEN.cells;
    }

    /** console__setcolor (console.c:139-142). */
    method SetColor(c: u8)
      requires Valid()
      modifies this
      ensures Valid() && State() == old(State()).(color := c)
    {
      color := c;
    }

    /** console__putentryat (console.c:145-149). */
    method PutEntryAt(c: u8, cellColor: u8, x: nat, y: nat)
      requires Valid() && x < VGA_NUMCOLS && y < VGA_NUMROWS
      modifies buffer
      ensures buffer[..] == old(buffer[..])[y * VGA_NUMCOLS + x := MakeVgaEntry(c, cellColor)]
    {
      var index := y * VGA_NUMCOLS + x;
      buffer[index] := MakeVgaEntry(c, cellColor);
    }

    /** __scroll (console.c:105-116): memcpy each row onto the one above, then memset the
        last row to zero. */
    method Scroll()
      requires buffer.Length == VGA_CELLS
      modifies buffer
      ensures buffer[..] == ScrollCells(old(buffer[..]))
    {
      var j := 1;
      while j < VGA_NUMROWS
        invariant 1 <= j <= VGA_NUMROWS
        invariant forall k :: 0 <= k < (j - 1) * VGA_NUMCOLS ==> buffer[k] == old(buffer[k + VGA_NUMCOLS])
        invariant forall k :: (j - 1) * VGA_NUMCOLS <= k < VGA_CELLS ==> buffer[k] == old(buffer[k])
      {
        Memcpy(buffer, (j - 1) * VGA_NUMCOLS, j * VGA_NUMCOLS, VGA_NUMCOLS);
        j := j + 1;
      }
      Memset(buffer, (VGA_NUMROWS - 1) * VGA_NUMCOLS, 0, VGA_NUMCOLS);
      assert buffer[..] == ScrollCells(old(buffer[..]));
    }

    /** console__putchar (console.c:152-182). */
    method Putchar(c: u8)
      requires Valid()
      modifies this, buffer
      ensures Valid() && State() == PutcharSpec(old(State()), c)
    {
      if c == NEWLINE {
        column := 0;
        if row == VGA_NUMROWS - 1 {
          Scroll();
        } else {
          row := row + 1;
        }
        return;
      }
      PutEntryAt(c, color, column, row);
      column := column + 1;
      if column == VGA_NUMCOLS {
        column := 0;
        if row == VGA_NUMROWS - 1 {
          Scroll();
        } else {
          row := row + 1;
        }
      }
    }

    /** console__write (console.c:185-190): strlen, then console__putchar for each byte. */
    method Write(data: seq<u8>)
      requires Valid() && 0 in data
      modifies this, buffer
      ensures Valid() && State() == WriteSpec(old(State()), CString(data))
    {
      var datalen := Strlen(data);
      var i := 0;
      while i < datalen
        invariant 0 <= i <= datalen && Valid()
        invariant State() == WriteSpec(old(State()), data[..i])
      {
        assert data[..i + 1][..i] == data[..i];
        Putchar(data[i]);
        i := i + 1;
      }
      assert CString(data) == data[..datalen];
    }

    /** `%d`: __ltoa into the buffer, then console__write. */
    method PrintSigned(buf: array<u8>, value: i32)
      requires Valid() && buf.Length == MAXDIGITS + 2
      modifies this, buffer, buf
      ensures Valid() && State() == WriteSpec(old(State()), SignedDecimal(value))
    {
      SignedRoundTrip(value);
      ghost var before := buf[..];
      Ltoa(buf, value);
      CStringOfTerminated(SignedDecimal(value), before[|SignedDecimal(value)| + 1..]);
      Write(buf[..]);
    }

    /** `%u`: __ultoa into the buffer, then console__write. */
    method PrintUnsigned(buf: array<u8>, value: u32)
      requires Valid() && buf.Length == MAXDIGITS + 2
      modifies this, buffer, buf
      ensures Valid() && State() == WriteSpec(old(State()), DecimalDigits(value))
    {
      ghost var digits := DecimalDigits(value);
      DecimalFits(value);
      DigitsAreText(value);
      ghost var rest := buf[|digits| + 1..];
      assert buf[..0] == [];
      Ultoa(buf, 0, value);
      assert buf[..] == digits + [0] + rest;
      CStringOfTerminated(digits, rest);
      Write(buf[..]);
    }

    /** `%x` and `%p`: __ltox into the buffer, then console__write. */
    method PrintHex(buf: array<u8>, value: u32)
      requires Valid() && buf.Length == MAXDIGITS + 2
      modifies this, buffer, buf
      ensures Valid() && State() == WriteSpec(old(State()), Hex8(value))
    {
      HexHasNoNul(value);
      ghost var before := buf[..];
      Ltox(buf, value);
      CStringOfTerminated(Hex8(value), before[9..]);
      Write(buf[..]);
    }

    /** One conversion of console__printf (the `switch` at console.c:220-251): format the
        argument into `buf` and write it, or put a single character. */
    method Convert(buf: array<u8>, conv: u8, args: seq<Arg>) returns (used: nat)
      requires Valid() && buf.Length == MAXDIGITS + 2 && Conversion(conv, args).Some?
      modifies this, buffer, buf
      ensures Valid() && used == Conversion(conv, args).value.1
      ensures State() == WriteSpec(old(State()), Conversion(conv, args).value.0)
    {
      ghost var s0 := State();
      used := 1;
      if conv == 'd' as u8 {
        PrintSigned(buf, AsSigned32(args[0].w));
      } else if conv == 'u' as u8 {
        PrintUnsigned(buf, args[0].w);
      } else if conv == 'x' as u8 || conv == 'p' as u8 {
        PrintHex(buf, args[0].w);
      } else if conv == 'c' as u8 {
        WriteOne(s0, args[0].w % 256);
        Putchar(args[0].w % 256);
      } else if conv == 's' as u8 {
        Write(args[0].s);
      } else {
        WriteOne(s0, conv);
        Putchar(conv);
        used := 0;
      }
    }

    /** The conversion of a directive whose `%` is at fmt[p] and whose conversion character is
        at fmt[at]: the text Format gives for it is written, and `a'` says how many arguments
        it used. */
    method PrintDirective(buf: array<u8>, fmt: seq<u8>, p: nat, at: nat, args: seq<Arg>, a: nat)
      returns (a': nat, ghost emitted: seq<u8>)
      requires Valid() && buf.Length == MAXDIGITS + 2
      requires p < at < |fmt| && fmt[p] == PERCENT && fmt[at] != 0 && a <= |args|
      requires (at == p + 1 && fmt[at] != 'l' as u8) || (at == p + 2 && fmt[p + 1] == 'l' as u8)
      requires Format(fmt[p..], args[a..]).Some?
      modifies this, buffer, buf
      ensures Valid() && a <= a' <= |args| && Format(fmt[at + 1..], args[a'..]).Some?
      ensures Format(fmt[p..], args[a..]).value == emitted + Format(fmt[at + 1..], args[a'..]).value
      ensures State() == WriteSpec(old(State()), emitted)
    {
      FormatConversionStep(fmt, p, at, args, a);
      emitted := Conversion(fmt[at], args[a..]).value.0;
      var used := Convert(buf, fmt[at], args[a..]);
      a' := a + used;
    }

    /** One pass of console__printf's loop (console.c:204-256) at fmt[p], a byte that is not
        the NUL: a plain byte is put, a directive is converted. `stop` is the `goto done` taken
        when the format ends right after the `%` or `%l`; otherwise `next` is where the
        directive ends and `a'` how many arguments have been used. */
    method PrintfStep(buf: array<u8>, fmt: seq<u8>, p: nat, args: seq<Arg>, a: nat)
      returns (next: nat, a': nat, stop: bool, ghost emitted: seq<u8>)
      requires Valid() && buf.Length == MAXDIGITS + 2
      requires p < |fmt| && fmt[p] != 0 && a <= |args| && Format(fmt[p..], args[a..]).Some?
      modifies this, buffer, buf
      ensures Valid() && p < next <= |fmt| && a <= a' <= |args|
      ensures stop ==> Format(fmt[p..], args[a..]) == Some([]) && State() == old(State())
      ensures !stop ==> Format(fmt[next..], args[a'..]).Some?
      ensures !stop ==> Format(fmt[p..], args[a..]).value == emitted + Format(fmt[next..], args[a'..]).value
      ensures !stop ==> State() == WriteSpec(old(State()), emitted)
    {
      ghost var s0 := State();
      stop := false;
      a' := a;
      if fmt[p] == PERCENT {
        next := p + 1;
        if next == |fmt| || fmt[next] == 0 {
          FormatStops(fmt, p, args[a..]);
          stop := true;
          emitted := [];
          return;
        }
        if fmt[next] == 'l' as u8 {
          // `long` and `int` have the same width here: the flag changes nothing
          next := next + 1;
          if next == |fmt| || fmt[next] == 0 {
            FormatStops(fmt, p, args[a..]);
            stop := true;
            emitted := [];
            return;
          }
        }
        a', emitted := PrintDirective(buf, fmt, p, next, args, a);
      } else {
        next := p;
        FormatPlainStep(fmt, p, args[a..]);
        emitted := [fmt[p]];
        Putchar(fmt[p]);
        assert State() == WriteSpec(s0, emitted) by {
          WriteOne(s0, fmt[p]);
        }
      }
      next := next + 1;
    }

    /** console__printf (console.c:193-260). */
    method Printf(fmt: seq<u8>, args: seq<Arg>)
      requires Valid() && Format(fmt, args).Some?
      modifies this, buffer
      ensures Valid() && State() == WriteSpec(old(State()), Format(fmt, args).value)
    {
      var buf := new u8[MAXDIGITS + 2];
      ghost var final := WriteSpec(State(), Format(fmt, args).value);
      var p: nat := 0;
      var a: nat := 0;
      assert fmt[0..] == fmt && args[0..] == args;
      while p < |fmt| && fmt[p] != 0
        invariant Valid() && p <= |fmt| && a <= |args|
        invariant Format(fmt[p..], args[a..]).Some?
        invariant final == WriteSpec(State(), Format(fmt[p..], args[a..]).value)
        decreases |fmt| - p
      {
        ghost var s0 := State();
        var next, a', stop, emitted := PrintfStep(buf, fmt, p, args, a);
        if stop {
          break;
        }
        WriteConcat(s0, emitted, Format(fmt[next..], args[a'..]).value);
        p, a := next, a';
      }
    }
  }
}
