/** kbd.c: the US scan-code table and the keyboard interrupt handler. The scan
    code read from port 0x60 comes in as a parameter; enabling the controller
    (a busy-wait on its status port) and attaching IRQ1 are not part of this
    model. */
module Kbd {
  import opened CTypes
  import opened Console

  /** kbd_us[128], scan codes of set 1 in rows of 16 (0x00..0x0F, 0x10..0x1F, ...). The
      initialiser gives codes 0..89; C fills the rest of the array with zeros, spelled out
      here from code 90 on. */
  const KBD_US_ROW0: seq<u8> := [0, 27, 49, 50, 51, 52, 53, 54, 55, 56, 57, 48, 45, 61, 8, 9]
  const KBD_US_ROW1: seq<u8> := [113, 119, 101, 114, 116, 121, 117, 105, 111, 112, 91, 93, 10, 0, 97, 115]
  const KBD_US_ROW2: seq<u8> := [100, 102, 103, 104, 106, 107, 108, 59, 39, 96, 0, 92, 122, 120, 99, 118]
  const KBD_US_ROW3: seq<u8> := [98, 110, 109, 44, 46, 47, 0, 42, 0, 32, 0, 0, 0, 0, 0, 0]
  const KBD_US_ROW4: seq<u8> := [0, 0, 0, 0, 0, 0, 0, 0, 0, 0, 45, 0, 0, 0, 43, 0]
  const KBD_US_ROW5: seq<u8> := [0, 0, 0, 0, 0, 0, 0, 0, 0, 0, 0, 0, 0, 0, 0, 0]
  const KBD_US_ROW6: seq<u8> := [0, 0, 0, 0, 0, 0, 0, 0, 0, 0, 0, 0, 0, 0, 0, 0]
  const KBD_US_ROW7: seq<u8> := [0, 0, 0, 0, 0, 0, 0, 0, 0, 0, 0, 0, 0, 0, 0, 0]
  const KBD_US: seq<u8> :=
    KBD_US_ROW0 + KBD_US_ROW1 + KBD_US_ROW2 + KBD_US_ROW3 + KBD_US_ROW4 + KBD_US_ROW5 + KBD_US_ROW6 + KBD_US_ROW7

  /** The table has 128 entries; every one after the initialiser's 90 is 0. */
  lemma TableShape()
    ensures |KBD_US| == 128
    ensures forall c :: 90 <= c < 128 ==> KBD_US[c] == 0
  {
  }

  /** The number row: codes 2..10 are '1'..'9' and code 11 is '0'. */
  lemma DigitRow()
    ensures forall c :: 2 <= c <= 10 ==> KBD_US[c] == c - 1 + '0' as u8
    ensures KBD_US[11] == '0' as u8
  {
  }

  /** Escape, backspace, tab, enter and the space bar. */
  lemma ControlKeys()
    ensures KBD_US[1] == 27 && KBD_US[14] == 8 && KBD_US[15] == 9
    ensures KBD_US[28] == NEWLINE && KBD_US[57] == SPACE
  {
  }

  /** Ctrl (29), left and right Shift (42, 54), Alt (56), Caps Lock (58) and F1..F10
      (59..68) print nothing useful: their entries are 0. */
  lemma SilentKeys()
    ensures forall c :: c in {29, 42, 54, 56, 58} ==> KBD_US[c] == 0
    ensures forall c :: 59 <= c <= 68 ==> KBD_US[c] == 0
  {
  }

  /** What a scan code means to isr_kbd: a release (bit 7 set) means nothing; a press is
      looked up in the table, and the index is always within it. */
  function KeyPress(code: u8): (ch: Option<u8>)
    ensures ch.Some? <==> (code / 0x80) % 2 == 0
    ensures ch.Some? ==> code < |KBD_US| && ch.value == KBD_US[code]
  {
    if (code / 0x80) % 2 == 1 then None else Some(KBD_US[code])
  }

  /** "Key: " */
  const KEY_PREFIX: seq<u8> := [75, 101, 121, 58, 32]
  /** The format isr_kbd prints: "Key: %c\n". */
  const KEY_FORMAT: seq<u8> := KEY_PREFIX + [PERCENT, 'c' as u8, NEWLINE, 0]

  /** The text isr_kbd writes for a press of a key whose table entry is ch. */
  function KeyText(ch: u8): seq<u8>
  {
    KEY_PREFIX + [ch] + [NEWLINE]
  }

  /** printf turns the format and the table entry into that text. */
  lemma KeyMessage(ch: u8)
    ensures Format(KEY_FORMAT, [Word(ch)]) == Some(KeyText(ch))
  {
    var rest: seq<u8> := [PERCENT, 'c' as u8] + ([NEWLINE] + [0]);
    assert KEY_FORMAT == KEY_PREFIX + rest;
    FormatLiteral(KEY_PREFIX, rest, [Word(ch)]);
    var nl: seq<u8> := [NEWLINE];
    FormatPlain(NEWLINE, [0], []);
    assert nl + [] == nl;
    assert [Word(ch)][1..] == [];
    FormatConversion('c' as u8, [NEWLINE] + [0], [Word(ch)]);
    assert KEY_PREFIX + ([ch] + nl) == KeyText(ch);
  }

  /** isr_kbd (kbd.c:79-86) for the scan code read from the controller: a press prints the
      key's character, a release prints nothing. */
  method IsrKbd(con: Terminal, code: u8)
    requires con.Valid()
    modifies con, con.buffer
    ensures con.Valid()
    ensures KeyPress(code).None? ==> con.State() == old(con.State())
    ensures KeyPress(code).Some? ==> con.State() == WriteSpec(old(con.State()), KeyText(KeyPress(code).value))
  {
    if (code / 0x80) % 2 == 0 {
      KeyMessage(KBD_US[code]);
      con.Printf(KEY_FORMAT, [Word(KBD_US[code])]);
    }
  }
}
