/** The scancode table of the keyboard driver, and the rows of its second-function keys. */
module KeyCodes {
  import opened Words

  /** A Linux input keycode; 0 is reserved and never reported. */
  type Key = nat

  const KEY_ENTER: Key := 28
  const KEY_LEFTSHIFT: Key := 42
  const KEY_RIGHTSHIFT: Key := 54
  const KEY_F6: Key := 64
  const KEY_HOME: Key := 102
  const KEY_PAGEUP: Key := 104
  const KEY_END: Key := 107
  const KEY_PAGEDOWN: Key := 109
  const KEY_INSERT: Key := 110
  const KEY_PAUSE: Key := 119
  const KEY_UNKNOWN: Key := 240
  const BTN_LEFT: Key := 0x110
  const BTN_RIGHT: Key := 0x111

  /** KEY_A to KEY_Z. */
  const LETTERS: seq<Key> := [30, 48, 46, 32, 18, 33, 34, 35, 23, 36, 37, 38, 50, 49, 24, 25, 16, 19, 31, 20, 22, 47,
      17, 45, 21, 44]

  /** Space to '@'. */
  const SYMBOLS: seq<Key> := [
    57, 2, 40, 4, 5, 6, 8, 40, 10, 11, 9, 13, 51, 12, 52, 53,
    11, 2, 3, 4, 5, 6, 7, 8, 9, 10, 39, 39, 51, 13, 52, 53, 3]

  /** '[' to '`', then '{' to '~'. */
  const BRACKETS: seq<Key> := [26, 43, 27, 7, 12, 41]
  const BRACES: seq<Key> := [26, 43, 27, 41]

  function CharKey(sc: Byte): Key
    requires sc < 0x80
  {
    if 'a' as int <= sc <= 'z' as int then LETTERS[sc - 'a' as int]
    else if 'A' as int <= sc <= 'Z' as int then LETTERS[sc - 'A' as int]
    else if 0x20 <= sc <= 0x40 then SYMBOLS[sc - 0x20]
    else if 0x5B <= sc <= 0x60 then BRACKETS[sc - 0x5B]
    else if 0x7B <= sc <= 0x7E then BRACES[sc - 0x7B]
    else if sc == 0x08 then 14
    else if sc == 0x09 then 15
    else if sc == 0x0A then KEY_ENTER
    else 0
  }

  function SpecialKey(sc: Byte): Key
    requires sc >= 0x80
  {
    match sc
    case 0x81 => 59
    case 0x82 => 60
    case 0x83 => 61
    case 0x84 => 62
    case 0x85 => 63
    case 0x86 => KEY_F6
    case 0x87 => KEY_F6 + 1
    case 0x88 => KEY_F6 + 2
    case 0x89 => KEY_F6 + 3
    case 0x90 => KEY_F6 + 4
    case 0xA1 => 56
    case 0xA2 => KEY_LEFTSHIFT
    case 0xA3 => KEY_RIGHTSHIFT
    case 0xA5 => 29
    case 0xB1 => 1
    case 0xB4 => 105
    case 0xB5 => 103
    case 0xB6 => 108
    case 0xB7 => 106
    case 0xC1 => 58
    case 0xD0 => KEY_PAUSE
    case 0xD1 => KEY_ENTER
    case 0xD2 => KEY_HOME
    case 0xD4 => 111
    case 0xD5 => KEY_END
    case 0xD6 => KEY_PAGEUP
    case 0xD7 => KEY_PAGEDOWN
    case _ => 0
  }

  /** `keycodes`. */
  function Keycode(sc: Byte): Key {
    if sc < 0x80 then CharKey(sc) else SpecialKey(sc)
  }

  const ROWS: nat := 11

  /** `second_key_maps`: the scancode whose pressed state each row shadows. */
  const SECOND_KEYS: seq<Byte> := [0x86, 0x87, 0x88, 0x89, 0x90, 0xD0, 0xD2, 0xD5, 0xD6, 0xD7, 0xD8]

  const PAGEUP_ROW: nat := 8
  const PAGEDOWN_ROW: nat := 9
  const INSERT_ROW: nat := 10

  /** The row of a scancode, ROWS if it has none. */
  function RowOf(sc: Byte): (row: nat)
    ensures row <= ROWS
    ensures row < ROWS ==> SECOND_KEYS[row] == sc
  {
    if 0x86 <= sc <= 0x89 then sc - 0x86 else if sc == 0x90 then 4 else if sc == 0xD0 then 5
    else if sc == 0xD2 then 6 else if 0xD5 <= sc <= 0xD8 then sc - 0xD5 + 7 else ROWS
  }

  lemma RowOfScancode(row: nat)
    requires row < ROWS
    ensures RowOf(SECOND_KEYS[row]) == row
  {
  }

  /** The keycode that a row reports; the last row's scancode has none. */
  function RowKey(row: nat): Key
    requires row < ROWS
  {
    Keycode(SECOND_KEYS[row])
  }

  lemma RowKeyIs(row: nat)
    requires row < ROWS
    ensures RowKey(row) == [64, 65, 66, 67, 68, 119, 102, 107, 104, 109, 0][row]
  {
  }

  /** No row reports a key below F6, where shifts, letters and most others are. */
  lemma RowKeysAreHigh(row: nat)
    requires row < ROWS
    ensures if row == INSERT_ROW then RowKey(row) == 0 else 64 <= RowKey(row) < 120
  {
    RowKeyIs(row);
  }

  lemma LettersAreLow(i: nat)
    requires i < 26
    ensures LETTERS[i] <= 57
  {
  }

  lemma SymbolsAreLow(i: nat)
    requires i < 33
    ensures SYMBOLS[i] <= 57
  {
  }

  lemma CharKeysAreLow(sc: Byte)
    requires sc < 0x80
    ensures CharKey(sc) <= 57
  {
    if 'a' as int <= sc <= 'z' as int { LettersAreLow(sc - 'a' as int); }
    else if 'A' as int <= sc <= 'Z' as int { LettersAreLow(sc - 'A' as int); }
    else if 0x20 <= sc <= 0x40 { SymbolsAreLow(sc - 0x20); }
  }

  /** A keycode of the table fits the byte that the driver keeps it in. */
  lemma KeycodesAreBytes(sc: Byte)
    ensures Keycode(sc) < 0x100
  {
    if sc < 0x80 {
      CharKeysAreLow(sc);
    }
  }

  /** Each row's keycode has that row's scancode alone. */
  lemma OneScancodePerRow(sc: Byte, row: nat)
    requires row < INSERT_ROW
    ensures Keycode(sc) == RowKey(row) <==> sc == SECOND_KEYS[row]
  {
    RowKeyIs(row);
    if sc < 0x80 {
      CharKeysAreLow(sc);
    } else if SpecialKey(sc) == RowKey(row) {
      SpecialRowKey(sc, row);
    }
  }

  lemma SpecialRowKey(sc: Byte, row: nat)
    requires row < INSERT_ROW && sc >= 0x80 && SpecialKey(sc) == [64, 65, 66, 67, 68, 119, 102, 107, 104, 109, 0][row]
    ensures sc == SECOND_KEYS[row]
  {
  }

  // ----- The table against the keyboard -----

  /** The place of a letter on the keyboard's three rows. */
  const KEYBOARD_ROWS: seq<string> := ["qwertyuiop", "asdfghjkl", "zxcvbnm"]

  /** The letters are numbered from 16, 30 and 44 along the three rows of the keyboard. */
  lemma LettersFollowRows(i: nat)
    ensures i < 10 ==> Keycode(KEYBOARD_ROWS[0][i] as int) == 16 + i
    ensures i < 9 ==> Keycode(KEYBOARD_ROWS[1][i] as int) == 30 + i
    ensures i < 7 ==> Keycode(KEYBOARD_ROWS[2][i] as int) == 44 + i
  {
  }

  /** Upper case is the same key. */
  lemma CasesAgree(sc: Byte)
    requires 'a' as int <= sc <= 'z' as int
    ensures Keycode(sc) == Keycode(sc - 0x20)
  {
  }

  /** The digits, '0' after '9', ... */
  lemma DigitsFollow(i: nat)
    requires i < 10
    ensures Keycode("1234567890"[i] as int) == 2 + i
  {
  }

  /** ... and what shift makes of them. */
  lemma ShiftedDigitsFollow(i: nat)
    requires i < 10
    ensures Keycode("!@#$%^&*()"[i] as int) == 2 + i
  {
  }

  /** Punctuation: both characters of a key. */
  lemma PunctuationPairs(i: nat)
    requires i < 11
    ensures Keycode("-=[];'`\\,./"[i] as int) == [12, 13, 26, 27, 39, 40, 41, 43, 51, 52, 53][i]
    ensures Keycode("_+{}:\"~|<>?"[i] as int) == [12, 13, 26, 27, 39, 40, 41, 43, 51, 52, 53][i]
  {
  }

  /** The function keys F1 to F10 in order, and the arrows left, up, down and right. */
  lemma FunctionKeysAndArrows(i: nat)
    ensures i < 9 ==> Keycode(0x81 + i) == 59 + i
    ensures Keycode(0x90) == 68
    ensures i < 4 ==> Keycode(0xB4 + i) == [105, 103, 108, 106][i]
  {
  }

  /** The modifiers, space, backspace, tab and enter. */
  lemma MainBlockKeys()
    ensures Keycode(0xA1) == 56 && Keycode(0xA2) == 42 && Keycode(0xA3) == 54 && Keycode(0xA5) == 29
    ensures Keycode(' ' as int) == 57 && Keycode(0x08) == 14 && Keycode(0x09) == 15 && Keycode(0x0A) == 28
  {
  }

  /** The others: Escape, Caps Lock, Delete and the second functions. */
  lemma OtherKeys()
    ensures Keycode(0xB1) == 1 && Keycode(0xC1) == 58 && Keycode(0xD0) == 119 && Keycode(0xD1) == 28
    ensures Keycode(0xD2) == 102 && Keycode(0xD4) == 111 && Keycode(0xD5) == 107 && Keycode(0xD6) == 104
    ensures Keycode(0xD7) == 109 && Keycode(0xD8) == 0
  {
  }
}
