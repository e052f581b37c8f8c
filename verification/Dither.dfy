/** What ordered dithering does to a window: where in the table each pixel falls, and how many
    pixels of a flat colour are lit. */
module Dither {
  import opened Words
  import opened PixelCode
  import opened RowMajor

  /** The running offset at which `update_display` starts the writer for a window whose first
      line is `start`: a byte offset, two bytes a pixel. */
  function StartOffset(width: nat, start: nat): nat {
    start * (2 * width)
  }

  /** The running offset of the first pixel of a row. */
  function RowStart(width: nat, row: nat): nat {
    row * width
  }

  // ----- Phase -----

  /** The decision that the writer makes for pixel (x, y) of a window starting at line `start`. */
  function Shown(width: nat, start: nat, y: nat, x: nat, v: Word16): Rgb3
    requires x < width && start <= y
  {
    DitherPixel(width, StartOffset(width, start) + ((y - start) * width + x), v)
  }

  lemma PhasePosition(width: nat, start: nat, y: nat, x: nat)
    requires start <= y
    ensures StartOffset(width, start) + ((y - start) * width + x) == (start + y) * width + x
  {
    Distribute(2 * start, y - start, width);
    assert start * (2 * width) == (2 * start) * width;
  }

  lemma TableEntry(width: nat, row: nat, x: nat, cur: nat)
    requires x < width && cur == row * width + x
    ensures TableRow(width, cur) == row % 8 && TableCol(width, cur) == x % 8
  {
    RowAndColumn(width, row, x);
  }

  /** A window that starts at line `start` compares the pixel of screen line y and column x
      with table entry [(start + y) % 8][x % 8]: the byte offset counts every line twice up
      to the window and once inside it. */
  lemma ShownPhase(width: nat, start: nat, y: nat, x: nat, v: Word16)
    requires x < width && start <= y
    ensures Shown(width, start, y, x, v) == DitherAt((start + y) % 8, x % 8, v)
  {
    PhasePosition(width, start, y, x);
    TableEntry(width, start + y, x, StartOffset(width, start) + ((y - start) * width + x));
  }

  lemma CoderShows(f: PixelCoder, width: nat, start: nat, y: nat, x: nat, v: Word16, k: nat)
    requires x < width && start <= y && k == (y - start) * width + x && f == Coder(true, width)
    ensures f(StartOffset(width, start) + k, v) == DitherAt((start + y) % 8, x % 8, v)
  {
    ShownPhase(width, start, y, x, v);
    assert f(StartOffset(width, start) + k, v) == Shown(width, start, y, x, v);
  }

  lemma StreamShows(f: PixelCoder, width: nat, start: nat, y: nat, x: nat, px: seq<Word16>, k: nat, cur: nat, row: nat)
    requires x < width && start <= y && k == (y - start) * width + x && k < |px|
    requires f == Coder(true, width) && cur == StartOffset(width, start) && row == (start + y) % 8
    ensures Decisions(f, cur, px)[k] == DitherAt(row, x % 8, px[k])
  {
    var v := px[k];
    CoderShows(f, width, start, y, x, v, k);
    DecisionAt(f, cur, px, k);
  }

  /** The same of the whole stream of a window, whatever the batches. */
  lemma StreamPhase(width: nat, start: nat, y: nat, x: nat, px: seq<Word16>, k: nat)
    requires x < width && start <= y && k == (y - start) * width + x && k < |px|
    ensures Decisions(Coder(true, width), StartOffset(width, start), px)[k] == DitherAt((start + y) % 8, x % 8, px[k])
  {
    StreamShows(Coder(true, width), width, start, y, x, px, k, StartOffset(width, start), (start + y) % 8);
  }

  /** A repaint from line `start` shows what a whole-frame repaint shows, for every picture,
      exactly when `start` is divisible by 8. */
  lemma PartialRepaintAgreesIff(width: nat, start: nat)
    requires width > 0
    ensures (forall y: nat, x: nat, v: Word16 | start <= y && x < width ::
               Shown(width, start, y, x, v) == Shown(width, 0, y, x, v))
            <==> start % 8 == 0
  {
    if start % 8 == 0 {
      forall y: nat, x: nat, v: Word16 | start <= y && x < width
        ensures Shown(width, start, y, x, v) == Shown(width, 0, y, x, v)
      {
        SamePhase(width, start, y, x, v);
      }
    } else {
      var v := OtherPhase(width, start);
    }
  }

  lemma SamePhase(width: nat, start: nat, y: nat, x: nat, v: Word16)
    requires x < width && start <= y && start % 8 == 0
    ensures Shown(width, start, y, x, v) == Shown(width, 0, y, x, v)
  {
    ShownInRow(width, start, y, x, v, y % 8);
    ShownInRow(width, 0, y, x, v, y % 8);
  }

  lemma ShownInRow(width: nat, start: nat, y: nat, x: nat, v: Word16, row: nat)
    requires x < width && start <= y && row == (start + y) % 8
    ensures Shown(width, start, y, x, v) == DitherAt(row, x % 8, v)
  {
    ShownPhase(width, start, y, x, v);
  }

  lemma OtherPhase(width: nat, start: nat) returns (v: Word16)
    requires width > 0 && start % 8 != 0
    ensures Shown(width, start, start, 0, v) != Shown(width, 0, start, 0, v)
  {
    v := FirstColumnTellsApart(start);
    ShownPhase(width, start, start, 0, v);
    ShownPhase(width, 0, start, 0, v);
  }

  lemma FirstColumn(row: nat)
    requires row < 8
    ensures Cut(Green, Threshold(row, 0)) == [0, 32, 8, 40, 2, 34, 10, 42][row]
  {
  }

  /** A green level that column 0 lights in one of the two rows only. */
  lemma FirstColumnTellsApart(start: nat) returns (v: Word16)
    requires start % 8 != 0
    ensures DitherAt((start + start) % 8, 0, v) != DitherAt(start % 8, 0, v)
  {
    var r, s := start % 8, (start + start) % 8;
    FirstColumn(r);
    FirstColumn(s);
    var level := Cut(Green, Threshold(r, 0));
    v := 32 * level;
    assert Level(Green, v) == level > Cut(Green, Threshold(s, 0));
  }

  // ----- Counting the lit pixels of a periodic pattern -----

  /** An 8x8 pattern: which pixels are lit, by row and column. */
  type Pattern = (nat, nat) -> bool

  /** The lit pixels among the first n columns of a row, the pattern repeating. */
  function Columns(lit: Pattern, row: nat, n: nat): nat {
    if n == 0 then 0 else Columns(lit, row, n - 1) + Bit(lit(row, (n - 1) % 8))
  }

  /** The lit pixels of n consecutive rows of a width, the first of them row `row`. */
  function Rows(lit: Pattern, width: nat, row: nat, n: nat): nat {
    if n == 0 then 0 else Rows(lit, width, row, n - 1) + Columns(lit, (row + n - 1) % 8, width)
  }

  lemma ColumnInTile(q: nat, base: nat, c: nat)
    requires base == q * 8 && c < 8
    ensures (base + c) % 8 == c == c % 8
  {
    RowAndColumn(8, q, c);
  }

  lemma {:induction false} ColumnsSplit(lit: Pattern, row: nat, q: nat, base: nat, j: nat)
    requires base == q * 8 && j <= 8
    ensures Columns(lit, row, base + j) == Columns(lit, row, base) + Columns(lit, row, j)
  {
    if j == 0 {
    } else {
      ColumnsSplit(lit, row, q, base, j - 1);
      ColumnInTile(q, base, j - 1);
    }
  }

  lemma {:induction false} ColumnsOfTiles(lit: Pattern, row: nat, m: nat)
    ensures Columns(lit, row, m * 8) == m * Columns(lit, row, 8)
  {
    if m == 0 {
    } else {
      ColumnsOfTiles(lit, row, m - 1);
      ColumnsSplit(lit, row, m - 1, (m - 1) * 8, 8);
      Distribute(m - 1, 1, Columns(lit, row, 8));
    }
  }

  lemma {:induction false} RowsScale(lit: Pattern, m: nat, wide: nat, narrow: nat, row: nat, n: nat)
    requires forall r: nat | r < 8 :: Columns(lit, r, wide) == m * Columns(lit, r, narrow)
    ensures Rows(lit, wide, row, n) == m * Rows(lit, narrow, row, n)
  {
    if n == 0 {
    } else {
      RowsScale(lit, m, wide, narrow, row, n - 1);
      DistributeLeft(m, Rows(lit, narrow, row, n - 1), Columns(lit, (row + n - 1) % 8, narrow));
    }
  }

  lemma {:induction false} RowsSplit(lit: Pattern, width: nat, row: nat, a: nat, b: nat)
    ensures Rows(lit, width, row, a + b) == Rows(lit, width, row, a) + Rows(lit, width, row + a, b)
  {
    if b == 0 {
    } else {
      RowsSplit(lit, width, row, a, b - 1);
      assert row + a + b - 1 == (row + a) + b - 1;
    }
  }

  /** Eight consecutive rows meet every row of the pattern once, wherever they start. */
  lemma {:induction false} RowsOfEight(lit: Pattern, width: nat, row: nat)
    ensures Rows(lit, width, row, 8) == Rows(lit, width, 0, 8)
  {
    if row == 0 {
    } else {
      RowsOfEight(lit, width, row - 1);
      RowsMoveOn(lit, width, row - 1, row, 8);
    }
  }

  /** Any n rows, n a multiple of the pattern's height, against those one row on. */
  lemma RowsMoveOn(lit: Pattern, width: nat, row: nat, next: nat, n: nat)
    requires next == row + 1 && n % 8 == 0
    ensures Rows(lit, width, next, n) == Rows(lit, width, row, n)
  {
    RowFirst(lit, width, row, next, n);
    SameInTable(row, n);
  }

  lemma SameInTable(row: nat, n: nat)
    requires n % 8 == 0
    ensures (row + n) % 8 == row % 8
  {
  }

  lemma {:induction false} RowFirst(lit: Pattern, width: nat, row: nat, next: nat, n: nat)
    requires next == row + 1
    ensures Rows(lit, width, row, n) + Columns(lit, (row + n) % 8, width) ==
            Columns(lit, row % 8, width) + Rows(lit, width, next, n)
  {
    if n == 0 {
    } else {
      RowFirst(lit, width, row, next, n - 1);
      assert next + n - 1 == row + n;
    }
  }

  lemma {:induction false} RowsRepeat(lit: Pattern, width: nat, row: nat, k: nat, tile: nat)
    requires forall r: nat :: Rows(lit, width, r, 8) == tile
    ensures Rows(lit, width, row, k * 8) == k * tile
  {
    if k == 0 {
    } else {
      RowsRepeat(lit, width, row, k - 1, tile);
      RowsSplit(lit, width, row, (k - 1) * 8, 8);
      Distribute(k - 1, 1, tile);
    }
  }

  /** k tiles high and m tiles wide. */
  lemma RowsOfTiles(lit: Pattern, m: nat, row: nat, k: nat)
    ensures Rows(lit, m * 8, row, k * 8) == k * (m * Rows(lit, 8, 0, 8))
  {
    forall r: nat | r < 8 ensures Columns(lit, r, m * 8) == m * Columns(lit, r, 8) {
      ColumnsOfTiles(lit, r, m);
    }
    RowsScale(lit, m, m * 8, 8, 0, 8);
    forall r: nat ensures Rows(lit, m * 8, r, 8) == m * Rows(lit, 8, 0, 8) {
      RowsOfEight(lit, m * 8, r);
    }
    RowsRepeat(lit, m * 8, row, k, m * Rows(lit, 8, 0, 8));
  }

  // ----- Brightness -----

  function CountOn(ch: Channel, bits: seq<Rgb3>): nat {
    if bits == [] then 0 else CountOn(ch, bits[..|bits| - 1]) + Bit(bits[|bits| - 1].On(ch))
  }

  /** Bits of a channel set in a byte stream of the 3-bit writers. */
  function LitBits(ch: Channel, bytes: seq<Byte>): nat {
    CountOn(ch, UnpackAll(bytes))
  }

  /** Of 64 pixels of a flat level, how many are meant to be lit. */
  function LitOf64(ch: Channel, level: nat): nat {
    if ch.Green? then level else if level == 0 then 0 else if level <= 16 then 2 * level - 1 else 2 * level
  }

  /** The pattern that the table makes of a flat level. */
  function TablePattern(ch: Channel, level: nat): Pattern {
    (row: nat, col: nat) => row < 8 && col < 8 && LitAt(ch, level, row, col)
  }

  /** The 64 cuts of green are the numbers 0..63, each once. */
  function GreenOctet(level: nat, row: nat): nat {
    match row
    case 0 =>
      Bit(level > 0) + Bit(level > 48) + Bit(level > 12) + Bit(level > 60) +
      Bit(level > 3) + Bit(level > 51) + Bit(level > 15) + Bit(level > 63)
    case 1 =>
      Bit(level > 32) + Bit(level > 16) + Bit(level > 44) + Bit(level > 28) +
      Bit(level > 35) + Bit(level > 19) + Bit(level > 47) + Bit(level > 31)
    case 2 =>
      Bit(level > 8) + Bit(level > 56) + Bit(level > 4) + Bit(level > 52) +
      Bit(level > 11) + Bit(level > 59) + Bit(level > 7) + Bit(level > 55)
    case 3 =>
      Bit(level > 40) + Bit(level > 24) + Bit(level > 36) + Bit(level > 20) +
      Bit(level > 43) + Bit(level > 27) + Bit(level > 39) + Bit(level > 23)
    case 4 =>
      Bit(level > 2) + Bit(level > 50) + Bit(level > 14) + Bit(level > 62) +
      Bit(level > 1) + Bit(level > 49) + Bit(level > 13) + Bit(level > 61)
    case 5 =>
      Bit(level > 34) + Bit(level > 18) + Bit(level > 46) + Bit(level > 30) +
      Bit(level > 33) + Bit(level > 17) + Bit(level > 45) + Bit(level > 29)
    case 6 =>
      Bit(level > 10) + Bit(level > 58) + Bit(level > 6) + Bit(level > 54) +
      Bit(level > 9) + Bit(level > 57) + Bit(level > 5) + Bit(level > 53)
    case _ =>
      Bit(level > 42) + Bit(level > 26) + Bit(level > 38) + Bit(level > 22) +
      Bit(level > 41) + Bit(level > 25) + Bit(level > 37) + Bit(level > 21)
  }

  /** The 64 cuts of red and blue: 0 once, 16 three times, any other up to 31 twice. */
  function RedBlueOctet(level: nat, row: nat): nat {
    match row
    case 0 =>
      Bit(level > 0) + Bit(level > 24) + Bit(level > 6) + Bit(level > 30) +
      Bit(level > 2) + Bit(level > 25) + Bit(level > 8) + Bit(level > 31)
    case 1 =>
      Bit(level > 16) + Bit(level > 8) + Bit(level > 22) + Bit(level > 14) +
      Bit(level > 17) + Bit(level > 10) + Bit(level > 23) + Bit(level > 16)
    case 2 =>
      Bit(level > 4) + Bit(level > 28) + Bit(level > 2) + Bit(level > 26) +
      Bit(level > 6) + Bit(level > 29) + Bit(level > 4) + Bit(level > 27)
    case 3 =>
      Bit(level > 20) + Bit(level > 12) + Bit(level > 18) + Bit(level > 10) +
      Bit(level > 21) + Bit(level > 14) + Bit(level > 19) + Bit(level > 12)
    case 4 =>
      Bit(level > 1) + Bit(level > 25) + Bit(level > 7) + Bit(level > 31) +
      Bit(level > 1) + Bit(level > 24) + Bit(level > 7) + Bit(level > 30)
    case 5 =>
      Bit(level > 17) + Bit(level > 9) + Bit(level > 23) + Bit(level > 15) +
      Bit(level > 16) + Bit(level > 9) + Bit(level > 22) + Bit(level > 15)
    case 6 =>
      Bit(level > 5) + Bit(level > 29) + Bit(level > 3) + Bit(level > 27) +
      Bit(level > 5) + Bit(level > 28) + Bit(level > 3) + Bit(level > 26)
    case _ =>
      Bit(level > 21) + Bit(level > 13) + Bit(level > 19) + Bit(level > 11) +
      Bit(level > 20) + Bit(level > 13) + Bit(level > 18) + Bit(level > 11)
  }

  /** The lit pixels of eight aligned neighbours on a table row. */
  function TableOctet(ch: Channel, level: nat, row: nat): nat
    requires row < 8
  {
    Bit(LitAt(ch, level, row, 0)) + Bit(LitAt(ch, level, row, 1)) +
    Bit(LitAt(ch, level, row, 2)) + Bit(LitAt(ch, level, row, 3)) +
    Bit(LitAt(ch, level, row, 4)) + Bit(LitAt(ch, level, row, 5)) +
    Bit(LitAt(ch, level, row, 6)) + Bit(LitAt(ch, level, row, 7))
  }

  lemma RowExceeded(ch: Channel, level: nat, row: nat, c0: nat, c1: nat, c2: nat, c3: nat, c4: nat, c5: nat, c6: nat,
                    c7: nat)
    requires row < 8
    requires Cut(ch, Threshold(row, 0)) == c0 && Cut(ch, Threshold(row, 1)) == c1 &&
             Cut(ch, Threshold(row, 2)) == c2 && Cut(ch, Threshold(row, 3)) == c3
    requires Cut(ch, Threshold(row, 4)) == c4 && Cut(ch, Threshold(row, 5)) == c5 &&
             Cut(ch, Threshold(row, 6)) == c6 && Cut(ch, Threshold(row, 7)) == c7
    ensures TableOctet(ch, level, row) ==
            Bit(level > c0) + Bit(level > c1) + Bit(level > c2) + Bit(level > c3) +
            Bit(level > c4) + Bit(level > c5) + Bit(level > c6) + Bit(level > c7)
  {
  }

  lemma GreenUpper(level: nat, row: nat)
    requires row < 4
    ensures TableOctet(Green, level, row) == GreenOctet(level, row)
  {
    match row
    case 0 => RowExceeded(Green, level, 0, 0, 48, 12, 60, 3, 51, 15, 63);
    case 1 => RowExceeded(Green, level, 1, 32, 16, 44, 28, 35, 19, 47, 31);
    case 2 => RowExceeded(Green, level, 2, 8, 56, 4, 52, 11, 59, 7, 55);
    case _ => RowExceeded(Green, level, 3, 40, 24, 36, 20, 43, 27, 39, 23);
  }

  lemma GreenLower(level: nat, row: nat)
    requires 4 <= row < 8
    ensures TableOctet(Green, level, row) == GreenOctet(level, row)
  {
    match row
    case 4 => RowExceeded(Green, level, 4, 2, 50, 14, 62, 1, 49, 13, 61);
    case 5 => RowExceeded(Green, level, 5, 34, 18, 46, 30, 33, 17, 45, 29);
    case 6 => RowExceeded(Green, level, 6, 10, 58, 6, 54, 9, 57, 5, 53);
    case _ => RowExceeded(Green, level, 7, 42, 26, 38, 22, 41, 25, 37, 21);
  }

  lemma RedBlueUpper(level: nat, row: nat)
    requires row < 4
    ensures TableOctet(Red, level, row) == RedBlueOctet(level, row)
  {
    match row
    case 0 => RowExceeded(Red, level, 0, 0, 24, 6, 30, 2, 25, 8, 31);
    case 1 => RowExceeded(Red, level, 1, 16, 8, 22, 14, 17, 10, 23, 16);
    case 2 => RowExceeded(Red, level, 2, 4, 28, 2, 26, 6, 29, 4, 27);
    case _ => RowExceeded(Red, level, 3, 20, 12, 18, 10, 21, 14, 19, 12);
  }

  lemma RedBlueLower(level: nat, row: nat)
    requires 4 <= row < 8
    ensures TableOctet(Red, level, row) == RedBlueOctet(level, row)
  {
    match row
    case 4 => RowExceeded(Red, level, 4, 1, 25, 7, 31, 1, 24, 7, 30);
    case 5 => RowExceeded(Red, level, 5, 17, 9, 23, 15, 16, 9, 22, 15);
    case 6 => RowExceeded(Red, level, 6, 5, 29, 3, 27, 5, 28, 3, 26);
    case _ => RowExceeded(Red, level, 7, 21, 13, 19, 11, 20, 13, 18, 11);
  }

  function OctetLit(ch: Channel, level: nat, row: nat): nat {
    if ch.Green? then GreenOctet(level, row) else RedBlueOctet(level, row)
  }

  lemma OctetIsTable(ch: Channel, level: nat, row: nat)
    requires row < 8
    ensures TableOctet(ch, level, row) == OctetLit(ch, level, row)
  {
    if ch.Green? {
      if row < 4 { GreenUpper(level, row); } else { GreenLower(level, row); }
    } else {
      assert TableOctet(ch, level, row) == TableOctet(Red, level, row);
      if row < 4 { RedBlueUpper(level, row); } else { RedBlueLower(level, row); }
    }
  }

  lemma GreenTile(level: nat)
    requires level < 64
    ensures GreenOctet(level, 0) + GreenOctet(level, 1) + GreenOctet(level, 2) + GreenOctet(level, 3) +
            GreenOctet(level, 4) + GreenOctet(level, 5) + GreenOctet(level, 6) + GreenOctet(level, 7) == level
  {
  }

  lemma RedBlueTile(level: nat)
    requires level < 32
    ensures RedBlueOctet(level, 0) + RedBlueOctet(level, 1) + RedBlueOctet(level, 2) + RedBlueOctet(level, 3) +
            RedBlueOctet(level, 4) + RedBlueOctet(level, 5) + RedBlueOctet(level, 6) + RedBlueOctet(level, 7) ==
                LitOf64(Red, level)
  {
  }

  lemma ColumnsOfTable(ch: Channel, level: nat, row: nat, n: nat)
    requires row < 8 && n < 8
    ensures Columns(TablePattern(ch, level), row, n + 1) == Columns(TablePattern(ch, level), row, n) +
            Bit(LitAt(ch, level, row, n))
  {
    assert n % 8 == n;
  }

  lemma ColumnsLit(ch: Channel, level: nat, row: nat)
    requires row < 8
    ensures Columns(TablePattern(ch, level), row, 8) == OctetLit(ch, level, row)
  {
    assert Columns(TablePattern(ch, level), row, 0) == 0;
    ColumnsOfTable(ch, level, row, 0);
    ColumnsOfTable(ch, level, row, 1);
    ColumnsOfTable(ch, level, row, 2);
    ColumnsOfTable(ch, level, row, 3);
    ColumnsOfTable(ch, level, row, 4);
    ColumnsOfTable(ch, level, row, 5);
    ColumnsOfTable(ch, level, row, 6);
    ColumnsOfTable(ch, level, row, 7);
    OctetIsTable(ch, level, row);
  }

  lemma TileOfTable(ch: Channel, level: nat)
    requires level < if ch.Green? then 64 else 32
    ensures Rows(TablePattern(ch, level), 8, 0, 8) == LitOf64(ch, level)
  {
    var lit := TablePattern(ch, level);
    forall row | 0 <= row < 8 ensures Columns(lit, row, 8) == OctetLit(ch, level, row) {
      ColumnsLit(ch, level, row);
    }
    if ch.Green? { GreenTile(level); } else { RedBlueTile(level); }
  }

  lemma {:induction false} CountOnConcat(ch: Channel, a: seq<Rgb3>, b: seq<Rgb3>)
    ensures CountOn(ch, a + b) == CountOn(ch, a) + CountOn(ch, b)
  {
    if b == [] {
      assert a + b == a;
    } else {
      assert (a + b)[..|a + b| - 1] == a + b[..|b| - 1];
      CountOnConcat(ch, a, b[..|b| - 1]);
    }
  }

  function Flat(v: Word16, n: nat): seq<Word16> {
    seq(n, _ => v)
  }

  lemma TableAt(ch: Channel, width: nat, row: nat, v: Word16, x: nat)
    requires x < width
    ensures PixelOn(ch, Coder(true, width), RowStart(width, row), v, x) ==
            TablePattern(ch, Level(ch, v))(row % 8, x % 8)
  {
    RowAndColumn(width, row, x);
  }

  lemma FlatSplit(f: PixelCoder, cur: nat, next: nat, v: Word16, a: nat, b: nat)
    requires next == cur + a
    ensures Decisions(f, cur, Flat(v, a + b)) == Decisions(f, cur, Flat(v, a)) + Decisions(f, next, Flat(v, b))
  {
    assert Flat(v, a + b) == Flat(v, a) + Flat(v, b);
    DecisionsSplit(f, cur, next, Flat(v, a), Flat(v, b));
  }

  /** The lit pixels of n flat ones from a running offset. */
  function FlatLit(ch: Channel, f: PixelCoder, cur: nat, v: Word16, n: nat): nat {
    CountOn(ch, Decisions(f, cur, Flat(v, n)))
  }

  lemma FlatLitSplit(ch: Channel, f: PixelCoder, cur: nat, next: nat, v: Word16, a: nat, b: nat)
    requires next == cur + a
    ensures FlatLit(ch, f, cur, v, a + b) == FlatLit(ch, f, cur, v, a) + FlatLit(ch, f, next, v, b)
  {
    FlatSplit(f, cur, next, v, a, b);
    CountOnConcat(ch, Decisions(f, cur, Flat(v, a)), Decisions(f, next, Flat(v, b)));
  }

  predicate PixelOn(ch: Channel, f: PixelCoder, cur: nat, v: Word16, x: nat) {
    f(cur + x, v).On(ch)
  }

  lemma FlatLitOneMore(ch: Channel, f: PixelCoder, cur: nat, v: Word16, n: nat)
    ensures FlatLit(ch, f, cur, v, n + 1) == FlatLit(ch, f, cur, v, n) + Bit(PixelOn(ch, f, cur, v, n))
  {
    assert Flat(v, n + 1)[..n] == Flat(v, n);
  }

  /** One row of a width shows one row of the pattern. */
  ghost predicate RowShows(ch: Channel, f: PixelCoder, lit: Pattern, row: nat, cur: nat, v: Word16, width: nat) {
    forall x: nat | x < width :: PixelOn(ch, f, cur, v, x) == lit(row, x % 8)
  }

  /** A coder that repeats a pattern on the flat colour v. */
  ghost predicate Repeats(ch: Channel, f: PixelCoder, lit: Pattern, width: nat, v: Word16) {
    forall row: nat :: RowShows(ch, f, lit, row % 8, RowStart(width, row), v, width)
  }

  lemma {:induction false} FlatLine(ch: Channel, f: PixelCoder, lit: Pattern, row: nat, cur: nat, v: Word16,
                                    width: nat, n: nat)
    requires n <= width && RowShows(ch, f, lit, row, cur, v, width)
    ensures FlatLit(ch, f, cur, v, n) == Columns(lit, row, n)
  {
    if n == 0 {
    } else {
      FlatLine(ch, f, lit, row, cur, v, width, n - 1);
      FlatLitOneMore(ch, f, cur, v, n - 1);
    }
  }

  lemma NextRow(width: nat, row: nat, h: nat)
    requires h > 0
    ensures RowStart(width, h) == RowStart(width, h - 1) + width
    ensures RowStart(width, row) + RowStart(width, h - 1) == RowStart(width, row + h - 1)
  {
    Distribute(h - 1, 1, width);
    Distribute(row, h - 1, width);
  }

  lemma FlatLastRow(ch: Channel, f: PixelCoder, lit: Pattern, width: nat, cur: nat, skipped: nat, next: nat, r: nat,
                    v: Word16)
    requires next == cur + skipped && RowShows(ch, f, lit, r, next, v, width)
    ensures FlatLit(ch, f, cur, v, skipped + width) == FlatLit(ch, f, cur, v, skipped) + Columns(lit, r, width)
  {
    FlatLine(ch, f, lit, r, next, v, width, width);
    FlatLitSplit(ch, f, cur, next, v, skipped, width);
  }

  lemma FlatNextRow(ch: Channel, f: PixelCoder, lit: Pattern, width: nat, row: nat, v: Word16, h: nat)
    requires Repeats(ch, f, lit, width, v) && h > 0
    ensures FlatLit(ch, f, RowStart(width, row), v, RowStart(width, h)) ==
            FlatLit(ch, f, RowStart(width, row), v, RowStart(width, h - 1)) + Columns(lit, (row + h - 1) % 8, width)
  {
    NextRow(width, row, h);
    var last := row + h - 1;
    FlatLastRow(ch, f, lit, width, RowStart(width, row), RowStart(width, h - 1), RowStart(width, last), last % 8, v);
  }

  lemma {:induction false} FlatWindow(ch: Channel, f: PixelCoder, lit: Pattern, width: nat, row: nat, v: Word16, h: nat)
    requires Repeats(ch, f, lit, width, v)
    ensures FlatLit(ch, f, RowStart(width, row), v, RowStart(width, h)) == Rows(lit, width, row, h)
  {
    if h == 0 {
      assert RowStart(width, 0) == 0;
      assert Flat(v, 0) == [];
    } else {
      FlatWindow(ch, f, lit, width, row, v, h - 1);
      FlatNextRow(ch, f, lit, width, row, v, h);
    }
  }

  lemma TableRepeats(ch: Channel, width: nat, v: Word16)
    requires width > 0
    ensures Repeats(ch, Coder(true, width), TablePattern(ch, Level(ch, v)), width, v)
  {
    var f, lit := Coder(true, width), TablePattern(ch, Level(ch, v));
    forall row: nat ensures RowShows(ch, f, lit, row % 8, RowStart(width, row), v, width) {
      forall x: nat | x < width ensures PixelOn(ch, f, RowStart(width, row), v, x) == lit(row % 8, x % 8) {
        TableAt(ch, width, row, v, x);
      }
    }
  }

  /** A flat colour sent over 8 * k lines, from any line and at any width divisible by 8,
      sets exactly LitOf64 bits of each channel for every 64 pixels. */
  lemma FlatColourBrightness(ch: Channel, m: nat, start: nat, k: nat, v: Word16)
    requires m > 0
    ensures var width := m * 8;
            var n := (k * 8) * width;
            n == 64 * (k * m) &&
            LitBits(ch, PackAll(Decisions(Coder(true, width), StartOffset(width, start), Flat(v, n)))) ==
                k * (m * LitOf64(ch, Level(ch, v)))
  {
    var width := m * 8;
    var f, lit := Coder(true, width), TablePattern(ch, Level(ch, v));
    TilePixels(m, k);
    assert StartOffset(width, start) == RowStart(width, 2 * start);
    UnpackUndoesPack(Decisions(f, StartOffset(width, start), Flat(v, (k * 8) * width)), 32 * (k * m));
    TableRepeats(ch, width, v);
    FlatWindow(ch, f, lit, width, 2 * start, v, k * 8);
    RowsOfTiles(lit, m, 2 * start, k);
    TileOfTable(ch, Level(ch, v));
  }

  lemma TilePixels(m: nat, k: nat)
    ensures (k * 8) * (m * 8) == 64 * (k * m)
  {
  }
}
