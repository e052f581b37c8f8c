/** What one video-memory pixel becomes on the wire: two bytes of RGB565, or three one-bit
    decisions (plain or ordered dither), packed two pixels to a byte. */
module PixelCode {
  import opened Words
  import opened RowMajor

  datatype Channel = Red | Green | Blue

  /** The three bits that the 3-bit writers compute for one pixel. */
  datatype Rgb3 = Rgb3(red: bool, green: bool, blue: bool) {
    predicate On(ch: Channel) {
      match ch
      case Red => red
      case Green => green
      case Blue => blue
    }
  }

  /** The level of a channel: `(v & 0xF800) >> 11`, `(v & 0x07E0) >> 5` or `v & 0x001F`. */
  function Level(ch: Channel, v: Word16): nat {
    match ch
    case Red => v / 2048
    case Green => (v / 32) % 64
    case Blue => v % 32
  }

  /** The levels are the five high, the six middle and the five low bits of a pixel. */
  lemma LevelsMakePixel(v: Word16)
    ensures Level(Red, v) * 2048 + Level(Green, v) * 32 + Level(Blue, v) == v
    ensures Level(Red, v) < 32 && Level(Green, v) < 64 && Level(Blue, v) < 32
  {
    var q := v / 32;
    assert v == 32 * q + v % 32;
    assert q == 64 * (q / 64) + q % 64;
    assert q / 64 == v / 2048 by {
      assert v == 2048 * (q / 64) + (32 * (q % 64) + v % 32);
    }
  }

  lemma LevelsOf(r: nat, g: nat, b: nat, v: Word16)
    requires r < 32 && g < 64 && b < 32 && v == 2048 * r + 32 * g + b
    ensures Level(Red, v) == r && Level(Green, v) == g && Level(Blue, v) == b
  {
    LevelsMakePixel(v);
  }

  // ----- 16-bit mode -----

  function Rgb565Bytes(px: seq<Word16>): (bytes: seq<Byte>)
    ensures |bytes| == 2 * |px|
  {
    if px == [] then [] else
      var v := px[|px| - 1];
      Rgb565Bytes(px[..|px| - 1]) + [v / 256, v % 256]
  }

  // ----- 3-bit modes -----

  const MATRIX_SIZE: nat := 8

  /** The corner of the 16x16 dither table that `matrix_size` lets the writer index. */
  const DITHER: seq<seq<Byte>> := [
    [  0, 191,  48, 239,  12, 203,  60, 251],
    [127,  64, 175, 112, 139,  76, 187, 124],
    [ 32, 223,  16, 207,  44, 235,  28, 219],
    [159,  96, 143,  80, 171, 108, 155,  92],
    [  8, 199,  56, 247,   4, 195,  52, 243],
    [135,  72, 183, 120, 131,  68, 179, 116],
    [ 40, 231,  24, 215,  36, 227,  20, 211],
    [167, 104, 151,  88, 163, 100, 147,  84]
  ]

  function Threshold(row: nat, col: nat): Byte
    requires row < MATRIX_SIZE && col < MATRIX_SIZE
  {
    DITHER[row][col]
  }

  /** The level that a channel must exceed to be lit under a table entry. */
  function Cut(ch: Channel, thr: Byte): nat {
    if ch.Green? then (thr + 2) / 4 else (thr + 4) / 8
  }

  predicate LitAt(ch: Channel, level: nat, row: nat, col: nat)
    requires row < MATRIX_SIZE && col < MATRIX_SIZE
  {
    level > Cut(ch, Threshold(row, col))
  }

  function PlainPixel(v: Word16): Rgb3 {
    Rgb3(Level(Red, v) >= 16, Level(Green, v) >= 32, Level(Blue, v) >= 16)
  }

  /** The decisions of a table entry. */
  function DitherAt(row: nat, col: nat, v: Word16): Rgb3
    requires row < MATRIX_SIZE && col < MATRIX_SIZE
  {
    Rgb3(LitAt(Red, Level(Red, v), row, col), LitAt(Green, Level(Green, v), row, col),
        LitAt(Blue, Level(Blue, v), row, col))
  }

  /** Plain mode lights each channel for the upper half of its levels. */
  lemma PlainLights(r: nat, g: nat, b: nat, v: Word16)
    requires r < 32 && g < 64 && b < 32 && v == 2048 * r + 32 * g + b
    ensures PlainPixel(v) == Rgb3(r >= 16, g >= 32, b >= 16)
  {
    LevelsOf(r, g, b, v);
  }

  /** Dithered mode lights each channel above a part of the table entry: an eighth for the five
      bits of red and blue, a quarter for the six of green, rounded. */
  lemma DitherLights(row: nat, col: nat, r: nat, g: nat, b: nat, v: Word16)
    requires row < 8 && col < 8 && r < 32 && g < 64 && b < 32 && v == 2048 * r + 32 * g + b
    ensures var thr := DITHER[row][col];
            DitherAt(row, col, v) == Rgb3(r > (thr + 4) / 8, g > (thr + 2) / 4, b > (thr + 4) / 8)
  {
    LevelsOf(r, g, b, v);
  }

  /** The table entry at running offset `cur` (`cur_offset` of the writer). */
  function TableRow(width: nat, cur: nat): (row: nat)
    requires width > 0
    ensures row < MATRIX_SIZE
  {
    (cur / width) % MATRIX_SIZE
  }

  function TableCol(width: nat, cur: nat): (col: nat)
    requires width > 0
    ensures col < MATRIX_SIZE
  {
    (cur % width) % MATRIX_SIZE
  }

  /** The dithered pixel at a running offset. */
  function DitherPixel(width: nat, cur: nat, v: Word16): Rgb3
    requires width > 0
  {
    DitherAt(TableRow(width, cur), TableCol(width, cur), v)
  }

  /** The decisions of a writer: what it makes of a pixel at a running offset. */
  type PixelCoder = (nat, Word16) -> Rgb3

  /** The coder of `write_vmem_3bit` or `write_vmem_3bit_dither`. */
  function Coder(dither: bool, width: nat): PixelCoder
    requires width > 0
  {
    if dither then (cur: nat, v: Word16) => DitherPixel(width, cur, v) else (cur: nat, v: Word16) => PlainPixel(v)
  }

  /** The decisions for consecutive pixels, the first of them at running offset `cur`. */
  function Decisions(f: PixelCoder, cur: nat, px: seq<Word16>): (bits: seq<Rgb3>)
    ensures |bits| == |px|
  {
    if px == [] then [] else
      var n := |px| - 1;
      Decisions(f, cur, px[..n]) + [f(cur + n, px[n])]
  }

  lemma {:induction false} DecisionAt(f: PixelCoder, cur: nat, px: seq<Word16>, k: nat)
    requires k < |px|
    ensures Decisions(f, cur, px)[k] == f(cur + k, px[k])
  {
    if k < |px| - 1 {
      DecisionAt(f, cur, px[..|px| - 1], k);
    }
  }

  // color_red << 3 = 32, color_green << 3 = 16, color_blue << 3 = 64 for the left pixel of
  // a pair; 4, 2 and 8 for the right one.
  function Pack(left: Rgb3, right: Rgb3): Byte {
    (if left.red then 32 else 0) + (if left.green then 16 else 0) + (if left.blue then 64 else 0) +
    (if right.red then 4 else 0) + (if right.green then 2 else 0) + (if right.blue then 8 else 0)
  }

  function UnpackLeft(b: Byte): Rgb3 {
    Rgb3((b / 32) % 2 == 1, (b / 16) % 2 == 1, (b / 64) % 2 == 1)
  }

  function UnpackRight(b: Byte): Rgb3 {
    Rgb3((b / 4) % 2 == 1, (b / 2) % 2 == 1, (b / 8) % 2 == 1)
  }

  /** The bytes of whole pairs. */
  function PackAll(bits: seq<Rgb3>): (bytes: seq<Byte>)
    ensures |bytes| == |bits| / 2
  {
    if |bits| < 2 then [] else
      PackAll(bits[..|bits| - 2]) + [Pack(bits[|bits| - 2], bits[|bits| - 1])]
  }

  function UnpackAll(bytes: seq<Byte>): (bits: seq<Rgb3>)
    ensures |bits| == 2 * |bytes|
  {
    if bytes == [] then [] else
      var b := bytes[|bytes| - 1];
      UnpackAll(bytes[..|bytes| - 1]) + [UnpackLeft(b), UnpackRight(b)]
  }

  /** Which bit of a byte is which: red, green and blue are bits 5, 4 and 6 for the left pixel,
      2, 1 and 3 for the right one; bits 7 and 0 are clear. */
  lemma PackedBits(l: Rgb3, r: Rgb3)
    ensures var b := Pack(l, r);
            && b < 128 && b % 2 == 0
            && ((b / 32) % 2 == 1 <==> l.red) && ((b / 16) % 2 == 1 <==> l.green) && ((b / 64) % 2 == 1 <==> l.blue)
            && ((b / 4) % 2 == 1 <==> r.red) && ((b / 2) % 2 == 1 <==> r.green) && ((b / 8) % 2 == 1 <==> r.blue)
  {
    UnpackUndoesOnePack(l, r);
  }

  lemma UnpackUndoesOnePack(l: Rgb3, r: Rgb3)
    ensures UnpackLeft(Pack(l, r)) == l && UnpackRight(Pack(l, r)) == r
  {
    var b := Pack(l, r);
    assert (b / 64) % 2 == (if l.blue then 1 else 0);
    assert (b / 32) % 2 == (if l.red then 1 else 0);
    assert (b / 16) % 2 == (if l.green then 1 else 0);
    assert (b / 8) % 2 == (if r.blue then 1 else 0);
    assert (b / 4) % 2 == (if r.red then 1 else 0);
  }

  /** The six bits of a byte are disjoint: every decision can be read back from the stream. */
  lemma {:induction false} UnpackUndoesPack(bits: seq<Rgb3>, pairs: nat)
    requires |bits| == 2 * pairs
    ensures UnpackAll(PackAll(bits)) == bits
  {
    if pairs == 0 {
    } else {
      var front, l, r := bits[..|bits| - 2], bits[|bits| - 2], bits[|bits| - 1];
      UnpackUndoesPack(front, pairs - 1);
      assert PackAll(bits)[..|PackAll(bits)| - 1] == PackAll(front);
      UnpackUndoesOnePack(l, r);
      assert bits == front + [l, r];
    }
  }

  // ----- Chunking -----

  lemma {:induction false} DecisionsSplit(f: PixelCoder, cur: nat, next: nat, a: seq<Word16>, b: seq<Word16>)
    requires next == cur + |a|
    ensures Decisions(f, cur, a + b) == Decisions(f, cur, a) + Decisions(f, next, b)
  {
    if b == [] {
      assert a + b == a;
    } else {
      assert (a + b)[..|a + b| - 1] == a + b[..|b| - 1];
      DecisionsSplit(f, cur, next, a, b[..|b| - 1]);
    }
  }

  /** The bytes of n pixels of video memory from pixel `first`. */
  function Rgb565From(px: seq<Word16>, first: nat, n: nat): (bytes: seq<Byte>)
    requires first + n <= |px|
    ensures |bytes| == 2 * n
  {
    if n == 0 then [] else
      var v := px[first + n - 1];
      Rgb565From(px, first, n - 1) + [v / 256, v % 256]
  }

  lemma {:induction false} Rgb565Batches(px: seq<Word16>, first: nat, a: nat, b: nat)
    requires first + a + b <= |px|
    ensures Rgb565From(px, first, a) + Rgb565From(px, first + a, b) == Rgb565From(px, first, a + b)
  {
    if b == 0 {
    } else {
      Rgb565Batches(px, first, a, b - 1);
    }
  }

  lemma {:induction false} Rgb565FromIs(px: seq<Word16>, first: nat, n: nat)
    requires first + n <= |px|
    ensures Rgb565From(px, first, n) == Rgb565Bytes(px[first..first + n])
  {
    if n == 0 {
    } else {
      Rgb565FromIs(px, first, n - 1);
      assert px[first..first + n][..n - 1] == px[first..first + n - 1];
    }
  }

  /** The bytes of pairs of pixels of video memory from pixel `first`, at running offset `cur`. */
  function PairsFrom(f: PixelCoder, cur: nat, px: seq<Word16>, first: nat, pairs: nat): (bytes: seq<Byte>)
    requires first + 2 * pairs <= |px|
    ensures |bytes| == pairs
  {
    if pairs == 0 then [] else
      var k := 2 * (pairs - 1);
      PairsFrom(f, cur, px, first, pairs - 1) + [Pack(f(cur + k, px[first + k]), f(cur + k + 1, px[first + k + 1]))]
  }

  lemma {:induction false} PairBatches(f: PixelCoder, cur: nat, next: nat, px: seq<Word16>, first: nat, pos: nat,
                                       a: nat, b: nat)
    requires first + 2 * (a + b) <= |px| && next == cur + 2 * a && pos == first + 2 * a
    ensures PairsFrom(f, cur, px, first, a) + PairsFrom(f, next, px, pos, b) == PairsFrom(f, cur, px, first, a + b)
  {
    if b == 0 {
    } else {
      PairBatches(f, cur, next, px, first, pos, a, b - 1);
    }
  }

  lemma DecisionsOfTwoMore(f: PixelCoder, cur: nat, px: seq<Word16>, k: nat)
    requires |px| == k + 2
    ensures Decisions(f, cur, px) == Decisions(f, cur, px[..k]) + [f(cur + k, px[k]), f(cur + k + 1, px[k + 1])]
  {
    assert px[..k + 1][..k] == px[..k];
  }

  lemma PackTwoMore(bits: seq<Rgb3>, l: Rgb3, r: Rgb3)
    ensures PackAll(bits + [l, r]) == PackAll(bits) + [Pack(l, r)]
  {
    assert (bits + [l, r])[..|bits|] == bits;
  }

  lemma PackDecisionsOfTwoMore(f: PixelCoder, cur: nat, px: seq<Word16>, k: nat)
    requires |px| == k + 2
    ensures PackAll(Decisions(f, cur, px)) ==
            PackAll(Decisions(f, cur, px[..k])) + [Pack(f(cur + k, px[k]), f(cur + k + 1, px[k + 1]))]
  {
    DecisionsOfTwoMore(f, cur, px, k);
    PackTwoMore(Decisions(f, cur, px[..k]), f(cur + k, px[k]), f(cur + k + 1, px[k + 1]));
  }

  lemma PairsFromOneMore(f: PixelCoder, cur: nat, px: seq<Word16>, first: nat, pairs: nat, k: nat, l: Word16, r: Word16)
    requires first + 2 * pairs + 2 <= |px| && k == 2 * pairs && l == px[first + k] && r == px[first + k + 1]
    ensures PairsFrom(f, cur, px, first, pairs + 1) ==
            PairsFrom(f, cur, px, first, pairs) + [Pack(f(cur + k, l), f(cur + k + 1, r))]
  {
  }

  lemma {:induction false} PairsFromIs(f: PixelCoder, cur: nat, px: seq<Word16>, first: nat, pairs: nat, q: seq<Word16>)
    requires first + 2 * pairs <= |px| && q == px[first..first + 2 * pairs]
    ensures PairsFrom(f, cur, px, first, pairs) == PackAll(Decisions(f, cur, q))
  {
    if pairs == 0 {
    } else {
      var k := 2 * (pairs - 1);
      PairsFromIs(f, cur, px, first, pairs - 1, q[..k]);
      PackDecisionsOfTwoMore(f, cur, q, k);
      PairsFromOneMore(f, cur, px, first, pairs - 1, k, q[k], q[k + 1]);
    }
  }

  // ----- Batches of the 3-bit writers, of any size -----

  /** How many bytes the batches of n pixels hold, with room for `cap` pixels a batch: a batch
      of m pixels sends m / 2 bytes. */
  function BatchBytes(n: nat, cap: nat): nat
    requires cap > 0
  {
    if n == 0 then 0 else Min(cap, n) / 2 + BatchBytes(n - Min(cap, n), cap)
  }

  lemma {:induction false} BatchBytesAtMostHalf(n: nat, cap: nat)
    requires cap > 0
    ensures BatchBytes(n, cap) <= n / 2
    ensures cap % 2 == 0 ==> BatchBytes(n, cap) == n / 2
  {
    if n == 0 {
    } else {
      BatchBytesAtMostHalf(n - Min(cap, n), cap);
    }
  }

  /** Chunking loses no pixel exactly when the request is of whole pairs, and the capacity is
      even or one batch takes all. */
  lemma EveryPixelSentIff(n: nat, cap: nat)
    requires cap > 0
    ensures 2 * BatchBytes(n, cap) == n <==> n % 2 == 0 && (cap % 2 == 0 || n <= cap)
  {
    BatchBytesAtMostHalf(n, cap);
    if cap % 2 == 1 && cap < n {
      BatchBytesAtMostHalf(n - cap, cap);
    } else if n <= cap && n > 0 {
      assert BatchBytes(n, cap) == n / 2 + BatchBytes(0, cap);
    }
  }

  /** One past the last pixel that the batches read. */
  function EndOfReads(first: nat, n: nat, cap: nat): nat
    requires cap > 0
    decreases n
  {
    if n <= cap then first + n + n % 2 else EndOfReads(first + cap, n - cap, cap)
  }

  lemma {:induction false} ReadsByBatches(first: nat, n: nat, cap: nat, q: nat, r: nat)
    requires r < cap && n == q * cap + r + 1
    ensures EndOfReads(first, n, cap) == first + n + (r + 1) % 2
    decreases q
  {
    if q == 0 {
    } else {
      Distribute(q - 1, 1, cap);
      ReadsByBatches(first + cap, n - cap, cap, q - 1, r);
    }
  }

  /** The batches read past the request by at most one pixel, and not at all exactly if the
      last batch, of (n - 1) % cap + 1 pixels, is of whole pairs. */
  lemma ReadsStayInRequestIff(first: nat, n: nat, cap: nat)
    requires cap > 0 && n > 0
    ensures first + n <= EndOfReads(first, n, cap) <= first + n + 1
    ensures EndOfReads(first, n, cap) == first + n <==> ((n - 1) % cap + 1) % 2 == 0
  {
    ReadsByBatches(first, n, cap, (n - 1) / cap, (n - 1) % cap);
  }

  /** They leave video memory of `total` pixels exactly if besides the request ends with it. */
  lemma ReadsLeaveMemoryIff(first: nat, n: nat, cap: nat, total: nat)
    requires cap > 0 && n > 0 && first + n <= total
    ensures EndOfReads(first, n, cap) > total <==> first + n == total && ((n - 1) % cap + 1) % 2 == 1
  {
    ReadsStayInRequestIff(first, n, cap);
  }

  /** The reads still to come end where those of the whole request do. */
  predicate ReadsDue(first: nat, count: nat, cap: nat, pos: nat, remain: nat, top: nat)
    requires cap > 0
  {
    if remain > 0 then EndOfReads(pos, remain, cap) == EndOfReads(first, count, cap)
    else top == EndOfReads(first, count, cap)
  }

  lemma BatchReads(first: nat, count: nat, cap: nat, pos: nat, remain: nat, before: nat, m: nat, top: nat)
    requires cap > 0 && remain > 0 && m == Min(cap, remain) && top == pos + m + m % 2
    requires ReadsDue(first, count, cap, pos, remain, before)
    ensures ReadsDue(first, count, cap, pos + m, remain - m, top)
  {
  }

  /** How far the batches have come: after `sent`, the rest of the request starts at pixel
      `pos`, at running offset `cur`. With an even capacity, or one batch, the bytes sent are
      the pairs of the request from its first pixel on. */
  predicate Progress(f: PixelCoder, offset: nat, px: seq<Word16>, first: nat, count: nat, cap: nat,
                     sent: seq<Byte>, pos: nat, cur: nat, remain: nat)
    requires cap > 0
  {
    && remain <= count && pos == first + count - remain && pos + remain <= |px|
    && |sent| + BatchBytes(remain, cap) == BatchBytes(count, cap)
    && (cap % 2 == 0 || count <= cap ==> InPairs(f, offset, px, first, count, sent, pos, cur, remain))
  }

  predicate InPairs(f: PixelCoder, offset: nat, px: seq<Word16>, first: nat, count: nat,
                    sent: seq<Byte>, pos: nat, cur: nat, remain: nat)
  {
    && first + 2 * |sent| <= |px| && sent == PairsFrom(f, offset, px, first, |sent|)
    && if remain > 0 then pos == first + 2 * |sent| && cur == offset + 2 * |sent| else |sent| == count / 2
  }

  lemma NoProgress(f: PixelCoder, offset: nat, px: seq<Word16>, first: nat, count: nat, cap: nat)
    requires cap > 0 && first + count <= |px|
    ensures Progress(f, offset, px, first, count, cap, [], first, offset, count)
  {
  }

  /** One batch more. */
  lemma BatchProgress(f: PixelCoder, offset: nat, px: seq<Word16>, first: nat, count: nat, cap: nat,
                      sent: seq<Byte>, pos: nat, cur: nat, remain: nat, m: nat, next: nat)
    requires cap > 0 && remain > 0 && m == Min(cap, remain) && next == cur + m + m % 2
    requires Progress(f, offset, px, first, count, cap, sent, pos, cur, remain)
    ensures Progress(f, offset, px, first, count, cap, sent + PairsFrom(f, cur, px, pos, m / 2), pos + m, next,
            remain - m)
  {
    if cap % 2 == 0 || count <= cap {
      PairsProgress(f, offset, px, first, count, cap, sent, pos, cur, remain, m, next, m / 2);
    }
  }

  lemma PairsProgress(f: PixelCoder, offset: nat, px: seq<Word16>, first: nat, count: nat, cap: nat,
                      sent: seq<Byte>, pos: nat, cur: nat, remain: nat, m: nat, next: nat, half: nat)
    requires 0 < remain <= count && pos == first + count - remain && pos + remain <= |px|
    requires m == Min(cap, remain) && next == cur + m + m % 2 && half == m / 2 && (cap % 2 == 0 || count <= cap)
    requires InPairs(f, offset, px, first, count, sent, pos, cur, remain)
    ensures InPairs(f, offset, px, first, count, sent + PairsFrom(f, cur, px, pos, half), pos + m, next, remain - m)
  {
    PairBatches(f, offset, cur, px, first, pos, |sent|, half);
  }
}
