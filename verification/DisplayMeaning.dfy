/** What a flush does to the panel, from the lines that were touched to the pixels that show. */
module DisplayMeaning {
  import opened Words
  import opened RowMajor
  import opened PixelCode
  import opened Dither
  import opened Panel
  import opened DirtyRange
  import opened Ili9488Driver

  predicate OnLines(width: nat, s: Range, x: nat, y: nat) {
    x < width && s.first <= y <= s.last
  }

  /** Pixel (x, y) shows its value in video memory. */
  predicate ShowsPixel(mem: Frame<Word16>, width: nat, vmem: seq<Word16>, x: nat, y: nat) {
    && (x, y) in mem && PixelIndex(width, x, y) < |vmem| && mem[(x, y)] == vmem[PixelIndex(width, x, y)]
  }

  predicate SamePixel<V(==)>(before: Frame<V>, after: Frame<V>, x: nat, y: nat) {
    ((x, y) in after <==> (x, y) in before) && ((x, y) in before ==> after[(x, y)] == before[(x, y)])
  }

  /** A pixel is in the window of a line range exactly when its line is, and its place in
      the window is its place in video memory less the range's start. */
  lemma WindowOfLines(width: nat, s: Range, x: nat, y: nat)
    requires s.first <= s.last
    ensures InWindow(width, s.first, x, y, (s.last - s.first + 1) * width) <==> OnLines(width, s, x, y)
    ensures s.first <= y ==> s.first * width + Index(width, s.first, x, y) == PixelIndex(width, x, y)
  {
    if s.first <= y {
      Distribute(y - s.first, s.first, width);
      if y <= s.last {
        TimesMonotone(y - s.first + 1, s.last - s.first + 1, width);
        Distribute(y - s.first, 1, width);
      } else {
        TimesMonotone(s.last - s.first + 1, y - s.first, width);
      }
    }
  }

  lemma PixelOfLines(width: nat, height: nat, vmem: seq<Word16>, s: Range, k: nat, i: nat)
    requires |vmem| == width * height && s.first <= s.last < height
    requires k < (s.last - s.first + 1) * width && i == s.first * width + k
    ensures i < |vmem| && LinesOf(width, height, vmem, s)[k] == vmem[i]
  {
    LineBounds(width, height, s);
  }

  lemma PaintedLines(before: Frame<Word16>, after: Frame<Word16>, width: nat, height: nat, vmem: seq<Word16>,
                     s: Range, x: nat, y: nat)
    requires |vmem| == width * height && s.first <= s.last < height
    requires PixelPainted(before, after, width, s.first, LinesOf(width, height, vmem, s), x, y)
    ensures if OnLines(width, s, x, y) then ShowsPixel(after, width, vmem, x, y) else SamePixel(before, after, x, y)
  {
    WindowOfLines(width, s, x, y);
    if OnLines(width, s, x, y) {
      PixelOfLines(width, height, vmem, s, Index(width, s.first, x, y), PixelIndex(width, x, y));
    }
  }

  /** In 16-bit mode, whatever is requested and whatever the panel held, the stream of
      `update_display` sets exactly the pixels of the lines that it settles on, each to its
      value in video memory. */
  lemma DisplayStreamMeaning(p: State, dither: bool, width: nat, height: U32, vmem: seq<Word16>, r: Range, x: nat,
                             y: nat)
    requires 0 < width < 65536 && 0 < height < 65536 && |vmem| == width * height
    ensures var after := Feed(p, DisplayStream(false, dither, width, height, vmem, r)).mem;
            if OnLines(width, ToSend(r, height), x, y) then ShowsPixel(after, width, vmem, x, y)
            else SamePixel(p.mem, after, x, y)
  {
    var s := ToSend(r, height);
    var px := LinesOf(width, height, vmem, s);
    WindowStreamPaints(p, width, s.first, s.last, px);
    var after := Feed(p, DisplayStream(false, dither, width, height, vmem, r)).mem;
    assert PixelPainted(p.mem, after, width, s.first, px, x, y);
    PaintedLines(p.mem, after, width, height, vmem, s, x, y);
  }

  /** After the worker reset the range, and whatever on-screen marks and touched pages follow,
      the next flush brings every pixel of every line that they touched up to date. */
  lemma FlushShowsTouchedLines(p: State, dither: bool, width: nat, height: U32, pageSize: nat, vmem: seq<Word16>,
                               marks: seq<Mark>, pages: seq<nat>, x: nat, y: nat)
    requires 0 < width < 65536 && 0 < height < 65536 && |vmem| == width * height && pageSize > 0
    requires forall i | 0 <= i < |marks| :: OnScreen(marks[i], height)
    requires forall i | 0 <= i < |pages| :: pages[i] + pageSize < 0x1_0000_0000 && pages[i] / (width * 2) < height
    requires x < width && y in AllMarkLines(marks, height) + AllPageLines(pages, height, width * 2, pageSize)
    ensures var r := WidenAll(MarkAll(Clean(height), height, marks), height, width * 2, pageSize, pages);
            ShowsPixel(Feed(p, DisplayStream(false, dither, width, height, vmem, r)).mem, width, vmem, x, y)
  {
    var r := WidenAll(MarkAll(Clean(height), height, marks), height, width * 2, pageSize, pages);
    FlushedRangeIsHull(marks, pages, height, width * 2, pageSize);
    OrderedRequestsAreSent(r, height, y);
    DisplayStreamMeaning(p, dither, width, height, vmem, r, x, y);
  }

  /** In every mode a flush opens the window of the lines that it settles on, and what it sends
      after that is the pixels' data. */
  lemma FlushOpensWindow(p: State, threeBit: bool, dither: bool, width: nat, height: U32, vmem: seq<Word16>, r: Range)
    requires 0 < width < 65536 && 0 < height < 65536 && |vmem| == width * height
    ensures Opened(Feed(p, DisplayStream(threeBit, dither, width, height, vmem, r)),
                   0, ToSend(r, height).first, width - 1, ToSend(r, height).last)
  {
    var s := ToSend(r, height);
    var open, bytes := WindowStream(0, s.first, width - 1, s.last),
                       WindowBytes(threeBit, dither, width, s.first, LinesOf(width, height, vmem, s));
    WindowOpens(p, 0, s.first, width - 1, s.last);
    SmallWord(s.first);
    SmallWord(width - 1);
    SmallWord(s.last);
    FeedConcat(p, open, Data(bytes));
    DataKeepsWindow(Feed(p, open), bytes, 0, s.first, width - 1, s.last);
  }

  // ----- The 3-bit modes -----

  /** What a pixel is to show in a window that starts at line `top`. */
  function ThreeBitPixel(dither: bool, top: nat, x: nat, y: nat, v: Word16): Rgb3 {
    if dither then DitherAt((top + y) % 8, x % 8, v) else PlainPixel(v)
  }

  lemma CoderIs(dither: bool, width: nat, top: nat, x: nat, y: nat, k: nat, v: Word16)
    requires x < width && top <= y && k == (y - top) * width + x
    ensures Coder(dither, width)(StartOffset(width, top) + k, v) == ThreeBitPixel(dither, top, x, y, v)
  {
    if dither {
      CoderShows(Coder(true, width), width, top, y, x, v, k);
    }
  }

  /** The bytes hold every decision of the whole pairs. */
  lemma ReadBack(dither: bool, width: nat, top: nat, px: seq<Word16>)
    requires width > 0
    ensures UnpackAll(WindowBytes(true, dither, width, top, px)) ==
            Decisions(Coder(dither, width), StartOffset(width, top), WholePairs(px))
  {
    UnpackUndoesPack(Decisions(Coder(dither, width), StartOffset(width, top), WholePairs(px)), |px| / 2);
  }

  /** In the 3-bit modes the data bytes of a flush, read back pair by pair, are the decisions
      on the lines' pixels, in order: bit triple k is for the pixel at place k of the window.
      If the number of pixels is odd there is none for the last one. */
  lemma ThreeBitStreamMeaning(dither: bool, width: nat, height: U32, vmem: seq<Word16>, s: Range,
                              x: nat, y: nat, k: nat, i: nat)
    requires 0 < width && |vmem| == width * height && s.first <= s.last < height
    requires OnLines(width, s, x, y) && k == Index(width, s.first, x, y) && i == PixelIndex(width, x, y)
    ensures var bits := UnpackAll(WindowBytes(true, dither, width, s.first, LinesOf(width, height, vmem, s)));
            && |bits| == |WholePairs(LinesOf(width, height, vmem, s))| && i < |vmem|
            && (k < |bits| ==> bits[k] == ThreeBitPixel(dither, s.first, x, y, vmem[i]))
  {
    WindowOfLines(width, s, x, y);
    PixelOfLines(width, height, vmem, s, k, i);
    var lines := LinesOf(width, height, vmem, s);
    var bits := UnpackAll(WindowBytes(true, dither, width, s.first, lines));
    ReadBack(dither, width, s.first, lines);
    if k < |bits| {
      BitIs(dither, width, s.first, lines, bits, x, y, k, vmem[i]);
    }
  }

  lemma BitIs(dither: bool, width: nat, top: nat, px: seq<Word16>, bits: seq<Rgb3>, x: nat, y: nat, k: nat, v: Word16)
    requires x < width && top <= y && k == (y - top) * width + x && k < |bits| && k < |px| && px[k] == v
    requires bits == Decisions(Coder(dither, width), StartOffset(width, top), WholePairs(px))
    ensures bits[k] == ThreeBitPixel(dither, top, x, y, v)
  {
    ReadBackAt(Coder(dither, width), StartOffset(width, top), px, bits, k);
    CoderIs(dither, width, top, x, y, k, v);
  }

  lemma ReadBackAt(f: PixelCoder, cur: nat, px: seq<Word16>, bits: seq<Rgb3>, k: nat)
    requires bits == Decisions(f, cur, WholePairs(px)) && k < |bits|
    ensures bits[k] == f(cur + k, px[k])
  {
    DecisionAt(f, cur, WholePairs(px), k);
  }

  /** The brightness of a flat colour (`Dither.FlatColourBrightness`), in the bytes that go out
      for its n pixels. */
  lemma FlatWindowBrightness(ch: Channel, m: nat, start: nat, k: nat, v: Word16, n: nat)
    requires m > 0 && n == (k * 8) * (m * 8)
    ensures LitBits(ch, WindowBytes(true, true, m * 8, start, Flat(v, n))) == k * (m * LitOf64(ch, Level(ch, v)))
  {
    FlatColourBrightness(ch, m, start, k, v);
    AllPairs(Flat(v, n), 32 * (k * m));
  }

  lemma AllPairs(px: seq<Word16>, pairs: nat)
    requires |px| == 2 * pairs
    ensures WholePairs(px) == px
  {
  }

  // ----- Partial repaints that agree with whole-frame ones -----

  lemma {:induction false} PackedPair(bits: seq<Rgb3>, pairs: nat, k: nat)
    requires |bits| == 2 * pairs && k < pairs
    ensures PackAll(bits)[k] == Pack(bits[2 * k], bits[2 * k + 1])
  {
    if k < pairs - 1 {
      PackedPair(bits[..|bits| - 2], pairs - 1, k);
    }
  }

  /** Pair k of some pixels, packed. */
  function PairByte(f: PixelCoder, cur: nat, px: seq<Word16>, k: nat): Byte
    requires 2 * k + 1 < |px|
  {
    Pack(f(cur + 2 * k, px[2 * k]), f(cur + 2 * k + 1, px[2 * k + 1]))
  }

  lemma WindowByte(dither: bool, width: nat, top: nat, px: seq<Word16>, f: PixelCoder, cur: nat, k: nat)
    requires width > 0 && 2 * k + 1 < |px| && f == Coder(dither, width) && cur == StartOffset(width, top)
    ensures k < |WindowBytes(true, dither, width, top, px)|
    ensures WindowBytes(true, dither, width, top, px)[k] == PairByte(f, cur, px, k)
  {
    PackedDecision(f, cur, WholePairs(px), |px| / 2, k);
  }

  lemma PackedDecision(f: PixelCoder, cur: nat, q: seq<Word16>, pairs: nat, k: nat)
    requires |q| == 2 * pairs && k < pairs
    ensures PackAll(Decisions(f, cur, q))[k] == PairByte(f, cur, q, k)
  {
    PackedPair(Decisions(f, cur, q), pairs, k);
    DecisionAt(f, cur, q, 2 * k);
    DecisionAt(f, cur, q, 2 * k + 1);
  }

  lemma SameRow(start: nat, y: nat)
    requires start % 8 == 0
    ensures (start + y) % 8 == y % 8
  {
  }

  lemma AlignedBitAt(f: PixelCoder, width: nat, start: nat, x: nat, y: nat, k: nat, i: nat, v: Word16)
    requires x < width && start <= y && start % 8 == 0 && k == (y - start) * width + x && i == y * width + x
    requires f == Coder(true, width)
    ensures f(StartOffset(width, start) + k, v) == f(StartOffset(width, 0) + i, v)
  {
    SameRow(start, y);
    CoderShows(f, width, start, y, x, v, k);
    CoderShows(f, width, 0, y, x, v, i);
  }

  /** Pixel k of a window that starts at a line divisible by 8 gets the decision that it gets
      in a whole frame. */
  lemma AlignedBit(f: PixelCoder, width: nat, start: nat, k: nat, i: nat, v: Word16)
    requires 0 < width && start % 8 == 0 && i == start * width + k && f == Coder(true, width)
    ensures f(StartOffset(width, start) + k, v) == f(StartOffset(width, 0) + i, v)
  {
    var row, x := Quotient(k, width), k % width;
    Distribute(start, row, width);
    AlignedBitAt(f, width, start, x, start + row, k, i, v);
  }

  /** The bytes of a dithered repaint of a line range. */
  function LineBytes(width: nat, height: U32, vmem: seq<Word16>, s: Range): seq<Byte>
    requires 0 < width && |vmem| == width * height && s.first <= s.last < height
  {
    WindowBytes(true, true, width, s.first, LinesOf(width, height, vmem, s))
  }

  lemma AlignedPair(f: PixelCoder, width: nat, height: U32, vmem: seq<Word16>, s: Range, skipped: nat, k: nat)
    requires 0 < width && |vmem| == width * height && s.first <= s.last < height && s.first % 8 == 0
    requires f == Coder(true, width) && 2 * skipped == s.first * width
    requires 2 * k + 1 < |LinesOf(width, height, vmem, s)|
    ensures 2 * (skipped + k) + 1 < |vmem|
    ensures PairByte(f, StartOffset(width, s.first), LinesOf(width, height, vmem, s), k) ==
            PairByte(f, StartOffset(width, 0), vmem, skipped + k)
  {
    var i, lines := 2 * (skipped + k), LinesOf(width, height, vmem, s);
    PixelOfLines(width, height, vmem, s, 2 * k, i);
    PixelOfLines(width, height, vmem, s, 2 * k + 1, i + 1);
    AlignedBit(f, width, s.first, 2 * k, i, vmem[i]);
    AlignedBit(f, width, s.first, 2 * k + 1, i + 1, vmem[i + 1]);
    SamePair(f, StartOffset(width, s.first), lines, k, StartOffset(width, 0), vmem, skipped + k);
  }

  lemma SamePair(f: PixelCoder, cur: nat, a: seq<Word16>, k: nat, cur': nat, b: seq<Word16>, k': nat)
    requires 2 * k + 1 < |a| && 2 * k' + 1 < |b| && a[2 * k] == b[2 * k'] && a[2 * k + 1] == b[2 * k' + 1]
    requires f(cur + 2 * k, b[2 * k']) == f(cur' + 2 * k', b[2 * k'])
    requires f(cur + (2 * k + 1), b[2 * k' + 1]) == f(cur' + (2 * k' + 1), b[2 * k' + 1])
    ensures PairByte(f, cur, a, k) == PairByte(f, cur', b, k')
  {
  }

  lemma AlignedByte(width: nat, height: U32, vmem: seq<Word16>, s: Range, skipped: nat, k: nat)
    requires 0 < width && |vmem| == width * height && s.first <= s.last < height && s.first % 8 == 0
    requires 2 * skipped == s.first * width
    requires 2 * k + 1 < |LinesOf(width, height, vmem, s)|
    ensures k < |LineBytes(width, height, vmem, s)| && skipped + k < |WindowBytes(true, true, width, 0, vmem)|
    ensures LineBytes(width, height, vmem, s)[k] == WindowBytes(true, true, width, 0, vmem)[skipped + k]
  {
    var f, lines := Coder(true, width), LinesOf(width, height, vmem, s);
    LineBounds(width, height, s);
    AlignedPair(f, width, height, vmem, s, skipped, k);
    WindowByte(true, width, s.first, lines, f, StartOffset(width, s.first), k);
    WindowByte(true, width, 0, vmem, f, StartOffset(width, 0), skipped + k);
  }

  lemma WindowLength(dither: bool, width: nat, top: nat, px: seq<Word16>)
    requires width > 0
    ensures |WindowBytes(true, dither, width, top, px)| == |px| / 2
  {
  }

  /** The bytes of the whole frame that are those of a line range. */
  predicate SameBytes(part: seq<Byte>, whole: seq<Byte>, skipped: nat) {
    skipped + |part| <= |whole| && part == whole[skipped..skipped + |part|]
  }

  /** A dithered repaint that starts at a line divisible by 8 puts the same bytes on the wire
      as a whole-frame repaint does for its lines, at every width; `skipped` counts the pairs of
      the lines above it. */
  lemma AlignedRepaintSendsSameBytes(width: nat, height: U32, vmem: seq<Word16>, s: Range, skipped: nat)
    requires 0 < width && |vmem| == width * height && s.first <= s.last < height && s.first % 8 == 0
    requires 2 * skipped == s.first * width
    ensures |LineBytes(width, height, vmem, s)| == |LinesOf(width, height, vmem, s)| / 2
    ensures SameBytes(LineBytes(width, height, vmem, s), WindowBytes(true, true, width, 0, vmem), skipped)
  {
    var whole, part := WindowBytes(true, true, width, 0, vmem), LineBytes(width, height, vmem, s);
    LineBounds(width, height, s);
    WindowLength(true, width, 0, vmem);
    WindowLength(true, width, s.first, LinesOf(width, height, vmem, s));
    forall k | 0 <= k < |part| ensures part[k] == whole[skipped + k] {
      AlignedByte(width, height, vmem, s, skipped, k);
    }
  }
}
