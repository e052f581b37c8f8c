/** A reader of the 3-bit stream: it follows the same commands as the panel, and takes every data
    byte of a window as two pixels, unpacked as the driver packs them. */
module BitPanel {
  import opened Words
  import opened RowMajor
  import opened PixelCode
  import opened Dither
  import opened Panel
  import opened DirtyRange
  import opened Ili9488Driver
  import opened DisplayMeaning

  /** The registers as the panel keeps them, the write position, and the pixels. */
  datatype BitState = BitState(regs: State, col: nat, page: nat, full: bool, bits: Frame<Rgb3>)

  function WriteBits(b: BitState, p: Rgb3): BitState {
    if b.full then b else
      var q := b.(bits := b.bits[(b.col, b.page) := p]);
      if b.col != b.regs.ec then q.(col := b.col + 1)
      else if b.page != b.regs.ep then q.(col := b.regs.sc, page := b.page + 1)
      else q.(full := true)
  }

  function BitStep(b: BitState, x: Xfer): BitState {
    var q := b.(regs := Step(b.regs, x));
    if !x.dc then
      if x.byte == 0x2C then q.(col := q.regs.sc, page := q.regs.sp, full := false) else q
    else if b.regs.cmd == 0x2C then WriteBits(WriteBits(q, UnpackLeft(x.byte)), UnpackRight(x.byte))
    else q
  }

  function BitFeed(b: BitState, xs: seq<Xfer>): BitState {
    if xs == [] then b else BitStep(BitFeed(b, xs[..|xs| - 1]), xs[|xs| - 1])
  }

  lemma {:induction false} BitFeedConcat(b: BitState, xs: seq<Xfer>, ys: seq<Xfer>)
    ensures BitFeed(b, xs + ys) == BitFeed(BitFeed(b, xs), ys)
  {
    if ys == [] {
      assert xs + ys == xs;
    } else {
      assert (xs + ys)[..|xs + ys| - 1] == xs + ys[..|ys| - 1];
      BitFeedConcat(b, xs, ys[..|ys| - 1]);
    }
  }

  lemma BitFeedOne(b: BitState, x: Xfer)
    ensures BitFeed(b, [x]) == BitStep(b, x)
  {
    assert BitFeed(b, [x][..0]) == b;
  }

  /** The registers are those of the panel. */
  lemma {:induction false} RegistersFollow(b: BitState, xs: seq<Xfer>)
    ensures BitFeed(b, xs).regs == Feed(b.regs, xs)
  {
    if xs == [] {
    } else {
      RegistersFollow(b, xs[..|xs| - 1]);
    }
  }

  // ----- Opening a window writes nothing -----

  lemma {:induction false} ParametersWriteNothing(b: BitState, bytes: seq<Byte>)
    requires b.regs.cmd != 0x2C
    ensures BitFeed(b, Data(bytes)).bits == b.bits && BitFeed(b, Data(bytes)).regs.cmd == b.regs.cmd
  {
    if bytes == [] {
    } else {
      var front, last := bytes[..|bytes| - 1], bytes[|bytes| - 1];
      ParametersWriteNothing(b, front);
      BitDataOneMore(b, front, last);
      assert bytes == front + [last];
    }
  }

  lemma BitDataOneMore(b: BitState, front: seq<Byte>, last: Byte)
    ensures BitFeed(b, Data(front + [last])) == BitStep(BitFeed(b, Data(front)), Xfer(true, last))
  {
    DataOneMore(front, last);
    BitFeedConcat(b, Data(front), [Xfer(true, last)]);
    BitFeedOne(BitFeed(b, Data(front)), Xfer(true, last));
  }

  lemma RegisterWritesNothing(b: BitState, cmd: Byte, params: seq<Byte>)
    requires cmd != 0x2C
    ensures BitFeed(b, RegWrite(cmd, params)).bits == b.bits
  {
    var x := Xfer(false, cmd);
    BitFeedConcat(b, [x], Data(params));
    BitFeedOne(b, x);
    ParametersWriteNothing(BitStep(b, x), params);
  }

  lemma WindowWritesNothing(b: BitState, xs: nat, ys: nat, xe: nat, ye: nat)
    ensures var q := BitFeed(b, WindowStream(xs, ys, xe, ye));
            q.bits == b.bits && q.col == q.regs.sc && q.page == q.regs.sp && !q.full
  {
    var columns := RegWrite(0x2A, [High(xs), Low(xs), High(xe), Low(xe)]);
    var pages := RegWrite(0x2B, [High(ys), Low(ys), High(ye), Low(ye)]);
    RegisterWritesNothing(b, 0x2A, [High(xs), Low(xs), High(xe), Low(xe)]);
    RegisterWritesNothing(BitFeed(b, columns), 0x2B, [High(ys), Low(ys), High(ye), Low(ye)]);
    BitFeedConcat(b, columns, pages);
    BitFeedConcat(b, columns + pages, RegWrite(0x2C, []));
    assert RegWrite(0x2C, []) == [Xfer(false, 0x2C)];
    BitFeedOne(BitFeed(b, columns + pages), Xfer(false, 0x2C));
  }

  // ----- Filling it -----

  /** The reader expects pixel n of the window. */
  predicate AtBit(b: BitState, width: nat, top: nat, bottom: nat, n: nat) {
    && width > 0 && top <= bottom && Opened(b.regs, 0, top, width - 1, bottom)
    && if b.full then n == (bottom - top + 1) * width
       else b.col < width && top <= b.page <= bottom && n == Index(width, top, b.col, b.page)
  }

  lemma WriteBitsPaints(before: Frame<Rgb3>, b: BitState, width: nat, top: nat, bottom: nat, px: seq<Rgb3>, p: Rgb3)
    requires AtBit(b, width, top, bottom, |px|) && |px| < (bottom - top + 1) * width
    requires Painted(before, b.bits, width, top, px)
    ensures var q := WriteBits(b, p);
            && AtBit(q, width, top, bottom, |px| + 1) && Painted(before, q.bits, width, top, px + [p])
            && q.regs == b.regs
  {
    Distribute(b.page - top, 1, width);
    Paint(before, b.bits, width, top, px, b.col, b.page, p);
  }

  lemma BytePaints(before: Frame<Rgb3>, b: BitState, width: nat, top: nat, bottom: nat, px: seq<Rgb3>, byte: Byte)
    requires AtBit(b, width, top, bottom, |px|) && |px| + 2 <= (bottom - top + 1) * width
    requires Painted(before, b.bits, width, top, px)
    ensures var q := BitStep(b, Xfer(true, byte));
            && AtBit(q, width, top, bottom, |px| + 2)
            && Painted(before, q.bits, width, top, px + [UnpackLeft(byte), UnpackRight(byte)])
  {
    var r := b.(regs := Step(b.regs, Xfer(true, byte)));
    var l := WriteBits(r, UnpackLeft(byte));
    WriteBitsPaints(before, r, width, top, bottom, px, UnpackLeft(byte));
    WriteBitsPaints(before, l, width, top, bottom, px + [UnpackLeft(byte)], UnpackRight(byte));
    assert px + [UnpackLeft(byte)] + [UnpackRight(byte)] == px + [UnpackLeft(byte), UnpackRight(byte)];
  }

  lemma {:induction false} BytesPaint(b: BitState, width: nat, top: nat, bottom: nat, bytes: seq<Byte>)
    requires AtBit(b, width, top, bottom, 0) && 2 * |bytes| <= (bottom - top + 1) * width
    ensures AtBit(BitFeed(b, Data(bytes)), width, top, bottom, 2 * |bytes|)
    ensures Painted(b.bits, BitFeed(b, Data(bytes)).bits, width, top, UnpackAll(bytes))
  {
    if bytes == [] {
      assert forall x: nat, y: nat | x < width && top <= y :: Index(width, top, x, y) >= 0;
    } else {
      var front, last := bytes[..|bytes| - 1], bytes[|bytes| - 1];
      assert bytes == front + [last];
      BytesPaint(b, width, top, bottom, front);
      BitDataOneMore(b, front, last);
      BytePaints(b.bits, BitFeed(b, Data(front)), width, top, bottom, UnpackAll(front), last);
    }
  }

  /** A window's commands and bytes set exactly the pixels that the bytes hold. */
  lemma BitWindowPaints(b: BitState, width: nat, top: nat, bottom: nat, bytes: seq<Byte>)
    requires 0 < width <= 65536 && top <= bottom < 65536 && 2 * |bytes| <= (bottom - top + 1) * width
    ensures Painted(b.bits, BitFeed(b, WindowStream(0, top, width - 1, bottom) + Data(bytes)).bits, width, top,
            UnpackAll(bytes))
  {
    var open := WindowStream(0, top, width - 1, bottom);
    WindowReady(b.regs, width, top, bottom);
    RegistersFollow(b, open);
    WindowOpens(b.regs, 0, top, width - 1, bottom);
    WindowWritesNothing(b, 0, top, width - 1, bottom);
    SmallWord(top);
    BitFeedConcat(b, open, Data(bytes));
    AtFirstBit(BitFeed(b, open), width, top, bottom);
    BytesPaint(BitFeed(b, open), width, top, bottom, bytes);
  }

  lemma AtFirstBit(b: BitState, width: nat, top: nat, bottom: nat)
    requires width > 0 && top <= bottom && Opened(b.regs, 0, top, width - 1, bottom)
    requires b.col == 0 && b.page == top && !b.full
    ensures AtBit(b, width, top, bottom, 0)
  {
  }

  // ----- What a flush shows in the 3-bit modes -----

  /** The pixel shows the driver's decision on its value in video memory. */
  predicate ShowsBits(bits: Frame<Rgb3>, dither: bool, width: nat, top: nat, vmem: seq<Word16>, x: nat, y: nat) {
    && (x, y) in bits && PixelIndex(width, x, y) < |vmem|
    && bits[(x, y)] == ThreeBitPixel(dither, top, x, y, vmem[PixelIndex(width, x, y)])
  }

  /** The pixels that go out: those of the lines, but for the last one of an odd number. */
  predicate GoesOut(width: nat, s: Range, x: nat, y: nat) {
    OnLines(width, s, x, y) && Index(width, s.first, x, y) < 2 * (((s.last - s.first + 1) * width) / 2)
  }

  lemma ShownBits(before: Frame<Rgb3>, after: Frame<Rgb3>, dither: bool, width: nat, height: U32, vmem: seq<Word16>,
                  s: Range, x: nat, y: nat, bits: seq<Rgb3>)
    requires 0 < width && |vmem| == width * height && s.first <= s.last < height
    requires bits == UnpackAll(WindowBytes(true, dither, width, s.first, LinesOf(width, height, vmem, s)))
    requires PixelPainted(before, after, width, s.first, bits, x, y)
    ensures if GoesOut(width, s, x, y) then ShowsBits(after, dither, width, s.first, vmem, x, y)
            else SamePixel(before, after, x, y)
  {
    WindowOfLines(width, s, x, y);
    ReadBack(dither, width, s.first, LinesOf(width, height, vmem, s));
    if OnLines(width, s, x, y) {
      ThreeBitStreamMeaning(dither, width, height, vmem, s, x, y, Index(width, s.first, x, y), PixelIndex(width, x, y));
    }
  }

  /** In the 3-bit modes, whatever is requested and whatever the reader held, the stream of
      `update_display` sets exactly the pixels of whole pairs of the lines that it settles on,
      each to the driver's decision on its value in video memory. */
  lemma BitStreamMeaning(b: BitState, dither: bool, width: nat, height: U32, vmem: seq<Word16>, r: Range, x: nat,
                         y: nat)
    requires 0 < width < 65536 && 0 < height < 65536 && |vmem| == width * height
    ensures var after, s := BitFeed(b, DisplayStream(true, dither, width, height, vmem, r)).bits, ToSend(r, height);
            if GoesOut(width, s, x, y) then ShowsBits(after, dither, width, s.first, vmem, x, y)
            else SamePixel(b.bits, after, x, y)
  {
    var s := ToSend(r, height);
    var bytes := WindowBytes(true, dither, width, s.first, LinesOf(width, height, vmem, s));
    BitWindowPaints(b, width, s.first, s.last, bytes);
    var after := BitFeed(b, DisplayStream(true, dither, width, height, vmem, r)).bits;
    assert PixelPainted(b.bits, after, width, s.first, UnpackAll(bytes), x, y);
    ShownBits(b.bits, after, dither, width, height, vmem, s, x, y, UnpackAll(bytes));
  }
}
