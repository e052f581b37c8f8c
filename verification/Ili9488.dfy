/** The framebuffer driver: video memory, dirty range, transmit buffer, and the loops that turn
    a line range into the bytes on the wire. */
module Ili9488Driver {
  import opened Words
  import opened RowMajor
  import opened PixelCode
  import opened Panel
  import opened DirtyRange
  import opened Dither

  /** The pixels of whole pairs, from the first on. */
  function WholePairs(px: seq<Word16>): (q: seq<Word16>)
    ensures |q| == 2 * (|px| / 2) && q <= px
  {
    px[..2 * (|px| / 2)]
  }

  /** What goes out for the pixels of a window that starts at line `top`. In the 3-bit modes
      that is whole pairs: the last pixel of an odd number does not go out. */
  function WindowBytes(threeBit: bool, dither: bool, width: nat, top: nat, px: seq<Word16>): seq<Byte>
    requires width > 0
  {
    if threeBit then PackAll(Decisions(Coder(dither, width), StartOffset(width, top), WholePairs(px)))
    else Rgb565Bytes(px)
  }

  /** The pixels of a line range. */
  function LinesOf(width: nat, height: nat, vmem: seq<Word16>, r: Range): (px: seq<Word16>)
    requires |vmem| == width * height && r.first <= r.last < height
    ensures |px| == (r.last - r.first + 1) * width
  {
    LineBounds(width, height, r);
    vmem[r.first * width..(r.last + 1) * width]
  }

  lemma LineBounds(width: nat, height: nat, r: Range)
    requires r.first <= r.last < height
    ensures 0 <= r.first * width <= (r.last + 1) * width <= width * height
    ensures (r.last + 1) * width - r.first * width == (r.last - r.first + 1) * width
  {
    TimesMonotone(r.first, r.last + 1, width);
    TimesMonotone(r.last + 1, height, width);
    Distribute(r.last + 1 - r.first, r.first, width);
  }

  /** The byte offset and the byte length of a line range, and that `u32` holds them. */
  lemma ByteBounds(width: nat, height: nat, r: Range)
    requires r.first <= r.last < height && 2 * (width * height) < 0x8000_0000
    ensures ToU32(r.first * (width * 2)) == 2 * (r.first * width) == StartOffset(width, r.first)
    ensures ToU32((r.last - r.first + 1) * (width * 2)) == 2 * ((r.last - r.first + 1) * width)
  {
    LineBounds(width, height, r);
    assert r.first * (width * 2) == 2 * (r.first * width);
    assert (r.last - r.first + 1) * (width * 2) == 2 * ((r.last - r.first + 1) * width);
  }

  class Ili9488 {
    const xres: nat
    const yres: nat
    const vmem: array<Word16>
    const txbuf: array<Byte>
    const buf: array<Byte>
    /** What memory holds after the last pixel. */
    const beyond: Word16
    var threeBit: bool
    var dither: bool
    var dc: bool
    var wire: seq<Xfer>
    var dirtyFirst: U32
    var dirtyLast: U32
    var scheduled: bool

    ghost predicate Valid()
      reads this
    {
      && 0 < xres && 0 < yres && vmem.Length == xres * yres && 16 * (xres * yres) < 0x8000_0000
      && txbuf.Length >= 3 && buf.Length == 128 && buf != txbuf
    }

    /** The room of a batch in pixels. */
    ghost function Cap(): (cap: nat)
      requires Valid()
      reads this
      ensures cap > 0
    {
      txbuf.Length / 3
    }

    /** The batches of the 3-bit modes are of whole pairs, or one batch holds the screen. */
    ghost predicate PairsFit()
      requires Valid()
      reads this
    {
      threeBit ==> Cap() % 2 == 0 || xres * yres <= Cap()
    }

    /** The sizes that the probe function gives, where its int products of 16 bits a pixel do not
        overflow: one transmit buffer holds three bytes a pixel. */
    constructor (xres: nat, yres: nat, threeBit: bool, dither: bool, beyond: Word16)
      requires 0 < xres && 0 < yres && 16 * (xres * yres) < 0x8000_0000
      ensures Valid() && fresh(vmem) && fresh(txbuf) && fresh(buf)
      ensures this.xres == xres && this.yres == yres && this.threeBit == threeBit && this.dither == dither
      ensures forall i | 0 <= i < vmem.Length :: vmem[i] == 0
      ensures wire == [] && !scheduled && dirtyFirst == 0 && dirtyLast == 0
      ensures Cap() == xres * yres && PairsFit()
    {
      this.xres, this.yres := xres, yres;
      this.threeBit, this.dither, this.beyond := threeBit, dither, beyond;
      vmem := new Word16[xres * yres](_ => 0);
      txbuf := new Byte[xres * yres * 3](_ => 0);
      buf := new Byte[128](_ => 0);
      dc, wire, scheduled := false, [], false;
      dirtyFirst, dirtyLast := 0, 0;
      new;
      TimesMonotone(1, xres, yres);
    }

    ghost function Dirty(): Range
      reads this
    {
      Range(dirtyFirst, dirtyLast)
    }

    method WriteBufDc(bytes: seq<Byte>, dc: bool)
      modifies this`wire, this`dc
      ensures wire == old(wire) + Transfer(dc, bytes) && this.dc == dc
    {
      this.dc := dc;
      SpiWrite(bytes);
    }

    method SpiWrite(bytes: seq<Byte>)
      modifies this`wire
      ensures wire == old(wire) + Transfer(dc, bytes)
    {
      wire := wire + Transfer(dc, bytes);
    }

    /** `ili9488_write_reg`: args holds the command and then its parameters. */
    method WriteReg(args: seq<nat>)
      requires Valid() && 1 <= |args| <= buf.Length
      modifies this`wire, this`dc, buf
      ensures wire == old(wire) + RegWrite(args[0] % 256, LowBytes(args[1..]))
    {
      buf[0] := args[0] % 256;
      WriteBufDc(buf[..1], false);
      assert Transfer(false, buf[..1]) == [Xfer(false, args[0] % 256)];
      var len := |args| - 1;
      if len == 0 {
        assert RegWrite(args[0] % 256, LowBytes(args[1..])) == [Xfer(false, args[0] % 256)];
        return;
      }
      for i := 0 to len
        invariant forall k | 0 <= k < i :: buf[k] == args[k + 1] % 256
        invariant wire == old(wire) + [Xfer(false, args[0] % 256)]
      {
        buf[i] := args[i + 1] % 256;
      }
      assert buf[..len] == LowBytes(args[1..]);
      WriteBufDc(buf[..len], true);
      assert wire == old(wire) + ([Xfer(false, args[0] % 256)] + Transfer(true, buf[..len]));
    }

    /** `ili9488_set_addr_win`. */
    method SetAddrWin(xs: nat, ys: nat, xe: nat, ye: nat)
      requires Valid()
      modifies this`wire, this`dc, buf
      ensures wire == old(wire) + WindowStream(xs, ys, xe, ye)
    {
      WriteReg([0x2A, xs / 256, xs % 256, xe / 256, xe % 256]);
      WindowRegister(0x2A, xs, xe);
      WriteReg([0x2B, ys / 256, ys % 256, ye / 256, ye % 256]);
      WindowRegister(0x2B, ys, ye);
      WriteReg([0x2C]);
      assert LowBytes([0x2C][1..]) == [];
    }

    /** The inner loop of `write_vmem`; px is video memory. */
    method FillRgb565(pos: nat, toCopy: nat, ghost px: seq<Word16>)
      requires Valid() && vmem[..] == px && pos + toCopy <= |px| && toCopy <= txbuf.Length / 3
      modifies txbuf
      ensures vmem[..] == px && txbuf[..2 * toCopy] == Rgb565From(px, pos, toCopy)
    {
      var k := 0;
      for i := 0 to toCopy
        invariant k == 2 * i && vmem[..] == px
        invariant txbuf[..k] == Rgb565From(px, pos, i)
      {
        ghost var before := txbuf[..k];
        var v := vmem[pos + i];
        txbuf[k] := v / 256;
        k := k + 1;
        txbuf[k] := v % 256;
        k := k + 1;
        assert txbuf[..k] == before + [v / 256, v % 256];
      }
    }

    /** One batch of `write_vmem`. */
    method SendRgb565(pos: nat, toCopy: nat, ghost px: seq<Word16>)
      requires Valid() && vmem[..] == px && pos + toCopy <= |px| && toCopy <= txbuf.Length / 3 && dc
      modifies this`wire, txbuf
      ensures vmem[..] == px && wire == old(wire) + Data(Rgb565From(px, pos, toCopy))
    {
      FillRgb565(pos, toCopy, px);
      SpiWrite(txbuf[..2 * toCopy]);
    }

    /** `write_vmem`: offset and len in bytes, first and count the same in pixels. */
    method WriteVmem(offset: nat, len: nat, ghost first: nat, ghost count: nat, ghost px: seq<Word16>)
      requires Valid() && vmem[..] == px && offset == 2 * first && len == 2 * count && first + count <= |px|
      modifies this`wire, this`dc, txbuf
      ensures vmem[..] == px && wire == old(wire) + Data(Rgb565Bytes(px[first..first + count]))
    {
      var remain := len / 2;
      var pos := offset / 2;
      dc := true;
      var txArraySize := txbuf.Length / 3;
      ghost var done := 0;
      while remain > 0
        invariant remain == count - done && pos == first + done && 0 <= done <= count && dc && vmem[..] == px
        invariant wire == old(wire) + Data(Rgb565From(px, first, done))
      {
        var toCopy := Min(txArraySize, remain);
        SendRgb565(pos, toCopy, px);
        SentMore(old(wire), Rgb565From(px, first, done), Rgb565From(px, pos, toCopy));
        Rgb565Batches(px, first, done, toCopy);
        pos := pos + toCopy;
        remain := remain - toCopy;
        done := done + toCopy;
      }
      Rgb565FromIs(px, first, count);
    }

    /** `txbuf[k] |= mask` under a condition. */
    method SetBitIf(k: nat, on: bool, mask: Byte)
      requires k < txbuf.Length && mask in {2, 4, 8, 16, 32, 64}
      modifies txbuf
      ensures txbuf[..] == old(txbuf[..])[k := if on then SetBit(old(txbuf[k]), mask) else old(txbuf[k])]
    {
      if on {
        txbuf[k] := SetBit(txbuf[k], mask);
      }
    }

    /** The loop body of the 3-bit writers: six tests set six bits of one byte. */
    method PackPair(k: nat, l: Rgb3, r: Rgb3)
      requires k < txbuf.Length
      modifies txbuf
      ensures txbuf[..] == old(txbuf[..])[k := Pack(l, r)]
    {
      txbuf[k] := 0;
      SetBitIf(k, l.red, 4 * 8);
      SetBitIf(k, l.green, 2 * 8);
      SetBitIf(k, l.blue, 8 * 8);
      SetBitIf(k, r.red, 4);
      SetBitIf(k, r.green, 2);
      SetBitIf(k, r.blue, 8);
      SixBits(l, r);
    }

    /** A read through the pixel pointer, which a batch of an odd size moves past its end. */
    function PixelAt(i: nat): Word16
      reads vmem
    {
      if i < vmem.Length then vmem[i] else beyond
    }

    /** The inner loop of the 3-bit writers, on a batch of any size: `odd` is 1 if it is no whole
        number of pairs. Returns the running offset, and one past the last pixel read. */
    method FillPairs(f: PixelCoder, pos: nat, toCopy: nat, cur: nat, ghost pairs: nat, ghost odd: nat,
                     ghost px: seq<Word16>)
      returns (next: nat, ghost top: nat)
      requires Valid() && vmem[..] == px && pos + toCopy <= |px| && toCopy <= txbuf.Length / 3
      requires toCopy == 2 * pairs + odd && odd <= 1
      modifies txbuf
      ensures vmem[..] == px && txbuf[..pairs] == PairsFrom(f, cur, px, pos, pairs)
      ensures next == cur + toCopy + odd && top == pos + toCopy + odd
    {
      var k, i := 0, 0;
      ghost var whole := 0;
      next, top := cur, pos;
      while i < toCopy
        invariant i == 2 * k && next == cur + i && top == pos + i && vmem[..] == px
        invariant k == whole <= pairs || (odd == 1 && k == pairs + 1 && whole == pairs)
        invariant txbuf[..whole] == PairsFrom(f, cur, px, pos, whole)
      {
        ghost var before := txbuf[..whole];
        var l := f(next, PixelAt(pos + i));
        var r := f(next + 1, PixelAt(pos + i + 1));
        PackPair(k, l, r);
        if k < pairs {
          assert txbuf[..k + 1] == before + [Pack(l, r)];
          whole := whole + 1;
        } else {
          assert txbuf[..whole] == before;
        }
        next := next + 2;
        top := top + 2;
        k := k + 1;
        i := i + 2;
      }
    }

    /** One batch of the 3-bit writers. */
    method SendPairs(f: PixelCoder, pos: nat, toCopy: nat, cur: nat, ghost px: seq<Word16>)
      returns (next: nat, ghost top: nat)
      requires Valid() && vmem[..] == px && pos + toCopy <= |px| && toCopy <= txbuf.Length / 3 && dc
      modifies this`wire, txbuf
      ensures vmem[..] == px && wire == old(wire) + Data(PairsFrom(f, cur, px, pos, toCopy / 2))
      ensures next == cur + toCopy + toCopy % 2 && top == pos + toCopy + toCopy % 2
    {
      next, top := FillPairs(f, pos, toCopy, cur, toCopy / 2, toCopy % 2, px);
      SpiWrite(txbuf[..toCopy / 2]);
    }

    /** A batch after those that went out before it. */
    method SendNextPairs(f: PixelCoder, pos: nat, remain: nat, toCopy: nat, cur: nat,
                         ghost offset: nat, ghost first: nat, ghost count: nat, ghost px: seq<Word16>,
                         ghost w: seq<Xfer>, ghost before: seq<Byte>, ghost end: nat)
      returns (next: nat, ghost sent: seq<Byte>, ghost top: nat)
      requires Valid() && vmem[..] == px && dc && wire == w + Data(before) && remain > 0 &&
               toCopy == Min(txbuf.Length / 3, remain)
      requires Progress(f, offset, px, first, count, Cap(), before, pos, cur, remain)
      requires ReadsDue(first, count, Cap(), pos, remain, end)
      modifies this`wire, txbuf
      ensures vmem[..] == px && wire == w + Data(sent)
      ensures Progress(f, offset, px, first, count, Cap(), sent, pos + toCopy, next, remain - toCopy)
      ensures ReadsDue(first, count, Cap(), pos + toCopy, remain - toCopy, top)
    {
      ghost var batch := PairsFrom(f, cur, px, pos, toCopy / 2);
      next, top := SendPairs(f, pos, toCopy, cur, px);
      sent := before + batch;
      SentMore(w, before, batch);
      BatchProgress(f, offset, px, first, count, Cap(), before, pos, cur, remain, toCopy, next);
      BatchReads(first, count, Cap(), pos, remain, end, toCopy, top);
    }

    /** `write_vmem_3bit` and `write_vmem_3bit_dither`, which differ in the decisions only: the
        running offset starts at the byte offset and moves by two for each pair. For a request
        and a transmit buffer of any size; `first` and `count` are the request in pixels. Also
        returns what was sent, and one past the last pixel read. */
    method WriteVmem3Bit(f: PixelCoder, offset: nat, len: nat, ghost first: nat, ghost count: nat,
                         ghost px: seq<Word16>)
      returns (ghost sent: seq<Byte>, ghost top: nat)
      requires Valid() && vmem[..] == px && offset == 2 * first && len == 2 * count && first + count <= |px|
      modifies this`wire, this`dc, txbuf
      ensures vmem[..] == px && wire == old(wire) + Data(sent)
      ensures |sent| == BatchBytes(count, Cap()) && top == EndOfReads(first, count, Cap())
      ensures Cap() % 2 == 0 || count <= Cap() ==> sent == PairsFrom(f, offset, px, first, count / 2)
    {
      var remain: nat, pos: nat, curOffset: nat := len / 2, offset / 2, offset;
      dc := true;
      var txArraySize := txbuf.Length / 3;
      ghost var w := wire;
      sent, top := [], EndOfReads(first, 0, Cap());
      NoProgress(f, offset, px, first, count, Cap());
      while remain > 0
        invariant Progress(f, offset, px, first, count, Cap(), sent, pos, curOffset, remain)
        invariant ReadsDue(first, count, Cap(), pos, remain, top)
        invariant wire == w + Data(sent) && dc && vmem[..] == px
      {
        var toCopy := Min(txArraySize, remain);
        curOffset, sent, top := SendNextPairs(f, pos, remain, toCopy, curOffset, offset, first, count, px, w, sent,
            top);
        pos := pos + toCopy;
        remain := remain - toCopy;
      }
      AllSent(f, offset, px, first, count, Cap(), sent, pos, curOffset);
    }

    /** The choice of writer in `update_display`. */
    method SendPixels(start: U32, end: U32)
      requires Valid() && PairsFit() && start <= end < yres
      modifies this`wire, this`dc, txbuf
      ensures wire == old(wire) + Data(WindowBytes(threeBit, dither, xres, start,
                                                   LinesOf(xres, yres, old(vmem[..]), Range(start, end))))
    {
      ByteBounds(xres, yres, Range(start, end));
      LineBounds(xres, yres, Range(start, end));
      var lineLength := xres * 2;
      var offset := ToU32(start * lineLength);
      var len := ToU32((end - start + 1) * lineLength);
      ghost var first, count, px := start * xres, (end - start + 1) * xres, vmem[..];
      ghost var lines := LinesOf(xres, yres, px, Range(start, end));
      if threeBit {
        ghost var sent, top := WriteVmem3Bit(Coder(dither, xres), offset, len, first, count, px);
        PairsOfLines(Coder(dither, xres), offset, px, first, count, lines);
      } else {
        WriteVmem(offset, len, first, count, px);
      }
    }

    /** `update_display` after the range is settled. */
    method SendLines(start: U32, end: U32)
      requires Valid() && PairsFit() && start <= end < yres
      modifies this`wire, this`dc, txbuf, buf
      ensures wire == old(wire) + LinesStream(threeBit, dither, xres, yres, old(vmem[..]), Range(start, end))
    {
      ghost var px := vmem[..];
      SetAddrWin(0, start, xres - 1, end);
      assert vmem[..] == px;
      SendPixels(start, end);
    }

    /** `update_display`. */
    method UpdateDisplay(startLine: U32, endLine: U32)
      requires Valid() && PairsFit()
      modifies this`wire, this`dc, txbuf, buf
      ensures wire == old(wire) + DisplayStream(threeBit, dither, xres, yres, old(vmem[..]), Range(startLine, endLine))
    {
      var start, end := startLine, endLine;
      if start > end {
        start, end := 0, yres - 1;
      }
      if start > yres - 1 || end > yres - 1 {
        start, end := 0, yres - 1;
      }
      SendLines(start, end);
    }

    /** `ili9488_mkdirty`: mark lines under the lock, then schedule the worker. */
    method MkDirty(y: I32, height: I32)
      requires Valid()
      modifies this`dirtyFirst, this`dirtyLast, this`scheduled
      ensures Dirty() == Marked(old(Dirty()), yres, y, height) && scheduled
    {
      var top, lines := y, height;
      if top == -1 {
        top, lines := 0, yres;
      }
      if ToU32(top) < dirtyFirst {
        dirtyFirst := ToU32(top);
      }
      if ToU32(top + lines - 1) > dirtyLast {
        dirtyLast := ToU32(top + lines - 1);
      }
      scheduled := true;
    }

    /** `ili9488_deferred_io`, called with the byte offsets of the touched pages. */
    method DeferredIo(pages: seq<nat>, pageSize: nat)
      requires Valid() && PairsFit() && pageSize > 0
      modifies this`wire, this`dc, this`dirtyFirst, this`dirtyLast, txbuf, buf
      ensures Dirty() == Clean(yres)
      ensures wire == old(wire) + DisplayStream(threeBit, dither, xres, yres, old(vmem[..]),
                                                WidenAll(old(Dirty()), yres, xres * 2, pageSize, pages))
    {
      var first, last := dirtyFirst, dirtyLast;
      dirtyFirst := yres - 1;
      dirtyLast := 0;
      var lineLength := xres * 2;
      for i := 0 to |pages|
        invariant 0 <= first < 0x1_0000_0000 && 0 <= last < 0x1_0000_0000
        invariant Range(first, last) == WidenAll(old(Dirty()), yres, lineLength, pageSize, pages[..i])
      {
        var low := ToU32(pages[i] / lineLength);
        var high := ToU32((pages[i] + pageSize - 1) / lineLength);
        if high > yres - 1 {
          high := yres - 1;
        }
        if low < first {
          first := low;
        }
        if high > last {
          last := high;
        }
        assert pages[..i + 1][..i] == pages[..i];
      }
      assert pages[..|pages|] == pages;
      UpdateDisplay(first, last);
    }
  }

  /** What the panel is sent for a range of lines on the screen. */
  function LinesStream(threeBit: bool, dither: bool, width: nat, height: U32, vmem: seq<Word16>, r: Range): seq<Xfer>
    requires 0 < width && |vmem| == width * height && r.first <= r.last < height
  {
    WindowStream(0, r.first, width - 1, r.last) +
    Data(WindowBytes(threeBit, dither, width, r.first, LinesOf(width, height, vmem, r)))
  }

  /** Everything that a flush of a requested range puts on the wire. */
  function DisplayStream(threeBit: bool, dither: bool, width: nat, height: U32, vmem: seq<Word16>, r: Range): seq<Xfer>
    requires 0 < width && 0 < height && |vmem| == width * height
  {
    LinesStream(threeBit, dither, width, height, vmem, ToSend(r, height))
  }

  /** The cast of every argument to `u8`. */
  function LowBytes(args: seq<nat>): (bytes: seq<Byte>)
    ensures |bytes| == |args|
  {
    seq(|args|, k requires 0 <= k < |args| => args[k] % 256)
  }

  lemma WindowRegister(cmd: Byte, a: nat, b: nat)
    ensures LowBytes([cmd, a / 256, a % 256, b / 256, b % 256][1..]) == [High(a), Low(a), High(b), Low(b)]
  {
  }

  lemma SentMore(w: seq<Xfer>, sent: seq<Byte>, batch: seq<Byte>)
    ensures w + Data(sent) + Data(batch) == w + Data(sent + batch)
  {
    DataConcat(sent, batch);
  }

  lemma AllSent(f: PixelCoder, offset: nat, px: seq<Word16>, first: nat, count: nat, cap: nat, sent: seq<Byte>,
                pos: nat, cur: nat)
    requires cap > 0 && first + count <= |px| && Progress(f, offset, px, first, count, cap, sent, pos, cur, 0)
    ensures |sent| == BatchBytes(count, cap)
    ensures cap % 2 == 0 || count <= cap ==> sent == PairsFrom(f, offset, px, first, count / 2)
  {
  }

  lemma WholePairsOf(px: seq<Word16>, first: nat, count: nat, lines: seq<Word16>)
    requires first + count <= |px| && lines == px[first..first + count]
    ensures first + 2 * (count / 2) <= |px| && WholePairs(lines) == px[first..first + 2 * (count / 2)]
  {
  }

  lemma PairsOfLines(f: PixelCoder, offset: nat, px: seq<Word16>, first: nat, count: nat, lines: seq<Word16>)
    requires first + count <= |px| && lines == px[first..first + count]
    ensures first + 2 * (count / 2) <= |px|
    ensures PairsFrom(f, offset, px, first, count / 2) == PackAll(Decisions(f, offset, WholePairs(lines)))
  {
    WholePairsOf(px, first, count, lines);
    PairsFromIs(f, offset, px, first, count / 2, WholePairs(lines));
  }

  lemma SixBits(l: Rgb3, r: Rgb3)
    ensures var b0: Byte := if l.red then SetBit(0, 32) else 0;
            var b1: Byte := if l.green then SetBit(b0, 16) else b0;
            var b2: Byte := if l.blue then SetBit(b1, 64) else b1;
            var b3: Byte := if r.red then SetBit(b2, 4) else b2;
            var b4: Byte := if r.green then SetBit(b3, 2) else b3;
            (if r.blue then SetBit(b4, 8) else b4) == Pack(l, r)
  {
    var b0: Byte := if l.red then 32 else 0;
    var b1: Byte := if l.green then SetBit(b0, 16) else b0;
    assert b1 == b0 + if l.green then 16 else 0;
    var b2: Byte := if l.blue then SetBit(b1, 64) else b1;
    assert b2 == b1 + if l.blue then 64 else 0;
    var b3: Byte := if r.red then SetBit(b2, 4) else b2;
    assert b3 == b2 + if r.red then 4 else 0;
    var b4: Byte := if r.green then SetBit(b3, 2) else b3;
    assert b4 == b3 + if r.green then 2 else 0;
  }
}
