/** The protocol in the driver's three pixel modes. */
module FlushModes {
  import opened Words
  import opened RowMajor
  import opened PixelCode
  import opened Dither
  import opened FlushProtocol

  /** A run from the state after the probe to one in which no caller is under way. */
  ghost predicate RunToIdle(c: Config, s: State, events: seq<Event>, last: State) {
    && ValidConfig(c) && Initial(c, s) && Reaches(c, s, events, last)
    && forall t | 0 <= t < |last.threads| :: last.threads[t].Idle?
  }

  /** The pixel of the settled panel, if it is not excused. */
  ghost predicate SettledCell(c: Config, last: State, i: nat, cell: Cell)
    requires ValidConfig(c) && Inv(c, last)
  {
    var r := Settle(c, last);
    i < |r.panel| && !Excused(c, r, i) && cell == r.panel[i]
  }

  lemma SettledIsFresh(c: Config, s: State, events: seq<Event>, last: State, i: nat, cell: Cell)
    requires RunToIdle(c, s, events, last)
    ensures Inv(c, last)
    ensures SettledCell(c, last, i, cell) ==> i < |last.vmem| && Fresh(c, cell, i, last.vmem[i])
  {
    SettlesFresh(c, s, events, last);
  }

  // ----- 16-bit mode -----

  /** 16-bit mode reads a pixel twice: once for its high byte, once for its low byte. */
  function Rgb565Part(start: nat, i: nat, v: Word16, k: nat): nat {
    if k == 0 then v / 256 else v % 256
  }

  function SixteenBit(width: nat, height: U32, cap: nat, pageSize: nat): Config {
    Config(width, height, cap, pageSize, false, 2, Rgb565Part)
  }

  lemma FreshMeansBytes(c: Config, cell: Cell, i: nat, v: Word16)
    requires c == SixteenBit(c.width, c.height, c.cap, c.pageSize) && Fresh(c, cell, i, v)
    ensures cell.parts == [v / 256, v % 256]
  {
    assert cell.parts == [c.part(cell.start, i, v, 0), c.part(cell.start, i, v, 1)];
  }

  /** In 16-bit mode the settled panel holds the two bytes of every pixel of video memory. */
  lemma SixteenBitSettles(c: Config, s: State, events: seq<Event>, last: State, i: nat, cell: Cell)
    requires c == SixteenBit(c.width, c.height, c.cap, c.pageSize) && RunToIdle(c, s, events, last)
    ensures Inv(c, last)
    ensures SettledCell(c, last, i, cell) ==>
              i < |last.vmem| && cell.parts == [last.vmem[i] / 256, last.vmem[i] % 256]
  {
    SettledIsFresh(c, s, events, last, i, cell);
    if SettledCell(c, last, i, cell) {
      FreshMeansBytes(c, cell, i, last.vmem[i]);
    }
  }

  // ----- 3-bit modes -----

  function Bits(p: Rgb3): seq<nat> {
    [Bit(p.red), Bit(p.green), Bit(p.blue)]
  }

  /** A 3-bit mode reads a pixel three times: red, green, blue. */
  function ThreeBitPart(f: PixelCoder, width: nat, start: nat, i: nat, v: Word16, k: nat): nat {
    if start * width > i then 0 else
      var p := f(StartOffset(width, start) + (i - start * width), v);
      Bit(if k == 0 then p.red else if k == 1 then p.green else p.blue)
  }

  function ThreeBit(f: PixelCoder, width: nat, height: U32, cap: nat, pageSize: nat): Config {
    Config(width, height, cap, pageSize, true, 3,
           (start: nat, i: nat, v: Word16, k: nat) => ThreeBitPart(f, width, start, i, v, k))
  }

  lemma FreshMeansBits(f: PixelCoder, c: Config, cell: Cell, i: nat, v: Word16)
    requires c == ThreeBit(f, c.width, c.height, c.cap, c.pageSize) && Fresh(c, cell, i, v)
    ensures cell.start * c.width <= i
    ensures cell.parts == Bits(f(StartOffset(c.width, cell.start) + (i - cell.start * c.width), v))
  {
    assert cell.parts == [c.part(cell.start, i, v, 0), c.part(cell.start, i, v, 1), c.part(cell.start, i, v, 2)];
  }

  /** In plain 3-bit mode every settled pixel that is not excused is the three threshold decisions on its value. */
  lemma PlainSettles(c: Config, s: State, events: seq<Event>, last: State, i: nat, cell: Cell)
    requires c.width > 0 && c == ThreeBit(Coder(false, c.width), c.width, c.height, c.cap, c.pageSize)
    requires RunToIdle(c, s, events, last)
    ensures Inv(c, last)
    ensures SettledCell(c, last, i, cell) ==> i < |last.vmem| && cell.parts == Bits(PlainPixel(last.vmem[i]))
  {
    SettledIsFresh(c, s, events, last, i, cell);
    if SettledCell(c, last, i, cell) {
      FreshMeansBits(Coder(false, c.width), c, cell, i, last.vmem[i]);
    }
  }

  /** In dithered mode every settled pixel that is not excused is the table's decision on its
      value, in the phase of the flush that sent it. */
  lemma DitheredSettles(c: Config, s: State, events: seq<Event>, last: State, y: nat, x: nat, i: nat, cell: Cell)
    requires c.width > 0 && c == ThreeBit(Coder(true, c.width), c.width, c.height, c.cap, c.pageSize)
    requires RunToIdle(c, s, events, last) && x < c.width && i == RowStart(c.width, y) + x
    ensures Inv(c, last)
    ensures SettledCell(c, last, i, cell) ==>
              && i < |last.vmem| && cell.start <= y
              && cell.parts == Bits(DitherAt((cell.start + y) % 8, x % 8, last.vmem[i]))
  {
    SettledIsFresh(c, s, events, last, i, cell);
    if SettledCell(c, last, i, cell) {
      FreshMeansBits(Coder(true, c.width), c, cell, i, last.vmem[i]);
      StartsAbove(c.width, cell.start, y, x);
      CoderShows(Coder(true, c.width), c.width, cell.start, y, x, last.vmem[i], i - cell.start * c.width);
    }
  }

  lemma StartsAbove(width: nat, start: nat, y: nat, x: nat)
    requires x < width && start * width <= RowStart(width, y) + x
    ensures start <= y && RowStart(width, y) + x - start * width == (y - start) * width + x
  {
    if start > y {
      TimesMonotone(y + 1, start, width);
      Distribute(y, 1, width);
    }
    Distribute(y - start, start, width);
  }
}
