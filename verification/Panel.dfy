/** The wire between driver and panel, and a panel that follows the MIPI Alliance Display
    Command Set: set_column_address (2Ah), set_page_address (2Bh), write_memory_start (2Ch). */
module Panel {
  import opened Words
  import opened RowMajor
  import opened PixelCode

  /** One byte on the SPI bus with the level of the data/command pin. */
  datatype Xfer = Xfer(dc: bool, byte: Byte)

  function Transfer(dc: bool, bytes: seq<Byte>): (xs: seq<Xfer>)
    ensures |xs| == |bytes|
  {
    seq(|bytes|, k requires 0 <= k < |bytes| => Xfer(dc, bytes[k]))
  }

  function Data(bytes: seq<Byte>): seq<Xfer> {
    Transfer(true, bytes)
  }

  type Frame<V> = map<(nat, nat), V>

  /** Window registers, current command, its parameters so far, write position, and the frame
      memory by (column, page). `full` says that the last pixel of the window was written. */
  datatype State = State(sc: nat, ec: nat, sp: nat, ep: nat, cmd: Byte, args: seq<Byte>, col: nat, page: nat,
      full: bool, mem: Frame<Word16>)

  function Join(hi: Byte, lo: Byte): Word16 {
    hi * 256 + lo
  }

  function WritePixel(p: State, v: Word16): State {
    var q := p.(args := [], mem := p.mem[(p.col, p.page) := v]);
    if p.col != p.ec then q.(col := p.col + 1)
    else if p.page != p.ep then q.(col := p.sc, page := p.page + 1)
    else q.(full := true)
  }

  function Step(p: State, x: Xfer): State {
    if !x.dc then
      var q := p.(cmd := x.byte, args := []);
      if x.byte == 0x2C then q.(col := p.sc, page := p.sp, full := false) else q
    else if p.cmd == 0x2C then
      if p.full then p
      else if p.args == [] then p.(args := [x.byte])
      else WritePixel(p, Join(p.args[0], x.byte))
    else if (p.cmd == 0x2A || p.cmd == 0x2B) && |p.args| < 4 then
      var a := p.args + [x.byte];
      var q := p.(args := a);
      if |a| < 4 then q
      else if p.cmd == 0x2A then q.(sc := Join(a[0], a[1]), ec := Join(a[2], a[3]))
      else q.(sp := Join(a[0], a[1]), ep := Join(a[2], a[3]))
    else p
  }

  function Feed(p: State, xs: seq<Xfer>): State {
    if xs == [] then p else Step(Feed(p, xs[..|xs| - 1]), xs[|xs| - 1])
  }

  lemma {:induction false} FeedConcat(p: State, a: seq<Xfer>, b: seq<Xfer>)
    ensures Feed(p, a + b) == Feed(Feed(p, a), b)
  {
    if b == [] {
      assert a + b == a;
    } else {
      assert (a + b)[..|a + b| - 1] == a + b[..|b| - 1];
      FeedConcat(p, a, b[..|b| - 1]);
    }
  }

  // ----- Opening a window -----

  /** A register write: the command with the pin low, its parameters with the pin high. */
  function RegWrite(cmd: Byte, params: seq<Byte>): seq<Xfer> {
    [Xfer(false, cmd)] + Data(params)
  }

  function High(v: nat): Byte {
    (v / 256) % 256
  }

  function Low(v: nat): Byte {
    v % 256
  }

  /** The stream of `ili9488_set_addr_win`. */
  function WindowStream(xs: nat, ys: nat, xe: nat, ye: nat): seq<Xfer> {
    RegWrite(0x2A, [High(xs), Low(xs), High(xe), Low(xe)]) +
    RegWrite(0x2B, [High(ys), Low(ys), High(ye), Low(ye)]) +
    RegWrite(0x2C, [])
  }

  lemma FeedOne(p: State, x: Xfer)
    ensures Feed(p, [x]) == Step(p, x)
  {
    assert Feed(p, [x][..0]) == p;
  }

  lemma FeedFour(p: State, a: Byte, b: Byte, c: Byte, d: Byte)
    requires p.args == [] && (p.cmd == 0x2A || p.cmd == 0x2B)
    ensures Feed(p, Data([a, b, c, d])) ==
            if p.cmd == 0x2A then p.(args := [a, b, c, d], sc := Join(a, b), ec := Join(c, d))
            else p.(args := [a, b, c, d], sp := Join(a, b), ep := Join(c, d))
  {
    var x0, x1, x2, x3 := Xfer(true, a), Xfer(true, b), Xfer(true, c), Xfer(true, d);
    assert Data([a, b, c, d]) == [x0] + [x1] + [x2] + [x3];
    FeedOne(p, x0);
    var p1 := Step(p, x0);
    FeedOne(p1, x1);
    var p2 := Step(p1, x1);
    FeedOne(p2, x2);
    var p3 := Step(p2, x2);
    FeedOne(p3, x3);
    FeedConcat(p, [x0], [x1]);
    FeedConcat(p, [x0] + [x1], [x2]);
    FeedConcat(p, [x0] + [x1] + [x2], [x3]);
  }

  lemma JoinHighLow(v: nat)
    ensures Join(High(v), Low(v)) == v % 65536
  {
    var q := v / 256;
    var h, r := q / 256, 256 * (q % 256) + v % 256;
    assert v == h * 65536 + r;
    RowAndColumn(65536, h, r);
  }

  lemma FeedRegWrite(p: State, cmd: Byte, a: nat, b: nat)
    requires cmd == 0x2A || cmd == 0x2B
    ensures Feed(p, RegWrite(cmd, [High(a), Low(a), High(b), Low(b)])) ==
            var q := p.(cmd := cmd, args := [High(a), Low(a), High(b), Low(b)]);
            if cmd == 0x2A then q.(sc := a % 65536, ec := b % 65536) else q.(sp := a % 65536, ep := b % 65536)
  {
    var x := Xfer(false, cmd);
    FeedOne(p, x);
    FeedConcat(p, [x], Data([High(a), Low(a), High(b), Low(b)]));
    FeedFour(Step(p, x), High(a), Low(a), High(b), Low(b));
    JoinHighLow(a);
    JoinHighLow(b);
  }

  /** The panel opens the window modulo 65536, and is ready to write its first pixel. */
  lemma WindowOpens(p: State, xs: nat, ys: nat, xe: nat, ye: nat)
    ensures var q := Feed(p, WindowStream(xs, ys, xe, ye));
            && q.sc == xs % 65536 && q.ec == xe % 65536 && q.sp == ys % 65536 && q.ep == ye % 65536
            && q.cmd == 0x2C && q.args == [] && q.col == q.sc && q.page == q.sp && !q.full && q.mem == p.mem
  {
    var columns := RegWrite(0x2A, [High(xs), Low(xs), High(xe), Low(xe)]);
    var pages := RegWrite(0x2B, [High(ys), Low(ys), High(ye), Low(ye)]);
    FeedRegWrite(p, 0x2A, xs, xe);
    FeedRegWrite(Feed(p, columns), 0x2B, ys, ye);
    FeedConcat(p, columns, pages);
    FeedConcat(p, columns + pages, RegWrite(0x2C, []));
    assert RegWrite(0x2C, []) == [Xfer(false, 0x2C)];
    FeedOne(Feed(p, columns + pages), Xfer(false, 0x2C));
  }

  /** The window registers hold a window, and pixel data is what comes next. */
  predicate Opened(p: State, xs: nat, ys: nat, xe: nat, ye: nat) {
    p.cmd == 0x2C && p.sc == xs && p.sp == ys && p.ec == xe && p.ep == ye
  }

  /** Pixel data leaves them as they are. */
  lemma {:induction false} DataKeepsWindow(p: State, bytes: seq<Byte>, xs: nat, ys: nat, xe: nat, ye: nat)
    requires Opened(p, xs, ys, xe, ye)
    ensures Opened(Feed(p, Data(bytes)), xs, ys, xe, ye)
  {
    if bytes == [] {
    } else {
      var front, b := bytes[..|bytes| - 1], bytes[|bytes| - 1];
      DataKeepsWindow(p, front, xs, ys, xe, ye);
      DataOneMore(front, b);
      assert Feed(p, Data(bytes)) == Step(Feed(p, Data(front)), Xfer(true, b)) by {
        assert bytes == front + [b];
      }
    }
  }

  lemma DataOneMore(front: seq<Byte>, b: Byte)
    ensures Data(front + [b]) == Data(front) + [Xfer(true, b)]
    ensures Data(front + [b])[..|front|] == Data(front)
  {
  }

  // ----- Filling it -----

  /** The index of pixel (x, y) in a window `width` wide whose first line is `top`. */
  function Index(width: nat, top: nat, x: nat, y: nat): int {
    (y - top) * width + x
  }

  predicate InWindow(width: nat, top: nat, x: nat, y: nat, n: nat) {
    x < width && top <= y && Index(width, top, x, y) < n
  }

  /** A pixel among the first |px| of the window shows its value; any other is untouched. */
  ghost predicate PixelPainted<V>(before: Frame<V>, after: Frame<V>, width: nat, top: nat, px: seq<V>, x: nat, y: nat) {
    if InWindow(width, top, x, y, |px|) then
      var k := Index(width, top, x, y);
      0 <= k && (x, y) in after && after[(x, y)] == px[k]
    else ((x, y) in after <==> (x, y) in before) && ((x, y) in before ==> after[(x, y)] == before[(x, y)])
  }

  /** Exactly the first |px| pixels of the window were written. */
  ghost predicate Painted<V>(before: Frame<V>, after: Frame<V>, width: nat, top: nat, px: seq<V>) {
    forall x: nat, y: nat :: PixelPainted(before, after, width, top, px, x, y)
  }

  /** The panel expects pixel n of the window. */
  predicate AtPixel(p: State, width: nat, top: nat, bottom: nat, n: nat) {
    && p.cmd == 0x2C && p.args == [] && width > 0 && top <= bottom
    && p.sc == 0 && p.ec == width - 1 && p.ep == bottom
    && if p.full then n == (bottom - top + 1) * width
       else p.col < width && top <= p.page <= bottom && n == Index(width, top, p.col, p.page)
  }

  lemma FeedPixelBytes(p: State, v: Word16)
    requires p.cmd == 0x2C && p.args == [] && !p.full
    ensures Feed(p, Data([v / 256, v % 256])) == WritePixel(p.(args := [v / 256]), v)
  {
    var x0, x1 := Xfer(true, v / 256), Xfer(true, v % 256);
    assert Data([v / 256, v % 256]) == [x0] + [x1];
    FeedConcat(p, [x0], [x1]);
    FeedOne(p, x0);
    FeedOne(Step(p, x0), x1);
    assert Join(v / 256, v % 256) == v;
  }

  lemma WriteAdvances(p: State, width: nat, top: nat, bottom: nat, n: nat, v: Word16)
    requires AtPixel(p, width, top, bottom, n) && !p.full
    ensures AtPixel(WritePixel(p.(args := [v / 256]), v), width, top, bottom, n + 1)
  {
    Distribute(p.page - top, 1, width);
  }

  lemma PaintPixel<V>(before: Frame<V>, after: Frame<V>, width: nat, top: nat, px: seq<V>, x: nat, y: nat, v: V,
                   x': nat, y': nat)
    requires PixelPainted(before, after, width, top, px, x', y')
    requires x < width && top <= y && |px| == Index(width, top, x, y)
    ensures PixelPainted(before, after[(x, y) := v], width, top, px + [v], x', y')
  {
    RowAndColumn(width, y - top, x);
    if x' < width && top <= y' {
      RowAndColumn(width, y' - top, x');
    }
  }

  lemma Paint<V>(before: Frame<V>, after: Frame<V>, width: nat, top: nat, px: seq<V>, x: nat, y: nat, v: V)
    requires Painted(before, after, width, top, px)
    requires x < width && top <= y && |px| == Index(width, top, x, y)
    ensures Painted(before, after[(x, y) := v], width, top, px + [v])
  {
    var painted, more := after[(x, y) := v], px + [v];
    forall x': nat, y': nat ensures PixelPainted(before, painted, width, top, more, x', y') {
      assert PixelPainted(before, after, width, top, px, x', y');
      PaintPixel(before, after, width, top, px, x, y, v, x', y');
    }
  }

  lemma DataConcat(a: seq<Byte>, b: seq<Byte>)
    ensures Data(a + b) == Data(a) + Data(b)
  {
  }

  lemma FeedOnePixelMore(p: State, px: seq<Word16>, v: Word16)
    ensures Feed(p, Data(Rgb565Bytes(px + [v]))) == Feed(Feed(p, Data(Rgb565Bytes(px))), Data([v / 256, v % 256]))
  {
    assert (px + [v])[..|px|] == px;
    DataConcat(Rgb565Bytes(px), [v / 256, v % 256]);
    FeedConcat(p, Data(Rgb565Bytes(px)), Data([v / 256, v % 256]));
  }

  lemma PaintOneMore(before: Frame<Word16>, q: State, width: nat, top: nat, bottom: nat, front: seq<Word16>, v: Word16)
    requires AtPixel(q, width, top, bottom, |front|) && !q.full && Painted(before, q.mem, width, top, front)
    ensures var r := Feed(q, Data([v / 256, v % 256]));
            AtPixel(r, width, top, bottom, |front| + 1) && Painted(before, r.mem, width, top, front + [v])
  {
    FeedPixelBytes(q, v);
    WriteAdvances(q, width, top, bottom, |front|, v);
    Paint(before, q.mem, width, top, front, q.col, q.page, v);
  }

  lemma NotFullYet(q: State, width: nat, top: nat, bottom: nat, n: nat)
    requires AtPixel(q, width, top, bottom, n) && n < (bottom - top + 1) * width
    ensures !q.full
  {
  }

  lemma {:induction false} PixelsPaint(p: State, width: nat, top: nat, bottom: nat, px: seq<Word16>)
    requires AtPixel(p, width, top, bottom, 0) && !p.full && |px| <= (bottom - top + 1) * width
    ensures AtPixel(Feed(p, Data(Rgb565Bytes(px))), width, top, bottom, |px|)
    ensures Painted(p.mem, Feed(p, Data(Rgb565Bytes(px))).mem, width, top, px)
  {
    if px == [] {
      assert forall x: nat, y: nat | x < width && top <= y :: Index(width, top, x, y) >= 0;
    } else {
      var front, v := px[..|px| - 1], px[|px| - 1];
      assert px == front + [v];
      PixelsPaint(p, width, top, bottom, front);
      FeedOnePixelMore(p, front, v);
      var q := Feed(p, Data(Rgb565Bytes(front)));
      NotFullYet(q, width, top, bottom, |front|);
      PaintOneMore(p.mem, q, width, top, bottom, front, v);
    }
  }

  /** The 16-bit stream of a window sets exactly its pixels, whatever the panel held. */
  lemma WindowStreamPaints(p: State, width: nat, top: nat, bottom: nat, px: seq<Word16>)
    requires 0 < width <= 65536 && top <= bottom < 65536 && |px| == (bottom - top + 1) * width
    ensures Painted(p.mem, Feed(p, WindowStream(0, top, width - 1, bottom) + Data(Rgb565Bytes(px))).mem, width, top, px)
  {
    var open := WindowStream(0, top, width - 1, bottom);
    var q := Feed(p, open);
    WindowReady(p, width, top, bottom);
    FeedConcat(p, open, Data(Rgb565Bytes(px)));
    PixelsPaint(q, width, top, bottom, px);
  }

  lemma WindowReady(p: State, width: nat, top: nat, bottom: nat)
    requires 0 < width <= 65536 && top <= bottom < 65536
    ensures var q := Feed(p, WindowStream(0, top, width - 1, bottom));
            AtPixel(q, width, top, bottom, 0) && !q.full && q.mem == p.mem
  {
    WindowOpens(p, 0, top, width - 1, bottom);
    SmallWord(top);
    SmallWord(width - 1);
    SmallWord(bottom);
    FirstPixel(Feed(p, WindowStream(0, top, width - 1, bottom)), width, top, bottom);
  }

  lemma SmallWord(v: nat)
    requires v < 65536
    ensures v % 65536 == v
  {
  }

  lemma FirstPixel(q: State, width: nat, top: nat, bottom: nat)
    requires q.cmd == 0x2C && q.args == [] && 0 < width && top <= bottom && !q.full
    requires q.sc == 0 && q.ec == width - 1 && q.ep == bottom && q.col == 0 && q.page == top
    ensures AtPixel(q, width, top, bottom, 0)
  {
  }
}
