/** The protocol against the driver: a flush of the protocol that nothing disturbs puts on the wire
    what the driver's deferred worker does, and leaves the same dirty range. */
module FlushDriver {
  import opened Words
  import opened RowMajor
  import opened PixelCode
  import opened Dither
  import opened Panel
  import opened DirtyRange
  import opened Ili9488Driver
  import F = FlushProtocol
  import M = FlushModes
  import W = FlushWire
  import P = FlushPairs

  // ----- 16-bit mode -----

  /** What the worker sends until it has nothing left to do. */
  ghost function SettleWire(c: F.Config, s: F.State): seq<Xfer>
    requires F.ValidConfig(c) && F.Inv(c, s)
    decreases if F.WorkerEnabled(s) then F.Work(c, s) else 0
  {
    if !F.WorkerEnabled(s) then []
    else
      F.WorkerNeverStuck(c, s);
      F.StepKeeps(c, s, F.Worker);
      F.StepWorks(c, s);
      F.WorkIsPositive(c, s);
      W.Wire(c, s, F.Worker) + SettleWire(c, F.WorkerStep(c, s))
  }

  lemma SettleWireUnfolds(c: F.Config, s: F.State)
    requires F.ValidConfig(c) && F.Inv(c, s) && F.WorkerEnabled(s)
    ensures F.Enabled(c, s, F.Worker) && F.Inv(c, F.WorkerStep(c, s)) &&
            0 <= F.Work(c, F.WorkerStep(c, s)) + 1 <= F.Work(c, s)
    ensures SettleWire(c, s) == W.Wire(c, s, F.Worker) + SettleWire(c, F.WorkerStep(c, s))
  {
    F.WorkerNeverStuck(c, s);
    F.StepKeeps(c, s, F.Worker);
    F.StepWorks(c, s);
    F.WorkIsPositive(c, s);
  }

  /** The batch and the parts read are those of video memory as it is. */
  ghost predicate Undisturbed(c: F.Config, s: F.State)
    requires F.ValidConfig(c) && F.Inv(c, s)
  {
    s.flush.Flushing? ==>
      var f := s.flush;
      && !s.scheduled
      && (forall k | 0 <= k < |f.batch| ::
            f.batch[k] == F.Cell(f.first, F.Encode(c, f.first, f.next - |f.batch| + k, s.vmem[f.next - |f.batch| + k])))
      && (f.read != [] ==> f.read == F.Encode(c, f.first, f.next, s.vmem[f.next])[..|f.read|])
  }

  lemma StepUndisturbed(c: F.Config, s: F.State)
    requires F.ValidConfig(c) && F.Inv(c, s) && F.Enabled(c, s, F.Worker) && Undisturbed(c, s)
    ensures F.Inv(c, F.WorkerStep(c, s)) && Undisturbed(c, F.WorkerStep(c, s))
  {
    F.StepKeeps(c, s, F.Worker);
    var f := s.flush;
    if f.Flushing? && !f.sending && |f.batch| < c.cap && f.next < F.EndOf(c, f) {
      CopyUndisturbed(c, s);
    } else if f.Flushing? {
      SendUndisturbed(c, s);
    }
  }

  /** Sending, and the steps between. */
  lemma SendUndisturbed(c: F.Config, s: F.State)
    requires F.ValidConfig(c) && F.Inv(c, s) && F.Enabled(c, s, F.Worker) && Undisturbed(c, s)
    requires var f := s.flush; f.Flushing? && (f.sending || |f.batch| >= c.cap || f.next >= F.EndOf(c, f))
    requires F.Inv(c, F.WorkerStep(c, s))
    ensures Undisturbed(c, F.WorkerStep(c, s))
  {
  }

  /** Copying a pixel, part by part. */
  lemma CopyUndisturbed(c: F.Config, s: F.State)
    requires F.ValidConfig(c) && F.Inv(c, s) && F.Enabled(c, s, F.Worker) && Undisturbed(c, s)
    requires var f := s.flush; f.Flushing? && !f.sending && |f.batch| < c.cap && f.next < F.EndOf(c, f)
    requires F.Inv(c, F.WorkerStep(c, s))
    ensures Undisturbed(c, F.WorkerStep(c, s))
  {
    var f := s.flush;
    var whole := F.Encode(c, f.first, f.next, s.vmem[f.next]);
    assert whole[..|whole|] == whole;
    if |f.read| < c.parts {
      assert whole[..|f.read| + 1] == whole[..|f.read|] + [whole[|f.read|]];
    }
  }

  /** A step that sends a pixel of the batch. */
  lemma SendStep(c: F.Config, s: F.State, i: nat)
    requires W.ValidConfig(c) && F.Inv(c, s) && Undisturbed(c, s) && F.Enabled(c, s, F.Worker)
    requires var f := s.flush; f.Flushing? && f.sending && !f.odd && f.batch != [] && i == f.next - |f.batch|
    ensures var g := F.WorkerStep(c, s).flush;
            g.Flushing? && !g.odd && g.next - |g.batch| == i + 1 && F.EndOf(c, g) == F.EndOf(c, s.flush)
    ensures W.Wire(c, s, F.Worker) == Data([s.vmem[i] / 256, s.vmem[i] % 256])
  {
    var cell := s.flush.batch[0];
    EncodedPixel(c, s.flush.first, i, s.vmem[i]);
    assert cell == s.flush.batch[0] && cell.parts == [s.vmem[i] / 256, s.vmem[i] % 256];
  }

  /** A step of a flush that sends nothing: its place stays, or it ends with nothing left. */
  lemma SilentStep(c: F.Config, s: F.State)
    requires W.ValidConfig(c) && F.Inv(c, s) && F.Enabled(c, s, F.Worker)
    requires var f := s.flush; f.Flushing? && !f.odd && !(f.sending && f.batch != [])
    ensures W.Wire(c, s, F.Worker) == []
    ensures var f, g := s.flush, F.WorkerStep(c, s).flush;
            if g.Flushing? then !g.odd && g.next - |g.batch| == f.next - |f.batch| && F.EndOf(c, g) == F.EndOf(c, f)
            else f.next - |f.batch| == F.EndOf(c, f)
  {
  }

  lemma EncodedPixel(c: F.Config, start: nat, i: nat, v: Word16)
    requires W.ValidConfig(c)
    ensures F.Encode(c, start, i, v) == [v / 256, v % 256]
  {
    assert F.Encode(c, start, i, v) == [c.part(start, i, v, 0), c.part(start, i, v, 1)];
  }

  lemma OnePixelFirst(w: seq<Xfer>, px: seq<Word16>, i: nat, n: nat)
    requires n > 0 && i + n <= |px|
    requires w == Data([px[i] / 256, px[i] % 256]) + Data(Rgb565From(px, i + 1, n - 1))
    ensures w == Data(Rgb565From(px, i, n))
  {
    Rgb565Batches(px, i, 1, n - 1);
    assert Rgb565From(px, i, 0) == [];
    DataConcat([px[i] / 256, px[i] % 256], Rgb565From(px, i + 1, n - 1));
  }

  /** A flush that ends before pixel `end`, with pixel i to be sent next. */
  ghost predicate Sending(c: F.Config, s: F.State, i: nat, end: nat) {
    && W.ValidConfig(c) && F.Inv(c, s) && Undisturbed(c, s) && s.flush.Flushing? && !s.flush.odd
    && i == s.flush.next - |s.flush.batch| && end == F.EndOf(c, s.flush)
  }

  /** A flush under way sends the bytes of the pixels that it has yet to send. */
  lemma {:induction false} FlushSendsRest(c: F.Config, s: F.State, i: nat, n: nat, end: nat, px: seq<Word16>)
    requires Sending(c, s, i, end) && px == s.vmem && i + n == end <= |px|
    ensures SettleWire(c, s) == Data(Rgb565From(px, i, n))
    decreases F.Work(c, s), 1
  {
    SettleWireUnfolds(c, s);
    if s.flush.sending && s.flush.batch != [] {
      FlushSendsOne(c, s, i, n, end, px);
    } else {
      FlushSendsLater(c, s, i, n, end, px);
    }
  }

  lemma {:induction false} FlushSendsOne(c: F.Config, s: F.State, i: nat, n: nat, end: nat, px: seq<Word16>)
    requires Sending(c, s, i, end) && px == s.vmem && i + n == end <= |px| && F.Enabled(c, s, F.Worker)
    requires s.flush.sending && s.flush.batch != []
    ensures SettleWire(c, s) == Data(Rgb565From(px, i, n))
    decreases F.Work(c, s), 0
  {
    var s' := PixelGoesOut(c, s, i, end);
    FlushSendsRest(c, s', i + 1, n - 1, end, px);
    OnePixelFirst(SettleWire(c, s), px, i, n);
  }

  lemma PixelGoesOut(c: F.Config, s: F.State, i: nat, end: nat) returns (s': F.State)
    requires Sending(c, s, i, end) && F.Enabled(c, s, F.Worker) && s.flush.sending && s.flush.batch != []
    ensures Sending(c, s', i + 1, end) && s'.vmem == s.vmem && i < end && 0 <= F.Work(c, s') + 1 <= F.Work(c, s)
    ensures i < |s.vmem| && SettleWire(c, s) == Data([s.vmem[i] / 256, s.vmem[i] % 256]) + SettleWire(c, s')
  {
    SettleWireUnfolds(c, s);
    StepUndisturbed(c, s);
    SendStep(c, s, i);
    s' := F.WorkerStep(c, s);
  }

  lemma {:induction false} FlushSendsLater(c: F.Config, s: F.State, i: nat, n: nat, end: nat, px: seq<Word16>)
    requires Sending(c, s, i, end) && px == s.vmem && i + n == end <= |px| && F.Enabled(c, s, F.Worker)
    requires !(s.flush.sending && s.flush.batch != [])
    ensures SettleWire(c, s) == Data(Rgb565From(px, i, n))
    decreases F.Work(c, s), 0
  {
    SettleWireUnfolds(c, s);
    StepUndisturbed(c, s);
    SilentStep(c, s);
    if F.WorkerStep(c, s).flush.Flushing? {
      FlushSendsRest(c, F.WorkerStep(c, s), i, n, end, px);
    } else {
      NothingRests(px, i);
    }
  }

  lemma NothingRests(px: seq<Word16>, i: nat)
    requires i <= |px|
    ensures Data(Rgb565From(px, i, 0)) == []
  {
  }

  /** The range that a flush starting now asks `update_display` for. */
  function Request(c: F.Config, s: F.State): Range
    requires F.ValidConfig(c)
  {
    WidenAll(s.dirty, c.height, c.width * 2, c.pageSize, F.Offsets(c, s.touched))
  }

  lemma {:induction false} SettleKeepsRange(c: F.Config, s: F.State)
    requires F.ValidConfig(c) && F.Inv(c, s) && !s.scheduled
    ensures F.Settle(c, s).dirty == s.dirty
    decreases if F.WorkerEnabled(s) then F.Work(c, s) else 0
  {
    if F.WorkerEnabled(s) {
      F.WorkerNeverStuck(c, s);
      F.StepKeeps(c, s, F.Worker);
      F.StepWorks(c, s);
      F.WorkIsPositive(c, s);
      SettleKeepsRange(c, F.WorkerStep(c, s));
    }
  }

  /** In 16-bit mode a flush of the protocol that no caller disturbs sends what the driver's
      worker sends for the same dirty range, pages and video memory, and leaves the range clean. */
  lemma UndisturbedFlushIsDriver(c: F.Config, s: F.State, dither: bool)
    requires W.ValidConfig(c) && F.Inv(c, s) && s.flush.NoFlush? && s.scheduled
    ensures SettleWire(c, s) == DisplayStream(false, dither, c.width, c.height, s.vmem, Request(c, s))
    ensures F.Settle(c, s).dirty == Clean(c.height)
  {
    var r := ToSend(Request(c, s), c.height);
    var lines := LinesOf(c.width, c.height, s.vmem, r);
    var first, end, s' := WindowGoesOut(c, s, r);
    LinesFromStart(c.width, c.height, s.vmem, r, lines, first);
    FlushSendsRest(c, s', first, |lines|, end, s.vmem);
    SettleKeepsRange(c, s');
  }

  lemma WindowGoesOut(c: F.Config, s: F.State, r: Range) returns (first: nat, end: nat, s': F.State)
    requires W.ValidConfig(c) && F.Inv(c, s) && s.flush.NoFlush? && s.scheduled && r == ToSend(Request(c, s), c.height)
    ensures first == r.first * c.width && end == (r.last + 1) * c.width && Sending(c, s', first, end)
    ensures s'.vmem == s.vmem && s'.dirty == Clean(c.height) && !s'.scheduled && F.Settle(c, s) == F.Settle(c, s')
    ensures SettleWire(c, s) == WindowStream(0, r.first, c.width - 1, r.last) + SettleWire(c, s')
  {
    SettleWireUnfolds(c, s);
    StartUndisturbed(c, s);
    first, end, s' := r.first * c.width, (r.last + 1) * c.width, F.WorkerStep(c, s);
  }

  lemma StartUndisturbed(c: F.Config, s: F.State)
    requires F.ValidConfig(c) && F.Inv(c, s) && s.flush.NoFlush? && s.scheduled
    ensures var r, s' := F.FlushRange(c, s), F.WorkerStep(c, s);
            && r == ToSend(Request(c, s), c.height) && F.Inv(c, s') && Undisturbed(c, s') && s'.vmem == s.vmem
            && s'.flush == F.Flushing(r.first, r.last, r.first * c.width, [], [], false, false)
            && s'.dirty == Clean(c.height) && !s'.scheduled
  {
    F.WorkerNeverStuck(c, s);
    F.StepKeeps(c, s, F.Worker);
    assert F.LineLength(c) == c.width * 2;
  }

  lemma LinesFromStart(width: nat, height: nat, vmem: seq<Word16>, r: Range, lines: seq<Word16>, first: nat)
    requires |vmem| == width * height && r.first <= r.last < height && first == r.first * width
    requires lines == LinesOf(width, height, vmem, r)
    ensures first + |lines| == (r.last + 1) * width <= |vmem|
    ensures Rgb565From(vmem, first, |lines|) == Rgb565Bytes(lines)
  {
    LineBounds(width, height, r);
    assert lines == vmem[first..first + |lines|];
    Rgb565FromIs(vmem, first, |lines|);
  }

  // ----- 3-bit modes -----

  function BytesOf(o: P.Output): seq<Byte> {
    if o.Pair? then [o.byte] else []
  }

  /** The data bytes that the worker sends until it has nothing left to do. */
  ghost function SettleBytes(c: F.Config, s: F.State): seq<Byte>
    requires F.ValidConfig(c) && F.Inv(c, s)
    decreases if F.WorkerEnabled(s) then F.Work(c, s) else 0
  {
    if !F.WorkerEnabled(s) then []
    else
      F.WorkerNeverStuck(c, s);
      F.StepKeeps(c, s, F.Worker);
      F.StepWorks(c, s);
      F.WorkIsPositive(c, s);
      BytesOf(P.Out(c, s, F.Worker)) + SettleBytes(c, F.WorkerStep(c, s))
  }

  lemma SettleBytesUnfolds(c: F.Config, s: F.State)
    requires F.ValidConfig(c) && F.Inv(c, s) && F.WorkerEnabled(s)
    ensures F.Enabled(c, s, F.Worker) && F.Inv(c, F.WorkerStep(c, s)) &&
            0 <= F.Work(c, F.WorkerStep(c, s)) + 1 <= F.Work(c, s)
    ensures SettleBytes(c, s) == BytesOf(P.Out(c, s, F.Worker)) + SettleBytes(c, F.WorkerStep(c, s))
  {
    F.WorkerNeverStuck(c, s);
    F.StepKeeps(c, s, F.Worker);
    F.StepWorks(c, s);
    F.WorkIsPositive(c, s);
  }

  /** The running offset of pixel i in a flush from line `first`. */
  function OffsetOf(c: F.Config, first: nat, i: nat): nat
    requires first * c.width <= i
  {
    StartOffset(c.width, first) + (i - first * c.width)
  }

  lemma EncodedTriple(f: PixelCoder, c: F.Config, first: nat, i: nat, v: Word16, cell: F.Cell)
    requires P.BitMode(f, c) && first * c.width <= i && cell == F.Cell(first, F.Encode(c, first, i, v))
    ensures |cell.parts| == 3 && P.Triple(cell) == f(OffsetOf(c, first, i), v)
  {
  }

  /** Undisturbed, with the first pixel of a pair under way on the panel; j is the first pixel of
      the pair to be completed next. */
  ghost predicate AtPair(c: F.Config, s: F.State, j: nat)
    requires F.ValidConfig(c) && F.Inv(c, s)
  {
    && Undisturbed(c, s) && F.LeftOutAtLineEnds(c, s)
    && (s.flush.Flushing? ==>
          var f, i := s.flush, P.NextPlace(s.flush);
          && f.first * c.width <= j < |s.vmem| + 1
          && if P.MidPair(f) then j == i - 1 && s.panel[j] ==
              F.Cell(f.first, F.Encode(c, f.first, j, s.vmem[j])) else j == i)
  }

  /** A flush from line `first` that ends before pixel `end`, at pair j. */
  ghost predicate Pairing(f: PixelCoder, c: F.Config, s: F.State, j: nat, first: nat, end: nat) {
    && P.BitMode(f, c) && F.Inv(c, s) && s.flush.Flushing? && AtPair(c, s, j)
    && s.flush.first == first && F.EndOf(c, s.flush) == end && first * c.width <= j
  }

  /** The second pixel of a pair: its byte goes out, ... */
  lemma PairByte(f: PixelCoder, c: F.Config, s: F.State, j: nat, first: nat, end: nat, cur: nat)
    requires Pairing(f, c, s, j, first, end) && P.MidPair(s.flush) && F.Enabled(c, s, F.Worker)
    requires cur == OffsetOf(c, first, j)
    ensures j + 1 < |s.vmem|
    ensures BytesOf(P.Out(c, s, F.Worker)) == [Pack(f(cur, s.vmem[j]), f(cur + 1, s.vmem[j + 1]))]
  {
    OffsetOn(c, first, j);
    EncodedTriple(f, c, first, j, s.vmem[j], s.panel[j]);
    EncodedTriple(f, c, first, j + 1, s.vmem[j + 1], s.flush.batch[0]);
  }

  /** ... and the next pair comes. */
  lemma PairStep(f: PixelCoder, c: F.Config, s: F.State, j: nat, first: nat, end: nat)
    requires Pairing(f, c, s, j, first, end) && P.MidPair(s.flush) && F.Enabled(c, s, F.Worker)
    ensures Pairing(f, c, F.WorkerStep(c, s), j + 2, first, end) && j + 2 <= end && F.WorkerStep(c, s).vmem == s.vmem
  {
    StepUndisturbed(c, s);
    F.WorkerLeavesOutLineEnds(c, s);
  }

  /** The last pixel of an odd number: none completes its pair. */
  lemma DropStep(f: PixelCoder, c: F.Config, s: F.State, j: nat, first: nat, end: nat)
    requires Pairing(f, c, s, j, first, end) && F.Enabled(c, s, F.Worker)
    requires s.flush.sending && s.flush.odd && |s.flush.batch| == 1
    ensures BytesOf(P.Out(c, s, F.Worker)) == [] && F.WorkerStep(c, s).vmem == s.vmem
    ensures j + 1 == end && Pairing(f, c, F.WorkerStep(c, s), j + 1, first, end)
  {
    StepUndisturbed(c, s);
    F.WorkerLeavesOutLineEnds(c, s);
  }

  /** The first pixel of a pair: nothing goes out yet. */
  lemma FirstOfPairStep(f: PixelCoder, c: F.Config, s: F.State, j: nat, first: nat, end: nat)
    requires Pairing(f, c, s, j, first, end) && !P.MidPair(s.flush) && F.Enabled(c, s, F.Worker)
    requires s.flush.sending && s.flush.batch != [] && !(s.flush.odd && |s.flush.batch| == 1)
    ensures BytesOf(P.Out(c, s, F.Worker)) == [] && F.WorkerStep(c, s).vmem == s.vmem
    ensures Pairing(f, c, F.WorkerStep(c, s), j, first, end)
  {
    StepUndisturbed(c, s);
    F.WorkerLeavesOutLineEnds(c, s);
    FirstAtPair(c, s, j, F.WorkerStep(c, s));
  }

  lemma FirstAtPair(c: F.Config, s: F.State, j: nat, s': F.State)
    requires F.ValidConfig(c) && F.Inv(c, s) && F.Inv(c, s') && s.flush.Flushing? && AtPair(c, s, j)
    requires Undisturbed(c, s') && F.LeftOutAtLineEnds(c, s') && !P.MidPair(s.flush) && s.flush.sending
    requires s.flush.batch != [] && !(s.flush.odd && |s.flush.batch| == 1) && s'.vmem == s.vmem && j < |s.panel|
    requires s'.panel == s.panel[j := s.flush.batch[0]] && s'.flush == s.flush.(batch := s.flush.batch[1..])
    ensures AtPair(c, s', j)
  {
  }

  /** A step that sends no pixel: the pair to come stays, or the flush ends. */
  lemma NoPairStep(f: PixelCoder, c: F.Config, s: F.State, j: nat, first: nat, end: nat)
    requires Pairing(f, c, s, j, first, end) && F.Enabled(c, s, F.Worker)
    requires !(s.flush.sending && s.flush.batch != [])
    ensures BytesOf(P.Out(c, s, F.Worker)) == [] && F.WorkerStep(c, s).vmem == s.vmem
    ensures var s' := F.WorkerStep(c, s);
            if s'.flush.Flushing? then Pairing(f, c, s', j, first, end)
            else j == end && F.Inv(c, s') && !F.WorkerEnabled(s')
  {
    StepUndisturbed(c, s);
    F.WorkerLeavesOutLineEnds(c, s);
  }

  lemma OffsetOn(c: F.Config, first: nat, j: nat)
    requires first * c.width <= j
    ensures OffsetOf(c, first, j + 2) == OffsetOf(c, first, j) + 2 &&
            OffsetOf(c, first, j + 1) == OffsetOf(c, first, j) + 1
  {
  }

  lemma OnePairFirst(f: PixelCoder, cur: nat, px: seq<Word16>, j: nat, p: nat, byte: seq<Byte>, rest: seq<Byte>,
                     all: seq<Byte>)
    requires p > 0 && j + 2 * p <= |px| && all == byte + rest
    requires byte == [Pack(f(cur, px[j]), f(cur + 1, px[j + 1]))] && rest == PairsFrom(f, cur + 2, px, j + 2, p - 1)
    ensures all == PairsFrom(f, cur, px, j, p)
  {
    PairBatches(f, cur, cur + 2, px, j, j + 2, 1, p - 1);
    assert PairsFrom(f, cur, px, j, 0) == [];
    assert PairsFrom(f, cur, px, j, 1) == byte;
  }

  /** A flush under way sends the bytes of the pairs that it has yet to complete. */
  lemma {:induction false} FlushSendsPairs(f: PixelCoder, c: F.Config, s: F.State, j: nat, p: nat, odd: nat, cur: nat,
                                           first: nat, end: nat, px: seq<Word16>)
    requires Pairing(f, c, s, j, first, end) && px == s.vmem && cur == OffsetOf(c, first, j)
    requires j + 2 * p + odd == end <= |px| && odd <= 1
    ensures SettleBytes(c, s) == PairsFrom(f, cur, px, j, p)
    decreases F.Work(c, s), 1
  {
    SettleBytesUnfolds(c, s);
    if P.MidPair(s.flush) {
      FlushSendsPair(f, c, s, j, p, odd, cur, first, end, px);
    } else {
      FlushSendsNoPair(f, c, s, j, p, odd, cur, first, end, px);
    }
  }

  lemma {:induction false} FlushSendsPair(f: PixelCoder, c: F.Config, s: F.State, j: nat, p: nat, odd: nat, cur: nat,
                                          first: nat, end: nat, px: seq<Word16>)
    requires Pairing(f, c, s, j, first, end) && px == s.vmem && cur == OffsetOf(c, first, j)
    requires j + 2 * p + odd == end <= |px| && odd <= 1
    requires F.Enabled(c, s, F.Worker) && P.MidPair(s.flush)
    ensures SettleBytes(c, s) == PairsFrom(f, cur, px, j, p)
    decreases F.Work(c, s), 0
  {
    var byte, s' := PairGoesOut(f, c, s, j, first, end, cur);
    FlushSendsPairs(f, c, s', j + 2, p - 1, odd, cur + 2, first, end, px);
    OnePairFirst(f, cur, px, j, p, byte, SettleBytes(c, s'), SettleBytes(c, s));
  }

  lemma PairGoesOut(f: PixelCoder, c: F.Config, s: F.State, j: nat, first: nat, end: nat, cur: nat)
    returns (byte: seq<Byte>, s': F.State)
    requires Pairing(f, c, s, j, first, end) && P.MidPair(s.flush) && F.Enabled(c, s, F.Worker)
    requires cur == OffsetOf(c, first, j)
    ensures Pairing(f, c, s', j + 2, first, end) && j + 2 <= end && s'.vmem == s.vmem
    ensures 0 <= F.Work(c, s') + 1 <= F.Work(c, s) && cur + 2 == OffsetOf(c, first, j + 2)
    ensures j + 1 < |s.vmem| && byte == [Pack(f(cur, s.vmem[j]), f(cur + 1, s.vmem[j + 1]))]
    ensures SettleBytes(c, s) == byte + SettleBytes(c, s')
  {
    SettleBytesUnfolds(c, s);
    PairStep(f, c, s, j, first, end);
    PairByte(f, c, s, j, first, end, cur);
    OffsetOn(c, first, j);
    byte, s' := BytesOf(P.Out(c, s, F.Worker)), F.WorkerStep(c, s);
  }

  lemma {:induction false} FlushSendsNoPair(f: PixelCoder, c: F.Config, s: F.State, j: nat, p: nat, odd: nat, cur: nat,
                                            first: nat, end: nat, px: seq<Word16>)
    requires Pairing(f, c, s, j, first, end) && px == s.vmem && cur == OffsetOf(c, first, j)
    requires j + 2 * p + odd == end <= |px| && odd <= 1
    requires F.Enabled(c, s, F.Worker) && !P.MidPair(s.flush)
    ensures SettleBytes(c, s) == PairsFrom(f, cur, px, j, p)
    decreases F.Work(c, s), 0
  {
    SettleBytesUnfolds(c, s);
    var s' := F.WorkerStep(c, s);
    if s.flush.sending && s.flush.odd && |s.flush.batch| == 1 {
      DropStep(f, c, s, j, first, end);
      OffsetOn(c, first, j);
      FlushSendsPairs(f, c, s', j + 1, p, 0, cur + 1, first, end, px);
    } else if s.flush.sending && s.flush.batch != [] {
      FirstOfPairStep(f, c, s, j, first, end);
      FlushSendsPairs(f, c, s', j, p, odd, cur, first, end, px);
    } else {
      NoPairStep(f, c, s, j, first, end);
      if s'.flush.Flushing? {
        FlushSendsPairs(f, c, s', j, p, odd, cur, first, end, px);
      } else {
        assert SettleBytes(c, s') == [];
      }
    }
  }

  lemma StartPairing(f: PixelCoder, c: F.Config, s: F.State)
    requires P.BitMode(f, c) && F.Inv(c, s) && F.LeftOutAtLineEnds(c, s) && s.flush.NoFlush? && s.scheduled
    ensures F.Enabled(c, s, F.Worker)
    ensures var r := ToSend(Request(c, s), c.height);
            && P.Out(c, s, F.Worker) == P.Open(r.first * c.width)
            && Pairing(f, c, F.WorkerStep(c, s), r.first * c.width, r.first, (r.last + 1) * c.width)
            && F.WorkerStep(c, s).vmem == s.vmem && F.WorkerStep(c, s).dirty == Clean(c.height)
  {
    F.WorkerNeverStuck(c, s);
    StartUndisturbed(c, s);
    F.WorkerLeavesOutLineEnds(c, s);
    StartInMemory(c, s.vmem, ToSend(Request(c, s), c.height));
  }

  lemma StartInMemory(c: F.Config, vmem: seq<Word16>, r: Range)
    requires F.ValidConfig(c) && |vmem| == c.width * c.height && r.first <= r.last < c.height
    ensures r.first * c.width <= (r.last + 1) * c.width <= |vmem|
  {
    LineBounds(c.width, c.height, r);
  }

  /** In the 3-bit modes a flush of the protocol that no caller disturbs opens the driver's window
      and sends the bytes that the driver's worker sends for it. */
  lemma UndisturbedPairsAreDriver(c: F.Config, s: F.State, dither: bool)
    requires c.width > 0 && P.BitMode(Coder(dither, c.width), c) && F.Inv(c, s) && F.LeftOutAtLineEnds(c, s)
    requires s.flush.NoFlush? && s.scheduled
    ensures var r := ToSend(Request(c, s), c.height);
            && F.Enabled(c, s, F.Worker) && P.Out(c, s, F.Worker) == P.Open(r.first * c.width)
            && SettleBytes(c, s) == WindowBytes(true, dither, c.width, r.first, LinesOf(c.width, c.height, s.vmem, r))
  {
    var r, f := ToSend(Request(c, s), c.height), Coder(dither, c.width);
    var first, count := r.first * c.width, |LinesOf(c.width, c.height, s.vmem, r)|;
    SettleBytesUnfolds(c, s);
    StartPairing(f, c, s);
    PairsFromStart(c, s.vmem, r, f, first, count);
    FlushSendsPairs(f, c, F.WorkerStep(c, s), first, count / 2, count % 2, StartOffset(c.width, r.first), r.first,
                    (r.last + 1) * c.width, s.vmem);
  }

  lemma PairsFromStart(c: F.Config, vmem: seq<Word16>, r: Range, f: PixelCoder, first: nat, count: nat)
    requires F.ValidConfig(c) && |vmem| == c.width * c.height && r.first <= r.last < c.height
    requires first == r.first * c.width && count == |LinesOf(c.width, c.height, vmem, r)|
    ensures first + count == (r.last + 1) * c.width <= |vmem|
    ensures PairsFrom(f, StartOffset(c.width, r.first), vmem, first, count / 2) ==
            PackAll(Decisions(f, StartOffset(c.width, r.first), WholePairs(LinesOf(c.width, c.height, vmem, r))))
  {
    LineBounds(c.width, c.height, r);
    var lines := LinesOf(c.width, c.height, vmem, r);
    WholePairsOf(vmem, first, count, lines);
    PairsFromIs(f, StartOffset(c.width, r.first), vmem, first, count / 2, WholePairs(lines));
  }
}
