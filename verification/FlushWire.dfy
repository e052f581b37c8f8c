/** The protocol's 16-bit mode down to the wire: a panel fed with the bytes of every flush, each
    read from video memory while callers draw, holds at all times what the protocol says. */
module FlushWire {
  import opened Words
  import opened RowMajor
  import opened DirtyRange
  import opened Panel
  import F = FlushProtocol
  import M = FlushModes

  /** A cell holds the high and the low byte of a pixel value. */
  predicate IsValue(cell: F.Cell, v: Word16) {
    cell.parts == [v / 256, v % 256]
  }

  predicate IsBytes(parts: seq<nat>) {
    forall k | 0 <= k < |parts| :: parts[k] < 256
  }

  predicate IsPixel(cell: F.Cell) {
    |cell.parts| == 2 && IsBytes(cell.parts)
  }

  function ValueOf(cell: F.Cell): Word16
    requires IsPixel(cell)
  {
    Join(cell.parts[0], cell.parts[1])
  }

  lemma ValueOfIs(cell: F.Cell)
    requires IsPixel(cell)
    ensures IsValue(cell, ValueOf(cell))
  {
    var hi, lo := cell.parts[0], cell.parts[1];
    assert cell.parts == [hi, lo];
    RowAndColumn(256, hi, lo);
  }

  /** The worker's batch and the part of a pixel that it has read are bytes, and all go out. */
  ghost predicate BatchIsBytes(f: F.Flush) {
    f.Flushing? ==> !f.odd && IsBytes(f.read) && forall k | 0 <= k < |f.batch| :: IsPixel(f.batch[k])
  }

  ghost predicate ValidConfig(c: F.Config) {
    && F.ValidConfig(c) && c == M.SixteenBit(c.width, c.height, c.cap, c.pageSize)
    && c.width <= 65536 && c.height <= 65536
  }

  /** The bytes that a step of the system puts on the wire: a flush that starts opens its
      window, and each pixel of a batch that is sent is two data bytes. */
  function Wire(c: F.Config, s: F.State, e: F.Event): seq<Xfer>
    requires F.ValidConfig(c) && F.Enabled(c, s, e)
  {
    if !e.Worker? then []
    else if s.flush.NoFlush? then
      var r := F.FlushRange(c, s);
      WindowStream(0, r.first, c.width - 1, r.last)
    else if s.flush.sending && s.flush.batch != [] && !s.flush.odd && IsPixel(s.flush.batch[0]) then
      Data([s.flush.batch[0].parts[0], s.flush.batch[0].parts[1]])
    else []
  }

  /** The panel after a run, fed with the bytes of each of its steps. */
  function FedBy(c: F.Config, s: F.State, events: seq<F.Event>, p: State): State
    requires F.ValidConfig(c)
    decreases |events|
  {
    if events == [] || !F.Enabled(c, s, events[0]) then p
    else FedBy(c, F.Next(c, s, events[0]), events[1..], Feed(p, Wire(c, s, events[0])))
  }

  predicate PixelMirrored(c: F.Config, s: F.State, p: State, x: nat, y: nat) {
    && PixelIndex(c.width, x, y) < |s.panel| && (x, y) in p.mem &&
        IsValue(s.panel[PixelIndex(c.width, x, y)], p.mem[(x, y)])
  }

  /** The panel's memory holds the protocol's cells. */
  ghost predicate Mirrors(c: F.Config, s: F.State, p: State) {
    forall x: nat, y: nat | x < c.width && y < c.height :: PixelMirrored(c, s, p, x, y)
  }

  /** The panel expects the pixel that the worker sends next. */
  ghost predicate InPhase(c: F.Config, f: F.Flush, p: State) {
    f.Flushing? ==>
      && f.first * c.width + |f.batch| <= f.next
      && AtPixel(p, c.width, f.first, f.last, f.next - |f.batch| - f.first * c.width)
  }

  ghost predicate Tracks(c: F.Config, s: F.State, p: State) {
    Mirrors(c, s, p) && InPhase(c, s.flush, p) && BatchIsBytes(s.flush)
  }

  lemma StartTracks(c: F.Config, s: F.State, p: State)
    requires ValidConfig(c) && F.Inv(c, s) && F.Enabled(c, s, F.Worker) && s.flush.NoFlush? && Tracks(c, s, p)
    ensures Tracks(c, F.WorkerStep(c, s), Feed(p, Wire(c, s, F.Worker)))
  {
    var r, q := F.FlushRange(c, s), Feed(p, Wire(c, s, F.Worker));
    WindowReady(p, c.width, r.first, r.last);
    MirrorsSame(c, s, F.WorkerStep(c, s), p, q);
  }

  lemma MirrorsSame(c: F.Config, s: F.State, s': F.State, p: State, q: State)
    requires Mirrors(c, s, p) && s'.panel == s.panel && q.mem == p.mem
    ensures Mirrors(c, s', q)
  {
    forall x: nat, y: nat | x < c.width && y < c.height ensures PixelMirrored(c, s', q, x, y) {
      assert PixelMirrored(c, s, p, x, y);
    }
  }

  /** The place of the pixel that the panel expects, in the whole frame. */
  lemma PlaceInWindow(c: F.Config, first: nat, x: nat, y: nat, n: nat)
    requires first <= y && n == Index(c.width, first, x, y)
    ensures first * c.width + n == PixelIndex(c.width, x, y)
  {
    Distribute(y - first, first, c.width);
  }

  lemma PlaceIsUnique(c: F.Config, x: nat, y: nat, x': nat, y': nat)
    requires x < c.width && x' < c.width && PixelIndex(c.width, x, y) == PixelIndex(c.width, x', y')
    ensures x == x' && y == y'
  {
    RowAndColumn(c.width, y, x);
    RowAndColumn(c.width, y', x');
  }

  lemma MirrorsOneMore(c: F.Config, s: F.State, s': F.State, p: State, q: State, x: nat, y: nat, cell: F.Cell)
    requires x < c.width && Mirrors(c, s, p) && PixelIndex(c.width, x, y) < |s.panel| && IsPixel(cell)
    requires s'.panel == s.panel[PixelIndex(c.width, x, y) := cell] && q.mem == p.mem[(x, y) := ValueOf(cell)]
    ensures Mirrors(c, s', q)
  {
    ValueOfIs(cell);
    forall x': nat, y': nat | x' < c.width && y' < c.height ensures PixelMirrored(c, s', q, x', y') {
      assert PixelMirrored(c, s, p, x', y');
      if PixelIndex(c.width, x, y) == PixelIndex(c.width, x', y') {
        PlaceIsUnique(c, x, y, x', y');
      }
    }
  }

  /** The panel takes the two bytes of a cell as its value, at the pixel that it expects. */
  lemma PanelTakesCell(p: State, width: nat, first: nat, last: nat, n: nat, cell: F.Cell)
    requires AtPixel(p, width, first, last, n) && !p.full && IsPixel(cell)
    ensures var q := Feed(p, Data([cell.parts[0], cell.parts[1]]));
            AtPixel(q, width, first, last, n + 1) && q.mem == p.mem[(p.col, p.page) := ValueOf(cell)]
  {
    var v := ValueOf(cell);
    ValueOfIs(cell);
    assert [cell.parts[0], cell.parts[1]] == [v / 256, v % 256];
    FeedPixelBytes(p, v);
    WriteAdvances(p, width, first, last, n, v);
  }

  /** The pixel that is sent next is in the window. */
  lemma SentInWindow(c: F.Config, f: F.Flush, n: nat)
    requires f.Flushing? && f.first <= f.last && n + f.first * c.width < F.EndOf(c, f)
    ensures n < (f.last - f.first + 1) * c.width
  {
    Distribute(f.last + 1 - f.first, f.first, c.width);
  }

  lemma SendTracks(c: F.Config, s: F.State, p: State)
    requires ValidConfig(c) && F.Inv(c, s) && F.Enabled(c, s, F.Worker) && s.flush.Flushing? && Tracks(c, s, p)
    requires s.flush.sending && s.flush.batch != []
    ensures Tracks(c, F.WorkerStep(c, s), Feed(p, Wire(c, s, F.Worker)))
  {
    var f := s.flush;
    var n := f.next - |f.batch| - f.first * c.width;
    SentInWindow(c, f, n);
    NotFullYet(p, c.width, f.first, f.last, n);
    PanelTakesCell(p, c.width, f.first, f.last, n, f.batch[0]);
    CellTracks(c, s, p, Feed(p, Wire(c, s, F.Worker)), n);
  }

  lemma CellTracks(c: F.Config, s: F.State, p: State, q: State, n: nat)
    requires ValidConfig(c) && F.Inv(c, s) && F.WorkerFits(c, s) && s.flush.Flushing? && Tracks(c, s, p)
    requires s.flush.sending && s.flush.batch != [] && n == s.flush.next - |s.flush.batch| - s.flush.first * c.width
    requires !p.full && q.mem == p.mem[(p.col, p.page) := ValueOf(s.flush.batch[0])]
    requires AtPixel(q, c.width, s.flush.first, s.flush.last, n + 1)
    ensures Tracks(c, F.WorkerStep(c, s), q)
  {
    PlaceInWindow(c, s.flush.first, p.col, p.page, n);
    MirrorsOneMore(c, s, F.WorkerStep(c, s), p, q, p.col, p.page, s.flush.batch[0]);
  }

  /** Steps of the worker that send nothing. */
  lemma QuietTracks(c: F.Config, s: F.State, p: State)
    requires ValidConfig(c) && F.Inv(c, s) && F.Enabled(c, s, F.Worker) && s.flush.Flushing? && Tracks(c, s, p)
    requires !(s.flush.sending && s.flush.batch != [])
    ensures Tracks(c, F.WorkerStep(c, s), Feed(p, Wire(c, s, F.Worker)))
  {
    MirrorsSame(c, s, F.WorkerStep(c, s), p, p);
  }

  lemma StepTracks(c: F.Config, s: F.State, e: F.Event, p: State)
    requires ValidConfig(c) && F.Inv(c, s) && F.Enabled(c, s, e) && Tracks(c, s, p)
    ensures Tracks(c, F.Next(c, s, e), Feed(p, Wire(c, s, e)))
  {
    if !e.Worker? {
      MirrorsSame(c, s, F.Next(c, s, e), p, p);
    } else if s.flush.NoFlush? {
      StartTracks(c, s, p);
    } else if s.flush.sending && s.flush.batch != [] {
      SendTracks(c, s, p);
    } else {
      QuietTracks(c, s, p);
    }
  }

  lemma {:induction false} RunTracks(c: F.Config, s: F.State, events: seq<F.Event>, last: F.State, p: State)
    requires ValidConfig(c) && F.Inv(c, s) && F.Reaches(c, s, events, last) && Tracks(c, s, p)
    ensures F.Inv(c, last) && Tracks(c, last, FedBy(c, s, events, p))
    decreases |events|
  {
    if events == [] {
    } else {
      F.StepKeeps(c, s, events[0]);
      StepTracks(c, s, events[0], p);
      RunTracks(c, F.Next(c, s, events[0]), events[1..], last, Feed(p, Wire(c, s, events[0])));
    }
  }

  /** After every run, a panel that held the protocol's cells at its start and was fed with the
      bytes on the wire holds them still: each byte was read while callers were drawing. */
  lemma WireGivesCells(c: F.Config, s: F.State, events: seq<F.Event>, last: F.State, p: State, x: nat, y: nat)
    requires ValidConfig(c) && F.Initial(c, s) && F.Reaches(c, s, events, last) && Mirrors(c, s, p)
    requires x < c.width && y < c.height
    ensures PixelMirrored(c, last, FedBy(c, s, events, p), x, y)
  {
    F.InitialHolds(c, s);
    RunTracks(c, s, events, last, p);
  }

  /** From the concurrent protocol to the pixels of the panel: after every run that leaves
      nothing under way, the panel shows video memory at each pixel whose line was not cut
      off, by the bytes on the wire alone. */
  lemma WireShowsVideoMemory(c: F.Config, s: F.State, events: seq<F.Event>, last: F.State, p: State, x: nat, y: nat)
    requires ValidConfig(c) && F.Initial(c, s) && F.Reaches(c, s, events, last) && Mirrors(c, s, p)
    requires x < c.width && y < c.height && F.Quiet(last) && y !in last.cut
    ensures var q := FedBy(c, s, events, p);
            PixelIndex(c.width, x, y) < |last.vmem| && (x, y) in q.mem &&
                q.mem[(x, y)] == last.vmem[PixelIndex(c.width, x, y)]
  {
    var q, i := FedBy(c, s, events, p), PixelIndex(c.width, x, y);
    WireGivesCells(c, s, events, last, p, x, y);
    F.InitialHolds(c, s);
    F.RunKeeps(c, s, events, last);
    F.RunLeavesNothingOut(c, s, events, last);
    QuietPixelIsFresh(c, last, x, y);
    SameValue(last.panel[i], q.mem[(x, y)], last.vmem[i]);
  }

  lemma QuietPixelIsFresh(c: F.Config, s: F.State, x: nat, y: nat)
    requires ValidConfig(c) && F.Inv(c, s) && F.Quiet(s) && s.unsent == {} && x < c.width && y !in s.cut
    requires PixelIndex(c.width, x, y) < |s.panel|
    ensures PixelIndex(c.width, x, y) < |s.vmem| && IsValue(s.panel[PixelIndex(c.width, x, y)],
            s.vmem[PixelIndex(c.width, x, y)])
  {
    var i := PixelIndex(c.width, x, y);
    F.QuietMeansFresh(c, s);
    RowAndColumn(c.width, y, x);
    M.FreshMeansBytes(c, s.panel[i], i, s.vmem[i]);
  }

  lemma SameValue(cell: F.Cell, v: Word16, w: Word16)
    requires IsValue(cell, v) && IsValue(cell, w)
    ensures v == w
  {
    assert cell.parts[0] == v / 256 == w / 256 && cell.parts[1] == v % 256 == w % 256;
  }
}
