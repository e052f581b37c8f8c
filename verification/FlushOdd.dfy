/** Which widths lose pixels in a mode that sends whole pairs only. */
module FlushOdd {
  import opened Words
  import opened RowMajor
  import opened PixelCode
  import opened Dither
  import opened DirtyRange
  import opened FlushProtocol
  import opened FlushModes

  // ----- A flush of the first line at an odd width -----

  /** A flush of line 0 that leaves out the line's last pixel: its batches but the last are of
      whole pairs, and the last one is odd. */
  predicate LeavesOutLast(c: Config, f: Flush) {
    f.Flushing? ==>
      && f.first == 0 && f.last == 0
      && if f.sending then if f.next == c.width then f.odd else !f.odd && f.next % 2 == 0
         else (f.next - |f.batch|) % 2 == 0 || (f.next == c.width && f.batch == [])
  }

  ghost predicate KeepsLast(c: Config, s: State, cell: Cell) {
    0 < c.width <= |s.panel| && s.panel[c.width - 1] == cell && !s.scheduled && LeavesOutLast(c, s.flush)
  }

  lemma OddTurn(next: nat, batch: nat, cap: nat, width: nat)
    requires 0 < batch <= next <= width && batch <= cap && (next - batch) % 2 == 0
    requires width % 2 == 1 && (cap % 2 == 0 || width <= cap) && (batch >= cap || next >= width)
    ensures if next == width then batch % 2 == 1 else batch % 2 == 0 && next % 2 == 0
  {
  }

  lemma ScreenHoldsLine(c: Config)
    requires ValidConfig(c)
    ensures c.width <= c.width * c.height
  {
    TimesMonotone(1, c.height, c.width);
  }

  lemma WorkerKeepsLast(c: Config, s: State, cell: Cell)
    requires ValidConfig(c) && Inv(c, s) && s.flush.Flushing? && WorkerFits(c, s)
    requires c.pairs && c.width % 2 == 1 && KeepsLast(c, s, cell)
    ensures KeepsLast(c, WorkerStep(c, s), cell)
  {
    var f := s.flush;
    assert EndOf(c, f) == c.width;
    ScreenHoldsLine(c);
    if !f.sending && f.batch != [] && (|f.batch| >= c.cap || f.next >= c.width) {
      OddTurn(f.next, |f.batch|, c.cap, c.width);
    }
  }

  lemma {:induction false} SettleKeepsLast(c: Config, s: State, cell: Cell)
    requires ValidConfig(c) && Inv(c, s) && c.pairs && c.width % 2 == 1 && KeepsLast(c, s, cell)
    ensures KeepsLast(c, Settle(c, s), cell)
    decreases if WorkerEnabled(s) then Work(c, s) else 0
  {
    if WorkerEnabled(s) {
      WorkerNeverStuck(c, s);
      StepKeeps(c, s, Worker);
      StepWorks(c, s);
      WorkIsPositive(c, s);
      WorkerKeepsLast(c, s, cell);
      SettleKeepsLast(c, WorkerStep(c, s), cell);
    }
  }

  // ----- A run that ends with a pixel out of date -----

  /** The last pixel of the first line drawn, and the line marked. */
  function DrawLast(c: Config, v: Word16): seq<Event>
    requires ValidConfig(c)
  {
    [BeginDraw(0, Mark(0, 1)), DrawPixel(0, c.width - 1, v), MarkDirty(0), Schedule(0)]
  }

  function Drawn(c: Config, s: State, v: Word16): State
    requires ValidConfig(c) && c.width <= |s.vmem|
  {
    s.(vmem := s.vmem[c.width - 1 := v], marked := {0}, scheduled := true)
  }

  lemma LastOfFirstLine(c: Config)
    requires ValidConfig(c)
    ensures LineOf(c, c.width - 1) == 0 && MarkLines(Mark(0, 1), c.height) == {0}
  {
    RowAndColumn(c.width, 0, c.width - 1);
  }

  ghost predicate OneCaller(c: Config, s: State)
    requires ValidConfig(c)
  {
    Initial(c, s) && |s.threads| == 1 && c.width <= |s.vmem|
  }

  lemma DrawLastReaches(c: Config, s: State, v: Word16)
    requires ValidConfig(c) && OneCaller(c, s)
    ensures Reaches(c, s, DrawLast(c, v), Drawn(c, s, v))
  {
    LastOfFirstLine(c);
    var e := DrawLast(c, v);
    var s1 := Next(c, s, e[0]);
    var s2 := Next(c, s1, e[1]);
    var s3 := Next(c, s2, e[2]);
    var s4 := Next(c, s3, e[3]);
    assert s4.threads == s.threads;
    assert s4 == Drawn(c, s, v);
    assert e[1..][1..][1..][1..] == [];
    assert Reaches(c, s4, e[1..][1..][1..][1..], s4);
    assert Reaches(c, s3, e[1..][1..][1..], s4);
    assert Reaches(c, s2, e[1..][1..], s4);
    assert Reaches(c, s1, e[1..], s4);
  }

  /** At an odd width the first line, drawn on once and flushed, ends with its last pixel as it
      was on the panel. */
  lemma LastPixelStays(c: Config, s: State, v: Word16)
    requires ValidConfig(c) && OneCaller(c, s) && c.pairs && c.width % 2 == 1
    ensures RunToIdle(c, s, DrawLast(c, v), Drawn(c, s, v)) && Inv(c, Drawn(c, s, v))
    ensures var r := Settle(c, Drawn(c, s, v));
            c.width <= |r.panel| && r.panel[c.width - 1] == s.panel[c.width - 1]
  {
    var last := Drawn(c, s, v);
    DrawLastReaches(c, s, v);
    InitialHolds(c, s);
    RunKeeps(c, s, DrawLast(c, v), last);
    StepKeeps(c, last, Worker);
    StartsAtFirstLine(c, last);
    SettleKeepsLast(c, WorkerStep(c, last), s.panel[c.width - 1]);
  }

  lemma StartsAtFirstLine(c: Config, s: State)
    requires ValidConfig(c) && s.dirty == Range(0, 0) && s.touched == [] && s.flush.NoFlush? && s.scheduled
    ensures WorkerStep(c, s).flush == Flushing(0, 0, 0, [], [], false, false)
    ensures WorkerStep(c, s).panel == s.panel && !WorkerStep(c, s).scheduled
  {
    assert Offsets(c, s.touched) == [];
  }

  // ----- The exact condition -----

  /** The settled panel is all video memory. */
  ghost predicate SettlesUpToDate(c: Config, last: State)
    requires ValidConfig(c)
  {
    Inv(c, last) &&
    var r := Settle(c, last);
    |r.panel| == |last.vmem| && forall i | 0 <= i < |last.vmem| :: Fresh(c, r.panel[i], i, last.vmem[i])
  }

  predicate NoCut(c: Config, events: seq<Event>) {
    forall i | 0 <= i < |events| :: !CutsOff(c, events[i])
  }

  /** Every run without a drawing call cut off above the screen settles on all of video memory. */
  ghost predicate AlwaysSettles(c: Config)
    requires ValidConfig(c)
  {
    forall s, events, last | RunToIdle(c, s, events, last) && NoCut(c, events) :: SettlesUpToDate(c, last)
  }

  lemma WholeBatchesSettle(c: Config)
    requires ValidConfig(c) && WholeBatches(c)
    ensures AlwaysSettles(c)
  {
    forall s, events, last | RunToIdle(c, s, events, last) && NoCut(c, events) ensures SettlesUpToDate(c, last) {
      SettlesWhole(c, s, events, last);
    }
  }

  /** The state after a probe with video memory all v, and one caller. */
  function AllOf(c: Config, v: Word16): State
    requires ValidConfig(c)
  {
    var n := c.width * c.height;
    State(seq(n, _ => v), seq(n, i requires 0 <= i < n => Cell(0, Encode(c, 0, i, v))),
          Range(0, 0), {}, {}, {}, [], [Idle], false, NoFlush)
  }

  lemma AllOfIsInitial(c: Config, v: Word16)
    requires ValidConfig(c)
    ensures OneCaller(c, AllOf(c, v)) && AllOf(c, v).panel[c.width - 1] == Cell(0, Encode(c, 0, c.width - 1, v))
  {
    ScreenHoldsLine(c);
    forall i | 0 <= i < c.width * c.height ensures Fresh(c, AllOf(c, v).panel[i], i, v) {
    }
  }

  lemma OddWidthLosesUpdate(c: Config, v: Word16, w: Word16)
    requires ValidConfig(c) && c.pairs && c.width % 2 == 1
    requires Encode(c, 0, c.width - 1, v) != Encode(c, 0, c.width - 1, w)
    ensures !AlwaysSettles(c)
  {
    var s := AllOf(c, v);
    AllOfIsInitial(c, v);
    LastPixelStays(c, s, w);
    var last := Drawn(c, s, w);
    assert !Fresh(c, Settle(c, last).panel[c.width - 1], c.width - 1, last.vmem[c.width - 1]);
    assert NoCut(c, DrawLast(c, w));
  }

  /** A mode that sends whole pairs only, and can show a difference in the last pixel of the first
      line, settles on all of video memory in every run exactly at even widths. */
  lemma AlwaysSettlesIff(c: Config, v: Word16, w: Word16)
    requires ValidConfig(c) && c.pairs && Encode(c, 0, c.width - 1, v) != Encode(c, 0, c.width - 1, w)
    ensures AlwaysSettles(c) <==> c.width % 2 == 0
  {
    if c.width % 2 == 0 {
      WholeBatchesSettle(c);
    } else {
      OddWidthLosesUpdate(c, v, w);
    }
  }

  // ----- The two 3-bit modes -----

  lemma PartDiffers(c: Config, i: nat, v: Word16, w: Word16, k: nat)
    requires k < c.parts && c.part(0, i, v, k) != c.part(0, i, w, k)
    ensures Encode(c, 0, i, v) != Encode(c, 0, i, w)
  {
    assert Encode(c, 0, i, v)[k] != Encode(c, 0, i, w)[k];
  }

  /** At an odd width the last pixel of the first line is in an even column, and no such column
      of the first table row is dark for white. */
  lemma WhiteIsLit(col: nat)
    requires col < 8 && col % 2 == 0
    ensures DitherAt(0, col, 0xFFFF).green && !DitherAt(0, col, 0).green
  {
  }

  lemma BlackAndWhiteDiffer(dither: bool, width: nat)
    requires width % 2 == 1
    ensures Coder(dither, width)(width - 1, 0xFFFF).green && !Coder(dither, width)(width - 1, 0).green
  {
    if dither {
      CoderShows(Coder(true, width), width, 0, 0, width - 1, 0xFFFF, width - 1);
      CoderShows(Coder(true, width), width, 0, 0, width - 1, 0, width - 1);
      WhiteIsLit((width - 1) % 8);
    }
  }

  /** Both 3-bit modes bring the panel up to date in every run exactly at even widths. */
  lemma ThreeBitAlwaysSettlesIff(c: Config, dither: bool)
    requires ValidConfig(c) && c == ThreeBit(Coder(dither, c.width), c.width, c.height, c.cap, c.pageSize)
    ensures AlwaysSettles(c) <==> c.width % 2 == 0
  {
    if c.width % 2 == 0 {
      WholeBatchesSettle(c);
    } else {
      BlackAndWhiteDiffer(dither, c.width);
      PartDiffers(c, c.width - 1, 0, 0xFFFF, 1);
      OddWidthLosesUpdate(c, 0, 0xFFFF);
    }
  }

  /** 16-bit mode brings it up to date at every width. */
  lemma SixteenBitAlwaysSettles(c: Config)
    requires ValidConfig(c) && c == SixteenBit(c.width, c.height, c.cap, c.pageSize)
    ensures AlwaysSettles(c)
  {
    WholeBatchesSettle(c);
  }
}
