/** Drawing calls, page faults and the deferred worker as one step system, and what every
    interleaving of their steps keeps. A pixel of the panel holds the parts (two bytes, or three
    bits) that were last sent for it; each part is read from video memory in a step of its own. */
module FlushProtocol {
  import opened Words
  import opened RowMajor
  import opened DirtyRange

  /** Sizes, batch capacity in pixels, and the parts of a pixel: part(start, i, v, k) is the k-th
      part of pixel i with value v in a flush that starts at line `start`. With `pairs`, only
      whole pairs of a batch are sent. */
  datatype Config = Config(width: nat, height: U32, cap: nat, pageSize: nat, pairs: bool, parts: nat,
                           part: (nat, nat, Word16, nat) -> nat)

  /** The probe function gives room for the screen in one batch. */
  predicate ValidConfig(c: Config) {
    && 0 < c.width && 0 < c.height < 0x8000_0000 && 0 < c.cap && 0 < c.pageSize && 0 < c.parts
    && (c.pairs ==> c.cap % 2 == 0 || c.width * c.height <= c.cap)
  }

  /** What a pixel of the panel shows, and the first line of the flush that sent it. */
  datatype Cell = Cell(start: nat, parts: seq<nat>)

  function Encode(c: Config, start: nat, i: nat, v: Word16): seq<nat> {
    seq(c.parts, k requires 0 <= k < c.parts => c.part(start, i, v, k))
  }

  predicate Fresh(c: Config, cell: Cell, i: nat, v: Word16) {
    cell.start * c.width <= i && cell.parts == Encode(c, cell.start, i, v)
  }

  /** A caller of the driver: between calls, inside a drawing call that has yet to mark its
      lines, or past its mark (or page fault) with the worker still to schedule. */
  datatype Thread = Idle | Drawing(mark: Mark) | MustSchedule

  /** The worker: `next` is the first pixel not copied, `read` the parts of it read so far,
      `batch` the copied pixels not yet sent. Of a batch that is being sent, `odd` says that its
      last pixel will not go out. */
  datatype Flush =
    | NoFlush
    | Flushing(first: U32, last: U32, next: nat, read: seq<nat>, batch: seq<Cell>, sending: bool, odd: bool)

  /** `marked`, `cut` and `unsent` are history variables: the lines marked since the worker last
      took the range, the lines whose mark was cut off above the screen and that no flush has
      taken since (`DirtyRange.NeverDroppedIff`), and the pixels that a batch of an odd size
      left out and no flush has taken since. */
  datatype State = State(
    vmem: seq<Word16>, panel: seq<Cell>, dirty: Range, marked: set<nat>, cut: set<nat>, unsent: set<nat>,
    touched: seq<nat>, threads: seq<Thread>, scheduled: bool, flush: Flush)

  datatype Event =
    | BeginDraw(t: nat, mark: Mark)
    | DrawPixel(t: nat, i: nat, v: Word16)
    | MarkDirty(t: nat)
    | Touch(t: nat, page: nat)
    | MapWrite(i: nat, v: Word16)
    | Schedule(t: nat)
    | Worker

  function LineOf(c: Config, i: nat): nat
    requires ValidConfig(c)
  {
    i / c.width
  }

  /** The page that holds the two bytes of a pixel. */
  function PageOf(c: Config, i: nat): nat
    requires ValidConfig(c)
  {
    (2 * i) / c.pageSize
  }

  function LineLength(c: Config): nat {
    2 * c.width
  }

  function PageOffset(c: Config, page: nat): nat {
    page * c.pageSize
  }

  predicate PageInMemory(c: Config, page: nat)
    requires ValidConfig(c)
  {
    PageOffset(c, page) + c.pageSize < 0x1_0000_0000 && PageOffset(c, page) / LineLength(c) < c.height
  }

  function Offsets(c: Config, pages: seq<nat>): (o: seq<nat>)
    ensures |o| == |pages|
  {
    seq(|pages|, k requires 0 <= k < |pages| => PageOffset(c, pages[k]))
  }

  /** The range that a flush starting now sends. */
  function FlushRange(c: Config, s: State): Range
    requires ValidConfig(c)
  {
    ToSend(WidenAll(s.dirty, c.height, LineLength(c), c.pageSize, Offsets(c, s.touched)), c.height)
  }

  function EndOf(c: Config, f: Flush): nat
    requires f.Flushing?
  {
    (f.last + 1) * c.width
  }

  predicate Enabled(c: Config, s: State, e: Event)
    requires ValidConfig(c)
  {
    match e
    case BeginDraw(t, m) => t < |s.threads| && s.threads[t].Idle?
    case DrawPixel(t, i, v) =>
      t < |s.threads| && s.threads[t].Drawing? && i < |s.vmem| && LineOf(c, i) in MarkLines(s.threads[t].mark, c.height)
    case MarkDirty(t) => t < |s.threads| && s.threads[t].Drawing?
    case Touch(t, p) => t < |s.threads| && s.threads[t].Idle? && s.flush.NoFlush? && PageInMemory(c, p)
    case MapWrite(i, v) => i < |s.vmem| && s.flush.NoFlush? && PageOf(c, i) in s.touched
    case Schedule(t) => t < |s.threads| && s.threads[t].MustSchedule?
    case Worker => WorkerEnabled(s) && WorkerFits(c, s)
  }

  predicate WorkerEnabled(s: State) {
    s.flush.Flushing? || s.scheduled
  }

  /** The bounds that the worker's indexing relies on; the invariant keeps them. */
  predicate WorkerFits(c: Config, s: State) {
    s.flush.Flushing? ==>
      && |s.flush.batch| <= s.flush.next <= |s.panel| == |s.vmem|
      && (s.flush.next < EndOf(c, s.flush) ==> s.flush.next < |s.vmem|)
  }

  function NotIn(lines: set<nat>, r: Range): set<nat> {
    set line | line in lines && !InRange(r, line)
  }

  function NotTaken(c: Config, pixels: set<nat>, r: Range): set<nat> {
    set i | i in pixels && !(r.first * c.width <= i < (r.last + 1) * c.width)
  }

  /** One step of the deferred worker. */
  function WorkerStep(c: Config, s: State): State
    requires ValidConfig(c) && WorkerEnabled(s) && WorkerFits(c, s)
  {
    if s.flush.NoFlush? then
      var r := FlushRange(c, s);
      s.(dirty := Clean(c.height), marked := {}, cut := NotIn(s.cut, r), unsent := NotTaken(c, s.unsent, r),
         touched := [], scheduled := false,
         flush := Flushing(r.first, r.last, r.first * c.width, [], [], false, false))
    else
      var f := s.flush;
      if f.sending then
        if f.batch == [] then s.(flush := f.(sending := false, odd := false))
        else if f.odd && |f.batch| == 1 then s.(unsent := s.unsent + {f.next - 1}, flush := f.(batch := []))
        else s.(panel := s.panel[f.next - |f.batch| := f.batch[0]], flush := f.(batch := f.batch[1..]))
      else if f.batch != [] && (|f.batch| >= c.cap || f.next >= EndOf(c, f)) then
        s.(flush := f.(sending := true, odd := c.pairs && |f.batch| % 2 == 1))
      else if f.next >= EndOf(c, f) then s.(flush := NoFlush)
      else if |f.read| < c.parts then
        s.(flush := f.(read := f.read + [c.part(f.first, f.next, s.vmem[f.next], |f.read|)]))
      else s.(flush := f.(next := f.next + 1, read := [], batch := f.batch + [Cell(f.first, f.read)]))
  }

  function Next(c: Config, s: State, e: Event): State
    requires ValidConfig(c) && Enabled(c, s, e)
  {
    match e
    case BeginDraw(t, m) => s.(threads := s.threads[t := Drawing(m)])
    case DrawPixel(t, i, v) => s.(vmem := s.vmem[i := v])
    case MarkDirty(t) =>
      var m := s.threads[t].mark;
      var s' := s.(dirty := Marked(s.dirty, c.height, m.y, m.height), threads := s.threads[t := MustSchedule]);
      if CutOffAbove(m, c.height) then s'.(cut := s.cut + MarkLines(m, c.height))
      else s'.(marked := s.marked + MarkLines(m, c.height))
    case Touch(t, p) => s.(touched := s.touched + [p], threads := s.threads[t := MustSchedule])
    case MapWrite(i, v) => s.(vmem := s.vmem[i := v])
    case Schedule(t) => s.(scheduled := true, threads := s.threads[t := Idle])
    case Worker => WorkerStep(c, s)
  }

  // ----- The invariant -----

  /** A marked line is sent by the next flush, and stays so whatever marks follow. */
  predicate Owed(c: Config, r: Range, line: nat) {
    line < c.height && line <= r.last && (r.first <= line || r.last >= c.height)
  }

  ghost predicate BeingDrawn(c: Config, s: State, line: nat) {
    exists t :: 0 <= t < |s.threads| && s.threads[t].Drawing? && line in MarkLines(s.threads[t].mark, c.height)
  }

  /** A later flush will copy this pixel again: its line is marked, its page is touched, or
      a drawing call that covers it has yet to mark. Or its line's mark was cut off, or a
      batch left it out. */
  ghost predicate Pending(c: Config, s: State, i: nat)
    requires ValidConfig(c)
  {
    || LineOf(c, i) in s.marked || PageOf(c, i) in s.touched || BeingDrawn(c, s, LineOf(c, i))
    || LineOf(c, i) in s.cut || i in s.unsent
  }

  ghost predicate Shape(c: Config, s: State)
    requires ValidConfig(c)
  {
    && |s.vmem| == |s.panel| == c.width * c.height
    && (forall line | line in s.marked :: Owed(c, s.dirty, line))
    && (forall k | 0 <= k < |s.touched| :: PageInMemory(c, s.touched[k]))
    && (s.flush.Flushing? ==> FlushShape(c, s, s.flush))
  }

  ghost predicate FlushShape(c: Config, s: State, f: Flush)
    requires ValidConfig(c) && f.Flushing?
  {
    && s.touched == []
    && f.first <= f.last < c.height && f.first * c.width + |f.batch| <= f.next <= EndOf(c, f) <= |s.vmem|
    && |f.batch| <= c.cap && |f.read| <= c.parts
    && (f.next == EndOf(c, f) ==> f.read == [])
    && (f.sending || |f.batch| == c.cap ==> f.read == [])
  }

  /** The copy that the panel shows, or will show once the batch is sent. */
  function Copy(s: State, i: nat): Cell
    requires i < |s.panel| && (s.flush.Flushing? ==> |s.flush.batch| <= s.flush.next)
  {
    if s.flush.Flushing? && s.flush.next - |s.flush.batch| <= i < s.flush.next
    then s.flush.batch[i - (s.flush.next - |s.flush.batch|)]
    else s.panel[i]
  }

  /** The pixel is pending, or the running flush has yet to copy it, or its copy is its value in
      video memory. */
  ghost predicate PixelKept(c: Config, s: State, i: nat)
    requires ValidConfig(c) && Shape(c, s) && i < |s.vmem|
  {
    Pending(c, s, i) || (s.flush.Flushing? && s.flush.next <= i < EndOf(c, s.flush)) ||
        Fresh(c, Copy(s, i), i, s.vmem[i])
  }

  /** The parts read so far of the pixel being copied. */
  ghost predicate ReadKept(c: Config, s: State)
    requires ValidConfig(c) && Shape(c, s)
  {
    s.flush.Flushing? && s.flush.read != [] && !Pending(c, s, s.flush.next) ==>
      s.flush.read == Encode(c, s.flush.first, s.flush.next, s.vmem[s.flush.next])[..|s.flush.read|]
  }

  /** Marks and touched pages have the worker scheduled, or a thread about to schedule it. */
  ghost predicate WorkerOwed(s: State) {
    s.marked != {} || s.touched != [] ==>
      s.scheduled || exists t :: 0 <= t < |s.threads| && s.threads[t].MustSchedule?
  }

  ghost predicate Inv(c: Config, s: State)
    requires ValidConfig(c)
  {
    && Shape(c, s)
    && (forall i | 0 <= i < |s.vmem| :: PixelKept(c, s, i))
    && ReadKept(c, s)
    && WorkerOwed(s)
  }

  // ----- The steps of drawing calls and page faults keep it -----

  lemma OwedStays(c: Config, r: Range, m: Mark, line: nat)
    requires ValidConfig(c) && Owed(c, r, line)
    ensures Owed(c, Marked(r, c.height, m.y, m.height), line)
  {
  }

  lemma MarkIsOwed(c: Config, r: Range, m: Mark, line: nat)
    requires ValidConfig(c) && !CutOffAbove(m, c.height) && line in MarkLines(m, c.height)
    ensures Owed(c, Marked(r, c.height, m.y, m.height), line)
  {
  }

  /** Steps that leave the worker and the panel alone keep a pixel if it stays pending, or
      becomes so, or its value stays. */
  lemma PixelStays(c: Config, s: State, s': State, i: nat)
    requires ValidConfig(c) && Shape(c, s) && Shape(c, s') && i < |s.vmem| && PixelKept(c, s, i)
    requires s'.panel == s.panel && s'.flush == s.flush
    requires Pending(c, s, i) ==> Pending(c, s', i)
    requires s'.vmem[i] == s.vmem[i] || Pending(c, s', i)
    ensures PixelKept(c, s', i)
  {
  }

  lemma BeginDrawKeeps(c: Config, s: State, t: nat, m: Mark)
    requires ValidConfig(c) && Inv(c, s) && Enabled(c, s, BeginDraw(t, m))
    ensures Inv(c, Next(c, s, BeginDraw(t, m)))
  {
    var s' := Next(c, s, BeginDraw(t, m));
    forall i | 0 <= i < |s.vmem| && Pending(c, s, i) ensures Pending(c, s', i) {
      StillDrawn(c, s, s', LineOf(c, i), t);
    }
    forall i | 0 <= i < |s.vmem| ensures PixelKept(c, s', i) {
      PixelStays(c, s, s', i);
    }
    if exists u :: 0 <= u < |s.threads| && s.threads[u].MustSchedule? {
      var u :| 0 <= u < |s.threads| && s.threads[u].MustSchedule?;
      assert s'.threads[u].MustSchedule?;
    }
  }

  /** A thread other than t that draws a line still draws it. */
  lemma StillDrawn(c: Config, s: State, s': State, line: nat, t: nat)
    requires ValidConfig(c) && |s'.threads| == |s.threads|
    requires forall u | 0 <= u < |s.threads| && u != t :: s'.threads[u] == s.threads[u]
    requires t < |s.threads| ==> !(s.threads[t].Drawing? && line in MarkLines(s.threads[t].mark, c.height))
    ensures BeingDrawn(c, s, line) ==> BeingDrawn(c, s', line)
  {
    if BeingDrawn(c, s, line) {
      var u :| 0 <= u < |s.threads| && s.threads[u].Drawing? && line in MarkLines(s.threads[u].mark, c.height);
      assert s'.threads[u].Drawing?;
    }
  }

  lemma WriteKeeps(c: Config, s: State, j: nat, v: Word16)
    requires ValidConfig(c) && Inv(c, s) && j < |s.vmem| && Pending(c, s, j)
    ensures Inv(c, s.(vmem := s.vmem[j := v]))
  {
    var s' := s.(vmem := s.vmem[j := v]);
    forall i | 0 <= i < |s.vmem| ensures Pending(c, s, i) <==> Pending(c, s', i) {
    }
    forall i | 0 <= i < |s.vmem| ensures PixelKept(c, s', i) {
      PixelStays(c, s, s', i);
    }
  }

  lemma MarkDirtyKeeps(c: Config, s: State, t: nat)
    requires ValidConfig(c) && Inv(c, s) && Enabled(c, s, MarkDirty(t))
    ensures Inv(c, Next(c, s, MarkDirty(t)))
  {
    var s', m := Next(c, s, MarkDirty(t)), s.threads[t].mark;
    forall line | line in s'.marked ensures Owed(c, s'.dirty, line) {
      if line in s.marked { OwedStays(c, s.dirty, m, line); } else { MarkIsOwed(c, s.dirty, m, line); }
    }
    forall i | 0 <= i < |s.vmem| && Pending(c, s, i) ensures Pending(c, s', i) {
      if LineOf(c, i) !in MarkLines(m, c.height) {
        StillDrawn(c, s, s', LineOf(c, i), t);
      }
    }
    forall i | 0 <= i < |s.vmem| ensures PixelKept(c, s', i) {
      PixelStays(c, s, s', i);
    }
    assert s'.threads[t].MustSchedule?;
  }

  lemma TouchKeeps(c: Config, s: State, t: nat, p: nat)
    requires ValidConfig(c) && Inv(c, s) && Enabled(c, s, Touch(t, p))
    ensures Inv(c, Next(c, s, Touch(t, p)))
  {
    var s' := Next(c, s, Touch(t, p));
    forall i | 0 <= i < |s.vmem| && Pending(c, s, i) ensures Pending(c, s', i) {
      StillDrawn(c, s, s', LineOf(c, i), t);
    }
    forall i | 0 <= i < |s.vmem| ensures PixelKept(c, s', i) {
      PixelStays(c, s, s', i);
    }
    assert s'.threads[t].MustSchedule?;
  }

  lemma ScheduleKeeps(c: Config, s: State, t: nat)
    requires ValidConfig(c) && Inv(c, s) && Enabled(c, s, Schedule(t))
    ensures Inv(c, Next(c, s, Schedule(t)))
  {
    var s' := Next(c, s, Schedule(t));
    forall i | 0 <= i < |s.vmem| && Pending(c, s, i) ensures Pending(c, s', i) {
      StillDrawn(c, s, s', LineOf(c, i), t);
    }
    forall i | 0 <= i < |s.vmem| ensures PixelKept(c, s', i) {
      PixelStays(c, s, s', i);
    }
  }

  // ----- The steps of the worker keep it -----

  lemma OwedIsSent(c: Config, r: Range, line: nat)
    requires ValidConfig(c) && Owed(c, r, line)
    ensures InRange(ToSend(r, c.height), line)
  {
  }

  lemma OwedWidened(c: Config, r: Range, offset: nat, line: nat)
    requires ValidConfig(c) && Owed(c, r, line)
    ensures Owed(c, Widened(r, c.height, LineLength(c), c.pageSize, offset), line)
  {
  }

  lemma {:induction false} OwedWidenedAll(c: Config, r: Range, offsets: seq<nat>, line: nat)
    requires ValidConfig(c) && Owed(c, r, line)
    ensures Owed(c, WidenAll(r, c.height, LineLength(c), c.pageSize, offsets), line)
  {
    if offsets == [] {
    } else {
      OwedWidenedAll(c, r, offsets[..|offsets| - 1], line);
      OwedWidened(c, WidenAll(r, c.height, LineLength(c), c.pageSize, offsets[..|offsets| - 1]),
          offsets[|offsets| - 1], line);
    }
  }

  lemma LineOfPixelByte(c: Config, i: nat)
    requires ValidConfig(c)
    ensures (2 * i) / LineLength(c) == LineOf(c, i)
  {
    LineOfByte(c.width, LineOf(c, i), i);
    LineOfByte(LineLength(c), LineOf(c, i), 2 * i);
    assert LineOf(c, i) * LineLength(c) == 2 * (LineOf(c, i) * c.width);
  }

  /** The line that holds a byte of video memory. */
  function ByteLine(c: Config, b: nat): nat
    requires ValidConfig(c)
  {
    Quotient(b, LineLength(c))
  }

  lemma PageSpansLine(c: Config, i: nat)
    requires ValidConfig(c)
    ensures var p := PageOffset(c, PageOf(c, i));
            ByteLine(c, p) <= LineOf(c, i) <= ByteLine(c, p + c.pageSize - 1) <= p + c.pageSize - 1
  {
    var p := PageOffset(c, PageOf(c, i));
    LineOfByte(c.pageSize, PageOf(c, i), 2 * i);
    LineOfPixelByte(c, i);
    BetweenBytes(p, 2 * i, p + c.pageSize - 1, LineLength(c));
  }

  lemma BetweenBytes(low: nat, b: nat, high: nat, length: nat)
    requires length > 0 && low <= b <= high
    ensures Quotient(low, length) <= Quotient(b, length) <= Quotient(high, length) <= high
  {
    QuotientMonotone(low, b, length);
    QuotientMonotone(b, high, length);
    QuotientBound(high, length);
  }

  /** A touched page widens the range to every line that holds a pixel of it. */
  lemma PixelOfPageIsOwed(c: Config, r: Range, i: nat)
    requires ValidConfig(c) && PageInMemory(c, PageOf(c, i)) && LineOf(c, i) < c.height
    ensures Owed(c, Widened(r, c.height, LineLength(c), c.pageSize, PageOffset(c, PageOf(c, i))), LineOf(c, i))
  {
    var p := PageOffset(c, PageOf(c, i));
    PageSpansLine(c, i);
    LineBetween(c, r, p, ByteLine(c, p), ByteLine(c, p + c.pageSize - 1), LineOf(c, i));
  }

  lemma LineBetween(c: Config, r: Range, p: nat, low: nat, high: nat, line: nat)
    requires ValidConfig(c) && low <= line <= high < 0x1_0000_0000 && line < c.height
    requires low == ByteLine(c, p) && high == ByteLine(c, p + c.pageSize - 1)
    ensures Owed(c, Widened(r, c.height, LineLength(c), c.pageSize, p), line)
  {
  }

  lemma {:induction false} PixelOfTouchedPageIsOwed(c: Config, r: Range, pages: seq<nat>, i: nat)
    requires ValidConfig(c) && PageOf(c, i) in pages && LineOf(c, i) < c.height
    requires forall k | 0 <= k < |pages| :: PageInMemory(c, pages[k])
    ensures Owed(c, WidenAll(r, c.height, LineLength(c), c.pageSize, Offsets(c, pages)), LineOf(c, i))
  {
    var n := |pages| - 1;
    var front := WidenAll(r, c.height, LineLength(c), c.pageSize, Offsets(c, pages[..n]));
    assert Offsets(c, pages)[..n] == Offsets(c, pages[..n]);
    if pages[n] == PageOf(c, i) {
      PixelOfPageIsOwed(c, front, i);
    } else {
      PixelOfTouchedPageIsOwed(c, r, pages[..n], i);
      OwedWidened(c, front, PageOffset(c, pages[n]), LineOf(c, i));
    }
  }

  lemma LineOfPixel(c: Config, i: nat)
    requires ValidConfig(c) && i < c.width * c.height
    ensures LineOf(c, i) < c.height
  {
    LineOfByte(c.width, c.height, i);
  }

  lemma PixelInLines(c: Config, r: Range, i: nat)
    requires ValidConfig(c) && InRange(r, LineOf(c, i))
    ensures r.first * c.width <= i < (r.last + 1) * c.width
  {
    LineOfByte(c.width, LineOf(c, i), i);
    TimesMonotone(r.first, LineOf(c, i), c.width);
    TimesMonotone(LineOf(c, i) + 1, r.last + 1, c.width);
    Distribute(LineOf(c, i), 1, c.width);
  }

  lemma StartKeepsPixel(c: Config, s: State, i: nat)
    requires ValidConfig(c) && Inv(c, s) && s.flush.NoFlush? && i < |s.vmem|
    ensures var r := FlushRange(c, s);
            || BeingDrawn(c, s, LineOf(c, i)) || LineOf(c, i) in NotIn(s.cut, r) || i in NotTaken(c, s.unsent, r)
            || r.first * c.width <= i < (r.last + 1) * c.width || Fresh(c, s.panel[i], i, s.vmem[i])
  {
    assert PixelKept(c, s, i);
    var widened := WidenAll(s.dirty, c.height, LineLength(c), c.pageSize, Offsets(c, s.touched));
    LineOfPixel(c, i);
    if LineOf(c, i) in s.marked {
      OwedWidenedAll(c, s.dirty, Offsets(c, s.touched), LineOf(c, i));
      OwedIsSent(c, widened, LineOf(c, i));
      PixelInLines(c, FlushRange(c, s), i);
    } else if PageOf(c, i) in s.touched {
      PixelOfTouchedPageIsOwed(c, s.dirty, s.touched, i);
      OwedIsSent(c, widened, LineOf(c, i));
      PixelInLines(c, FlushRange(c, s), i);
    } else if LineOf(c, i) in s.cut && InRange(FlushRange(c, s), LineOf(c, i)) {
      PixelInLines(c, FlushRange(c, s), i);
    }
  }

  lemma LinesFit(c: Config, r: Range)
    requires ValidConfig(c) && r.first <= r.last < c.height
    ensures 0 <= r.first * c.width < (r.last + 1) * c.width <= c.width * c.height
  {
    TimesMonotone(r.first, r.last, c.width);
    Distribute(r.last, 1, c.width);
    TimesMonotone(r.last + 1, c.height, c.width);
  }

  lemma StartKeeps(c: Config, s: State)
    requires ValidConfig(c) && Inv(c, s) && s.flush.NoFlush? && s.scheduled && WorkerFits(c, s)
    ensures Inv(c, WorkerStep(c, s))
  {
    var s', r := WorkerStep(c, s), FlushRange(c, s);
    LinesFit(c, r);
    forall i | 0 <= i < |s.vmem| ensures PixelKept(c, s', i) {
      StartKeepsPixel(c, s, i);
      StillDrawn(c, s, s', LineOf(c, i), |s.threads|);
    }
  }

  /** What is pending does not depend on the worker's place in a flush. */
  lemma PendingUnmoved(c: Config, s: State, s': State)
    requires ValidConfig(c) && s' == s.(panel := s'.panel, flush := s'.flush)
    ensures forall i :: Pending(c, s, i) <==> Pending(c, s', i)
  {
    forall i: nat ensures Pending(c, s, i) <==> Pending(c, s', i) {
      StillDrawn(c, s, s', LineOf(c, i), |s.threads|);
      StillDrawn(c, s', s, LineOf(c, i), |s.threads|);
    }
  }

  lemma ReadKeeps(c: Config, s: State)
    requires ValidConfig(c) && Inv(c, s) && s.flush.Flushing? && WorkerFits(c, s)
    requires var f := s.flush; !f.sending && f.next < EndOf(c, f) && |f.batch| < c.cap && |f.read| < c.parts
    ensures Inv(c, WorkerStep(c, s))
  {
    var s', f := WorkerStep(c, s), s.flush;
    PendingUnmoved(c, s, s');
    forall i | 0 <= i < |s.vmem| ensures PixelKept(c, s', i) {
      assert PixelKept(c, s, i);
    }
    var whole := Encode(c, f.first, f.next, s.vmem[f.next]);
    assert whole[..|f.read| + 1] == whole[..|f.read|] + [whole[|f.read|]];
  }

  lemma CopyKeeps(c: Config, s: State)
    requires ValidConfig(c) && Inv(c, s) && s.flush.Flushing? && WorkerFits(c, s)
    requires var f := s.flush; !f.sending && f.next < EndOf(c, f) && |f.batch| < c.cap && |f.read| == c.parts
    ensures Inv(c, WorkerStep(c, s))
  {
    var s', f := WorkerStep(c, s), s.flush;
    PendingUnmoved(c, s, s');
    forall i | 0 <= i < |s.vmem| ensures PixelKept(c, s', i) {
      assert PixelKept(c, s, i);
      if i == f.next {
        var whole := Encode(c, f.first, f.next, s.vmem[f.next]);
        assert whole[..|whole|] == whole;
      }
    }
  }

  lemma SendKeeps(c: Config, s: State)
    requires ValidConfig(c) && Inv(c, s) && s.flush.Flushing? && WorkerFits(c, s)
    requires s.flush.sending && s.flush.batch != [] && !(s.flush.odd && |s.flush.batch| == 1)
    ensures Inv(c, WorkerStep(c, s))
    ensures forall i | 0 <= i < |s.panel| :: Copy(WorkerStep(c, s), i) == Copy(s, i)
    ensures forall i | 0 <= i < |s.panel| && i != s.flush.next - |s.flush.batch| ::
            WorkerStep(c, s).panel[i] == s.panel[i]
  {
    var s', f := WorkerStep(c, s), s.flush;
    PendingUnmoved(c, s, s');
    forall i | 0 <= i < |s.vmem| ensures PixelKept(c, s', i) {
      assert PixelKept(c, s, i);
      assert Copy(s', i) == Copy(s, i);
    }
  }

  /** The last pixel of an odd batch does not go out, and is recorded. */
  lemma DropKeeps(c: Config, s: State)
    requires ValidConfig(c) && Inv(c, s) && s.flush.Flushing? && WorkerFits(c, s)
    requires s.flush.sending && s.flush.odd && |s.flush.batch| == 1
    ensures Inv(c, WorkerStep(c, s)) && WorkerStep(c, s).panel == s.panel
  {
    var s' := WorkerStep(c, s);
    forall i | 0 <= i < |s.vmem| && Pending(c, s, i) ensures Pending(c, s', i) {
      StillDrawn(c, s, s', LineOf(c, i), |s.threads|);
    }
    forall i | 0 <= i < |s.vmem| ensures PixelKept(c, s', i) {
      assert PixelKept(c, s, i);
    }
  }

  /** Opening or closing a transfer, and ending a flush, move no pixel. */
  lemma TurnKeeps(c: Config, s: State)
    requires ValidConfig(c) && Inv(c, s) && s.flush.Flushing? && WorkerFits(c, s)
    requires var f := s.flush;
             if f.sending then f.batch == [] else |f.batch| >= c.cap || f.next >= EndOf(c, f)
    ensures Inv(c, WorkerStep(c, s))
  {
    var s' := WorkerStep(c, s);
    PendingUnmoved(c, s, s');
    forall i | 0 <= i < |s.vmem| ensures PixelKept(c, s', i) {
      assert PixelKept(c, s, i);
    }
  }

  lemma FlushStepKeeps(c: Config, s: State)
    requires ValidConfig(c) && Inv(c, s) && s.flush.Flushing? && WorkerFits(c, s)
    ensures Inv(c, WorkerStep(c, s))
  {
    var f := s.flush;
    if f.sending {
      if f.batch == [] {
        TurnKeeps(c, s);
      } else if f.odd && |f.batch| == 1 {
        DropKeeps(c, s);
      } else {
        SendKeeps(c, s);
      }
    } else if |f.batch| >= c.cap || f.next >= EndOf(c, f) {
      TurnKeeps(c, s);
    } else if |f.read| < c.parts {
      ReadKeeps(c, s);
    } else {
      CopyKeeps(c, s);
    }
  }

  /** Whatever step comes next, the invariant holds after it. */
  lemma StepKeeps(c: Config, s: State, e: Event)
    requires ValidConfig(c) && Inv(c, s) && Enabled(c, s, e)
    ensures Inv(c, Next(c, s, e))
  {
    match e
    case BeginDraw(t, m) => BeginDrawKeeps(c, s, t, m);
    case DrawPixel(t, i, v) =>
      assert BeingDrawn(c, s, LineOf(c, i));
      WriteKeeps(c, s, i, v);
    case MarkDirty(t) => MarkDirtyKeeps(c, s, t);
    case Touch(t, p) => TouchKeeps(c, s, t, p);
    case MapWrite(i, v) => WriteKeeps(c, s, i, v);
    case Schedule(t) => ScheduleKeeps(c, s, t);
    case Worker => if s.flush.NoFlush? { StartKeeps(c, s); } else { FlushStepKeeps(c, s); }
  }

  // ----- Every run -----

  /** The state after the probe function: one full flush has been sent, nothing is marked. The
      range is still the zeroed one, not the clean one. */
  ghost predicate Initial(c: Config, s: State)
    requires ValidConfig(c)
  {
    && |s.vmem| == |s.panel| == c.width * c.height
    && s.dirty == Range(0, 0) && s.marked == {} && s.cut == {} && s.unsent == {} && s.touched == [] && !s.scheduled &&
        s.flush.NoFlush?
    && (forall i | 0 <= i < |s.vmem| :: Fresh(c, s.panel[i], i, s.vmem[i]))
    && (forall t | 0 <= t < |s.threads| :: s.threads[t].Idle?)
  }

  ghost predicate Reaches(c: Config, s: State, events: seq<Event>, last: State)
    requires ValidConfig(c)
    decreases |events|
  {
    if events == [] then last == s
    else Enabled(c, s, events[0]) && Reaches(c, Next(c, s, events[0]), events[1..], last)
  }

  lemma {:induction false} RunKeeps(c: Config, s: State, events: seq<Event>, last: State)
    requires ValidConfig(c) && Inv(c, s) && Reaches(c, s, events, last)
    ensures Inv(c, last)
    decreases |events|
  {
    if events == [] {
    } else {
      StepKeeps(c, s, events[0]);
      RunKeeps(c, Next(c, s, events[0]), events[1..], last);
    }
  }

  /** No lost update: in every reachable state, a pixel that no later copy is owed shows its
      value in video memory, in the unsent batch if it is there and on the panel otherwise. */
  lemma NoLostUpdate(c: Config, s: State, events: seq<Event>, last: State, i: nat)
    requires ValidConfig(c) && Initial(c, s) && Reaches(c, s, events, last) && i < |last.vmem|
    ensures Inv(c, last) && PixelKept(c, last, i)
  {
    InitialHolds(c, s);
    RunKeeps(c, s, events, last);
  }

  lemma InitialHolds(c: Config, s: State)
    requires ValidConfig(c) && Initial(c, s)
    ensures Inv(c, s)
  {
    forall i | 0 <= i < |s.vmem| ensures PixelKept(c, s, i) {
      assert Fresh(c, s.panel[i], i, s.vmem[i]);
    }
  }

  ghost predicate Quiet(s: State) {
    !WorkerEnabled(s) && forall t | 0 <= t < |s.threads| :: s.threads[t].Idle?
  }

  /** No flush to come is sure to bring the pixel up to date: its line was cut off, or it was
      left out of a batch. */
  predicate Excused(c: Config, s: State, i: nat)
    requires ValidConfig(c)
  {
    LineOf(c, i) in s.cut || i in s.unsent
  }

  /** When nothing is under way, the panel shows video memory, but for excused pixels. */
  lemma QuietMeansFresh(c: Config, s: State)
    requires ValidConfig(c) && Inv(c, s) && Quiet(s)
    ensures forall i | 0 <= i < |s.vmem| && !Excused(c, s, i) :: Fresh(c, s.panel[i], i, s.vmem[i])
  {
    forall i | 0 <= i < |s.vmem| && !Excused(c, s, i) ensures Fresh(c, s.panel[i], i, s.vmem[i]) {
      assert PixelKept(c, s, i);
    }
  }

  /** No stranded mark: a pixel that is out of date has the worker scheduled or running, or a
      thread on its way to scheduling it, unless it is excused. */
  lemma NoStrandedMark(c: Config, s: State, events: seq<Event>, last: State, i: nat)
    requires ValidConfig(c) && Initial(c, s) && Reaches(c, s, events, last)
    requires i < |last.panel| && i < |last.vmem| && !Fresh(c, last.panel[i], i, last.vmem[i])
    ensures || last.scheduled || last.flush.Flushing? || (exists t :: 0 <= t < |last.threads| && !last.threads[t].Idle?)
            || Excused(c, last, i)
  {
    NoLostUpdate(c, s, events, last, i);
    if !WorkerEnabled(last) && forall t | 0 <= t < |last.threads| :: last.threads[t].Idle? {
      QuietMeansFresh(c, last);
    }
  }

  /** A line is cut off only by a drawing call whose rectangle is. */
  ghost predicate NoneCutOff(c: Config, s: State)
    requires ValidConfig(c)
  {
    s.cut == {} && forall t | 0 <= t < |s.threads| && s.threads[t].Drawing? :: !CutOffAbove(s.threads[t].mark, c.height)
  }

  predicate CutsOff(c: Config, e: Event) {
    e.BeginDraw? && CutOffAbove(e.mark, c.height)
  }

  lemma {:induction false} CutLinesComeFromMarks(c: Config, s: State, events: seq<Event>, last: State)
    requires ValidConfig(c) && NoneCutOff(c, s) && Reaches(c, s, events, last)
    requires forall i | 0 <= i < |events| :: !CutsOff(c, events[i])
    ensures NoneCutOff(c, last)
    decreases |events|
  {
    if events == [] {
    } else {
      assert !CutsOff(c, events[0]);
      StepCutsNothing(c, s, events[0]);
      CutLinesComeFromMarks(c, Next(c, s, events[0]), events[1..], last);
    }
  }

  lemma StepCutsNothing(c: Config, s: State, e: Event)
    requires ValidConfig(c) && NoneCutOff(c, s) && Enabled(c, s, e) && !CutsOff(c, e)
    ensures NoneCutOff(c, Next(c, s, e))
  {
    if e.Worker? && s.flush.NoFlush? {
      assert NotIn(s.cut, FlushRange(c, s)) == {};
    }
  }

  /** The invariant keeps the worker's indices in bounds. */
  lemma WorkerNeverStuck(c: Config, s: State)
    requires ValidConfig(c) && Inv(c, s) && WorkerEnabled(s)
    ensures Enabled(c, s, Worker)
  {
  }

  // ----- The worker gets done -----

  /** At most this many steps go into n pixels. */
  function StepsFor(c: Config, n: nat): nat {
    (c.parts + 6) * n
  }

  lemma StepsForOneMore(c: Config, n: nat)
    requires n > 0
    ensures StepsFor(c, n) == StepsFor(c, n - 1) + c.parts + 6
  {
    DistributeLeft(c.parts + 6, n - 1, 1);
  }

  lemma StepsForMore(c: Config, a: nat, b: nat)
    requires a <= b
    ensures StepsFor(c, a) <= StepsFor(c, b)
  {
    TimesMonotone(a, b, c.parts + 6);
  }

  /** Steps left in a flush with this many pixels to copy. */
  function FlushWork(c: Config, f: Flush, left: nat): int
    requires f.Flushing?
  {
    StepsFor(c, left) - |f.read| + 3 * |f.batch| + 1 + if f.sending then 1 else if f.batch == [] then 0 else 2
  }

  function PixelsLeft(c: Config, f: Flush): nat
    requires f.Flushing?
  {
    if f.next < EndOf(c, f) then EndOf(c, f) - f.next else 0
  }

  function Work(c: Config, s: State): int {
    (if s.scheduled then StepsFor(c, c.width * c.height) + 2 else 0) +
    if s.flush.Flushing? then FlushWork(c, s.flush, PixelsLeft(c, s.flush)) else 0
  }

  lemma WorkIsPositive(c: Config, s: State)
    requires ValidConfig(c) && Shape(c, s) && WorkerEnabled(s)
    ensures Work(c, s) > 0
  {
    if s.flush.Flushing? && PixelsLeft(c, s.flush) > 0 {
      StepsForOneMore(c, PixelsLeft(c, s.flush));
    }
  }

  lemma StartWorks(c: Config, s: State)
    requires ValidConfig(c) && Inv(c, s) && s.scheduled && s.flush.NoFlush?
    ensures Work(c, WorkerStep(c, s)) < Work(c, s)
  {
    LinesFit(c, FlushRange(c, s));
    StepsForMore(c, PixelsLeft(c, WorkerStep(c, s).flush), c.width * c.height);
  }

  lemma StepWorks(c: Config, s: State)
    requires ValidConfig(c) && Inv(c, s) && WorkerEnabled(s) && WorkerFits(c, s)
    ensures Work(c, WorkerStep(c, s)) < Work(c, s)
  {
    if s.flush.NoFlush? {
      StartWorks(c, s);
    } else if PixelsLeft(c, s.flush) > 0 {
      StepsForOneMore(c, PixelsLeft(c, s.flush));
    }
  }

  /** The state after the worker has run, undisturbed, until it has nothing left to do. */
  ghost function Settle(c: Config, s: State): (r: State)
    requires ValidConfig(c) && Inv(c, s)
    ensures Inv(c, r) && !WorkerEnabled(r) && r.vmem == s.vmem && r.threads == s.threads && r.cut <= s.cut
    decreases if WorkerEnabled(s) then Work(c, s) else 0
  {
    if !WorkerEnabled(s) then s
    else
      WorkerNeverStuck(c, s);
      StepKeeps(c, s, Worker);
      StepWorks(c, s);
      WorkIsPositive(c, s);
      Settle(c, WorkerStep(c, s))
  }

  /** From every reachable state in which the callers are done, the worker alone brings the
      panel up to date with video memory, but for excused pixels. */
  lemma SettlesFresh(c: Config, s: State, events: seq<Event>, last: State)
    requires ValidConfig(c) && Initial(c, s) && Reaches(c, s, events, last)
    requires forall t | 0 <= t < |last.threads| :: last.threads[t].Idle?
    ensures Inv(c, last)
    ensures var r := Settle(c, last);
            && r.vmem == last.vmem && |r.panel| == |r.vmem| && r.cut <= last.cut
            && forall i | 0 <= i < |r.vmem| && !Excused(c, r, i) :: Fresh(c, r.panel[i], i, r.vmem[i])
  {
    InitialHolds(c, s);
    RunKeeps(c, s, events, last);
    QuietMeansFresh(c, Settle(c, last));
  }

  // ----- Pixels left out of batches -----

  /** Every batch is of whole pairs, or the mode sends single pixels. */
  predicate WholeBatches(c: Config) {
    !c.pairs || c.width % 2 == 0
  }

  /** A batch that is being sent has an even number of pixels, and begins at an even pixel. */
  ghost predicate EvenFlush(c: Config, f: Flush) {
    c.pairs && f.Flushing? ==> if f.sending then !f.odd && f.next % 2 == 0 else (f.next - |f.batch|) % 2 == 0
  }

  ghost predicate NothingLeftOut(c: Config, s: State) {
    s.unsent == {} && EvenFlush(c, s.flush) && (!c.pairs && s.flush.Flushing? ==> !s.flush.odd)
  }

  lemma EvenLine(c: Config, line: nat)
    requires c.width % 2 == 0
    ensures (line * c.width) % 2 == 0
  {
    RowAndColumn(2, line * (c.width / 2), 0);
    assert line * c.width == (line * (c.width / 2)) * 2;
  }

  lemma EvenEnd(c: Config, f: Flush)
    requires f.Flushing? && c.width % 2 == 0
    ensures EndOf(c, f) % 2 == 0
  {
    EvenLine(c, f.last + 1);
  }

  lemma EvenTurn(next: nat, batch: nat, cap: nat, end: nat, screen: nat)
    requires batch <= next <= end <= screen && batch <= cap && (next - batch) % 2 == 0
    requires end % 2 == 0 && (cap % 2 == 0 || screen <= cap) && (batch >= cap || next >= end)
    ensures batch % 2 == 0 && next % 2 == 0
  {
  }

  /** A batch that turns to being sent is of whole pairs. */
  lemma TurnsEven(c: Config, s: State)
    requires ValidConfig(c) && Inv(c, s) && s.flush.Flushing? && c.pairs && c.width % 2 == 0
    requires EvenFlush(c, s.flush) && !s.flush.sending
    requires s.flush.batch != [] && (|s.flush.batch| >= c.cap || s.flush.next >= EndOf(c, s.flush))
    ensures |s.flush.batch| % 2 == 0 && s.flush.next % 2 == 0
  {
    var f := s.flush;
    EvenEnd(c, f);
    EvenTurn(f.next, |f.batch|, c.cap, EndOf(c, f), c.width * c.height);
  }

  lemma WorkerLeavesNothingOut(c: Config, s: State)
    requires ValidConfig(c) && Inv(c, s) && WorkerEnabled(s) && WorkerFits(c, s)
    requires WholeBatches(c) && NothingLeftOut(c, s)
    ensures NothingLeftOut(c, WorkerStep(c, s))
  {
    var f := s.flush;
    if f.NoFlush? {
      assert NotTaken(c, s.unsent, FlushRange(c, s)) == {};
      if c.pairs {
        EvenLine(c, FlushRange(c, s).first);
      }
    } else if c.pairs && !f.sending && f.batch != [] && (|f.batch| >= c.cap || f.next >= EndOf(c, f)) {
      TurnsEven(c, s);
    }
  }

  lemma {:induction false} RunLeavesNothingOut(c: Config, s: State, events: seq<Event>, last: State)
    requires ValidConfig(c) && Inv(c, s) && Reaches(c, s, events, last) && WholeBatches(c) && NothingLeftOut(c, s)
    ensures Inv(c, last) && NothingLeftOut(c, last)
    decreases |events|
  {
    if events == [] {
    } else {
      StepKeeps(c, s, events[0]);
      if events[0].Worker? {
        WorkerLeavesNothingOut(c, s);
      }
      RunLeavesNothingOut(c, Next(c, s, events[0]), events[1..], last);
    }
  }

  lemma {:induction false} SettleLeavesNothingOut(c: Config, s: State)
    requires ValidConfig(c) && Inv(c, s) && WholeBatches(c) && NothingLeftOut(c, s)
    ensures NothingLeftOut(c, Settle(c, s))
    decreases if WorkerEnabled(s) then Work(c, s) else 0
  {
    if WorkerEnabled(s) {
      WorkerNeverStuck(c, s);
      StepKeeps(c, s, Worker);
      StepWorks(c, s);
      WorkIsPositive(c, s);
      WorkerLeavesNothingOut(c, s);
      SettleLeavesNothingOut(c, WorkerStep(c, s));
    }
  }

  /** Only the last batch of a flush can be odd. */
  ghost predicate OddAtEnd(c: Config, f: Flush) {
    f.Flushing? && f.odd ==> f.next == EndOf(c, f)
  }

  predicate EndsLine(c: Config, i: nat)
    requires ValidConfig(c)
  {
    (i + 1) % c.width == 0
  }

  ghost predicate LeftOutAtLineEnds(c: Config, s: State)
    requires ValidConfig(c)
  {
    OddAtEnd(c, s.flush) && forall i | i in s.unsent :: EndsLine(c, i)
  }

  lemma FullBatchIsEven(next: nat, batch: nat, cap: nat, end: nat, screen: nat)
    requires batch <= next < end <= screen && batch == cap && (cap % 2 == 0 || screen <= cap)
    ensures batch % 2 == 0
  {
  }

  lemma WorkerLeavesOutLineEnds(c: Config, s: State)
    requires ValidConfig(c) && Inv(c, s) && WorkerEnabled(s) && WorkerFits(c, s) && LeftOutAtLineEnds(c, s)
    ensures LeftOutAtLineEnds(c, WorkerStep(c, s))
  {
    var f := s.flush;
    if f.Flushing? && f.sending && f.odd {
      RowAndColumn(c.width, f.last + 1, 0);
    } else if f.Flushing? && c.pairs && !f.sending && |f.batch| >= c.cap && f.next < EndOf(c, f) {
      FullBatchIsEven(f.next, |f.batch|, c.cap, EndOf(c, f), c.width * c.height);
    }
  }

  /** A pixel that is left out is the last of a line. */
  lemma {:induction false} LeftOutIsLast(c: Config, s: State, events: seq<Event>, last: State)
    requires ValidConfig(c) && Inv(c, s) && Reaches(c, s, events, last) && LeftOutAtLineEnds(c, s)
    ensures Inv(c, last) && LeftOutAtLineEnds(c, last)
    decreases |events|
  {
    if events == [] {
    } else {
      StepKeeps(c, s, events[0]);
      if events[0].Worker? {
        WorkerLeavesOutLineEnds(c, s);
      }
      LeftOutIsLast(c, Next(c, s, events[0]), events[1..], last);
    }
  }

  /** In a mode that sends single pixels, or at an even width, and without a drawing call cut
      off above the screen, the whole panel comes up to date. */
  lemma SettlesWhole(c: Config, s: State, events: seq<Event>, last: State)
    requires ValidConfig(c) && Initial(c, s) && Reaches(c, s, events, last) && WholeBatches(c)
    requires forall t | 0 <= t < |last.threads| :: last.threads[t].Idle?
    requires forall i | 0 <= i < |events| :: !CutsOff(c, events[i])
    ensures Inv(c, last)
    ensures var r := Settle(c, last);
            && r.vmem == last.vmem && |r.panel| == |r.vmem|
            && forall i | 0 <= i < |r.vmem| :: Fresh(c, r.panel[i], i, r.vmem[i])
  {
    SettlesFresh(c, s, events, last);
    CutLinesComeFromMarks(c, s, events, last);
    InitialHolds(c, s);
    RunLeavesNothingOut(c, s, events, last);
    SettleLeavesNothingOut(c, last);
  }
}
