/** The protocol's 3-bit modes down to the bytes: a reader that unpacks the bytes of every flush,
    two pixels each, holds what the protocol says. */
module FlushPairs {
  import opened Words
  import opened PixelCode
  import opened Dither
  import opened FlushProtocol
  import opened FlushModes

  /** What a step of the system puts on the wire: a flush that starts opens its window at its
      first pixel, and every second pixel that is sent completes a byte. */
  datatype Output = Nothing | Open(at: nat) | Pair(byte: Byte)

  predicate IsTriple(cell: Cell) {
    |cell.parts| == 3 && AreBits(cell.parts)
  }

  predicate AreBits(parts: seq<nat>) {
    forall k | 0 <= k < |parts| :: parts[k] <= 1
  }

  function Triple(cell: Cell): Rgb3
    requires |cell.parts| == 3
  {
    Rgb3(cell.parts[0] == 1, cell.parts[1] == 1, cell.parts[2] == 1)
  }

  /** One pixel of a pair has been sent, and the other one has not. */
  predicate MidPair(f: Flush) {
    f.Flushing? && f.sending && f.batch != [] && (f.odd <==> |f.batch| % 2 == 0)
  }

  /** The place of the pixel that is sent next. */
  function NextPlace(f: Flush): int
    requires f.Flushing?
  {
    f.next - |f.batch|
  }

  predicate PairReady(s: State) {
    && MidPair(s.flush) && 0 < NextPlace(s.flush) <= |s.panel|
    && |s.panel[NextPlace(s.flush) - 1].parts| == 3 && |s.flush.batch[0].parts| == 3
  }

  function Out(c: Config, s: State, e: Event): Output
    requires ValidConfig(c) && Enabled(c, s, e)
  {
    if !e.Worker? then Nothing
    else if s.flush.NoFlush? then Open(FlushRange(c, s).first * c.width)
    else if PairReady(s) then Pair(Pack(Triple(s.panel[NextPlace(s.flush) - 1]), Triple(s.flush.batch[0])))
    else Nothing
  }

  /** A frame of bit triples, and the place that the next byte goes to. */
  datatype Reader = Reader(frame: seq<seq<nat>>, at: nat)

  function Read(r: Reader, o: Output): Reader {
    match o
    case Nothing => r
    case Open(at) => r.(at := at)
    case Pair(b) =>
      if r.at + 1 < |r.frame| then
        Reader(r.frame[r.at := Bits(UnpackLeft(b))][r.at + 1 := Bits(UnpackRight(b))], r.at + 2)
      else r
  }

  function ReadAll(c: Config, s: State, events: seq<Event>, r: Reader): Reader
    requires ValidConfig(c)
    decreases |events|
  {
    if events == [] || !Enabled(c, s, events[0]) then r
    else ReadAll(c, Next(c, s, events[0]), events[1..], Read(r, Out(c, s, events[0])))
  }

  // ----- What the reader holds -----

  /** Pixel j is read, but for the first one of a pair under way. */
  predicate PixelRead(s: State, r: Reader, j: nat)
    requires |r.frame| == |s.panel| && j < |s.panel|
  {
    (MidPair(s.flush) && j == NextPlace(s.flush) - 1) || r.frame[j] == s.panel[j].parts
  }

  ghost predicate HoldsCells(s: State, r: Reader) {
    |r.frame| == |s.panel| && forall j | 0 <= j < |s.panel| :: PixelRead(s, r, j)
  }

  /** While pixels are to come, the reader is at the next pair. */
  ghost predicate InStep(c: Config, s: State, r: Reader) {
    var f := s.flush;
    f.Flushing? && (f.next < EndOf(c, f) || f.batch != []) ==>
      r.at == if MidPair(f) then NextPlace(f) - 1 else NextPlace(f)
  }

  ghost predicate BatchIsBits(s: State) {
    var f := s.flush;
    f.Flushing? ==>
      && AreBits(f.read) && (forall k | 0 <= k < |f.batch| :: IsTriple(f.batch[k]))
      && (MidPair(f) ==> 0 < NextPlace(f) <= |s.panel| && IsTriple(s.panel[NextPlace(f) - 1]))
  }

  ghost predicate Tracks(c: Config, s: State, r: Reader) {
    HoldsCells(s, r) && InStep(c, s, r) && BatchIsBits(s) && OddAtEnd(c, s.flush)
  }

  ghost predicate BitMode(f: PixelCoder, c: Config) {
    ValidConfig(c) && c == ThreeBit(f, c.width, c.height, c.cap, c.pageSize)
  }

  lemma TripleBits(cell: Cell)
    requires IsTriple(cell)
    ensures Bits(Triple(cell)) == cell.parts
  {
    assert cell.parts == [cell.parts[0], cell.parts[1], cell.parts[2]];
  }

  lemma PairBits(l: Cell, r: Cell)
    requires IsTriple(l) && IsTriple(r)
    ensures var b := Pack(Triple(l), Triple(r));
            Bits(UnpackLeft(b)) == l.parts && Bits(UnpackRight(b)) == r.parts
  {
    UnpackUndoesOnePack(Triple(l), Triple(r));
    TripleBits(l);
    TripleBits(r);
  }

  lemma SamePixels(s: State, s': State, r: Reader, r': Reader)
    requires HoldsCells(s, r) && !MidPair(s.flush) && s'.panel == s.panel && r'.frame == r.frame
    ensures HoldsCells(s', r')
  {
    forall j | 0 <= j < |s.panel| ensures PixelRead(s', r', j) {
      assert PixelRead(s, r, j);
    }
  }

  /** The first pixel of a pair moves to the panel; its byte is not complete. */
  lemma FirstOfPairTracks(f: PixelCoder, c: Config, s: State, r: Reader)
    requires BitMode(f, c) && Inv(c, s) && WorkerFits(c, s) && s.flush.Flushing? && Tracks(c, s, r)
    requires s.flush.sending && s.flush.batch != [] && !(s.flush.odd && |s.flush.batch| == 1) && !MidPair(s.flush)
    ensures Tracks(c, WorkerStep(c, s), Read(r, Out(c, s, Worker)))
  {
    var s' := WorkerStep(c, s);
    forall j | 0 <= j < |s.panel| ensures PixelRead(s', r, j) {
      assert PixelRead(s, r, j);
    }
  }

  /** The second one completes it. */
  lemma SecondOfPairTracks(f: PixelCoder, c: Config, s: State, r: Reader)
    requires BitMode(f, c) && Inv(c, s) && WorkerFits(c, s) && s.flush.Flushing? && Tracks(c, s, r)
    requires MidPair(s.flush)
    ensures Tracks(c, WorkerStep(c, s), Read(r, Out(c, s, Worker)))
  {
    var i := NextPlace(s.flush);
    PairIsRead(f, c, s, r, i);
    PairHolds(c, s, r, i, Read(r, Out(c, s, Worker)), WorkerStep(c, s));
  }

  lemma PairIsRead(f: PixelCoder, c: Config, s: State, r: Reader, i: nat)
    requires BitMode(f, c) && Inv(c, s) && WorkerFits(c, s) && s.flush.Flushing? && Tracks(c, s, r)
    requires MidPair(s.flush) && i == NextPlace(s.flush)
    ensures 0 < i < |r.frame|
    ensures Read(r, Out(c, s, Worker)) ==
            Reader(r.frame[i - 1 := s.panel[i - 1].parts][i := s.flush.batch[0].parts], i + 1)
  {
    PairBits(s.panel[i - 1], s.flush.batch[0]);
  }

  /** The reader puts both pixels of a byte where the panel has them. */
  lemma PairHolds(c: Config, s: State, r: Reader, i: nat, r': Reader, s': State)
    requires HoldsCells(s, r) && MidPair(s.flush) && !MidPair(s'.flush) && i == NextPlace(s.flush)
    requires 0 < i < |s.panel| && s'.panel == s.panel[i := s.flush.batch[0]]
    requires r'.frame == r.frame[i - 1 := s.panel[i - 1].parts][i := s.flush.batch[0].parts]
    ensures HoldsCells(s', r')
  {
    forall j | 0 <= j < |s.panel| ensures PixelRead(s', r', j) {
      assert PixelRead(s, r, j);
    }
  }

  /** Steps that send nothing: the last pixel of an odd batch, ... */
  lemma DropTracks(f: PixelCoder, c: Config, s: State, r: Reader)
    requires BitMode(f, c) && Inv(c, s) && Enabled(c, s, Worker) && s.flush.Flushing? && Tracks(c, s, r)
    requires s.flush.sending && s.flush.odd && |s.flush.batch| == 1
    ensures Tracks(c, WorkerStep(c, s), Read(r, Out(c, s, Worker)))
  {
    SamePixels(s, WorkerStep(c, s), r, r);
  }

  /** ... the begin, the end of a batch and the end of a flush, ... */
  lemma TurnTracks(f: PixelCoder, c: Config, s: State, r: Reader)
    requires BitMode(f, c) && Inv(c, s) && Enabled(c, s, Worker) && s.flush.Flushing? && Tracks(c, s, r)
    requires var g := s.flush; if g.sending then g.batch == [] else |g.batch| >= c.cap || g.next >= EndOf(c, g)
    requires OddAtEnd(c, WorkerStep(c, s).flush)
    ensures Tracks(c, WorkerStep(c, s), Read(r, Out(c, s, Worker)))
  {
    SamePixels(s, WorkerStep(c, s), r, r);
  }

  /** ... and the copying of a pixel, part by part. */
  lemma CopyTracks(f: PixelCoder, c: Config, s: State, r: Reader)
    requires BitMode(f, c) && Inv(c, s) && Enabled(c, s, Worker) && s.flush.Flushing? && Tracks(c, s, r)
    requires var g := s.flush; !g.sending && |g.batch| < c.cap && g.next < EndOf(c, g)
    ensures Tracks(c, WorkerStep(c, s), Read(r, Out(c, s, Worker)))
  {
    SamePixels(s, WorkerStep(c, s), r, r);
  }

  lemma WorkerTracks(f: PixelCoder, c: Config, s: State, r: Reader)
    requires BitMode(f, c) && Inv(c, s) && Enabled(c, s, Worker) && LeftOutAtLineEnds(c, s) && Tracks(c, s, r)
    ensures Tracks(c, WorkerStep(c, s), Read(r, Out(c, s, Worker)))
  {
    WorkerLeavesOutLineEnds(c, s);
    if s.flush.NoFlush? {
      SamePixels(s, WorkerStep(c, s), r, Read(r, Out(c, s, Worker)));
    } else if MidPair(s.flush) {
      SecondOfPairTracks(f, c, s, r);
    } else if s.flush.sending && s.flush.batch != [] {
      if s.flush.odd && |s.flush.batch| == 1 {
        DropTracks(f, c, s, r);
      } else {
        FirstOfPairTracks(f, c, s, r);
      }
    } else if s.flush.sending || |s.flush.batch| >= c.cap || s.flush.next >= EndOf(c, s.flush) {
      TurnTracks(f, c, s, r);
    } else {
      CopyTracks(f, c, s, r);
    }
  }

  /** A step of a caller puts nothing on the wire. */
  lemma CallerTracks(c: Config, s: State, e: Event, r: Reader)
    requires ValidConfig(c) && Enabled(c, s, e) && !e.Worker? && Tracks(c, s, r)
    ensures Tracks(c, Next(c, s, e), r)
  {
    forall j | 0 <= j < |s.panel| ensures PixelRead(Next(c, s, e), r, j) {
      assert PixelRead(s, r, j);
    }
  }

  lemma {:induction false} RunTracks(f: PixelCoder, c: Config, s: State, events: seq<Event>, last: State, r: Reader)
    requires BitMode(f, c) && Inv(c, s) && Reaches(c, s, events, last) && LeftOutAtLineEnds(c, s) && Tracks(c, s, r)
    ensures Inv(c, last) && Tracks(c, last, ReadAll(c, s, events, r))
    decreases |events|
  {
    if events == [] {
    } else {
      var e := events[0];
      StepKeeps(c, s, e);
      if e.Worker? {
        WorkerTracks(f, c, s, r);
        WorkerLeavesOutLineEnds(c, s);
      } else {
        CallerTracks(c, s, e, r);
      }
      RunTracks(f, c, Next(c, s, e), events[1..], last, Read(r, Out(c, s, e)));
    }
  }

  /** After every run a reader that held the protocol's cells at its start and unpacked the bytes
      on the wire holds them still, but for the first pixel of a pair under way. */
  lemma BytesGiveCells(f: PixelCoder, c: Config, s: State, events: seq<Event>, last: State, r: Reader, j: nat)
    requires BitMode(f, c) && Initial(c, s) && Reaches(c, s, events, last) && HoldsCells(s, r) && j < |last.panel|
    ensures |ReadAll(c, s, events, r).frame| == |last.panel| && PixelRead(last, ReadAll(c, s, events, r), j)
  {
    InitialHolds(c, s);
    RunTracks(f, c, s, events, last, r);
  }

  /** So after every run that leaves nothing under way it holds the decision on each pixel's
      value in video memory, but for excused pixels. */
  lemma BytesShowVideoMemory(f: PixelCoder, c: Config, s: State, events: seq<Event>, last: State, r: Reader, j: nat)
    requires BitMode(f, c) && Initial(c, s) && Reaches(c, s, events, last) && HoldsCells(s, r)
    requires Quiet(last) && j < |last.panel| && !Excused(c, last, j)
    ensures var q, start := ReadAll(c, s, events, r), last.panel[j].start;
            && j < |q.frame| && j < |last.vmem| && start * c.width <= j
            && q.frame[j] == Bits(f(StartOffset(c.width, start) + (j - start * c.width), last.vmem[j]))
  {
    BytesGiveCells(f, c, s, events, last, r, j);
    InitialHolds(c, s);
    RunKeeps(c, s, events, last);
    QuietMeansFresh(c, last);
    FreshMeansBits(f, c, last.panel[j], j, last.vmem[j]);
  }
}
