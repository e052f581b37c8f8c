/** Polls of the keyboard controller's queue: what a run of them does to the driver, with
    reads that fail, entries that arrive in between, and pointer motion in mouse mode. */
module Polling {
  import opened Words
  import opened KeyCodes
  import opened KeyEvents

  const KBD_FIFO_SIZE: nat := 31
  const FAST_MOVE_TIME: nat := 150000000

  /** The two bytes that a read of the FIFO register gives; an empty queue reads as zero. */
  datatype Entry = Entry(first: Byte, second: Byte)

  function ItemOf(e: Entry): Item {
    Item(e.first % 16, e.second)
  }

  /** The state is the low four bits of the first byte, the scancode the second byte. */
  lemma ItemOfNibble(hi: nat, st: nat, sc: Byte)
    requires hi < 16 && st < 16
    ensures ItemOf(Entry(16 * hi + st, sc)) == Item(st, sc)
  {
  }

  /** `input_report_rel`, on the x axis or the y axis. */
  datatype Move = Move(x: bool, delta: int)

  datatype Driver = Driver(kbd: Kbd, lastPress: U64, moves: seq<Move>)

  // ----- One read loop -----

  /** How many leading entries, at most `limit`, are not terminators. */
  function BatchSize(queue: seq<Entry>, limit: nat): (n: nat)
    ensures n <= limit && n <= |queue|
    ensures forall j | 0 <= j < n :: queue[j].first != 0
    ensures n < limit && n < |queue| ==> queue[n].first == 0
  {
    if limit == 0 || queue == [] || queue[0].first == 0 then 0 else 1 + BatchSize(queue[1..], limit - 1)
  }

  lemma BatchSizeIs(queue: seq<Entry>, limit: nat, n: nat)
    requires n <= limit && n <= |queue| && forall j | 0 <= j < n :: queue[j].first != 0
    requires n < limit && n < |queue| ==> queue[n].first == 0
    ensures BatchSize(queue, limit) == n
  {
  }

  /** A poll whose reads all succeed handles up to 31 entries. */
  lemma FullBatch(queue: seq<Entry>)
    requires |queue| >= 31 && forall j | 0 <= j < 31 :: queue[j].first != 0
    ensures BatchSize(queue, KBD_FIFO_SIZE) == 31
  {
    BatchSizeIs(queue, KBD_FIFO_SIZE, 31);
  }

  /** How many entries leave the queue: the batch, and the terminator that ended it. */
  function Taken(queue: seq<Entry>, limit: nat): (n: nat)
    ensures BatchSize(queue, limit) <= n <= |queue|
    ensures limit > 0 && queue != [] ==> n > 0
  {
    var n := BatchSize(queue, limit);
    if n < limit && n < |queue| then n + 1 else n
  }

  // ----- One poll -----

  function SinceU64(now: U64, last: U64): U64 {
    (now - last) % 0x1_0000_0000_0000_0000
  }

  /** The time between two readings of a clock that wraps around after 2^64 ns. */
  lemma SinceIsDifference(now: U64, last: U64)
    ensures SinceU64(now, last) == if now >= last then now - last else now - last + 0x1_0000_0000_0000_0000
  {
  }

  /** An arrow event in mouse mode that restarts the acceleration. */
  predicate StampsArrow(k: Kbd, ev: Item) {
    IsArrow(ev.scancode) && ((ev.state == PRESSED && !ArrowBit(k.dir, ev.scancode)) ||
        (ev.state == RELEASED && ev.scancode == 0xB4))
  }

  /** An event sets the time of the last key press. */
  predicate Stamps(k: Kbd, ev: Item)
    requires |k.second| == ROWS
  {
    Handled(ev) &&
    var s := AfterShift(k, ev);
    if s.mouse && MouseKey(ev.scancode) then StampsArrow(s, ev) else !Ignored(ev)
  }

  function HandleAt(d: Driver, ev: Item, now: U64): (r: Driver)
    requires |d.kbd.second| == ROWS
    ensures |r.kbd.second| == ROWS && r.moves == d.moves
  {
    d.(kbd := Handle(d.kbd, ev), lastPress := if Stamps(d.kbd, ev) then now else d.lastPress)
  }

  /** The first n entries of a queue handled, the clock read for each. */
  function HandleAllAt(d: Driver, queue: seq<Entry>, n: nat, clock: nat -> U64): (r: Driver)
    requires |d.kbd.second| == ROWS && n <= |queue|
    ensures |r.kbd.second| == ROWS && r.moves == d.moves
  {
    if n == 0 then d else HandleAt(HandleAllAt(d, queue, n - 1, clock), ItemOf(queue[n - 1]), clock(n - 1))
  }

  function StepFor(pressTime: U64): (step: nat)
    ensures step == 1 || step == 2 || step == 4
  {
    if pressTime <= FAST_MOVE_TIME then 1 else if pressTime <= 3 * FAST_MOVE_TIME then 2 else 4
  }

  /** By the time since the last key press: 1 up to 150 ms, 2 up to 450 ms, 4 from then on. */
  lemma StepThresholds(t: U64)
    ensures StepFor(t) == if t <= 150_000_000 then 1 else if t <= 450_000_000 then 2 else 4
  {
  }

  function MoveIf(moves: seq<Move>, on: bool, x: bool, delta: int): seq<Move> {
    if on then moves + [Move(x, delta)] else moves
  }

  /** The reports of a poll in mouse mode: left, right, down, up. */
  function MoveAll(moves: seq<Move>, dir: Dir, step: int): seq<Move> {
    MoveIf(MoveIf(MoveIf(MoveIf(moves, dir.left, true, -step), dir.right, true, step), dir.down, false, step), dir.up,
        false, -step)
  }

  function Moved(d: Driver, now: U64): Driver {
    d.(moves := MoveAll(d.moves, d.kbd.dir, StepFor(SinceU64(now, d.lastPress))))
  }

  function Polled(d: Driver, queue: seq<Entry>, limit: nat, clock: nat -> U64): (r: Driver)
    requires |d.kbd.second| == ROWS
    ensures |r.kbd.second| == ROWS
  {
    var n := BatchSize(queue, limit);
    var h := HandleAllAt(d, queue, n, clock);
    if h.kbd.mouse then Moved(h, clock(n)) else h
  }
}
