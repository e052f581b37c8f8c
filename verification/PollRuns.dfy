/** Runs of polls: the queue is handled once and in order whatever the polls did, and the
    pointer goes where the arrows held in mouse mode send it. */
module PollRuns {
  import opened Words
  import opened KeyCodes
  import opened KeyEvents
  import opened KeyHistory
  import opened Polling

  /** The driver and the controller's queue. */
  datatype Machine = Machine(drv: Driver, queue: seq<Entry>)

  /** One poll: what arrived before it, how many reads succeed at most, and its clock. */
  datatype PollEvent = PollEvent(arrivals: seq<Entry>, limit: nat, clock: nat -> U64)

  predicate Valid(m: Machine) {
    |m.drv.kbd.second| == ROWS
  }

  function RunPoll(m: Machine, p: PollEvent): (r: Machine)
    requires Valid(m)
    ensures Valid(r)
  {
    var q := m.queue + p.arrivals;
    Machine(Polled(m.drv, q, p.limit, p.clock), q[Taken(q, p.limit)..])
  }

  function RunPolls(m: Machine, ps: seq<PollEvent>): (r: Machine)
    requires Valid(m)
    ensures Valid(r)
  {
    if ps == [] then m else RunPoll(RunPolls(m, ps[..|ps| - 1]), ps[|ps| - 1])
  }

  function Items(entries: seq<Entry>): (items: seq<Item>)
    ensures |items| == |entries|
  {
    if entries == [] then [] else Items(entries[..|entries| - 1]) + [ItemOf(entries[|entries| - 1])]
  }

  lemma {:induction false} ItemsConcat(a: seq<Entry>, b: seq<Entry>)
    ensures Items(a + b) == Items(a) + Items(b)
  {
    if b == [] {
      assert a + b == a;
    } else {
      assert (a + b)[..|a + b| - 1] == a + b[..|b| - 1];
      ItemsConcat(a, b[..|b| - 1]);
    }
  }

  /** All that the controller ever queued, in order. */
  function Queued(m: Machine, ps: seq<PollEvent>): seq<Entry> {
    if ps == [] then m.queue else Queued(m, ps[..|ps| - 1]) + ps[|ps| - 1].arrivals
  }

  /** How many entries the polls took from the queue. */
  function TakenBy(m: Machine, ps: seq<PollEvent>): nat
    requires Valid(m)
  {
    if ps == [] then 0 else
      var before, p := RunPolls(m, ps[..|ps| - 1]), ps[|ps| - 1];
      TakenBy(m, ps[..|ps| - 1]) + Taken(before.queue + p.arrivals, p.limit)
  }

  lemma {:induction false} HandledInOrder(d: Driver, queue: seq<Entry>, n: nat, clock: nat -> U64)
    requires |d.kbd.second| == ROWS && n <= |queue|
    ensures HandleAllAt(d, queue, n, clock).kbd == HandleAll(d.kbd, Items(queue[..n]))
  {
    if n == 0 {
    } else {
      HandledInOrder(d, queue, n - 1, clock);
      assert queue[..n][..n - 1] == queue[..n - 1];
      var items := Items(queue[..n]);
      assert items[..n - 1] == Items(queue[..n - 1]) && items[n - 1] == ItemOf(queue[n - 1]);
    }
  }

  /** A poll handles what it takes: a terminator that it takes changes nothing. */
  lemma PollHandlesWhatItTakes(d: Driver, queue: seq<Entry>, limit: nat, clock: nat -> U64)
    requires |d.kbd.second| == ROWS
    ensures Polled(d, queue, limit, clock).kbd == HandleAll(d.kbd, Items(queue[..Taken(queue, limit)]))
  {
    var n := BatchSize(queue, limit);
    HandledInOrder(d, queue, n, clock);
    if Taken(queue, limit) == n + 1 {
      assert queue[..n + 1][..n] == queue[..n];
      var items := Items(queue[..n + 1]);
      assert items[..n] == Items(queue[..n]) && items[n] == ItemOf(queue[n]);
      assert !Handled(items[n]);
    }
  }

  /** The first n queued entries are handled, the rest is still queued. */
  predicate HandledUpTo(k: Kbd, m: Machine, all: seq<Entry>, n: nat)
    requires |k.second| == ROWS
  {
    n <= |all| && m.queue == all[n..] && m.drv.kbd == HandleAll(k, Items(all[..n]))
  }

  lemma SplitQueue(all: seq<Entry>, arrivals: seq<Entry>, taken: nat, q: seq<Entry>, n: nat)
    requires taken <= |all| && q == all[taken..] + arrivals && n <= |q|
    ensures (all + arrivals)[..taken + n] == all[..taken] + q[..n]
    ensures (all + arrivals)[taken + n..] == q[n..]
  {
    assert all + arrivals == all[..taken] + q;
  }

  lemma FoldContinues(k: Kbd, d: Driver, q: seq<Entry>, limit: nat, clock: nat -> U64, before: seq<Entry>,
                      after: seq<Entry>)
    requires |k.second| == ROWS && d.kbd == HandleAll(k, Items(before)) && after == before + q[..Taken(q, limit)]
    ensures Polled(d, q, limit, clock).kbd == HandleAll(k, Items(after))
  {
    var now := q[..Taken(q, limit)];
    PollHandlesWhatItTakes(d, q, limit, clock);
    ItemsConcat(before, now);
    HandleAllConcat(k, Items(before), Items(now));
  }

  lemma PollContinuesFold(k: Kbd, m: Machine, p: PollEvent, all: seq<Entry>, taken: nat, more: seq<Entry>, n: nat)
    requires |k.second| == ROWS && Valid(m) && HandledUpTo(k, m, all, taken)
    requires more == all + p.arrivals && n == taken + Taken(m.queue + p.arrivals, p.limit)
    ensures HandledUpTo(k, RunPoll(m, p), more, n)
  {
    var q := m.queue + p.arrivals;
    SplitQueue(all, p.arrivals, taken, q, Taken(q, p.limit));
    FoldContinues(k, m.drv, q, p.limit, p.clock, all[..taken], more[..n]);
  }

  /** Polling is a fold: whatever the batches, the failed reads and the arrivals, the driver's
      flags and the host's keys are those of handling the entries taken so far in order, each
      once; the rest is still queued. */
  lemma {:induction false} PollingIsFold(m: Machine, ps: seq<PollEvent>)
    requires Valid(m)
    ensures HandledUpTo(m.drv.kbd, RunPolls(m, ps), Queued(m, ps), TakenBy(m, ps))
  {
    if ps == [] {
      assert Queued(m, ps)[..0] == [];
    } else {
      var front, p := ps[..|ps| - 1], ps[|ps| - 1];
      PollingIsFold(m, front);
      PollContinuesFold(m.drv.kbd, RunPolls(m, front), p, Queued(m, front), TakenBy(m, front), Queued(m, ps),
          TakenBy(m, ps));
    }
  }

  /** How many of the polls read at least once. */
  function Reading(ps: seq<PollEvent>): nat {
    if ps == [] then 0 else Reading(ps[..|ps| - 1]) + if ps[|ps| - 1].limit > 0 then 1 else 0
  }

  /** A queue to which nothing is added is drained by as many polls that read at least once,
      whatever polls fail in between, and the result is that of handling the whole queue. */
  lemma DrainingIsFold(m: Machine, ps: seq<PollEvent>)
    requires Valid(m) && Reading(ps) >= |m.queue|
    requires forall i | 0 <= i < |ps| :: ps[i].arrivals == []
    ensures RunPolls(m, ps).queue == [] && RunPolls(m, ps).drv.kbd == HandleAll(m.drv.kbd, Items(m.queue))
  {
    PollingIsFold(m, ps);
    NothingQueued(m, ps);
    QueueShrinks(m, ps);
    assert m.queue[..|m.queue|] == m.queue;
  }

  lemma {:induction false} NothingQueued(m: Machine, ps: seq<PollEvent>)
    requires forall i | 0 <= i < |ps| :: ps[i].arrivals == []
    ensures Queued(m, ps) == m.queue
  {
    if ps == [] {
    } else {
      NothingQueued(m, ps[..|ps| - 1]);
    }
  }

  lemma {:induction false} QueueShrinks(m: Machine, ps: seq<PollEvent>)
    requires Valid(m) && forall i | 0 <= i < |ps| :: ps[i].arrivals == []
    ensures RunPolls(m, ps).queue == [] || |RunPolls(m, ps).queue| + Reading(ps) <= |m.queue|
  {
    if ps == [] {
    } else {
      QueueShrinks(m, ps[..|ps| - 1]);
    }
  }

  // ----- Pointer motion -----

  function Total(moves: seq<Move>, x: bool): int {
    if moves == [] then 0 else
      var last := moves[|moves| - 1];
      Total(moves[..|moves| - 1], x) + if last.x == x then last.delta else 0
  }

  /** Where the arrows held point: right less left, or down less up. */
  function Toward(evs: seq<Item>, x: bool): int {
    if x then Bit(ArrowHeld(evs, 0xB7)) - Bit(ArrowHeld(evs, 0xB4))
    else Bit(ArrowHeld(evs, 0xB6)) - Bit(ArrowHeld(evs, 0xB5))
  }

  lemma MoveIfTotals(moves: seq<Move>, on: bool, x': bool, delta: int, x: bool)
    ensures Total(MoveIf(moves, on, x', delta), x) == Total(moves, x) + if on && x == x' then delta else 0
  {
    assert (moves + [Move(x', delta)])[..|moves|] == moves;
  }

  /** Where the direction bits point. */
  function Direction(dir: Dir, x: bool): int {
    if x then Bit(dir.right) - Bit(dir.left) else Bit(dir.down) - Bit(dir.up)
  }

  lemma StepTimes(step: int, a: bool, b: bool)
    ensures step * (Bit(a) - Bit(b)) == (if a then step else 0) - if b then step else 0
  {
    if a { } else if b { }
  }

  lemma MoveAllTotals(moves: seq<Move>, dir: Dir, step: int, x: bool)
    ensures Total(MoveAll(moves, dir, step), x) == Total(moves, x) + step * Direction(dir, x)
  {
    var a := MoveIf(moves, dir.left, true, -step);
    var b := MoveIf(a, dir.right, true, step);
    var c := MoveIf(b, dir.down, false, step);
    MoveIfTotals(moves, dir.left, true, -step, x);
    MoveIfTotals(a, dir.right, true, step, x);
    MoveIfTotals(b, dir.down, false, step, x);
    MoveIfTotals(c, dir.up, false, -step, x);
    if x {
      StepTimes(step, dir.right, dir.left);
    } else {
      StepTimes(step, dir.down, dir.up);
    }
  }

  /** The driver as probed at time t0. */
  function Boot(t0: U64): (m: Machine)
    ensures Valid(m)
  {
    Machine(Driver(Start(), t0, []), [])
  }

  /** The events handled by the end of a run from the start. */
  function Seen(t0: U64, ps: seq<PollEvent>): seq<Item> {
    PollingIsFold(Boot(t0), ps);
    Items(Queued(Boot(t0), ps)[..TakenBy(Boot(t0), ps)])
  }

  /** After every run of polls, the flags of F6 to F10, Pause, Home and End say what the host
      last saw of those keys. */
  lemma PolledFlagsEqualHost(t0: U64, ps: seq<PollEvent>, row: nat)
    requires row < PAGEUP_ROW
    ensures Synced(RunPolls(Boot(t0), ps).drv.kbd, row)
  {
    PollingIsFold(Boot(t0), ps);
    FlagsEqualHost(Seen(t0, ps), row);
  }

  // ----- One event, one poll -----

  /** From a driver in mouse mode off, one poll of a press of an ordinary key leaves the host
      seeing the key down, and one of its release leaves it up. */
  lemma PollReportsKey(d: Driver, sc: Byte, limit: nat, clock: nat -> U64)
    requires |d.kbd.second| == ROWS && !d.kbd.mouse && limit > 0 && Ordinary(Keycode(sc))
    ensures HostDown(Polled(d, [Entry(1, sc)], limit, clock).kbd.reports, Keycode(sc))
    ensures !HostDown(Polled(d, [Entry(3, sc)], limit, clock).kbd.reports, Keycode(sc))
  {
    PollOfOne(d, Entry(1, sc), limit, clock);
    PollOfOne(d, Entry(3, sc), limit, clock);
    ItemOfNibble(0, 1, sc);
    ItemOfNibble(0, 3, sc);
    OrdinaryAfter(d.kbd, Item(1, sc), Keycode(sc));
    OrdinaryAfter(d.kbd, Item(3, sc), Keycode(sc));
    NoShiftNoMouse(d.kbd, Item(1, sc));
    NoShiftNoMouse(d.kbd, Item(3, sc));
  }

  lemma PollOfOne(d: Driver, e: Entry, limit: nat, clock: nat -> U64)
    requires |d.kbd.second| == ROWS && limit > 0 && e.first != 0
    ensures Polled(d, [e], limit, clock).kbd == Handle(d.kbd, ItemOf(e))
  {
    BatchSizeIs([e], limit, 1);
    HandledInOrder(d, [e], 1, clock);
    assert [e][..1] == [e];
    ItemsConcat([], [e]);
    assert Items([e]) == [ItemOf(e)];
    HandleOneMore(d.kbd, [], ItemOf(e));
    assert [] + [ItemOf(e)] == [ItemOf(e)];
  }

  lemma NoShiftNoMouse(k: Kbd, ev: Item)
    requires |k.second| == ROWS && !k.mouse && Ordinary(Keycode(ev.scancode))
    ensures !Handle(k, ev).mouse
  {
    ShiftsAfter(k, ev);
  }

  // ----- The time base of the pointer's acceleration -----

  /** An event with what the clock read at it. */
  datatype Timed = Timed(item: Item, at: U64)

  function ItemsOf(ts: seq<Timed>): (items: seq<Item>)
    ensures |items| == |ts|
  {
    if ts == [] then [] else ItemsOf(ts[..|ts| - 1]) + [ts[|ts| - 1].item]
  }

  /** The last event of a history counts as a key press: in mouse mode an arrow that was up and
      goes down, or the left arrow's release; any other key that the table has otherwise. */
  predicate PressesLast(evs: seq<Item>) {
    evs != [] &&
    var front, ev := evs[..|evs| - 1], evs[|evs| - 1];
    Handled(ev) &&
    if MouseOn(evs) && MouseKey(ev.scancode) then
      || (IsArrow(ev.scancode) && ev.state == PRESSED && !ArrowHeld(front, ev.scancode))
      || (ev.scancode == 0xB4 && ev.state == RELEASED)
    else Keycode(ev.scancode) != 0
  }

  /** The time of the last key press of a history; t0 if there was none. */
  function LastPress(t0: U64, ts: seq<Timed>): U64 {
    if ts == [] then t0
    else if PressesLast(ItemsOf(ts)) then ts[|ts| - 1].at
    else LastPress(t0, ts[..|ts| - 1])
  }

  /** The entries that a poll handles, with its clock. */
  function TimedBatch(queue: seq<Entry>, n: nat, clock: nat -> U64): seq<Timed>
    requires n <= |queue|
  {
    if n == 0 then [] else TimedBatch(queue, n - 1, clock) + [Timed(ItemOf(queue[n - 1]), clock(n - 1))]
  }

  /** All that a run from the start handled, with the times. */
  function TimedSeen(t0: U64, ps: seq<PollEvent>): seq<Timed> {
    if ps == [] then [] else
      var before, p := RunPolls(Boot(t0), ps[..|ps| - 1]), ps[|ps| - 1];
      TimedSeen(t0, ps[..|ps| - 1]) +
      TimedBatch(before.queue + p.arrivals, BatchSize(before.queue + p.arrivals, p.limit), p.clock)
  }

  /** A driver that has handled a timed history since it was probed at t0. */
  predicate Handling(d: Driver, t0: U64, ts: seq<Timed>) {
    d.kbd == HandleAll(Start(), ItemsOf(ts)) && d.lastPress == LastPress(t0, ts)
  }

  lemma ItemsOfOneMore(ts: seq<Timed>, t: Timed)
    ensures ItemsOf(ts + [t]) == ItemsOf(ts) + [t.item] && (ts + [t])[..|ts|] == ts
  {
    assert (ts + [t])[..|ts|] == ts;
  }

  lemma NoKeyIsUnknown(sc: Byte)
    ensures Keycode(sc) != KEY_UNKNOWN
  {
    if sc < 0x80 {
      CharKeysAreLow(sc);
    }
  }

  lemma StampsArePresses(front: seq<Item>, ev: Item)
    ensures Stamps(HandleAll(Start(), front), ev) <==> PressesLast(front + [ev])
  {
    var k, evs := HandleAll(Start(), front), front + [ev];
    assert evs[..|evs| - 1] == front && evs[|evs| - 1] == ev;
    MouseModeIsParity(evs);
    NoKeyIsUnknown(ev.scancode);
    if IsArrow(ev.scancode) {
      ArrowBitsAreHeld(front, ev.scancode);
    }
    ModeAfterShift(k, ev);
  }

  lemma ModeAfterShift(k: Kbd, ev: Item)
    requires |k.second| == ROWS
    ensures Handled(ev) ==> AfterShift(k, ev).mouse == Handle(k, ev).mouse
  {
  }

  lemma HandlingOneMore(d: Driver, t0: U64, ts: seq<Timed>, t: Timed)
    requires |d.kbd.second| == ROWS && Handling(d, t0, ts)
    ensures Handling(HandleAt(d, t.item, t.at), t0, ts + [t])
  {
    ItemsOfOneMore(ts, t);
    HandleOneMore(Start(), ItemsOf(ts), t.item);
    StampsArePresses(ItemsOf(ts), t.item);
  }

  lemma {:induction false} HandlingBatch(d: Driver, t0: U64, ts: seq<Timed>, queue: seq<Entry>, n: nat,
                                         clock: nat -> U64)
    requires |d.kbd.second| == ROWS && n <= |queue| && Handling(d, t0, ts)
    ensures Handling(HandleAllAt(d, queue, n, clock), t0, ts + TimedBatch(queue, n, clock))
  {
    if n == 0 {
      assert ts + [] == ts;
    } else {
      var t := Timed(ItemOf(queue[n - 1]), clock(n - 1));
      HandlingBatch(d, t0, ts, queue, n - 1, clock);
      HandlingOneMore(HandleAllAt(d, queue, n - 1, clock), t0, ts + TimedBatch(queue, n - 1, clock), t);
      assert ts + TimedBatch(queue, n - 1, clock) + [t] == ts + (TimedBatch(queue, n - 1, clock) + [t]);
    }
  }

  /** The time that the driver keeps is that of the last key press of the run. */
  lemma {:induction false} LastPressOfRun(t0: U64, ps: seq<PollEvent>)
    ensures Handling(RunPolls(Boot(t0), ps).drv, t0, TimedSeen(t0, ps))
  {
    if ps == [] {
      assert HandleAll(Start(), []) == Start();
    } else {
      var before, p := RunPolls(Boot(t0), ps[..|ps| - 1]), ps[|ps| - 1];
      var q := before.queue + p.arrivals;
      LastPressOfRun(t0, ps[..|ps| - 1]);
      HandlingBatch(before.drv, t0, TimedSeen(t0, ps[..|ps| - 1]), q, BatchSize(q, p.limit), p.clock);
    }
  }

  /** What a run's last poll handled, and its last reading of the clock. */
  function LastHandled(t0: U64, ps: seq<PollEvent>): Driver
    requires ps != []
  {
    var before, p := RunPolls(Boot(t0), ps[..|ps| - 1]), ps[|ps| - 1];
    HandleAllAt(before.drv, before.queue + p.arrivals, BatchSize(before.queue + p.arrivals, p.limit), p.clock)
  }

  function LastClock(t0: U64, ps: seq<PollEvent>): U64
    requires ps != []
  {
    var before, p := RunPolls(Boot(t0), ps[..|ps| - 1]), ps[|ps| - 1];
    p.clock(BatchSize(before.queue + p.arrivals, p.limit))
  }

  lemma PressBeforeLastPoll(t0: U64, ps: seq<PollEvent>)
    requires ps != []
    ensures LastHandled(t0, ps).lastPress == LastPress(t0, TimedSeen(t0, ps))
  {
    var front := ps[..|ps| - 1];
    var before, p := RunPolls(Boot(t0), front), ps[|ps| - 1];
    var q := before.queue + p.arrivals;
    LastPressOfRun(t0, front);
    HandlingBatch(before.drv, t0, TimedSeen(t0, front), q, BatchSize(q, p.limit), p.clock);
  }

  /** The step of the last poll of a run: 1, 2 or 4 by the time since the last key press. */
  function StepOfLast(t0: U64, ps: seq<PollEvent>): (step: nat)
    requires ps != []
    ensures step == 1 || step == 2 || step == 4
  {
    StepFor(SinceU64(LastClock(t0, ps), LastHandled(t0, ps).lastPress))
  }

  /** By the time from the last key press of the run to the poll's last reading of the clock: 1 up
      to 150 ms, 2 up to 450 ms, 4 from then on. */
  lemma StepOfRun(t0: U64, ps: seq<PollEvent>)
    requires ps != []
    ensures var t := SinceU64(LastClock(t0, ps), LastPress(t0, TimedSeen(t0, ps)));
            StepOfLast(t0, ps) == if t <= 150_000_000 then 1 else if t <= 450_000_000 then 2 else 4
  {
    PressBeforeLastPoll(t0, ps);
    StepThresholds(SinceU64(LastClock(t0, ps), LastPress(t0, TimedSeen(t0, ps))));
  }

  /** The sum, over the polls that ended in mouse mode, of step times direction, both mode
      and direction told from the events seen by then. */
  function Travel(t0: U64, ps: seq<PollEvent>, x: bool): int {
    if ps == [] then 0 else
      Travel(t0, ps[..|ps| - 1], x) + if MouseOn(Seen(t0, ps)) then StepOfLast(t0, ps) * Toward(Seen(t0, ps), x) else 0
  }

  /** The pointer's displacement over any run from the start. */
  lemma {:induction false} PointerTravels(t0: U64, ps: seq<PollEvent>, x: bool)
    ensures Total(RunPolls(Boot(t0), ps).drv.moves, x) == Travel(t0, ps, x)
  {
    if ps == [] {
    } else {
      PointerTravels(t0, ps[..|ps| - 1], x);
      LastPollMoves(t0, ps, x);
    }
  }

  lemma PollMoves(d: Driver, queue: seq<Entry>, limit: nat, clock: nat -> U64, step: nat, x: bool)
    requires |d.kbd.second| == ROWS
    requires var n := BatchSize(queue, limit);
             step == StepFor(SinceU64(clock(n), HandleAllAt(d, queue, n, clock).lastPress))
    ensures var r := Polled(d, queue, limit, clock);
            Total(r.moves, x) == Total(d.moves, x) + if r.kbd.mouse then step * Direction(r.kbd.dir, x) else 0
  {
    var h := HandleAllAt(d, queue, BatchSize(queue, limit), clock);
    MoveAllTotals(h.moves, h.kbd.dir, step, x);
  }

  lemma LastPollMoves(t0: U64, ps: seq<PollEvent>, x: bool)
    requires ps != []
    ensures Total(RunPolls(Boot(t0), ps).drv.moves, x) ==
            Total(RunPolls(Boot(t0), ps[..|ps| - 1]).drv.moves, x) +
                if MouseOn(Seen(t0, ps)) then StepOfLast(t0, ps) * Toward(Seen(t0, ps), x) else 0
  {
    var before, p := RunPolls(Boot(t0), ps[..|ps| - 1]), ps[|ps| - 1];
    assert LastHandled(t0, ps).lastPress ==
           HandleAllAt(before.drv, before.queue + p.arrivals, BatchSize(before.queue + p.arrivals, p.limit),
               p.clock).lastPress;
    PollMoves(before.drv, before.queue + p.arrivals, p.limit, p.clock, StepOfLast(t0, ps), x);
    ModesOfRun(t0, ps, RunPolls(Boot(t0), ps).drv.kbd, x);
  }

  /** Mode and arrows after a run, from the events it has seen. */
  lemma ModesOfRun(t0: U64, ps: seq<PollEvent>, k: Kbd, x: bool)
    requires k == RunPolls(Boot(t0), ps).drv.kbd
    ensures k.mouse <==> MouseOn(Seen(t0, ps))
    ensures Direction(k.dir, x) == Toward(Seen(t0, ps), x)
  {
    PollingIsFold(Boot(t0), ps);
    MouseModeIsParity(Seen(t0, ps));
    ArrowBitsAreHeld(Seen(t0, ps), 0xB7);
    ArrowBitsAreHeld(Seen(t0, ps), 0xB4);
    ArrowBitsAreHeld(Seen(t0, ps), 0xB6);
    ArrowBitsAreHeld(Seen(t0, ps), 0xB5);
  }
}
