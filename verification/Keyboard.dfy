/** The keyboard driver: the FIFO read loop, the event handler and the poll. */
module Keyboard {
  import opened Words
  import opened KeyCodes
  import opened KeyEvents
  import opened Polling

  class KbdCtx {
    var keyFifoCount: nat
    const keyFifoData: array<Item>
    var lastKeypressAt: U64
    var mouseMode: bool
    var mouseMoveDir: Dir
    var leftShiftPressed: bool
    var rightShiftPressed: bool
    var second: seq<bool>
    var reports: seq<Report>
    var moves: seq<Move>

    ghost predicate Valid()
      reads this
    {
      keyFifoData.Length == KBD_FIFO_SIZE && |second| == ROWS
    }

    ghost function State(): Kbd
      reads this
    {
      Kbd(leftShiftPressed, rightShiftPressed, mouseMode, mouseMoveDir, second, reports)
    }

    ghost function Whole(): (d: Driver)
      requires Valid()
      reads this
      ensures |d.kbd.second| == ROWS
    {
      Driver(State(), lastKeypressAt, moves)
    }

    constructor (now: U64)
      ensures Valid() && Whole() == Driver(Start(), now, []) && keyFifoCount == 0 && fresh(keyFifoData)
    {
      keyFifoCount, lastKeypressAt := 0, now;
      keyFifoData := new Item[KBD_FIFO_SIZE](_ => Item(0, 0));
      mouseMode, mouseMoveDir := false, Dir(false, false, false, false);
      leftShiftPressed, rightShiftPressed := false, false;
      second := seq(ROWS, _ => false);
      reports, moves := [], [];
    }

    /** `input_fw_read_fifo`, over the controller's queue; the read with index `errorAt` fails.
        Returns how many entries left the queue. */
    method ReadFifo(queue: seq<Entry>, errorAt: nat) returns (taken: nat)
      requires Valid()
      modifies this`keyFifoCount, keyFifoData
      ensures keyFifoCount == BatchSize(queue, Min(KBD_FIFO_SIZE, errorAt)) <= KBD_FIFO_SIZE
      ensures forall j | 0 <= j < keyFifoCount :: keyFifoData[j] == ItemOf(queue[j])
      ensures taken == Taken(queue, Min(KBD_FIFO_SIZE, errorAt))
    {
      keyFifoCount := 0;
      taken := 0;
      var idx := 0;
      while idx < KBD_FIFO_SIZE
        invariant 0 <= idx <= Min(KBD_FIFO_SIZE, errorAt) && keyFifoCount == taken == idx <= |queue|
        invariant forall j | 0 <= j < idx :: queue[j].first != 0 && keyFifoData[j] == ItemOf(queue[j])
      {
        if idx == errorAt {
          BatchSizeIs(queue, Min(KBD_FIFO_SIZE, errorAt), idx);
          return;
        }
        var data := if idx < |queue| then queue[idx] else Entry(0, 0);
        taken := Min(idx + 1, |queue|);
        if data.first == 0 {
          BatchSizeIs(queue, Min(KBD_FIFO_SIZE, errorAt), idx);
          return;
        }
        keyFifoData[idx] := ItemOf(data);
        keyFifoCount := keyFifoCount + 1;
        idx := idx + 1;
      }
      BatchSizeIs(queue, Min(KBD_FIFO_SIZE, errorAt), idx);
    }

    method ReportKey(key: Key, down: bool)
      modifies this`reports
      ensures State() == Reported(old(State()), key, down)
    {
      reports := reports + [Report(key, down)];
    }

    /** The loop over the table that lets go of every key still marked as pressed. */
    method LetGoOfSecondKeys()
      requires Valid()
      modifies this`second, this`reports
      ensures Valid() && State() == LetGo(old(State()), ROWS)
    {
      ghost var before := State();
      for i := 0 to ROWS
        invariant Valid() && State() == LetGo(before, i)
      {
        if second[i] {
          second := second[i := false];
          ReportKey(Keycode(SECOND_KEYS[i]), false);
        }
      }
    }

    /** The part of `key_report_event` about the two shifts. */
    method TrackShift(ev: Item)
      requires Valid() && Handled(ev)
      modifies this`leftShiftPressed, this`rightShiftPressed, this`mouseMode, this`second, this`reports
      ensures Valid() && State() == AfterShift(old(State()), ev)
    {
      var held := ev.state == PRESSED || ev.state == HOLD;
      if ev.scancode == 0xA2 {
        leftShiftPressed := held;
      }
      if ev.scancode == 0xA3 {
        rightShiftPressed := held;
      }
      if ev.state == PRESSED && IsShift(ev.scancode) {
        if leftShiftPressed && rightShiftPressed {
          mouseMode := !mouseMode;
        }
      } else if ev.state == RELEASED && IsShift(ev.scancode) {
        if !leftShiftPressed && !rightShiftPressed {
          LetGoOfSecondKeys();
        }
      }
    }

    /** An arrow in mouse mode; `now` is what the boot-time clock reads. */
    method MoveArrow(ev: Item, now: U64)
      requires Valid() && Handled(ev) && IsArrow(ev.scancode)
      modifies this`mouseMoveDir, this`lastKeypressAt
      ensures Valid() && State() == MouseHandled(old(State()), ev)
      ensures lastKeypressAt == if StampsArrow(old(State()), ev) then now else old(lastKeypressAt)
    {
      if ev.state == PRESSED {
        if !ArrowBit(mouseMoveDir, ev.scancode) {
          lastKeypressAt := now;
        }
        mouseMoveDir := SetArrow(mouseMoveDir, ev.scancode, true);
      } else if ev.state == RELEASED {
        if ev.scancode == 0xB4 {
          lastKeypressAt := now;
        }
        mouseMoveDir := SetArrow(mouseMoveDir, ev.scancode, false);
      }
    }

    /** The mouse mode switch; `done` says that it took the event. */
    method MouseEvent(ev: Item, now: U64) returns (done: bool)
      requires Valid() && Handled(ev)
      modifies this`mouseMoveDir, this`lastKeypressAt, this`reports
      ensures Valid() && (done <==> MouseKey(ev.scancode))
      ensures State() == if done then MouseHandled(old(State()), ev) else old(State())
      ensures lastKeypressAt == if done && StampsArrow(old(State()), ev) then now else old(lastKeypressAt)
    {
      var down := ev.state == PRESSED;
      if IsArrow(ev.scancode) {
        MoveArrow(ev, now);
        return true;
      }
      match ev.scancode
      case 0x5D => ReportKey(BTN_RIGHT, down); return true;
      case 0x5B => ReportKey(BTN_LEFT, down); return true;
      case 0x84 => ReportKey(KEY_PAGEUP, down); return true;
      case 0x89 => ReportKey(KEY_PAGEUP, down); return true;
      case 0x85 => ReportKey(KEY_PAGEDOWN, down); return true;
      case 0x90 => ReportKey(KEY_PAGEDOWN, down); return true;
      case _ => return false;
    }

    /** A key of the table: `row` is its place there. */
    method SecondKey(row: nat, key: Key, down: bool)
      requires Valid() && row < ROWS
      modifies this`second, this`reports
      ensures Valid() && State() == SecondHandled(old(State()), row, key, down)
    {
      second := second[row := down];
      if down {
        ReportKey(KEY_LEFTSHIFT, false);
        ReportKey(KEY_RIGHTSHIFT, false);
      }
      ReportKey(key, down);
    }

    /** The rest of `key_report_event`. */
    method KeyEvent(ev: Item, now: U64)
      requires Valid() && Handled(ev)
      modifies this`second, this`reports, this`lastKeypressAt
      ensures Valid() && State() == KeyHandled(old(State()), ev)
      ensures lastKeypressAt == if Ignored(ev) then old(lastKeypressAt) else now
    {
      var key := Keycode(ev.scancode);
      if key == 0 || key == KEY_UNKNOWN {
        return;
      }
      lastKeypressAt := now;
      if ev.state == HOLD {
        return;
      }
      var down := ev.state == PRESSED;
      if ev.scancode == 0xD1 && !leftShiftPressed && !rightShiftPressed {
        ReportKey(KEY_INSERT, down);
        return;
      }
      var row := FindRow(ev.scancode);
      if row < ROWS {
        SecondKey(row, key, down);
      } else {
        ReportKey(key, down);
      }
    }

    /** The search loop over the table. */
    method FindRow(sc: Byte) returns (row: nat)
      ensures row == RowOf(sc)
    {
      row := 0;
      while row < ROWS
        invariant row <= ROWS && forall i | 0 <= i < row :: SECOND_KEYS[i] != sc
      {
        RowOfScancode(row);
        if sc == SECOND_KEYS[row] {
          return;
        }
        row := row + 1;
      }
    }

    /** `key_report_event`. */
    method KeyReportEvent(ev: Item, now: U64)
      requires Valid()
      modifies this`leftShiftPressed, this`rightShiftPressed, this`mouseMode, this`mouseMoveDir, this`lastKeypressAt,
               this`second, this`reports
      ensures Valid() && Whole() == HandleAt(old(Whole()), ev, now)
    {
      if !Handled(ev) {
        return;
      }
      TrackShift(ev);
      if mouseMode {
        var done := MouseEvent(ev, now);
        if done {
          return;
        }
      }
      KeyEvent(ev, now);
    }

    /** The part of the poll that moves the pointer. */
    method MovePointer(now: U64)
      requires Valid() && mouseMode
      modifies this`moves
      ensures Valid() && Whole() == Moved(old(Whole()), now)
    {
      var pressTime := SinceU64(now, lastKeypressAt);
      var step := 4;
      if pressTime <= FAST_MOVE_TIME {
        step := 1;
      } else if pressTime <= 3 * FAST_MOVE_TIME {
        step := 2;
      }
      MoveWhen(mouseMoveDir.left, true, -step);
      MoveWhen(mouseMoveDir.right, true, step);
      MoveWhen(mouseMoveDir.down, false, step);
      MoveWhen(mouseMoveDir.up, false, -step);
    }

    /** `input_report_rel` under the test of a direction bit. */
    method MoveWhen(on: bool, x: bool, delta: int)
      modifies this`moves
      ensures moves == MoveIf(old(moves), on, x, delta)
    {
      if on {
        moves := moves + [Move(x, delta)];
      }
    }

    /** `input_workqueue_handler`: one poll. */
    method Poll(queue: seq<Entry>, errorAt: nat, clock: nat -> U64) returns (taken: nat)
      requires Valid()
      modifies this, keyFifoData
      ensures Valid() && Whole() == Polled(old(Whole()), queue, Min(KBD_FIFO_SIZE, errorAt), clock)
      ensures taken == Taken(queue, Min(KBD_FIFO_SIZE, errorAt)) && keyFifoCount == 0
    {
      taken := ReadFifo(queue, errorAt);
      ghost var before := Whole();
      var count := keyFifoCount;
      for i := 0 to count
        invariant Valid() && keyFifoCount == count && Whole() == HandleAllAt(before, queue, i, clock)
        invariant forall j | 0 <= j < count :: keyFifoData[j] == ItemOf(queue[j])
      {
        KeyReportEvent(keyFifoData[i], clock(i));
      }
      if mouseMode {
        MovePointer(clock(count));
      }
      keyFifoCount := 0;
    }
  }
}
