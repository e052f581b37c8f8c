/** What the keyboard driver makes of one key event, and what holds after every sequence of
    events: the shadow flags of second-function keys against the keys that the host sees
    down, mouse mode and the arrow bits against the history of events. */
module KeyEvents {
  import opened Words
  import opened KeyCodes

  const PRESSED: nat := 1
  const HOLD: nat := 2
  const RELEASED: nat := 3

  /** A FIFO item; the state is a four-bit field. */
  datatype Item = Item(state: nat, scancode: Byte)

  /** `input_report_key`. */
  datatype Report = Report(key: Key, down: bool)

  /** `mouse_move_dir`, its four bits by name. */
  datatype Dir = Dir(left: bool, right: bool, up: bool, down: bool)

  /** The driver's key state and all that it has reported; `second` holds the shadow flags in
      the order of the rows. */
  datatype Kbd = Kbd(left: bool, right: bool, mouse: bool, dir: Dir, second: seq<bool>, reports: seq<Report>)

  predicate IsShift(sc: Byte) {
    sc == 0xA2 || sc == 0xA3
  }

  predicate IsArrow(sc: Byte) {
    0xB4 <= sc <= 0xB7
  }

  predicate PageUpInMouseMode(sc: Byte) {
    sc == 0x84 || sc == 0x89
  }

  predicate PageDownInMouseMode(sc: Byte) {
    sc == 0x85 || sc == 0x90
  }

  /** The scancodes that mouse mode takes for itself. */
  predicate MouseKey(sc: Byte) {
    IsArrow(sc) || sc == ']' as int || sc == '[' as int || PageUpInMouseMode(sc) || PageDownInMouseMode(sc)
  }

  predicate Handled(ev: Item) {
    ev.state == PRESSED || ev.state == HOLD || ev.state == RELEASED
  }

  function Reported(k: Kbd, key: Key, down: bool): Kbd {
    k.(reports := k.reports + [Report(key, down)])
  }

  // ----- Shift -----

  function Tracked(k: Kbd, ev: Item): Kbd {
    var held := ev.state == PRESSED || ev.state == HOLD;
    k.(left := if ev.scancode == 0xA2 then held else k.left, right := if ev.scancode == 0xA3 then held else k.right)
  }

  /** A row let go: if its flag is set, it is cleared and its key reported up. */
  function LetGoRow(k: Kbd, i: nat): (r: Kbd)
    requires i < |k.second| == ROWS
    ensures |r.second| == ROWS && r == k.(second := r.second, reports := r.reports)
  {
    if k.second[i] then Reported(k.(second := k.second[i := false]), RowKey(i), false) else k
  }

  /** The first n rows let go. */
  function LetGo(k: Kbd, n: nat): (r: Kbd)
    requires n <= |k.second| == ROWS
    ensures |r.second| == ROWS && r == k.(second := r.second, reports := r.reports)
  {
    if n == 0 then k else LetGoRow(LetGo(k, n - 1), n - 1)
  }

  /** The state once shift is tracked: two shifts down toggle mouse mode, the release of
      the last one lets go of the second-function keys. */
  function AfterShift(k: Kbd, ev: Item): (r: Kbd)
    requires |k.second| == ROWS
    ensures |r.second| == ROWS && r.dir == k.dir
  {
    var t := Tracked(k, ev);
    if IsShift(ev.scancode) && ev.state == PRESSED && t.left && t.right then t.(mouse := !t.mouse)
    else if IsShift(ev.scancode) && ev.state == RELEASED && !t.left && !t.right then LetGo(t, ROWS)
    else t
  }

  // ----- Mouse mode -----

  function ArrowBit(d: Dir, sc: Byte): bool
    requires IsArrow(sc)
  {
    if sc == 0xB4 then d.left else if sc == 0xB5 then d.up else if sc == 0xB6 then d.down else d.right
  }

  function SetArrow(d: Dir, sc: Byte, on: bool): Dir
    requires IsArrow(sc)
  {
    if sc == 0xB4 then d.(left := on) else if sc == 0xB5 then d.(up := on)
    else if sc == 0xB6 then d.(down := on) else d.(right := on)
  }

  /** What the keys of mouse mode other than the arrows stand for. */
  function MouseButton(sc: Byte): Key {
    if sc == ']' as int then BTN_RIGHT else if sc == '[' as int then BTN_LEFT
    else if PageUpInMouseMode(sc) then KEY_PAGEUP else KEY_PAGEDOWN
  }

  function MouseHandled(k: Kbd, ev: Item): Kbd
    requires MouseKey(ev.scancode)
  {
    if !IsArrow(ev.scancode) then Reported(k, MouseButton(ev.scancode), ev.state == PRESSED)
    else if ev.state == HOLD then k
    else k.(dir := SetArrow(k.dir, ev.scancode, ev.state == PRESSED))
  }

  // ----- Keys -----

  predicate Ignored(ev: Item) {
    Keycode(ev.scancode) == 0 || Keycode(ev.scancode) == KEY_UNKNOWN
  }

  /** Both shifts reported up, if a second-function key goes down. */
  function ShiftsUp(k: Kbd, down: bool): Kbd {
    if down then Reported(Reported(k, KEY_LEFTSHIFT, false), KEY_RIGHTSHIFT, false) else k
  }

  /** A second-function key: shadowed, and pressed with both shifts reported up first. */
  function SecondHandled(k: Kbd, row: nat, key: Key, down: bool): (r: Kbd)
    requires row < |k.second| == ROWS
    ensures |r.second| == ROWS && r == k.(second := r.second, reports := r.reports)
  {
    Reported(ShiftsUp(k.(second := k.second[row := down]), down), key, down)
  }

  function KeyHandled(k: Kbd, ev: Item): (r: Kbd)
    requires |k.second| == ROWS
    ensures |r.second| == ROWS && r == k.(second := r.second, reports := r.reports)
  {
    var key, down, row := Keycode(ev.scancode), ev.state == PRESSED, RowOf(ev.scancode);
    if Ignored(ev) || ev.state == HOLD then k
    else if ev.scancode == 0xD1 && !k.left && !k.right then Reported(k, KEY_INSERT, down)
    else if row < ROWS then SecondHandled(k, row, key, down)
    else Reported(k, key, down)
  }

  /** `key_report_event`, but for the time of the last key press. */
  function Handle(k: Kbd, ev: Item): (r: Kbd)
    requires |k.second| == ROWS
    ensures |r.second| == ROWS
  {
    if !Handled(ev) then k else
      var s := AfterShift(k, ev);
      if s.mouse && MouseKey(ev.scancode) then MouseHandled(s, ev) else KeyHandled(s, ev)
  }

  function HandleAll(k: Kbd, evs: seq<Item>): (r: Kbd)
    requires |k.second| == ROWS
    ensures |r.second| == ROWS
  {
    if evs == [] then k else Handle(HandleAll(k, evs[..|evs| - 1]), evs[|evs| - 1])
  }

  lemma {:induction false} HandleAllConcat(k: Kbd, a: seq<Item>, b: seq<Item>)
    requires |k.second| == ROWS
    ensures HandleAll(k, a + b) == HandleAll(HandleAll(k, a), b)
  {
    if b == [] {
      assert a + b == a;
    } else {
      assert (a + b)[..|a + b| - 1] == a + b[..|b| - 1];
      HandleAllConcat(k, a, b[..|b| - 1]);
    }
  }

  /** The state that the probe function leaves. */
  function Start(): (k: Kbd)
    ensures |k.second| == ROWS
  {
    Kbd(false, false, false, Dir(false, false, false, false), seq(ROWS, _ => false), [])
  }

  // ----- The keys that the host sees down -----

  /** The value last reported for a key. */
  predicate HostDown(reports: seq<Report>, key: Key) {
    reports != [] &&
    var last := reports[|reports| - 1];
    if last.key == key then last.down else HostDown(reports[..|reports| - 1], key)
  }

  lemma HostAfter(k: Kbd, key: Key, down: bool, other: Key)
    ensures HostDown(Reported(k, key, down).reports, other) <==>
            if key == other then down else HostDown(k.reports, other)
  {
    assert (k.reports + [Report(key, down)])[..|k.reports|] == k.reports;
  }

  /** A row's flag is set exactly when the host last saw its key down. */
  predicate Synced(k: Kbd, row: nat)
    requires row < ROWS
  {
    row < |k.second| && (k.second[row] <==> HostDown(k.reports, RowKey(row)))
  }

  lemma DistinctRowKeys(row: nat, other: nat)
    requires row < INSERT_ROW && other < ROWS
    ensures RowKey(row) == RowKey(other) <==> row == other
  {
    RowKeyIs(row);
    RowKeyIs(other);
  }

  /** Letting a row go frees its key and touches no other row. */
  lemma LetGoRowFrees(k: Kbd, i: nat, row: nat)
    requires i < |k.second| == ROWS && row < INSERT_ROW
    ensures HostDown(LetGoRow(k, i).reports, RowKey(row)) <==>
            HostDown(k.reports, RowKey(row)) && !(k.second[row] && row == i)
    ensures LetGoRow(k, i).second[row] <==> k.second[row] && row != i
  {
    HostAfter(k.(second := k.second[i := false]), RowKey(i), false, RowKey(row));
    DistinctRowKeys(row, i);
  }

  /** Letting go reports up exactly the rows whose flag is set. */
  lemma {:induction false} LetGoFreesFlagged(k: Kbd, n: nat, row: nat)
    requires n <= |k.second| == ROWS && row < INSERT_ROW
    ensures HostDown(LetGo(k, n).reports, RowKey(row)) <==>
            HostDown(k.reports, RowKey(row)) && !(k.second[row] && row < n)
    ensures LetGo(k, n).second[row] <==> k.second[row] && row >= n
  {
    if n == 0 {
    } else {
      LetGoFreesFlagged(k, n - 1, row);
      LetGoRowFrees(LetGo(k, n - 1), n - 1, row);
    }
  }

  /** The release of a shift with the other one up, which lets go of the rows. */
  predicate LastShiftUp(k: Kbd, ev: Item) {
    IsShift(ev.scancode) && ev.state == RELEASED && !Tracked(k, ev).left && !Tracked(k, ev).right
  }

  /** A key that is no row's. */
  predicate NoRowKey(key: Key) {
    forall row | 0 <= row < ROWS :: key != RowKey(row)
  }

  /** Letting go touches no other key. */
  lemma {:induction false} LetGoKeepsOther(k: Kbd, n: nat, key: Key)
    requires n <= |k.second| == ROWS && NoRowKey(key)
    ensures HostDown(LetGo(k, n).reports, key) <==> HostDown(k.reports, key)
  {
    if n == 0 {
    } else {
      LetGoKeepsOther(k, n - 1, key);
      LetGoRowKeepsOther(LetGo(k, n - 1), n - 1, key);
    }
  }

  lemma LetGoRowKeepsOther(k: Kbd, i: nat, key: Key)
    requires i < |k.second| == ROWS && key != RowKey(i)
    ensures HostDown(LetGoRow(k, i).reports, key) <==> HostDown(k.reports, key)
  {
    HostAfter(k.(second := k.second[i := false]), RowKey(i), false, key);
  }

  lemma AfterShiftSyncsIff(k: Kbd, ev: Item, row: nat)
    requires |k.second| == ROWS && row < INSERT_ROW
    ensures Synced(AfterShift(k, ev), row) <==> Synced(k, row) || (LastShiftUp(k, ev) && k.second[row])
  {
    LetGoFreesFlagged(Tracked(k, ev), ROWS, row);
  }

  /** The guard of the one branch that reports a shadowed key past its flag: mouse mode has
      the keys F4 and F9 or F5 and F10 stand for the page keys. */
  predicate PastFlag(s: Kbd, ev: Item, row: nat) {
    s.mouse && ((row == PAGEUP_ROW && PageUpInMouseMode(ev.scancode)) ||
        (row == PAGEDOWN_ROW && PageDownInMouseMode(ev.scancode)))
  }

  lemma MouseButtonOfRow(sc: Byte, row: nat)
    requires row < INSERT_ROW && MouseKey(sc) && !IsArrow(sc)
    ensures MouseButton(sc) == RowKey(row) <==>
            (row == PAGEUP_ROW && PageUpInMouseMode(sc)) || (row == PAGEDOWN_ROW && PageDownInMouseMode(sc))
  {
    RowKeyIs(row);
  }

  lemma MouseSyncsIff(s: Kbd, ev: Item, row: nat)
    requires |s.second| == ROWS && row < INSERT_ROW && s.mouse && MouseKey(ev.scancode)
    ensures Synced(MouseHandled(s, ev), row) <==>
            if PastFlag(s, ev, row) then ((ev.state == PRESSED) <==> s.second[row]) else Synced(s, row)
  {
    if !IsArrow(ev.scancode) {
      MouseButtonOfRow(ev.scancode, row);
      HostAfter(s, MouseButton(ev.scancode), ev.state == PRESSED, RowKey(row));
    }
  }

  lemma ShiftsUpKeepsHost(k: Kbd, down: bool, key: Key)
    requires key != KEY_LEFTSHIFT && key != KEY_RIGHTSHIFT
    ensures HostDown(ShiftsUp(k, down).reports, key) <==> HostDown(k.reports, key)
    ensures ShiftsUp(k, down).second == k.second
  {
    HostAfter(k, KEY_LEFTSHIFT, false, key);
    HostAfter(Reported(k, KEY_LEFTSHIFT, false), KEY_RIGHTSHIFT, false, key);
  }

  lemma SecondSyncsIff(s: Kbd, pressed: nat, down: bool, row: nat)
    requires |s.second| == ROWS && row < INSERT_ROW && pressed < ROWS
    ensures Synced(SecondHandled(s, pressed, RowKey(pressed), down), row) <==> pressed == row || Synced(s, row)
  {
    var t := s.(second := s.second[pressed := down]);
    DistinctRowKeys(row, pressed);
    RowKeyIs(row);
    ShiftsUpKeepsHost(t, down, RowKey(row));
    HostAfter(ShiftsUp(t, down), RowKey(pressed), down, RowKey(row));
  }

  lemma KeySyncsIff(s: Kbd, ev: Item, row: nat)
    requires |s.second| == ROWS && row < INSERT_ROW
    ensures Synced(KeyHandled(s, ev), row) <==> (ev.scancode == SECOND_KEYS[row] && ev.state != HOLD) || Synced(s, row)
  {
    var r := RowOf(ev.scancode);
    RowKeyIs(row);
    RowOfScancode(row);
    OneScancodePerRow(ev.scancode, row);
    if r < ROWS {
      SecondSyncsIff(s, r, ev.state == PRESSED, row);
    } else {
      HostAfter(s, Keycode(ev.scancode), ev.state == PRESSED, RowKey(row));
      HostAfter(s, KEY_INSERT, ev.state == PRESSED, RowKey(row));
    }
  }

  /** Mouse mode takes the event. */
  predicate TakenByMouse(k: Kbd, ev: Item)
    requires |k.second| == ROWS
  {
    Handled(ev) && AfterShift(k, ev).mouse && MouseKey(ev.scancode)
  }

  /** An event that reports the row's key past its flag. */
  predicate GoesPastFlag(k: Kbd, ev: Item, row: nat)
    requires |k.second| == ROWS
  {
    Handled(ev) && PastFlag(AfterShift(k, ev), ev, row)
  }

  /** An event that sets the row's flag and reports its key alike: its own press or release, or
      the release of the last shift with the flag set. */
  predicate Renews(k: Kbd, ev: Item, row: nat)
    requires |k.second| == ROWS && row < ROWS
  {
    || (Handled(ev) && ev.scancode == SECOND_KEYS[row] && ev.state != HOLD && !TakenByMouse(k, ev))
    || (LastShiftUp(k, ev) && k.second[row])
  }

  lemma ShiftIsNoRow(ev: Item, row: nat)
    requires IsShift(ev.scancode) && row < ROWS
    ensures ev.scancode != SECOND_KEYS[row] && !MouseKey(ev.scancode)
  {
    RowOfScancode(row);
  }

  /** What one event makes of a row, in step or not. */
  lemma EventSyncsExactly(k: Kbd, ev: Item, row: nat)
    requires |k.second| == ROWS && row < INSERT_ROW
    ensures Synced(Handle(k, ev), row) <==>
            if GoesPastFlag(k, ev, row) then ((ev.state == PRESSED) <==> k.second[row])
            else Renews(k, ev, row) || Synced(k, row)
  {
    var s := AfterShift(k, ev);
    AfterShiftSyncsIff(k, ev, row);
    if IsShift(ev.scancode) {
      ShiftIsNoRow(ev, row);
    }
    if TakenByMouse(k, ev) {
      MouseSyncsIff(s, ev, row);
    } else if Handled(ev) {
      KeySyncsIff(s, ev, row);
    }
  }

  /** One event keeps a row in step exactly when it does not report the row's key past its
      flag with the opposite value. */
  lemma EventSyncsIff(k: Kbd, ev: Item, row: nat)
    requires |k.second| == ROWS && row < INSERT_ROW && Synced(k, row)
    ensures Synced(Handle(k, ev), row) <==> !GoesPastFlag(k, ev, row) || ((ev.state == PRESSED) <==> k.second[row])
  {
    EventSyncsExactly(k, ev, row);
  }

  /** For F6 to F10, Pause, Home and End, the flag is set exactly when the host last saw the
      key down: in every run, with mouse mode on or off. */
  lemma {:induction false} FlagsEqualHost(evs: seq<Item>, row: nat)
    requires row < PAGEUP_ROW
    ensures Synced(HandleAll(Start(), evs), row)
  {
    if evs == [] {
      assert HandleAll(Start(), evs) == Start();
    } else {
      FlagsEqualHost(evs[..|evs| - 1], row);
      EventSyncsIff(HandleAll(Start(), evs[..|evs| - 1]), evs[|evs| - 1], row);
    }
  }

  // ----- PageUp and PageDown -----

  /** A row is in step after a run: the last event that reported its key past its flag agreed
      with the flag, or an event that renewed the row came since. */
  predicate InStep(evs: seq<Item>, row: nat)
    requires row < ROWS
  {
    evs == [] ||
    var front, ev := evs[..|evs| - 1], evs[|evs| - 1];
    var k := HandleAll(Start(), front);
    if GoesPastFlag(k, ev, row) then ((ev.state == PRESSED) <==> k.second[row])
    else Renews(k, ev, row) || InStep(front, row)
  }

  /** For every row with a keycode, PageUp and PageDown included: after any run the flag is
      what the host last saw exactly if the row is in step by the history of the run. */
  lemma {:induction false} FlagEqualsHostIff(evs: seq<Item>, row: nat)
    requires row < INSERT_ROW
    ensures Synced(HandleAll(Start(), evs), row) <==> InStep(evs, row)
  {
    if evs == [] {
      assert HandleAll(Start(), evs) == Start();
    } else {
      FlagEqualsHostIff(evs[..|evs| - 1], row);
      EventSyncsExactly(HandleAll(Start(), evs[..|evs| - 1]), evs[|evs| - 1], row);
    }
  }

  /** The flag was what the host last saw after each event of a run. */
  predicate AlwaysSynced(evs: seq<Item>, row: nat)
    requires row < ROWS
  {
    evs == [] || (AlwaysSynced(evs[..|evs| - 1], row) && Synced(HandleAll(Start(), evs), row))
  }

  /** Each event of a run that reported the row's key past its flag agreed with the flag. */
  predicate PastFlagAgrees(evs: seq<Item>, row: nat)
    requires row < ROWS
  {
    evs == [] ||
    var front, ev := evs[..|evs| - 1], evs[|evs| - 1];
    var k := HandleAll(Start(), front);
    PastFlagAgrees(front, row) && (GoesPastFlag(k, ev, row) ==> ((ev.state == PRESSED) <==> k.second[row]))
  }

  lemma AlwaysSyncedAtEnd(evs: seq<Item>, row: nat)
    requires row < INSERT_ROW && AlwaysSynced(evs, row)
    ensures Synced(HandleAll(Start(), evs), row)
  {
    if evs == [] {
      assert HandleAll(Start(), evs) == Start();
    }
  }

  /** A row stays in step all through a run exactly if no event of it reported the row's key
      past its flag with the opposite value. */
  lemma {:induction false} AlwaysSyncedIff(evs: seq<Item>, row: nat)
    requires row < INSERT_ROW
    ensures AlwaysSynced(evs, row) <==> PastFlagAgrees(evs, row)
  {
    if evs == [] {
    } else {
      var front := evs[..|evs| - 1];
      AlwaysSyncedIff(front, row);
      if AlwaysSynced(front, row) {
        AlwaysSyncedAtEnd(front, row);
        EventSyncsIff(HandleAll(Start(), front), evs[|evs| - 1], row);
      }
    }
  }

  lemma ShiftUpReported(k: Kbd, ev: Item)
    requires |k.second| == ROWS
    requires IsShift(ev.scancode) && ev.state == RELEASED && !Handle(k, ev).left && !Handle(k, ev).right
    ensures Handle(k, ev) == Reported(LetGo(Tracked(k, ev), ROWS), Keycode(ev.scancode), false)
    ensures Keycode(ev.scancode) == KEY_LEFTSHIFT || Keycode(ev.scancode) == KEY_RIGHTSHIFT
  {
  }

  /** The release that leaves both shifts up leaves a key up on the host exactly when its flag
      was set or it was up already: every key in step is freed, and no key out of step. */
  lemma ShiftReleaseFreesIff(k: Kbd, ev: Item, row: nat)
    requires |k.second| == ROWS && row < INSERT_ROW
    requires IsShift(ev.scancode) && ev.state == RELEASED && !Handle(k, ev).left && !Handle(k, ev).right
    ensures !HostDown(Handle(k, ev).reports, RowKey(row)) <==> k.second[row] || !HostDown(k.reports, RowKey(row))
  {
    var t := LetGo(Tracked(k, ev), ROWS);
    RowKeyIs(row);
    ShiftUpReported(k, ev);
    LetGoFreesFlagged(Tracked(k, ev), ROWS, row);
    HostAfter(t, Keycode(ev.scancode), false, RowKey(row));
  }

  /** In every run, the release of a shift that leaves both up leaves F6 to F10, Pause, Home and
      End up on the host. */
  lemma ShiftReleaseFreesKeys(evs: seq<Item>, ev: Item, row: nat)
    requires row < PAGEUP_ROW && IsShift(ev.scancode) && ev.state == RELEASED
    requires var r := Handle(HandleAll(Start(), evs), ev); !r.left && !r.right
    ensures !HostDown(Handle(HandleAll(Start(), evs), ev).reports, RowKey(row))
  {
    FlagsEqualHost(evs, row);
    ShiftReleaseFreesIff(HandleAll(Start(), evs), ev, row);
  }

  /** Where mouse mode was never on, all rows stay in step. */
  lemma {:induction false} MouseOffAlwaysSynced(evs: seq<Item>, row: nat)
    requires row < INSERT_ROW && forall n | 0 <= n <= |evs| :: !HandleAll(Start(), evs[..n]).mouse
    ensures PastFlagAgrees(evs, row) && AlwaysSynced(evs, row)
  {
    if evs == [] {
    } else {
      var front := evs[..|evs| - 1];
      assert forall n | 0 <= n <= |front| :: front[..n] == evs[..n];
      MouseOffAlwaysSynced(front, row);
      assert evs[..|evs| - 1] == front;
      MouseOnFirst(HandleAll(Start(), front), evs[|evs| - 1], row);
    }
    AlwaysSyncedIff(evs, row);
  }

  /** Only a shift turns mouse mode on, and no shift goes past a flag. */
  lemma MouseOnFirst(k: Kbd, ev: Item, row: nat)
    requires |k.second| == ROWS && !k.mouse
    ensures !GoesPastFlag(k, ev, row)
  {
  }

  // ----- Second-function keys without shift -----

  lemma ShiftsUpForHost(k: Kbd)
    ensures !HostDown(ShiftsUp(k, true).reports, KEY_LEFTSHIFT) && !HostDown(ShiftsUp(k, true).reports, KEY_RIGHTSHIFT)
  {
    var t := Reported(k, KEY_LEFTSHIFT, false);
    HostAfter(k, KEY_LEFTSHIFT, false, KEY_LEFTSHIFT);
    HostAfter(t, KEY_RIGHTSHIFT, false, KEY_LEFTSHIFT);
    HostAfter(t, KEY_RIGHTSHIFT, false, KEY_RIGHTSHIFT);
  }

  /** The host sees a press of a second-function key after it has seen both shifts up. */
  lemma PressComesUnshifted(k: Kbd, ev: Item, row: nat)
    requires |k.second| == ROWS && row < INSERT_ROW && ev == Item(PRESSED, SECOND_KEYS[row]) && !TakenByMouse(k, ev)
    ensures var r := Handle(k, ev).reports;
            && r != [] && r[|r| - 1] == Report(RowKey(row), true)
            && !HostDown(r[..|r| - 1], KEY_LEFTSHIFT) && !HostDown(r[..|r| - 1], KEY_RIGHTSHIFT)
            && HostDown(r, RowKey(row))
  {
    RowOfScancode(row);
    RowKeyIs(row);
    var t := k.(second := k.second[row := true]);
    ShiftsUpForHost(t);
    HostAfter(ShiftsUp(t, true), RowKey(row), true, RowKey(row));
    SecondPressed(k, ev, row);
    var r := ShiftsUp(t, true).reports;
    assert (r + [Report(RowKey(row), true)])[..|r|] == r;
  }

  lemma SecondPressed(k: Kbd, ev: Item, row: nat)
    requires |k.second| == ROWS && row < INSERT_ROW && ev == Item(PRESSED, SECOND_KEYS[row]) && !TakenByMouse(k, ev)
    ensures Handle(k, ev) == SecondHandled(k, row, RowKey(row), true)
  {
    RowOfScancode(row);
    RowKeyIs(row);
  }

  /** In every run, before a press of F6 to F10, Pause, Home, End, PageUp or PageDown that mouse mode
      does not take is reported, both shifts were reported up. */
  lemma SecondKeysComeUnshifted(evs: seq<Item>, ev: Item, row: nat)
    requires row < INSERT_ROW && ev == Item(PRESSED, SECOND_KEYS[row]) && !TakenByMouse(HandleAll(Start(), evs), ev)
    ensures var r := HandleAll(Start(), evs + [ev]).reports;
            && r != [] && r[|r| - 1] == Report([64, 65, 66, 67, 68, 119, 102, 107, 104, 109][row], true)
            && !HostDown(r[..|r| - 1], KEY_LEFTSHIFT) && !HostDown(r[..|r| - 1], KEY_RIGHTSHIFT)
  {
    HandleOneMore(Start(), evs, ev);
    PressComesUnshifted(HandleAll(Start(), evs), ev, row);
    RowKeyIs(row);
  }

  /** In mouse mode F4 and F9 report PageUp, F5 and F10 PageDown; a hold reports up. */
  lemma MouseModePageKeys(k: Kbd, state: nat, sc: Byte)
    requires |k.second| == ROWS && k.mouse && 1 <= state <= 3 && (sc == 0x84 || sc == 0x85 || sc == 0x89 || sc == 0x90)
    ensures Handle(k, Item(state, sc)).reports ==
            k.reports + [Report(if sc == 0x84 || sc == 0x89 then 104 else 109, state == 1)]
    ensures Handle(k, Item(state, sc)).second == k.second
  {
  }

  /** Scancode 0xD1 reports Enter while a shift is down, and Insert otherwise. */
  lemma EnterOrInsert(k: Kbd, ev: Item)
    requires |k.second| == ROWS && ev.scancode == 0xD1 && (ev.state == PRESSED || ev.state == RELEASED)
    ensures Handle(k, ev).reports == k.reports + [Report(if k.left || k.right then 28 else 110, ev.state == PRESSED)]
  {
  }

  lemma HandleOneMore(k: Kbd, front: seq<Item>, ev: Item)
    requires |k.second| == ROWS
    ensures HandleAll(k, front + [ev]) == Handle(HandleAll(k, front), ev)
  {
    assert (front + [ev])[..|front|] == front;
  }

  lemma BothShiftsDown(k: Kbd)
    requires |k.second| == ROWS && !k.left && !k.right
    ensures Handle(k, Item(PRESSED, 0xA2)) == Reported(k.(left := true), KEY_LEFTSHIFT, true)
    ensures Handle(k.(left := true), Item(PRESSED, 0xA3)) ==
            Reported(k.(left := true, right := true, mouse := !k.mouse), KEY_RIGHTSHIFT, true)
  {
  }

  lemma F9InMouseMode(k: Kbd)
    requires |k.second| == ROWS && k.mouse
    ensures Handle(k, Item(PRESSED, 0x89)) == Reported(k, KEY_PAGEUP, true)
  {
  }

  lemma TwoShifts(a: Item, b: Item)
    requires a == Item(PRESSED, 0xA2) && b == Item(PRESSED, 0xA3)
    ensures var k := HandleAll(Start(), [a, b]);
            k.mouse && k.second == Start().second
  {
    HandleOneMore(Start(), [], a);
    HandleOneMore(Start(), [a], b);
    assert [a] + [b] == [a, b] && [] + [a] == [a];
    BothShiftsDown(Start());
    BothShiftsDown(Reported(Start(), KEY_LEFTSHIFT, true));
  }

  /** The page keys do fall out of step where mouse mode stands in for them: F9 pressed in mouse
      mode reports PageUp down, and no flag remembers it for the release of the shifts. */
  lemma PageUpOutOfStep()
    ensures var k := HandleAll(Start(), [Item(PRESSED, 0xA2), Item(PRESSED, 0xA3), Item(PRESSED, 0x89)]);
            HostDown(k.reports, KEY_PAGEUP) && !k.second[PAGEUP_ROW] && !Synced(k, PAGEUP_ROW)
  {
    var a, b, c := Item(PRESSED, 0xA2), Item(PRESSED, 0xA3), Item(PRESSED, 0x89);
    TwoShifts(a, b);
    var k := HandleAll(Start(), [a, b]);
    HandleOneMore(Start(), [a, b], c);
    assert [a, b] + [c] == [a, b, c];
    F9InMouseMode(k);
    HostAfter(k, KEY_PAGEUP, true, KEY_PAGEUP);
    RowKeyIs(PAGEUP_ROW);
  }
}
