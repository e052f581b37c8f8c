/** Mouse mode and the arrow bits, told from the history of key events alone. */
module KeyHistory {
  import opened Words
  import opened KeyCodes
  import opened KeyEvents

  /** A shift is down: its last event pressed or held it. */
  predicate ShiftHeld(evs: seq<Item>, sc: Byte) {
    evs != [] &&
    var ev := evs[|evs| - 1];
    if ev.scancode == sc && Handled(ev) then ev.state != RELEASED else ShiftHeld(evs[..|evs| - 1], sc)
  }

  /** The last event is a shift going down with both shifts down after it. */
  predicate TogglesLast(evs: seq<Item>) {
    && evs != [] && IsShift(evs[|evs| - 1].scancode) && evs[|evs| - 1].state == PRESSED
    && ShiftHeld(evs, 0xA2) && ShiftHeld(evs, 0xA3)
  }

  function Toggles(evs: seq<Item>): nat {
    if evs == [] then 0 else Toggles(evs[..|evs| - 1]) + if TogglesLast(evs) then 1 else 0
  }

  predicate MouseOn(evs: seq<Item>) {
    Toggles(evs) % 2 == 1
  }

  /** An arrow moves the pointer: its last press or release in mouse mode was a press. */
  predicate ArrowHeld(evs: seq<Item>, sc: Byte) {
    evs != [] &&
    var ev := evs[|evs| - 1];
    if ev.scancode == sc && (ev.state == PRESSED || ev.state == RELEASED) && MouseOn(evs) then ev.state == PRESSED
    else ArrowHeld(evs[..|evs| - 1], sc)
  }

  lemma ShiftsAfter(k: Kbd, ev: Item)
    requires |k.second| == ROWS
    ensures var r := Handle(k, ev);
            && (r.left <==> if ev.scancode == 0xA2 && Handled(ev) then ev.state != RELEASED else k.left)
            && (r.right <==> if ev.scancode == 0xA3 && Handled(ev) then ev.state != RELEASED else k.right)
            && (r.mouse <==>
                if IsShift(ev.scancode) && ev.state == PRESSED && r.left && r.right then !k.mouse else k.mouse)
  {
  }

  lemma ArrowAfter(k: Kbd, ev: Item, sc: Byte)
    requires |k.second| == ROWS && IsArrow(sc)
    ensures ArrowBit(Handle(k, ev).dir, sc) <==>
            if ev.scancode == sc && (ev.state == PRESSED || ev.state == RELEASED) && Handle(k, ev).mouse
            then ev.state == PRESSED
            else ArrowBit(k.dir, sc)
  {
  }

  /** Both shifts, and mouse mode as the parity of the presses that found both down. */
  lemma {:induction false} MouseModeIsParity(evs: seq<Item>)
    ensures var k := HandleAll(Start(), evs);
            (k.left <==> ShiftHeld(evs, 0xA2)) && (k.right <==> ShiftHeld(evs, 0xA3)) && (k.mouse <==> MouseOn(evs))
  {
    if evs == [] {
      assert HandleAll(Start(), evs) == Start();
    } else {
      MouseModeIsParity(evs[..|evs| - 1]);
      ShiftsAfter(HandleAll(Start(), evs[..|evs| - 1]), evs[|evs| - 1]);
    }
  }

  lemma {:induction false} ArrowBitsAreHeld(evs: seq<Item>, sc: Byte)
    requires IsArrow(sc)
    ensures ArrowBit(HandleAll(Start(), evs).dir, sc) <==> ArrowHeld(evs, sc)
  {
    MouseModeIsParity(evs);
    if evs == [] {
      assert HandleAll(Start(), evs) == Start();
    } else {
      ArrowBitsAreHeld(evs[..|evs| - 1], sc);
      ArrowAfter(HandleAll(Start(), evs[..|evs| - 1]), evs[|evs| - 1], sc);
    }
  }

  // ----- Mouse buttons -----

  /** A mouse button is down: its key's last event in mouse mode was a press; a hold counts
      as a release. */
  predicate ButtonHeld(evs: seq<Item>, sc: Byte) {
    evs != [] &&
    var ev := evs[|evs| - 1];
    if ev.scancode == sc && Handled(ev) && MouseOn(evs) then ev.state == PRESSED else ButtonHeld(evs[..|evs| - 1], sc)
  }

  /** The two button codes, with the scancode that stands for each. */
  predicate IsButton(sc: Byte, key: Key) {
    (sc == ']' as int && key == BTN_RIGHT) || (sc == '[' as int && key == BTN_LEFT)
  }

  lemma KeysKeepButton(k: Kbd, ev: Item, key: Key)
    requires |k.second| == ROWS && key >= 0x100
    ensures HostDown(KeyHandled(k, ev).reports, key) <==> HostDown(k.reports, key)
  {
    var r, down := RowOf(ev.scancode), ev.state == PRESSED;
    KeycodesAreBytes(ev.scancode);
    HostAfter(k, KEY_INSERT, down, key);
    HostAfter(k, Keycode(ev.scancode), down, key);
    if r < ROWS {
      var t := k.(second := k.second[r := down]);
      ShiftsUpKeepsHost(t, down, key);
      HostAfter(ShiftsUp(t, down), Keycode(ev.scancode), down, key);
    }
  }

  lemma AfterShiftKeepsButton(k: Kbd, ev: Item, key: Key)
    requires |k.second| == ROWS && key >= 0x100
    ensures HostDown(AfterShift(k, ev).reports, key) <==> HostDown(k.reports, key)
  {
    forall row | 0 <= row < ROWS ensures key != RowKey(row) {
      RowKeysAreHigh(row);
    }
    LetGoKeepsOther(Tracked(k, ev), ROWS, key);
  }

  lemma MouseSetsButton(s: Kbd, ev: Item, sc: Byte, key: Key)
    requires IsButton(sc, key) && MouseKey(ev.scancode)
    ensures HostDown(MouseHandled(s, ev).reports, key) <==>
            if ev.scancode == sc then ev.state == PRESSED else HostDown(s.reports, key)
  {
    if !IsArrow(ev.scancode) {
      HostAfter(s, MouseButton(ev.scancode), ev.state == PRESSED, key);
    }
  }

  lemma ButtonAfter(k: Kbd, ev: Item, sc: Byte, key: Key)
    requires |k.second| == ROWS && IsButton(sc, key)
    ensures HostDown(Handle(k, ev).reports, key) <==>
            if ev.scancode == sc && Handled(ev) && Handle(k, ev).mouse then ev.state == PRESSED
            else HostDown(k.reports, key)
  {
    var s := AfterShift(k, ev);
    AfterShiftKeepsButton(k, ev, key);
    if s.mouse && MouseKey(ev.scancode) {
      MouseSetsButton(s, ev, sc, key);
    } else {
      KeysKeepButton(s, ev, key);
    }
  }

  /** What the host last saw of the two mouse buttons. */
  lemma {:induction false} ButtonsAreHeld(evs: seq<Item>, sc: Byte, key: Key)
    requires IsButton(sc, key)
    ensures HostDown(HandleAll(Start(), evs).reports, key) <==> ButtonHeld(evs, sc)
  {
    MouseModeIsParity(evs);
    if evs == [] {
      assert HandleAll(Start(), evs) == Start();
    } else {
      ButtonsAreHeld(evs[..|evs| - 1], sc, key);
      ButtonAfter(HandleAll(Start(), evs[..|evs| - 1]), evs[|evs| - 1], sc, key);
    }
  }

  // ----- Ordinary keys -----

  /** A keycode of the table that no other part of the driver reports: no shift, no Enter, no
      second-function key. */
  predicate Ordinary(key: Key) {
    && 0 < key < 0x100 && key != KEY_UNKNOWN && key != KEY_LEFTSHIFT && key != KEY_RIGHTSHIFT && key != KEY_ENTER
    && key != KEY_INSERT && key != KEY_PAGEUP && key != KEY_PAGEDOWN &&
        forall row | 0 <= row < INSERT_ROW :: key != RowKey(row)
  }

  /** An ordinary key is down: of its events that mouse mode did not take the last one but for
      holds was a press. */
  predicate KeyHeld(evs: seq<Item>, key: Key) {
    evs != [] &&
    var ev := evs[|evs| - 1];
    if Keycode(ev.scancode) == key && (ev.state == PRESSED || ev.state == RELEASED) &&
       !(MouseOn(evs) && MouseKey(ev.scancode))
    then ev.state == PRESSED
    else KeyHeld(evs[..|evs| - 1], key)
  }

  lemma OrdinaryIsNoRowKey(key: Key)
    requires Ordinary(key)
    ensures NoRowKey(key)
  {
    RowKeyIs(INSERT_ROW);
  }

  lemma MouseKeepsOrdinary(s: Kbd, ev: Item, key: Key)
    requires Ordinary(key) && MouseKey(ev.scancode)
    ensures HostDown(MouseHandled(s, ev).reports, key) <==> HostDown(s.reports, key)
  {
    if !IsArrow(ev.scancode) {
      HostAfter(s, MouseButton(ev.scancode), ev.state == PRESSED, key);
    }
  }

  lemma SecondKeepsOrdinary(s: Kbd, row: nat, down: bool, key: Key)
    requires row < |s.second| == ROWS && Ordinary(key)
    ensures HostDown(SecondHandled(s, row, RowKey(row), down).reports, key) <==> HostDown(s.reports, key)
  {
    var t := s.(second := s.second[row := down]);
    RowKeyIs(row);
    ShiftsUpKeepsHost(t, down, key);
    HostAfter(ShiftsUp(t, down), RowKey(row), down, key);
  }

  lemma KeysSetOrdinary(s: Kbd, ev: Item, key: Key)
    requires |s.second| == ROWS && Ordinary(key)
    ensures HostDown(KeyHandled(s, ev).reports, key) <==>
            if Keycode(ev.scancode) == key && ev.state != HOLD then ev.state == PRESSED else HostDown(s.reports, key)
  {
    var r, down := RowOf(ev.scancode), ev.state == PRESSED;
    if r < ROWS {
      RowKeyIs(r);
      SecondKeepsOrdinary(s, r, down, key);
    } else {
      HostAfter(s, KEY_INSERT, down, key);
      HostAfter(s, Keycode(ev.scancode), down, key);
    }
  }

  lemma OrdinaryAfter(k: Kbd, ev: Item, key: Key)
    requires |k.second| == ROWS && Ordinary(key)
    ensures HostDown(Handle(k, ev).reports, key) <==>
            if Keycode(ev.scancode) == key && (ev.state == PRESSED || ev.state == RELEASED) &&
               !(Handle(k, ev).mouse && MouseKey(ev.scancode))
            then ev.state == PRESSED else HostDown(k.reports, key)
  {
    if Handled(ev) {
      var s := AfterShift(k, ev);
      OrdinaryIsNoRowKey(key);
      LetGoKeepsOther(Tracked(k, ev), ROWS, key);
      if s.mouse && MouseKey(ev.scancode) {
        MouseKeepsOrdinary(s, ev, key);
      } else {
        KeysSetOrdinary(s, ev, key);
      }
    }
  }

  /** What the host sees of every ordinary key after every run. */
  lemma {:induction false} OrdinaryKeysAreHeld(evs: seq<Item>, key: Key)
    requires Ordinary(key)
    ensures HostDown(HandleAll(Start(), evs).reports, key) <==> KeyHeld(evs, key)
  {
    MouseModeIsParity(evs);
    if evs == [] {
      assert HandleAll(Start(), evs) == Start();
    } else {
      OrdinaryKeysAreHeld(evs[..|evs| - 1], key);
      OrdinaryAfter(HandleAll(Start(), evs[..|evs| - 1]), evs[|evs| - 1], key);
    }
  }

  // ----- Second-function keys and the shifts -----

  /** Mouse mode takes the last event of a history. */
  predicate TakenLast(evs: seq<Item>) {
    evs != [] && MouseOn(evs) && MouseKey(evs[|evs| - 1].scancode)
  }

  /** The last event of a history is the release of a shift with the other one up. */
  predicate ShiftsGoUp(evs: seq<Item>) {
    evs != [] && IsShift(evs[|evs| - 1].scancode) && evs[|evs| - 1].state == RELEASED && !ShiftHeld(evs, 0xA2) &&
        !ShiftHeld(evs, 0xA3)
  }

  /** A second-function key is down: of its presses and releases that mouse mode did not take the
      last one was a press, and the shifts did not go up since. */
  predicate RowHeld(evs: seq<Item>, row: nat)
    requires row < ROWS
  {
    evs != [] &&
    var front, ev := evs[..|evs| - 1], evs[|evs| - 1];
    if ev.scancode == SECOND_KEYS[row] && (ev.state == PRESSED || ev.state == RELEASED) && !TakenLast(evs)
    then ev.state == PRESSED
    else RowHeld(front, row) && !ShiftsGoUp(evs)
  }

  lemma FlagAfter(k: Kbd, ev: Item, row: nat)
    requires |k.second| == ROWS && row < INSERT_ROW
    ensures Handle(k, ev).second[row] <==>
            if ev.scancode == SECOND_KEYS[row] && (ev.state == PRESSED || ev.state == RELEASED) && !TakenByMouse(k, ev)
            then ev.state == PRESSED
            else k.second[row] && !LastShiftUp(k, ev)
  {
    LetGoFreesFlagged(Tracked(k, ev), ROWS, row);
    if IsShift(ev.scancode) {
      ShiftIsNoRow(ev, row);
    }
    if Handled(ev) && !TakenByMouse(k, ev) {
      KeySetsFlag(AfterShift(k, ev), ev, row);
    }
  }

  lemma KeySetsFlag(s: Kbd, ev: Item, row: nat)
    requires |s.second| == ROWS && row < INSERT_ROW
    ensures KeyHandled(s, ev).second[row] <==>
            if ev.scancode == SECOND_KEYS[row] && ev.state != HOLD then ev.state == PRESSED else s.second[row]
  {
    RowOfScancode(row);
    RowKeysAreHigh(row);
  }

  lemma ModesLast(front: seq<Item>, ev: Item)
    ensures var k, evs := HandleAll(Start(), front), front + [ev];
            && (Handled(ev) ==> (TakenByMouse(k, ev) <==> TakenLast(evs))) && (LastShiftUp(k, ev) <==> ShiftsGoUp(evs))
  {
    var evs := front + [ev];
    assert evs[..|evs| - 1] == front && evs[|evs| - 1] == ev;
    MouseModeIsParity(front);
    MouseModeIsParity(evs);
    ShiftsAfter(HandleAll(Start(), front), ev);
  }

  /** The flags after every run, page keys included. */
  lemma {:induction false} FlagsAreHeld(evs: seq<Item>, row: nat)
    requires row < INSERT_ROW
    ensures HandleAll(Start(), evs).second[row] <==> RowHeld(evs, row)
  {
    if evs == [] {
      assert HandleAll(Start(), evs) == Start();
    } else {
      var front, ev := evs[..|evs| - 1], evs[|evs| - 1];
      assert evs == front + [ev];
      FlagsAreHeld(front, row);
      ModesLast(front, ev);
      FlagAfter(HandleAll(Start(), front), ev, row);
    }
  }

  /** What the host sees of F6 to F10, Pause, Home and End after every run. */
  lemma SecondKeysAreHeld(evs: seq<Item>, row: nat)
    requires row < PAGEUP_ROW
    ensures HostDown(HandleAll(Start(), evs).reports, [64, 65, 66, 67, 68, 119, 102, 107][row]) <==> RowHeld(evs, row)
  {
    FlagsEqualHost(evs, row);
    FlagsAreHeld(evs, row);
    RowKeyIs(row);
  }

  /** The two shifts, with their keycodes. */
  predicate IsShiftKey(sc: Byte, key: Key) {
    (sc == 0xA2 && key == KEY_LEFTSHIFT) || (sc == 0xA3 && key == KEY_RIGHTSHIFT)
  }

  /** An event that presses a second-function key. */
  predicate PressesRow(ev: Item) {
    ev.state == PRESSED && RowOf(ev.scancode) < INSERT_ROW
  }

  /** The host sees a shift down: its last press or release was a press, and no second-function
      key was pressed since. */
  predicate ShiftShown(evs: seq<Item>, sc: Byte) {
    evs != [] &&
    var front, ev := evs[..|evs| - 1], evs[|evs| - 1];
    if ev.scancode == sc && (ev.state == PRESSED || ev.state == RELEASED) then ev.state == PRESSED
    else ShiftShown(front, sc) && !(PressesRow(ev) && !TakenLast(evs))
  }

  lemma ShiftIsNoRowKey(key: Key)
    requires key == KEY_LEFTSHIFT || key == KEY_RIGHTSHIFT
    ensures NoRowKey(key)
  {
    forall row | 0 <= row < ROWS ensures key != RowKey(row) {
      RowKeysAreHigh(row);
    }
  }

  lemma SecondSetsShift(s: Kbd, row: nat, down: bool, key: Key)
    requires row < |s.second| == ROWS && (key == KEY_LEFTSHIFT || key == KEY_RIGHTSHIFT)
    ensures HostDown(SecondHandled(s, row, RowKey(row), down).reports, key) <==> HostDown(s.reports, key) && !down
  {
    var t := s.(second := s.second[row := down]);
    RowKeysAreHigh(row);
    ShiftsUpForHost(t);
    HostAfter(ShiftsUp(t, down), RowKey(row), down, key);
  }

  /** A shift's keycode has its scancode alone. */
  lemma ShiftHasOneScancode(sc: Byte, other: Byte, key: Key)
    requires IsShiftKey(sc, key) && Keycode(other) == key
    ensures other == sc || other < 0x80
  {
  }

  lemma CharIsNoShift(sc: Byte)
    requires sc < 0x80
    ensures Keycode(sc) != KEY_LEFTSHIFT && Keycode(sc) != KEY_RIGHTSHIFT
  {
    if 'a' as int <= sc <= 'z' as int { LetterIsNoShift(sc - 'a' as int); }
    else if 'A' as int <= sc <= 'Z' as int { LetterIsNoShift(sc - 'A' as int); }
    else if 0x20 <= sc <= 0x40 { SymbolIsNoShift(sc - 0x20); }
  }

  lemma LetterIsNoShift(i: nat)
    requires i < 26
    ensures LETTERS[i] != 42 && LETTERS[i] != 54
  {
  }

  lemma SymbolIsNoShift(i: nat)
    requires i < 33
    ensures SYMBOLS[i] != 42 && SYMBOLS[i] != 54
  {
  }

  lemma KeysSetShift(s: Kbd, ev: Item, sc: Byte, key: Key)
    requires |s.second| == ROWS && IsShiftKey(sc, key) && Handled(ev)
    ensures HostDown(KeyHandled(s, ev).reports, key) <==>
            if ev.scancode == sc && ev.state != HOLD then ev.state == PRESSED
            else HostDown(s.reports, key) && !PressesRow(ev)
  {
    var r, down := RowOf(ev.scancode), ev.state == PRESSED;
    if r < ROWS {
      RowKeysAreHigh(r);
      SecondSetsShift(s, r, down, key);
    } else {
      HostAfter(s, KEY_INSERT, down, key);
      HostAfter(s, Keycode(ev.scancode), down, key);
      if Keycode(ev.scancode) == key {
        ShiftHasOneScancode(sc, ev.scancode, key);
        if ev.scancode < 0x80 {
          CharIsNoShift(ev.scancode);
        }
      }
    }
  }

  lemma MouseKeepsShift(s: Kbd, ev: Item, key: Key)
    requires (key == KEY_LEFTSHIFT || key == KEY_RIGHTSHIFT) && MouseKey(ev.scancode)
    ensures HostDown(MouseHandled(s, ev).reports, key) <==> HostDown(s.reports, key)
  {
    if !IsArrow(ev.scancode) {
      HostAfter(s, MouseButton(ev.scancode), ev.state == PRESSED, key);
    }
  }

  lemma ShiftKeyAfter(k: Kbd, ev: Item, sc: Byte, key: Key)
    requires |k.second| == ROWS && IsShiftKey(sc, key)
    ensures HostDown(Handle(k, ev).reports, key) <==>
            if ev.scancode == sc && (ev.state == PRESSED || ev.state == RELEASED) then ev.state == PRESSED
            else HostDown(k.reports, key) && !(PressesRow(ev) && !TakenByMouse(k, ev))
  {
    if Handled(ev) {
      var s := AfterShift(k, ev);
      ShiftIsNoRowKey(key);
      LetGoKeepsOther(Tracked(k, ev), ROWS, key);
      if s.mouse && MouseKey(ev.scancode) {
        MouseKeepsShift(s, ev, key);
      } else {
        KeysSetShift(s, ev, sc, key);
      }
    }
  }

  /** What the host sees of the two shifts after every run. */
  lemma {:induction false} ShiftsAreShown(evs: seq<Item>, sc: Byte, key: Key)
    requires IsShiftKey(sc, key)
    ensures HostDown(HandleAll(Start(), evs).reports, key) <==> ShiftShown(evs, sc)
  {
    if evs == [] {
      assert HandleAll(Start(), evs) == Start();
    } else {
      var front, ev := evs[..|evs| - 1], evs[|evs| - 1];
      assert evs == front + [ev];
      ShiftsAreShown(front, sc, key);
      ModesLast(front, ev);
      ShiftKeyAfter(HandleAll(Start(), front), ev, sc, key);
    }
  }
}
