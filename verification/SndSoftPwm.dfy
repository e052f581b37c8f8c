/** The software-PWM sound driver: one timer raises the pin every period, a second one lowers
    it after the duty and loads the next sample. */
module SndSoftPwm {
  import opened Words
  import opened PcmRing

  const PERIOD_NS: nat := 125000

  /** A write to the pin, with its time. */
  datatype Edge = Edge(at: nat, high: bool)

  /** The stream, the expiry of each timer, and every write to the pin. */
  datatype Stream = Pcm(ring: Ring, on: bool, duty: nat, tm1: Option<nat>, tm2: Option<nat>, edges: seq<Edge>)

  function PulseNs(b: Byte): nat {
    ToU32(b * PERIOD_NS) / 255
  }

  /** A sample whose duty is no pulse at all or the whole period. */
  predicate Extreme(b: Byte) {
    b == 0 || b == 255
  }

  /** No 32-bit overflow, and the sample's part of the period rounded down. */
  lemma PulseFits(b: Byte)
    ensures b * 125000 < 0x1_0000_0000
    ensures 255 * PulseNs(b) <= b * 125000 < 255 * PulseNs(b) + 255
  {
  }

  lemma DutyInsideIff(b: Byte)
    ensures 0 < PulseNs(b) < PERIOD_NS <==> !Extreme(b)
    ensures PulseNs(b) == 0 <==> b == 0
    ensures PulseNs(b) == PERIOD_NS <==> b == 255
  {
  }

  function Triggered(s: Stream, data: seq<Byte>, cmd: int, now: nat): (Stream, int)
    requires data != []
  {
    if cmd == TRIGGER_START then
      (Pcm(s.ring.(ptr := 0, period := 0), true, PulseNs(data[0]), Some(now + PERIOD_NS), None, s.edges), 0)
    else if cmd == TRIGGER_STOP then (if s.on then s.(on := false, duty := 0) else s, 0)
    else (s, -EINVAL)
  }

  /** `cb1`, fired at `now`: a stopped stream lets the timer lapse. */
  function Raised(s: Stream, now: nat): Stream {
    if !s.on then s.(tm1 := None) else
      var t := s.(tm1 := Some(now + PERIOD_NS));
      if s.duty == 0 then t else
        var u := t.(edges := t.edges + [Edge(now, true)]);
        if s.duty < PERIOD_NS then u.(tm2 := Some(now + s.duty)) else u
  }

  /** `cb2`, fired at `now`. */
  function Lowered(s: Stream, data: seq<Byte>, period: nat, now: nat): Stream
    requires NextPtr(s.ring.ptr, |data|) < |data|
  {
    if !s.on then s.(tm2 := None) else
      var r := Advance(s.ring, |data|, period);
      Pcm(r, true, PulseNs(data[r.ptr]), s.tm1, None, s.edges + [Edge(now, false)])
  }

  class Device {
    const dmaArea: array<Byte>
    const periodSize: nat
    var dataPtr: nat
    var periodPtr: nat
    var isOn: bool
    var dutyCycleNs: nat
    var cnt: nat
    var tm1: Option<nat>
    var tm2: Option<nat>
    var marks: seq<nat>
    var edges: seq<Edge>

    ghost predicate Valid()
      reads this
    {
      dmaArea.Length > 0 && periodSize > 0 && cnt == 0
    }

    ghost function State(): Stream
      reads this
    {
      Pcm(Ring(dataPtr, periodPtr, marks), isOn, dutyCycleNs, tm1, tm2, edges)
    }

    constructor (dmaArea: array<Byte>, periodSize: nat)
      requires dmaArea.Length > 0 && periodSize > 0
      ensures Valid() && this.dmaArea == dmaArea && this.periodSize == periodSize
      ensures State() == Pcm(NewRing(), false, 0, None, None, [])
    {
      this.dmaArea, this.periodSize := dmaArea, periodSize;
      dataPtr, periodPtr, isOn, dutyCycleNs, cnt := 0, 0, false, 0, 0;
      tm1, tm2, marks, edges := None, None, [], [];
    }

    method Trigger(cmd: int, now: nat) returns (ret: int)
      requires Valid()
      modifies this
      ensures Valid() && (State(), ret) == Triggered(old(State()), old(dmaArea[..]), cmd, now)
    {
      ret := 0;
      if cmd == TRIGGER_START {
        dutyCycleNs := ToU32(dmaArea[0] * PERIOD_NS) / 255;
        dataPtr := 0;
        periodPtr := 0;
        cnt := 0;
        tm1, tm2 := Some(now + PERIOD_NS), None;
        isOn := true;
      } else if cmd == TRIGGER_STOP {
        if isOn {
          isOn := false;
          dutyCycleNs := 0;
        }
      } else {
        ret := -EINVAL;
      }
    }

    method SetPin(high: bool, now: nat)
      modifies this`edges
      ensures edges == old(edges) + [Edge(now, high)]
    {
      edges := edges + [Edge(now, high)];
    }

    method Cb1(now: nat) returns (restart: bool)
      requires Valid()
      modifies this
      ensures Valid() && State() == Raised(old(State()), now) && (restart <==> old(isOn))
    {
      if !isOn {
        tm1 := None;
        return false;
      }
      tm1 := Some(now + PERIOD_NS);
      if dutyCycleNs != 0 {
        SetPin(true, now);
        if dutyCycleNs < PERIOD_NS {
          tm2 := Some(now + dutyCycleNs);
        }
      }
      return true;
    }

    method Cb2(now: nat)
      requires Valid()
      modifies this
      ensures Valid() && State() == Lowered(old(State()), old(dmaArea[..]), periodSize, now)
    {
      tm2 := None;
      if !isOn {
        return;
      }
      SetPin(false, now);
      cnt := cnt + 1;
      if cnt < 1 {
        return;
      }
      cnt := 0;
      dataPtr := dataPtr + 1;
      if dataPtr >= dmaArea.Length {
        dataPtr := 0;
      }
      dutyCycleNs := ToU32(dmaArea[dataPtr] * PERIOD_NS) / 255;
      periodPtr := periodPtr + 1;
      if periodPtr >= periodSize {
        periodPtr := 0;
        marks := marks + [dataPtr];
      }
    }

    method Pointer() returns (ptr: nat)
      ensures ptr == State().ring.ptr
    {
      return dataPtr;
    }
  }

  // ----- Two ideal timers -----

  /** The timer that expires first fires, at its time. */
  function Fire(s: Stream, data: seq<Byte>, period: nat): Stream
    requires NextPtr(s.ring.ptr, |data|) < |data|
  {
    if s.tm2.Some? && (s.tm1.None? || s.tm2.value <= s.tm1.value) then Lowered(s, data, period, s.tm2.value)
    else if s.tm1.Some? then Raised(s, s.tm1.value)
    else s
  }

  /** A cycle: the timers fire up to, but not including, the next expiry of the first one. */
  function Cycle(s: Stream, data: seq<Byte>, period: nat): Stream
    requires NextPtr(s.ring.ptr, |data|) < |data|
  {
    var a := Fire(s, data, period);
    if a.tm2.Some? && a.tm1.Some? && a.tm2.value <= a.tm1.value then Fire(a, data, period) else a
  }

  /** The stream after a start at time t0 and n cycles. */
  ghost function Cycled(s: Stream, t0: nat, mem: Memory, buffer: nat, period: nat, n: nat): (r: Stream)
    requires buffer > 0 && Holds(mem, buffer)
    ensures NextPtr(r.ring.ptr, buffer) < buffer
  {
    if n == 0 then Triggered(s.(ring := s.ring.(marks := [])), mem(0), TRIGGER_START, t0).0
    else Cycle(Cycled(s, t0, mem, buffer, period, n - 1), mem(n), period)
  }

  /** When the first timer expires in cycle k. */
  function RiseTime(t0: nat, k: nat): nat {
    t0 + (k + 1) * PERIOD_NS
  }

  /** Cycle k as it should look: one rise and one fall, a duty apart. */
  ghost function Pulse(t0: nat, mem: Memory, buffer: nat, k: nat): seq<Edge>
    requires buffer > 0 && Holds(mem, buffer)
  {
    [Edge(RiseTime(t0, k), true), Edge(RiseTime(t0, k) + PulseNs(Sample(mem, buffer, k)), false)]
  }

  /** Cycles 0 to n - 1. */
  ghost function Pulses(t0: nat, mem: Memory, buffer: nat, n: nat): seq<Edge>
    requires buffer > 0 && Holds(mem, buffer)
  {
    if n == 0 then [] else Pulses(t0, mem, buffer, n - 1) + Pulse(t0, mem, buffer, n - 1)
  }

  /** Sample k is loaded and the next rise is that of cycle c. */
  ghost predicate AtCycle(r: Stream, t0: nat, mem: Memory, buffer: nat, period: nat, k: nat, c: nat)
    requires buffer > 0 && Holds(mem, buffer)
  {
    && r.on && r.tm1 == Some(RiseTime(t0, c)) && r.tm2 == None
    && r.ring == Advanced(NewRing(), buffer, period, k) && r.ring.ptr == RingPlace(k, buffer) &&
        r.duty == PulseNs(Sample(mem, buffer, k))
  }

  /** How many samples have been loaded after n cycles: one a cycle, until a sample of 0 or 255
      is loaded. */
  ghost function Position(mem: Memory, buffer: nat, n: nat): (k: nat)
    requires buffer > 0 && Holds(mem, buffer)
    ensures k <= n && (k < n ==> Extreme(Sample(mem, buffer, k)))
  {
    if n == 0 then 0 else
      var k := Position(mem, buffer, n - 1);
      if Extreme(Sample(mem, buffer, k)) then k else k + 1
  }

  lemma OneCycle(r: Stream, t0: nat, mem: Memory, buffer: nat, period: nat, k: nat, next: nat)
    requires next == k + 1 && buffer > 0 && period > 0 && Holds(mem, buffer) &&
             AtCycle(r, t0, mem, buffer, period, k, k)
    requires NextPtr(r.ring.ptr, buffer) < buffer && !Extreme(Sample(mem, buffer, k))
    ensures var q := Cycle(r, mem(next), period);
            && AtCycle(q, t0, mem, buffer, period, next, next)
            && q.edges == r.edges + Pulse(t0, mem, buffer, k)
  {
    DutyInsideIff(Sample(mem, buffer, k));
    RingCounts(buffer, period, next);
  }

  lemma StalledCycle(r: Stream, t0: nat, mem: Memory, buffer: nat, period: nat, k: nat, c: nat, next: nat)
    requires next == c + 1 && buffer > 0 && period > 0 && Holds(mem, buffer) &&
             AtCycle(r, t0, mem, buffer, period, k, c)
    requires NextPtr(r.ring.ptr, buffer) < buffer && Extreme(Sample(mem, buffer, k))
    ensures var q := Cycle(r, mem(next), period);
            && AtCycle(q, t0, mem, buffer, period, k, next)
            && q.edges == r.edges + if Sample(mem, buffer, k) == 255 then [Edge(RiseTime(t0, c), true)] else []
  {
    DutyInsideIff(Sample(mem, buffer, k));
  }

  lemma NextPosition(r: Stream, t0: nat, mem: Memory, buffer: nat, period: nat, k: nat, c: nat, next: nat)
    requires buffer > 0 && period > 0 && Holds(mem, buffer) && NextPtr(r.ring.ptr, buffer) < buffer
    requires next == c + 1 && k == Position(mem, buffer, c) && AtCycle(r, t0, mem, buffer, period, k, c)
    ensures AtCycle(Cycle(r, mem(next), period), t0, mem, buffer, period, Position(mem, buffer, next), next)
  {
    if Extreme(Sample(mem, buffer, k)) {
      StalledCycle(r, t0, mem, buffer, period, k, c, next);
    } else {
      OneCycle(r, t0, mem, buffer, period, k, next);
    }
  }

  lemma OneCycleMore(s: Stream, t0: nat, mem: Memory, buffer: nat, period: nat, c: nat, n: nat) returns (r: Stream)
    requires buffer > 0 && Holds(mem, buffer) && n == c + 1
    ensures r == Cycled(s, t0, mem, buffer, period, c) && NextPtr(r.ring.ptr, buffer) < buffer
    ensures Cycled(s, t0, mem, buffer, period, n) == Cycle(r, mem(n), period)
  {
    r := Cycled(s, t0, mem, buffer, period, c);
  }

  /** Whatever the samples, after n cycles the stream stands at its position with that sample's
      duty, and stays there once the sample is 0 or 255. */
  lemma {:induction false} PlaysAtPosition(s: Stream, t0: nat, mem: Memory, buffer: nat, period: nat, n: nat)
    requires buffer > 0 && period > 0 && Holds(mem, buffer)
    ensures AtCycle(Cycled(s, t0, mem, buffer, period, n), t0, mem, buffer, period, Position(mem, buffer, n), n)
  {
    if n == 0 {
      RingCounts(buffer, period, 0);
    } else {
      var c := n - 1;
      PlaysAtPosition(s, t0, mem, buffer, period, c);
      var r := OneCycleMore(s, t0, mem, buffer, period, c, n);
      NextPosition(r, t0, mem, buffer, period, Position(mem, buffer, c), c, n);
    }
  }

  /** The stream keeps pace with the timer exactly while no sample was 0 or 255. */
  lemma {:induction false} KeepsPaceIff(mem: Memory, buffer: nat, n: nat)
    requires buffer > 0 && Holds(mem, buffer)
    ensures Position(mem, buffer, n) == n <==> forall j: nat | j < n :: !Extreme(Sample(mem, buffer, j))
  {
    if n == 0 {
    } else {
      KeepsPaceIff(mem, buffer, n - 1);
    }
  }

  /** From its first sample of 0 or 255 on, the position is that sample's for ever. */
  lemma {:induction false} FrozenAt(mem: Memory, buffer: nat, j: nat, n: nat)
    requires buffer > 0 && Holds(mem, buffer) && j <= n
    requires Extreme(Sample(mem, buffer, j)) && forall i: nat | i < j :: !Extreme(Sample(mem, buffer, i))
    ensures Position(mem, buffer, n) == j
    decreases n
  {
    if n == j {
      KeepsPaceIff(mem, buffer, j);
    } else {
      FrozenAt(mem, buffer, j, n - 1);
    }
  }

  lemma NextPulse(r: Stream, edges: seq<Edge>, t0: nat, mem: Memory, buffer: nat, period: nat, k: nat, next: nat)
    requires buffer > 0 && period > 0 && Holds(mem, buffer) && NextPtr(r.ring.ptr, buffer) < buffer
    requires next == k + 1 && AtCycle(r, t0, mem, buffer, period, k, k) && !Extreme(Sample(mem, buffer, k))
    requires r.edges == edges + Pulses(t0, mem, buffer, k)
    ensures Cycle(r, mem(next), period).edges == edges + Pulses(t0, mem, buffer, next)
  {
    OneCycle(r, t0, mem, buffer, period, k, next);
    assert edges + Pulses(t0, mem, buffer, k) + Pulse(t0, mem, buffer, k) ==
           edges + (Pulses(t0, mem, buffer, k) + Pulse(t0, mem, buffer, k));
  }

  /** With no sample of 0 or 255 among the first n, cycle k holds the pin high for the duty
      of sample k, and each rise gets its one fall. */
  lemma {:induction false} PulsesInOrder(s: Stream, t0: nat, mem: Memory, buffer: nat, period: nat, n: nat)
    requires buffer > 0 && period > 0 && Holds(mem, buffer) && forall j: nat | j < n :: !Extreme(Sample(mem, buffer, j))
    ensures Cycled(s, t0, mem, buffer, period, n).edges == s.edges + Pulses(t0, mem, buffer, n)
  {
    if n == 0 {
    } else {
      var k := n - 1;
      PulsesInOrder(s, t0, mem, buffer, period, k);
      KeepsPaceIff(mem, buffer, k);
      PlaysAtPosition(s, t0, mem, buffer, period, k);
      var r := OneCycleMore(s, t0, mem, buffer, period, k, n);
      NextPulse(r, s.edges, t0, mem, buffer, period, k, n);
    }
  }

  /** A fall comes after its rise and before the next one. */
  lemma FallBetweenRises(t0: nat, mem: Memory, buffer: nat, k: nat)
    requires buffer > 0 && Holds(mem, buffer)
    ensures RiseTime(t0, k) < RiseTime(t0, k) + PulseNs(Sample(mem, buffer, k)) < RiseTime(t0, k + 1) <==>
            !Extreme(Sample(mem, buffer, k))
  {
    DutyInsideIff(Sample(mem, buffer, k));
  }

  // ----- Stopping -----

  /** The level that the last write left the pin at. */
  predicate PinHigh(edges: seq<Edge>) {
    edges != [] && edges[|edges| - 1].high
  }

  /** The stream after its timers have fired m times more. */
  ghost function Fired(s: Stream, mem: Memory, buffer: nat, period: nat, m: nat): Stream
    requires buffer > 0 && Holds(mem, buffer)
  {
    if m == 0 then s else Fire(Fired(s, mem, buffer, period, m - 1), mem(m), period)
  }

  lemma {:induction false} StoppedWritesNothing(s: Stream, mem: Memory, buffer: nat, period: nat, m: nat)
    requires buffer > 0 && Holds(mem, buffer) && !s.on
    ensures var r := Fired(s, mem, buffer, period, m);
            !r.on && r.edges == s.edges && r.ring == s.ring && r.duty == s.duty
  {
    if m == 0 {
    } else {
      StoppedWritesNothing(s, mem, buffer, period, m - 1);
    }
  }

  /** The level after a cycle: a pulse ends low, a sample of 255 leaves the pin high, one of 0
      as it was. */
  lemma PinAfterCycle(r: Stream, t0: nat, mem: Memory, buffer: nat, period: nat, k: nat, c: nat, next: nat)
    requires buffer > 0 && period > 0 && Holds(mem, buffer) && NextPtr(r.ring.ptr, buffer) < buffer
    requires next == c + 1 && k == Position(mem, buffer, c) && AtCycle(r, t0, mem, buffer, period, k, c)
    ensures PinHigh(Cycle(r, mem(next), period).edges) <==>
            Sample(mem, buffer, k) == 255 || (Sample(mem, buffer, k) == 0 && PinHigh(r.edges))
  {
    if Extreme(Sample(mem, buffer, k)) {
      StalledCycle(r, t0, mem, buffer, period, k, c, next);
    } else {
      OneCycle(r, t0, mem, buffer, period, k, next);
    }
  }

  /** After n cycles a sample of 255 was loaded, and raised the pin. */
  ghost predicate StalledHigh(mem: Memory, buffer: nat, n: nat)
    requires buffer > 0 && Holds(mem, buffer)
  {
    Position(mem, buffer, n) < n && Sample(mem, buffer, Position(mem, buffer, n)) == 255
  }

  /** The level between two cycles: until a first pulse that of before the start, which a first
      sample of 0 keeps for ever; then low, but on a stall at 255. */
  ghost predicate HighBetween(s: Stream, mem: Memory, buffer: nat, n: nat)
    requires buffer > 0 && Holds(mem, buffer)
  {
    if n == 0 || Sample(mem, buffer, 0) == 0 then PinHigh(s.edges) else StalledHigh(mem, buffer, n)
  }

  lemma {:induction false} StartsAtZero(mem: Memory, buffer: nat, c: nat)
    requires buffer > 0 && Holds(mem, buffer)
    ensures Sample(mem, buffer, 0) == 0 ==> Position(mem, buffer, c) == 0
  {
    if c == 0 {
    } else {
      StartsAtZero(mem, buffer, c - 1);
    }
  }

  lemma HighBetweenNext(s: Stream, mem: Memory, buffer: nat, c: nat, k: nat, next: nat)
    requires buffer > 0 && Holds(mem, buffer) && next == c + 1 && k == Position(mem, buffer, c)
    ensures HighBetween(s, mem, buffer, next) <==>
            Sample(mem, buffer, k) == 255 || (Sample(mem, buffer, k) == 0 && HighBetween(s, mem, buffer, c))
  {
    StartsAtZero(mem, buffer, c);
  }

  /** Between two cycles the pin is at the stated level. */
  lemma {:induction false} PinBetweenCycles(s: Stream, t0: nat, mem: Memory, buffer: nat, period: nat, n: nat)
    requires buffer > 0 && period > 0 && Holds(mem, buffer)
    ensures PinHigh(Cycled(s, t0, mem, buffer, period, n).edges) <==> HighBetween(s, mem, buffer, n)
  {
    if n == 0 {
    } else {
      var c := n - 1;
      var k := Position(mem, buffer, c);
      PinBetweenCycles(s, t0, mem, buffer, period, c);
      PlaysAtPosition(s, t0, mem, buffer, period, c);
      var r := OneCycleMore(s, t0, mem, buffer, period, c, n);
      PinAfterCycle(r, t0, mem, buffer, period, k, c, n);
      HighBetweenNext(s, mem, buffer, c, k, n);
    }
  }

  /** The stream in cycle n: after its first timer fired and before its second, or between
      cycles. */
  ghost function InCycle(s: Stream, t0: nat, mem: Memory, buffer: nat, period: nat, n: nat, raised: bool): Stream
    requires buffer > 0 && Holds(mem, buffer)
  {
    var r := Cycled(s, t0, mem, buffer, period, n);
    if raised then Raised(r, RiseTime(t0, n)) else r
  }

  /** The pin's level there. */
  ghost predicate HighInCycle(s: Stream, mem: Memory, buffer: nat, n: nat, raised: bool)
    requires buffer > 0 && Holds(mem, buffer)
  {
    (raised && Sample(mem, buffer, Position(mem, buffer, n)) != 0) || HighBetween(s, mem, buffer, n)
  }

  lemma PinInCycle(s: Stream, t0: nat, mem: Memory, buffer: nat, period: nat, n: nat, raised: bool)
    requires buffer > 0 && period > 0 && Holds(mem, buffer)
    ensures PinHigh(InCycle(s, t0, mem, buffer, period, n, raised).edges) <==> HighInCycle(s, mem, buffer, n, raised)
  {
    PinBetweenCycles(s, t0, mem, buffer, period, n);
    PlaysAtPosition(s, t0, mem, buffer, period, n);
    DutyInsideIff(Sample(mem, buffer, Position(mem, buffer, n)));
  }

  /** A stop writes nothing and moves neither pointer nor notifications, and neither do the timers
      that still fire after it. It leaves the pin at the level of the moment: high exactly if the
      first timer of the cycle fired and the sample is not 0, or on a stall at 255, or if it was
      high before the start and nothing has been written since. */
  lemma StopLeavesPin(s: Stream, t0: nat, mem: Memory, buffer: nat, period: nat, n: nat, raised: bool, now: nat, m: nat)
    requires buffer > 0 && period > 0 && Holds(mem, buffer)
    ensures var u := InCycle(s, t0, mem, buffer, period, n, raised);
            var stopped := Triggered(u, mem(0), TRIGGER_STOP, now).0;
            && Fired(stopped, mem, buffer, period, m).edges == u.edges
            && Fired(stopped, mem, buffer, period, m).ring == u.ring
            && (PinHigh(Fired(stopped, mem, buffer, period, m).edges) <==> HighInCycle(s, mem, buffer, n, raised))
  {
    var u := InCycle(s, t0, mem, buffer, period, n, raised);
    PinInCycle(s, t0, mem, buffer, period, n, raised);
    StoppedWritesNothing(Triggered(u, mem(0), TRIGGER_STOP, now).0, mem, buffer, period, m);
  }
}
