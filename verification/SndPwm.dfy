/** The hardware-PWM sound driver: one timer, one sample a tick. */
module SndPwm {
  import opened Words
  import opened RowMajor
  import opened PcmRing

  const PWM_PERIOD: nat := 15625

  /** The duty in nanoseconds for a sample, in the 32-bit arithmetic of the driver. */
  function Duty(b: Byte): nat {
    ToU32(b * PWM_PERIOD) / 255
  }

  /** No 32-bit overflow, and never more than the period. */
  lemma DutyFits(b: Byte)
    ensures b * 15625 < 0x1_0000_0000
    ensures 255 * Duty(b) <= b * 15625 < 255 * Duty(b) + 255
    ensures Duty(b) <= 15625
  {
  }

  /** The driver's stream: ring counters, the running flag, the duty it holds and the duty
      that the PWM was configured with. */
  datatype Stream = Pcm(ring: Ring, on: bool, duty: nat, pwm: nat)

  /** `picocalc_pcm_trigger`. */
  function Triggered(s: Stream, data: seq<Byte>, cmd: int): (Stream, int)
    requires data != []
  {
    if cmd == TRIGGER_START then (Pcm(s.ring.(ptr := 0, period := 0), true, Duty(data[0]), Duty(data[0])), 0)
    else if cmd == TRIGGER_STOP then (if s.on then s.(on := false, duty := 0) else s, 0)
    else (s, -EINVAL)
  }

  /** `cb1`: a stopped stream lets its timer lapse. */
  function Ticked(s: Stream, data: seq<Byte>, period: nat): Stream
    requires NextPtr(s.ring.ptr, |data|) < |data|
  {
    if !s.on then s else
      var r := Advance(s.ring, |data|, period);
      Pcm(r, true, Duty(data[r.ptr]), Duty(data[r.ptr]))
  }

  class Device {
    const dmaArea: array<Byte>
    const periodSize: nat
    var dataPtr: nat
    var periodPtr: nat
    var isOn: bool
    var dutyCycleNs: nat
    var pwmDuty: nat
    var marks: seq<nat>

    ghost predicate Valid() {
      dmaArea.Length > 0 && periodSize > 0
    }

    ghost function State(): Stream
      reads this
    {
      Pcm(Ring(dataPtr, periodPtr, marks), isOn, dutyCycleNs, pwmDuty)
    }

    constructor (dmaArea: array<Byte>, periodSize: nat)
      requires dmaArea.Length > 0 && periodSize > 0
      ensures Valid() && this.dmaArea == dmaArea && this.periodSize == periodSize
      ensures State() == Pcm(NewRing(), false, 0, 0)
    {
      this.dmaArea, this.periodSize := dmaArea, periodSize;
      dataPtr, periodPtr, isOn, dutyCycleNs, pwmDuty, marks := 0, 0, false, 0, 0, [];
    }

    method Trigger(cmd: int) returns (ret: int)
      requires Valid()
      modifies this
      ensures (State(), ret) == Triggered(old(State()), old(dmaArea[..]), cmd)
    {
      ret := 0;
      if cmd == TRIGGER_START {
        dutyCycleNs := ToU32(dmaArea[0] * PWM_PERIOD) / 255;
        dataPtr := 0;
        periodPtr := 0;
        pwmDuty := dutyCycleNs;
        isOn := true;
      } else if cmd == TRIGGER_STOP {
        if isOn {
          isOn := false;
          dutyCycleNs := 0;
        }
      } else {
        ret := -EINVAL;
      }
    }

    /** Returns whether the timer runs on. */
    method Cb1() returns (restart: bool)
      requires Valid()
      modifies this
      ensures State() == Ticked(old(State()), old(dmaArea[..]), periodSize) && (restart <==> old(isOn))
    {
      if !isOn {
        return false;
      }
      dataPtr := dataPtr + 1;
      if dataPtr >= dmaArea.Length {
        dataPtr := 0;
      }
      dutyCycleNs := ToU32(dmaArea[dataPtr] * PWM_PERIOD) / 255;
      pwmDuty := dutyCycleNs;
      periodPtr := periodPtr + 1;
      if periodPtr >= periodSize {
        periodPtr := 0;
        marks := marks + [dataPtr];
      }
      return true;
    }

    method Pointer() returns (ptr: nat)
      ensures ptr == State().ring.ptr
    {
      return dataPtr;
    }
  }

  // ----- Playing -----

  /** The stream after a start and n ticks. */
  ghost function Played(s: Stream, mem: Memory, buffer: nat, period: nat, n: nat): (r: Stream)
    requires buffer > 0 && Holds(mem, buffer)
    ensures NextPtr(r.ring.ptr, buffer) < buffer
  {
    if n == 0 then Triggered(s.(ring := s.ring.(marks := [])), mem(0), TRIGGER_START).0
    else Ticked(Played(s, mem, buffer, period, n - 1), mem(n), period)
  }

  /** After a start and n ticks, whatever state the start found: the reported pointer is n mod
      the buffer size, n div the period size notifications were sent, and the PWM plays the
      sample that the buffer holds there. */
  lemma {:induction false} PlaysInOrder(s: Stream, mem: Memory, buffer: nat, period: nat, n: nat)
    requires buffer > 0 && period > 0 && Holds(mem, buffer)
    ensures var r := Played(s, mem, buffer, period, n);
            && r.on && r.ring == Advanced(NewRing(), buffer, period, n)
            && r.ring.ptr == RingPlace(n, buffer) && |r.ring.marks| == Quotient(n, period)
            && r.pwm == r.duty == Duty(Sample(mem, buffer, n))
  {
    RingCounts(buffer, period, n);
    if n == 0 {
      QuotientIs(0, buffer, 0, 0);
    } else {
      PlaysInOrder(s, mem, buffer, period, n - 1);
    }
  }

  // ----- Stopping -----

  /** The stream after n ticks more. */
  ghost function TickedOn(s: Stream, mem: Memory, buffer: nat, period: nat, n: nat): Stream
    requires buffer > 0 && Holds(mem, buffer)
  {
    if n == 0 then s else Ticked(TickedOn(s, mem, buffer, period, n - 1), mem(n), period)
  }

  /** After a stop, a tick that still comes does not restart the timer, and any number of them
      leaves pointer, notifications and the PWM's duty as the stop found them. */
  lemma {:induction false} StopFreezes(s: Stream, data: seq<Byte>, mem: Memory, buffer: nat, period: nat, n: nat)
    requires buffer > 0 && Holds(mem, buffer) && data != []
    ensures var r := TickedOn(Triggered(s, data, TRIGGER_STOP).0, mem, buffer, period, n);
            !r.on && r.ring == s.ring && r.pwm == s.pwm && (s.on ==> r.duty == 0)
  {
    if n == 0 {
    } else {
      StopFreezes(s, data, mem, buffer, period, n - 1);
    }
  }

  // ----- Accumulated duty -----

  ghost function SampleSum(mem: Memory, buffer: nat, n: nat): nat
    requires buffer > 0 && Holds(mem, buffer)
  {
    if n == 0 then 0 else SampleSum(mem, buffer, n - 1) + Sample(mem, buffer, n - 1)
  }

  /** The summed duty of the first n slots, as the PWM was configured. */
  ghost function DutySum(s: Stream, mem: Memory, buffer: nat, period: nat, n: nat): nat
    requires buffer > 0 && Holds(mem, buffer)
  {
    if n == 0 then 0 else DutySum(s, mem, buffer, period, n - 1) + Played(s, mem, buffer, period, n - 1).pwm
  }

  /** Over any n samples the summed duty is never above 15625/255 of the summed samples, and
      short of it by less than n nanoseconds. */
  lemma {:induction false} AccumulatedDuty(s: Stream, mem: Memory, buffer: nat, period: nat, n: nat)
    requires buffer > 0 && period > 0 && Holds(mem, buffer)
    ensures 255 * DutySum(s, mem, buffer, period, n) <= 15625 * SampleSum(mem, buffer, n)
    ensures n > 0 ==> 15625 * SampleSum(mem, buffer, n) < 255 * (DutySum(s, mem, buffer, period, n) + n)
  {
    if n == 0 {
    } else {
      AccumulatedDuty(s, mem, buffer, period, n - 1);
      PlaysInOrder(s, mem, buffer, period, n - 1);
      DutyFits(Sample(mem, buffer, n - 1));
    }
  }
}
