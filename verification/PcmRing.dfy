/** What the two sound drivers share: trigger commands, the ring position and the period
    counter, and the sample buffer that the player keeps rewriting. */
module PcmRing {
  import opened Words
  import opened RowMajor

  const TRIGGER_STOP: int := 0
  const TRIGGER_START: int := 1
  const EINVAL: int := 22

  /** `data_ptr`, `period_ptr`, and the ring position at each period notification so far. */
  datatype Ring = Ring(ptr: nat, period: nat, marks: seq<nat>)

  function NewRing(): Ring {
    Ring(0, 0, [])
  }

  function NextPtr(ptr: nat, buffer: nat): nat {
    if ptr + 1 >= buffer then 0 else ptr + 1
  }

  /** One sample on: a period that is complete is notified at the new position. */
  function Advance(r: Ring, buffer: nat, period: nat): Ring {
    var ptr := NextPtr(r.ptr, buffer);
    if r.period + 1 >= period then Ring(ptr, 0, r.marks + [ptr]) else Ring(ptr, r.period + 1, r.marks)
  }

  function Advanced(r: Ring, buffer: nat, period: nat, n: nat): Ring {
    if n == 0 then r else Advance(Advanced(r, buffer, period, n - 1), buffer, period)
  }

  /** Place n of a ring. */
  function RingPlace(n: nat, buffer: nat): nat
    requires buffer > 0
  {
    n % buffer
  }

  lemma QuotientIs(n: nat, d: nat, q: nat, r: nat)
    requires d > 0 && n == q * d + r && r < d
    ensures n / d == q && n % d == r
  {
    RowAndColumn(d, q, r);
  }

  /** Counting up by one: the place goes on or wraps to 0, and the count with it. */
  lemma OneOn(n: nat, d: nat)
    requires d > 0
    ensures RingPlace(n + 1, d) == NextPtr(RingPlace(n, d), d)
    ensures Quotient(n + 1, d) == if RingPlace(n, d) + 1 >= d then Quotient(n, d) + 1 else Quotient(n, d)
  {
    var q, r := n / d, n % d;
    if r + 1 >= d {
      Distribute(q, 1, d);
      QuotientIs(n + 1, d, q + 1, 0);
    } else {
      QuotientIs(n + 1, d, q, r + 1);
    }
  }

  /** The j-th notification, if `position` samples were played when it came. */
  predicate MarkedAt(r: Ring, buffer: nat, period: nat, j: nat) {
    j < |r.marks| && buffer > 0 && r.marks[j] == RingPlace((j + 1) * period, buffer)
  }

  /** After n samples the position is n mod the buffer size, n div the period size notifications
      were sent, and the j-th of them when (j + 1) whole periods had been played. */
  lemma {:induction false} RingCounts(buffer: nat, period: nat, n: nat)
    requires buffer > 0 && period > 0
    ensures var r := Advanced(NewRing(), buffer, period, n);
            && r.ptr == RingPlace(n, buffer) && r.period == RingPlace(n, period) && |r.marks| == Quotient(n, period)
            && forall j | 0 <= j < |r.marks| :: MarkedAt(r, buffer, period, j)
  {
    if n == 0 {
      QuotientIs(0, buffer, 0, 0);
      QuotientIs(0, period, 0, 0);
    } else {
      RingCounts(buffer, period, n - 1);
      OneOn(n - 1, buffer);
      OneOn(n - 1, period);
      var before, r := Advanced(NewRing(), buffer, period, n - 1), Advanced(NewRing(), buffer, period, n);
      assert n == Quotient(n, period) * period + RingPlace(n, period);
      forall j | 0 <= j < |r.marks| ensures MarkedAt(r, buffer, period, j) {
        if j < |before.marks| {
          assert MarkedAt(before, buffer, period, j);
        }
      }
    }
  }

  /** Where the period size divides the buffer size, every notification comes at a period
      boundary of the buffer. */
  lemma NotifiedOnBoundaries(buffer: nat, period: nat, periods: nat, n: nat, j: nat)
    requires period > 0 && buffer == periods * period && buffer > 0
    requires j < |Advanced(NewRing(), buffer, period, n).marks|
    ensures exists b: nat :: b < periods && Advanced(NewRing(), buffer, period, n).marks[j] == b * period
  {
    var r := Advanced(NewRing(), buffer, period, n);
    RingCounts(buffer, period, n);
    assert MarkedAt(r, buffer, period, j);
    PlaceOfPeriods(periods, period, j + 1, buffer);
    assert r.marks[j] == RingPlace(j + 1, periods) * period;
  }

  lemma PlaceOfPeriods(periods: nat, period: nat, k: nat, buffer: nat)
    requires period > 0 && periods > 0 && buffer == periods * period && buffer > 0
    ensures RingPlace(k * period, buffer) == RingPlace(k, periods) * period && RingPlace(k, periods) < periods
  {
    var q, b := k / periods, k % periods;
    assert k == q * periods + b;
    Distribute(q * periods, b, period);
    assert (q * periods) * period == q * buffer;
    TimesMonotone(b + 1, periods, period);
    Distribute(b, 1, period);
    QuotientIs(k * period, buffer, q, b * period);
  }

  // ----- The sample buffer -----

  /** The buffer's content in slot k, slot 0 being that of the start. */
  type Memory = nat -> seq<Byte>

  ghost predicate Holds(mem: Memory, buffer: nat) {
    forall k: nat :: |mem(k)| == buffer
  }

  /** The sample to be heard in slot k. */
  ghost function Sample(mem: Memory, buffer: nat, k: nat): Byte
    requires buffer > 0 && Holds(mem, buffer)
  {
    mem(k)[RingPlace(k, buffer)]
  }
}
