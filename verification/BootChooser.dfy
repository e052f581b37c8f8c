/** The boot script: which slot it boots, what it saves, and where repeated boots lead. */
module BootChooser {
  import opened Words

  datatype Slot = A | B

  function OtherSlot(s: Slot): Slot {
    if s.A? then B else A
  }

  /** BOOT_ORDER: empty, "A" or "B", "A B" or "B A" by the slot that comes first, or any
      other text. */
  datatype Order = Empty | Only(slot: Slot) | Both(first: Slot) | Text(text: string)

  /** The variables that `saveenv` keeps from one boot to the next; a counter can be unset. */
  datatype Env = Env(order: Order, aLeft: Option<int>, bLeft: Option<int>)

  datatype Outcome = Booted(slot: Slot) | Reset

  function Left(e: Env, s: Slot): Option<int> {
    if s.A? then e.aLeft else e.bLeft
  }

  function SetLeft(e: Env, s: Slot, n: int): Env {
    if s.A? then e.(aLeft := Some(n)) else e.(bLeft := Some(n))
  }

  /** A counter that is unset or 3 becomes 1. */
  function Normal(n: Option<int>): int {
    if n.None? || n.value == 3 then 1 else n.value
  }

  function PartitionOf(s: Slot): nat {
    if s.A? then 3 else 4
  }

  /** What the script chooses from. */
  function Prepared(e: Env): Env {
    Env(if e.order.Empty? then Only(A) else e.order, Some(Normal(e.aLeft)), Some(Normal(e.bLeft)))
  }

  /** One run of the script on the saved environment: the outcome, and what is saved. */
  function Boot(e: Env): (Outcome, Env) {
    var p := Prepared(e);
    match p.order
    case Only(s) => (Booted(s), p)
    case Both(s) =>
      if Left(p, s).value > 0 then (Booted(s), SetLeft(p, s, Left(p, s).value - 1))
      else (Booted(OtherSlot(s)), p.(order := Only(OtherSlot(s))))
    case _ => (Reset, e)
  }

  /** U-Boot's environment while the script runs. */
  class UBoot {
    var order: Order
    var aLeft: Option<int>
    var bLeft: Option<int>
    var raucSlot: Option<Slot>
    var mmcpart: nat
    var distroBootpart: nat
    var saved: Env

    constructor (e: Env)
      ensures saved == e
    {
      saved := e;
      order, aLeft, bLeft := e.order, e.aLeft, e.bLeft;
      raucSlot, mmcpart, distroBootpart := None, 0, 0;
    }

    method SaveEnv()
      modifies this`saved
      ensures saved == Env(order, aLeft, bLeft)
    {
      saved := Env(order, aLeft, bLeft);
    }

    method Choose(slot: Slot, part: nat)
      modifies this`raucSlot, this`mmcpart
      ensures raucSlot == Some(slot) && mmcpart == part
    {
      raucSlot := Some(slot);
      mmcpart := part;
    }

    /** The first lines: an empty order and the counters. */
    method Prepare()
      requires Env(order, aLeft, bLeft) == saved
      modifies this`order, this`aLeft, this`bLeft, this`saved
      ensures Env(order, aLeft, bLeft) == Prepared(old(saved))
      ensures !old(saved).order.Empty? ==> saved == old(saved)
    {
      if order == Empty {
        order := Only(A);
        SaveEnv();
      }
      if aLeft == None {
        aLeft := Some(1);
      }
      if aLeft == Some(3) {
        aLeft := Some(1);
      }
      if bLeft == None {
        bLeft := Some(1);
      }
      if bLeft == Some(3) {
        bLeft := Some(1);
      }
    }

    /** The choice of a slot. */
    method ChooseSlot()
      requires aLeft.Some? && bLeft.Some? && !order.Empty?
      modifies this`order, this`aLeft, this`bLeft, this`raucSlot, this`mmcpart
      ensures raucSlot.None? <==> old(order).Text?
      ensures raucSlot.None? ==> Env(order, aLeft, bLeft) == old(Env(order, aLeft, bLeft))
      ensures raucSlot.Some? ==> mmcpart == PartitionOf(raucSlot.value)
      ensures old(order).Only? ==> raucSlot == Some(old(order).slot)
      ensures old(order).Only? ==> Env(order, aLeft, bLeft) == old(Env(order, aLeft, bLeft))
      ensures old(order).Both? ==>
                var s, e := old(order).first, old(Env(order, aLeft, bLeft));
                if Left(e, s).value > 0
                then raucSlot == Some(s) && Env(order, aLeft, bLeft) == SetLeft(e, s, Left(e, s).value - 1)
                else raucSlot == Some(OtherSlot(s)) && Env(order, aLeft, bLeft) == e.(order := Only(OtherSlot(s)))
    {
      raucSlot := None;
      assert order.Only? ==> order.slot.A? || order.slot.B?;
      assert order.Both? ==> order.first.A? || order.first.B?;
      if order == Only(A) {
        Choose(A, 3);
      } else if order == Only(B) {
        Choose(B, 4);
      } else if order == Both(A) {
        if aLeft.value > 0 {
          aLeft := Some(aLeft.value - 1);
          Choose(A, 3);
        } else {
          order := Only(B);
          Choose(B, 4);
        }
      } else if order == Both(B) {
        if bLeft.value > 0 {
          bLeft := Some(bLeft.value - 1);
          Choose(B, 4);
        } else {
          order := Only(A);
          Choose(A, 3);
        }
      }
    }

    /** The script up to the saves, from a cold start on the saved environment. A reset loses
        what was not saved. */
    method RunScript() returns (outcome: Outcome)
      modifies this
      ensures (outcome, saved) == Boot(old(saved))
      ensures outcome.Booted? ==> distroBootpart == PartitionOf(outcome.slot) && Env(order, aLeft, bLeft) == saved
      ensures outcome == Booted(A) ==> distroBootpart == 3
      ensures outcome == Booted(B) ==> distroBootpart == 4
    {
      order, aLeft, bLeft := saved.order, saved.aLeft, saved.bLeft;
      Prepare();
      ChooseSlot();
      if raucSlot == None {
        aLeft, bLeft, order := Some(1), Some(1), Only(A);
        return Reset;
      }
      distroBootpart := mmcpart;
      SaveEnv();
      SaveEnv();
      return Booted(raucSlot.value);
    }
  }

  // ----- Repeated boots -----

  /** The saved environment after k boots with no other writer. */
  function After(e: Env, k: nat): Env {
    if k == 0 then e else Boot(After(e, k - 1)).1
  }

  /** The outcome of boot k, the first being boot 0. */
  function Outcomes(e: Env, k: nat): Outcome {
    Boot(After(e, k)).0
  }

  /** How many times a counter's slot is tried. */
  function Tries(n: Option<int>): nat {
    if n.None? then 1 else if n.value <= 0 then 0 else if n.value <= 2 then n.value else n.value - 2
  }

  lemma {:induction false} TriesLeft(e: Env, s: Slot, k: nat)
    requires e.order == Both(s) && k <= Tries(Left(e, s))
    ensures After(e, k).order == Both(s) && Tries(Left(After(e, k), s)) == Tries(Left(e, s)) - k
  {
    if k == 0 {
    } else {
      TriesLeft(e, s, k - 1);
    }
  }

  /** A single-slot order boots that slot for ever. */
  lemma {:induction false} SingleOrderIsPermanent(e: Env, s: Slot, k: nat)
    requires e.order == Only(s)
    ensures After(e, k).order == Only(s) && Outcomes(e, k) == Booted(s)
  {
    if k == 0 {
    } else {
      SingleOrderIsPermanent(e, s, k - 1);
    }
  }

  lemma {:induction false} AfterMore(e: Env, a: nat, b: nat)
    ensures After(e, a + b) == After(After(e, a), b)
  {
    if b == 0 {
    } else {
      AfterMore(e, a, b - 1);
    }
  }

  /** From an order of both slots, boot k boots the first slot exactly while tries are left:
      n times for a counter n up to 2, n - 2 times from 3, once if it is unset. Then the other
      slot boots for ever. */
  lemma FallbackAfterTries(e: Env, s: Slot, k: nat)
    requires e.order == Both(s)
    ensures Outcomes(e, k) == Booted(if k < Tries(Left(e, s)) then s else OtherSlot(s))
    ensures After(e, k).order == if k <= Tries(Left(e, s)) then Both(s) else Only(OtherSlot(s))
  {
    var n := Tries(Left(e, s));
    if k <= n {
      TriesLeft(e, s, k);
    } else {
      TriesLeft(e, s, n);
      AfterMore(e, n, 1);
      AfterMore(e, n + 1, k - n - 1);
      SingleOrderIsPermanent(After(e, n + 1), OtherSlot(s), k - n - 1);
    }
  }

  /** A fresh environment boots slot A for ever, and has order "A" saved from its first boot on. */
  lemma FreshEnvironmentBootsA(e: Env, k: nat)
    requires e.order.Empty?
    ensures Outcomes(e, k) == Booted(A) && After(e, k + 1).order == Only(A)
  {
    AfterMore(e, 1, k);
    SingleOrderIsPermanent(After(e, 1), A, k);
    if k > 0 {
      AfterMore(e, 1, k - 1);
      SingleOrderIsPermanent(After(e, 1), A, k - 1);
    }
  }

  /** The two slots by name: with BOOT_ORDER "A B" it is BOOT_A_LEFT alone that counts, with "B A"
      BOOT_B_LEFT. */
  lemma EachOrderHasItsCounter(a: Option<int>, b: Option<int>, k: nat)
    ensures Outcomes(Env(Both(A), a, b), k) == if k < Tries(a) then Booted(A) else Booted(B)
    ensures Outcomes(Env(Both(B), a, b), k) == if k < Tries(b) then Booted(B) else Booted(A)
  {
    FallbackAfterTries(Env(Both(A), a, b), A, k);
    FallbackAfterTries(Env(Both(B), a, b), B, k);
  }

  /** The other slot's counter is what the first boot read it as, 1 if it was unset or 3, and stays
      so through every try and through the fallback. */
  lemma {:induction false} OtherCounterStays(e: Env, s: Slot, k: nat)
    requires e.order == Both(s) && k > 0
    ensures var o := Left(e, OtherSlot(s));
            Left(After(e, k), OtherSlot(s)) == Some(if o == None || o == Some(3) then 1 else o.value)
  {
    FallbackAfterTries(e, s, k - 1);
    if k > 1 {
      OtherCounterStays(e, s, k - 1);
    }
  }

  /** A try of a slot takes one from its own counter, and leaves the other's as it was read. */
  lemma TriesTakeFromOwnCounter(a: int, b: int)
    requires a > 0 && b > 0 && a != 3 && b != 3
    ensures Boot(Env(Both(A), Some(a), Some(b))).1 == Env(Both(A), Some(a - 1), Some(b))
    ensures Boot(Env(Both(B), Some(a), Some(b))).1 == Env(Both(B), Some(a), Some(b - 1))
  {
  }

  /** The script boots exactly from the orders it knows; from any other text it resets with
      the saved environment as it was, and so for ever. */
  lemma {:induction false} BootsIff(e: Env, k: nat)
    ensures Outcomes(e, k).Booted? <==> !e.order.Text?
    ensures e.order.Text? ==> After(e, k) == e
  {
    if k == 0 {
    } else {
      BootsIff(e, k - 1);
    }
    OrdersStayKnown(e, k);
  }

  lemma {:induction false} OrdersStayKnown(e: Env, k: nat)
    ensures After(e, k).order.Text? <==> e.order.Text?
  {
    if k == 0 {
    } else {
      OrdersStayKnown(e, k - 1);
    }
  }

  // ----- With the updater -----

  /** A boot, or what the updater writes: an install makes a slot the first of two with
      counter 3, mark-good sets its counter to 3. */
  datatype Event = PowerOn | Install(slot: Slot) | MarkGood(slot: Slot)

  function Apply(e: Env, ev: Event): Env {
    match ev
    case PowerOn => Boot(e).1
    case Install(s) => SetLeft(e.(order := Both(s)), s, 3)
    case MarkGood(s) => SetLeft(e, s, 3)
  }

  function Run(e: Env, evs: seq<Event>): Env {
    if evs == [] then e else Apply(Run(e, evs[..|evs| - 1]), evs[|evs| - 1])
  }

  lemma {:induction false} RunConcat(e: Env, a: seq<Event>, b: seq<Event>)
    ensures Run(e, a + b) == Run(Run(e, a), b)
  {
    if b == [] {
      assert a + b == a;
    } else {
      assert (a + b)[..|a + b| - 1] == a + b[..|b| - 1];
      RunConcat(e, a, b[..|b| - 1]);
    }
  }

  function Boots(evs: seq<Event>): nat {
    if evs == [] then 0 else Boots(evs[..|evs| - 1]) + if evs[|evs| - 1].PowerOn? then 1 else 0
  }

  /** Nothing is installed and the slot is not marked good; the other slot may be. */
  predicate NeverGood(evs: seq<Event>, s: Slot) {
    forall ev | ev in evs :: !ev.Install? && ev != MarkGood(s)
  }

  /** What the updater's order and counter have come to after n boots of an unconfirmed slot. */
  predicate Trying(e: Env, s: Slot, n: nat) {
    if n == 0 then e.order == Both(s) && Left(e, s) == Some(3)
    else if n == 1 then e.order == Both(s) && Left(e, s) == Some(0)
    else e.order == Only(OtherSlot(s))
  }

  lemma {:induction false} TryingRun(e: Env, evs: seq<Event>, s: Slot)
    requires NeverGood(evs, s)
    ensures Trying(Run(Apply(e, Install(s)), evs), s, Boots(evs))
  {
    if evs == [] {
    } else {
      TryingRun(e, evs[..|evs| - 1], s);
      assert evs[|evs| - 1] in evs;
    }
  }

  /** After its install a slot that never marks itself good is booted once, and then the other
      one for ever, however often the other one is marked good in between. */
  lemma NeverGoodIsTriedOnce(e: Env, evs: seq<Event>, s: Slot)
    requires NeverGood(evs, s)
    ensures Boot(Run(Apply(e, Install(s)), evs)).0 == Booted(if Boots(evs) == 0 then s else OtherSlot(s))
  {
    TryingRun(e, evs, s);
  }

  /** How many boots the slot has left: the tries of its counter at first, one after each
      mark-good or install of it, one less after each boot. */
  function Budget(e: Env, evs: seq<Event>, s: Slot): nat {
    if evs == [] then Tries(Left(e, s)) else
      var before, last := Budget(e, evs[..|evs| - 1], s), evs[|evs| - 1];
      if last == MarkGood(s) || last == Install(s) then 1
      else if last.PowerOn? && before > 0 then before - 1
      else before
  }

  /** Every boot finds budget left. */
  predicate InBudget(e: Env, evs: seq<Event>, s: Slot) {
    evs == [] ||
    var front, last := evs[..|evs| - 1], evs[|evs| - 1];
    InBudget(e, front, s) && (last.PowerOn? ==> Budget(e, front, s) > 0)
  }

  /** Every boot of the run boots the slot. */
  predicate EveryBootIs(e: Env, evs: seq<Event>, s: Slot) {
    evs == [] ||
    var front, last := evs[..|evs| - 1], evs[|evs| - 1];
    EveryBootIs(e, front, s) && (last.PowerOn? ==> Boot(Run(e, front)).0 == Booted(s))
  }

  lemma {:induction false} BudgetIsTries(e: Env, evs: seq<Event>, s: Slot)
    requires e.order == Both(s) && Install(OtherSlot(s)) !in evs
    ensures EveryBootIs(e, evs, s) <==> InBudget(e, evs, s)
    ensures InBudget(e, evs, s) ==> Run(e, evs).order == Both(s) && Tries(Left(Run(e, evs), s)) == Budget(e, evs, s)
  {
    if evs == [] {
    } else {
      assert evs[|evs| - 1] in evs;
      BudgetIsTries(e, evs[..|evs| - 1], s);
    }
  }

  /** The first of two slots is booted at every boot exactly as long as its budget lasts, in
      every run that does not install the other one. */
  lemma KeptIffInBudget(e: Env, evs: seq<Event>, s: Slot)
    requires e.order == Both(s) && Install(OtherSlot(s)) !in evs
    ensures EveryBootIs(e, evs, s) <==> InBudget(e, evs, s)
  {
    BudgetIsTries(e, evs, s);
  }

  /** Since the last boot the slot was installed or marked good. */
  predicate ConfirmedSinceBoot(evs: seq<Event>, s: Slot) {
    evs != [] &&
    var last := evs[|evs| - 1];
    last == MarkGood(s) || last == Install(s) || (!last.PowerOn? && ConfirmedSinceBoot(evs[..|evs| - 1], s))
  }

  /** The slot is marked good, or installed anew, between each boot and the next. */
  predicate GoodAfterEachBoot(evs: seq<Event>, s: Slot) {
    evs == [] ||
    var front, last := evs[..|evs| - 1], evs[|evs| - 1];
    GoodAfterEachBoot(front, s) && (last.PowerOn? ==> Boots(front) == 0 || ConfirmedSinceBoot(front, s))
  }

  lemma {:induction false} GoodKeepsBudget(e: Env, evs: seq<Event>, s: Slot)
    requires Tries(Left(e, s)) > 0 && GoodAfterEachBoot(evs, s)
    ensures InBudget(e, evs, s) && (Boots(evs) == 0 || ConfirmedSinceBoot(evs, s) ==> Budget(e, evs, s) > 0)
  {
    if evs == [] {
    } else {
      GoodKeepsBudget(e, evs[..|evs| - 1], s);
    }
  }

  /** A slot that has a try left and marks itself good after each boot is never abandoned, as
      long as the other one is not installed. */
  lemma GoodSlotIsKept(e: Env, evs: seq<Event>, s: Slot)
    requires e.order == Both(s) && Tries(Left(e, s)) > 0 && Install(OtherSlot(s)) !in evs
    requires GoodAfterEachBoot(evs, s)
    ensures EveryBootIs(e, evs, s) && Run(e, evs).order == Both(s)
  {
    GoodKeepsBudget(e, evs, s);
    BudgetIsTries(e, evs, s);
  }

  /** Mark-good buys one boot, not three: the script reads a counter of 3 as 1. The next boot
      that is not confirmed is the slot's last. */
  lemma MarkGoodBuysOneBoot(e: Env, s: Slot, k: nat)
    requires e.order == Both(s)
    ensures Outcomes(Apply(e, MarkGood(s)), k) == Booted(if k == 0 then s else OtherSlot(s))
  {
    FallbackAfterTries(Apply(e, MarkGood(s)), s, k);
  }

  /** Once fallen back, only an install brings the other slot back, whatever is marked good. */
  lemma {:induction false} FallbackLastsUntilInstall(e: Env, evs: seq<Event>, s: Slot)
    requires e.order == Only(s) && forall i | 0 <= i < |evs| :: !evs[i].Install?
    ensures Run(e, evs).order == Only(s) && Boot(Run(e, evs)).0 == Booted(s)
  {
    if evs == [] {
    } else {
      FallbackLastsUntilInstall(e, evs[..|evs| - 1], s);
    }
  }
}
