/** When the board delivers an interrupt, told by nothing but the writes, the cycles and the checks that
    have happened since power on. */
module DeliveryLaw {
  import opened Words
  import opened Cpu
  import opened Phi

  function PowerOn(): Device {
    Device(false, false, false, false, 0, 0, 0, 0, [])
  }

  // ---- What has been written ----

  datatype Latest = Never | Wrote(v: word)

  /** The last write to a register among the first n events. */
  function LastWrite(es: seq<Event>, n: nat, a: word): Latest
    requires n <= |es|
  {
    if n == 0 then Never
    else if es[n - 1].Poke? && es[n - 1].a == a then Wrote(es[n - 1].v)
    else LastWrite(es, n - 1, a)
  }

  /** The interrupt mask was last written with bit 0 clear. */
  predicate Unmasked(es: seq<Event>, n: nat)
    requires n <= |es|
  {
    var w := LastWrite(es, n, 0x080a_0020);
    w.Wrote? && w.v % 2 == 0
  }

  /** The timer enable register was last written with bit 0 set. */
  predicate TimerOn(es: seq<Event>, n: nat)
    requires n <= |es|
  {
    var w := LastWrite(es, n, 0x080a_002c);
    w.Wrote? && w.v % 2 == 1
  }

  /** The period register as a signed number. */
  function Period(es: seq<Event>, n: nat): int
    requires n <= |es|
  {
    match LastWrite(es, n, 0x080a_0034)
    case Never => 0
    case Wrote(v) => if v < 0x8000_0000 then v else v - 0x1_0000_0000
  }

  // ---- The grid of the timer ----

  function Cycle(es: seq<Event>, n: nat): nat
    requires n <= |es|
  {
    if n == 0 then 0 else Cycle(es, n - 1) + (if es[n - 1].Ticks? then 1 else 0)
  }

  /** The last point before now of the grid through start, at least start. */
  function PointBefore(start: int, period: int, now: int): int {
    if start + period >= now then start
    else if period > 0 then now - 1 - (now - 1 - start) % period
    else now
  }

  /** The grid point passed last: a write with bit 1 set to the timer register starts the grid anew, and a
      check moves on to the last point before it. */
  function GridStart(es: seq<Event>, n: nat): int
    requires n <= |es|
  {
    if n == 0 then 0
    else match es[n - 1]
      case Ticks => GridStart(es, n - 1)
      case Check(mask) => PointBefore(GridStart(es, n - 1), Period(es, n - 1), Cycle(es, n - 1))
      case Poke(a, v) => if a == 0x080a_0030 && v / 2 % 2 == 1 then Cycle(es, n - 1) else GridStart(es, n - 1)
  }

  /** Check j finds that a grid point has been passed. */
  predicate TickFound(es: seq<Event>, j: nat)
    requires j < |es|
  {
    es[j].Check? && GridStart(es, j) + Period(es, j) < Cycle(es, j)
  }

  predicate Acknowledging(e: Event) {
    e.Poke? && e.a == 0x080a_0030 && e.v % 2 == 1
  }

  /** A tick has been found by event n or before, and not acknowledged since. */
  ghost predicate Pending(es: seq<Event>, n: nat)
    requires n < |es|
  {
    exists j :: 0 <= j <= n && TickFound(es, j) && forall k :: j < k <= n ==> !Acknowledging(es[k])
  }

  /** A check that could have delivered has found no tick pending. */
  ghost predicate FoundNothing(es: seq<Event>, j: nat)
    requires j < |es|
  {
    es[j] == Check(false) && Unmasked(es, j) && !Pending(es, j)
  }

  /** Event n is a check that has to deliver an interrupt: unmasked, with the timer enabled, with a tick
      pending, and with a check since every earlier delivery that found nothing pending. */
  ghost predicate Due(es: seq<Event>, n: nat)
    requires n < |es|
    decreases n
  {
    && es[n] == Check(false) && Unmasked(es, n) && TimerOn(es, n) && Pending(es, n)
    && forall i :: 0 <= i < n && Due(es, i) ==> Over(es, i, n)
  }

  /** Between events i and n a check has found nothing pending: the interrupt delivered at i is over. */
  ghost predicate Over(es: seq<Event>, i: nat, n: nat)
    requires n <= |es|
  {
    exists j :: i < j < n && FoundNothing(es, j)
  }

  // ---- The flags of the board ----

  ghost predicate PendingBefore(es: seq<Event>, n: nat)
    requires n <= |es|
  {
    exists j :: 0 <= j < n && TickFound(es, j) && forall k :: j < k < n ==> !Acknowledging(es[k])
  }

  ghost predicate InService(es: seq<Event>, n: nat)
    requires n <= |es|
  {
    exists i :: 0 <= i < n && Due(es, i) && !Over(es, i, n)
  }

  /** The board after n events, field by field. */
  ghost predicate Tells(es: seq<Event>, n: nat, d: Device)
    requires n <= |es|
  {
    && d.interrupt == Unmasked(es, n) && d.timer == TimerOn(es, n) && d.cycles == Cycle(es, n)
    && d.timerInterval == Period(es, n) && d.lastTimer == GridStart(es, n)
    && d.timerPending == PendingBefore(es, n) && d.inInterrupt == InService(es, n)
  }

  lemma SamePoint(start: int, period: int, now: int)
    ensures PointBefore(start, period, now) == GridTime(start, period, now)
  {
    if start + period < now && period > 0 {
      var x := now - start - 1;
      assert x == period * (x / period) + x % period;
    }
  }

  /** What an event does to the pending tick. */
  lemma PendingNext(es: seq<Event>, n: nat)
    requires n < |es|
    ensures PendingBefore(es, n + 1) == Pending(es, n)
    ensures Pending(es, n) <==> TickFound(es, n) || (PendingBefore(es, n) && !Acknowledging(es[n]))
  {
    hide TickFound, Acknowledging;
    if PendingBefore(es, n) && !Acknowledging(es[n]) {
      var j :| 0 <= j < n && TickFound(es, j) && forall k :: j < k < n ==> !Acknowledging(es[k]);
      assert forall k :: j < k <= n ==> !Acknowledging(es[k]);
    }
  }

  lemma OverNext(es: seq<Event>, i: nat, n: nat)
    requires n < |es|
    ensures Over(es, i, n + 1) <==> Over(es, i, n) || (i < n && FoundNothing(es, n))
  {
    hide FoundNothing;
  }

  lemma ServiceNext(es: seq<Event>, n: nat)
    requires n < |es|
    ensures InService(es, n + 1) <==> Due(es, n) || (InService(es, n) && !FoundNothing(es, n))
    ensures (forall i :: 0 <= i < n && Due(es, i) ==> Over(es, i, n)) <==> !InService(es, n)
  {
    hide FoundNothing, Due, Over;
    forall i: nat | i <= n ensures Over(es, i, n + 1) <==> Over(es, i, n) || (i < n && FoundNothing(es, n)) {
      OverNext(es, i, n);
    }
    NotOverYet(es, n);
  }

  lemma NotOverYet(es: seq<Event>, n: nat)
    requires n < |es|
    ensures !Over(es, n, n + 1)
  {
    hide FoundNothing;
  }

  lemma DueNow(es: seq<Event>, n: nat)
    requires n < |es|
    ensures Due(es, n)
       <==> es[n] == Check(false) && Unmasked(es, n) && TimerOn(es, n) && Pending(es, n) && !InService(es, n)
  {
    hide Pending, FoundNothing, Unmasked, TimerOn;
    ServiceNext(es, n);
  }

  lemma CheckTells(es: seq<Event>, n: nat, d: Device)
    requires n < |es| && Tells(es, n, d) && es[n].Check?
    ensures Tells(es, n + 1, Updated(d, es[n])) && (Delivers(d, es[n]) <==> Due(es, n))
  {
    hide Pending, PendingBefore, InService, Due, Unmasked, TimerOn, Cycle, Period;
    SamePoint(d.lastTimer, d.timerInterval, d.cycles);
    PendingNext(es, n);
    ServiceNext(es, n);
    DueNow(es, n);
    Unwritten(es, n);
  }

  lemma Unwritten(es: seq<Event>, n: nat)
    requires n < |es| && !es[n].Poke?
    ensures Unmasked(es, n + 1) == Unmasked(es, n) && TimerOn(es, n + 1) == TimerOn(es, n)
    ensures Period(es, n + 1) == Period(es, n) && (es[n].Check? ==> Cycle(es, n + 1) == Cycle(es, n))
  {
  }

  lemma OtherTells(es: seq<Event>, n: nat, d: Device)
    requires n < |es| && Tells(es, n, d) && !es[n].Check?
    ensures Tells(es, n + 1, Updated(d, es[n])) && !Delivers(d, es[n]) && !Due(es, n)
  {
    hide Pending, PendingBefore, InService, Due, Unmasked, TimerOn, Cycle, Period, GridStart, Updated;
    PendingNext(es, n);
    ServiceNext(es, n);
    DueNow(es, n);
    if es[n].Ticks? {
      TickKeeps(es, n, d);
    } else {
      PokeKeeps(es, n, d);
      PokeFlags(es, n, d);
    }
  }

  lemma TickKeeps(es: seq<Event>, n: nat, d: Device)
    requires n < |es| && es[n].Ticks?
    ensures Updated(d, es[n]) == d.(cycles := d.cycles + 1)
    ensures Unmasked(es, n + 1) == Unmasked(es, n) && TimerOn(es, n + 1) == TimerOn(es, n) && Period(es, n + 1) == Period(es, n)
    ensures Cycle(es, n + 1) == Cycle(es, n) + 1 && GridStart(es, n + 1) == GridStart(es, n)
  {
  }

  lemma PokeKeeps(es: seq<Event>, n: nat, d: Device)
    requires n < |es| && es[n].Poke?
    ensures var a, v, e := es[n].a, es[n].v, Updated(d, es[n]);
      && e.interrupt == (if a == 0x080a_0020 then v % 2 == 0 else d.interrupt)
      && e.timer == (if a == 0x080a_002c then v % 2 == 1 else d.timer)
      && e.timerInterval == (if a == 0x080a_0034 then (if v < 0x8000_0000 then v else v - 0x1_0000_0000) else d.timerInterval)
      && e.lastTimer == (if a == 0x080a_0030 && v / 2 % 2 == 1 then d.cycles else d.lastTimer)
      && e.timerPending == (d.timerPending && !Acknowledging(es[n])) && e.inInterrupt == d.inInterrupt && e.cycles == d.cycles
  {
  }

  lemma PokeFlags(es: seq<Event>, n: nat, d: Device)
    requires n < |es| && es[n].Poke?
    ensures var a, v := es[n].a, es[n].v;
      && Unmasked(es, n + 1) == (if a == 0x080a_0020 then v % 2 == 0 else Unmasked(es, n))
      && TimerOn(es, n + 1) == (if a == 0x080a_002c then v % 2 == 1 else TimerOn(es, n))
      && Period(es, n + 1) == (if a == 0x080a_0034 then (if v < 0x8000_0000 then v else v - 0x1_0000_0000) else Period(es, n))
      && GridStart(es, n + 1) == (if a == 0x080a_0030 && v / 2 % 2 == 1 then Cycle(es, n) else GridStart(es, n))
      && Cycle(es, n + 1) == Cycle(es, n)
  {
  }

  lemma {:induction false} ReachedTells(es: seq<Event>, n: nat)
    requires n <= |es|
    ensures Tells(es, n, Reached(PowerOn(), es, n))
    decreases n
  {
    hide Due, Updated, Tells;
    if n == 0 {
      StartTells(es);
    } else {
      ReachedTells(es, n - 1);
      var d := Reached(PowerOn(), es, n - 1);
      if es[n - 1].Check? {
        CheckTells(es, n - 1, d);
      } else {
        OtherTells(es, n - 1, d);
      }
    }
  }

  lemma StartTells(es: seq<Event>)
    ensures Tells(es, 0, PowerOn())
  {
    hide Due;
  }

  /** In every history of the board since power on an interrupt is delivered exactly when one is due. */
  lemma DeliversExactly(es: seq<Event>, n: nat)
    requires n < |es|
    ensures Delivers(Reached(PowerOn(), es, n), es[n]) <==> Due(es, n)
  {
    hide Due, Updated, Tells, Delivers;
    var d := Reached(PowerOn(), es, n);
    ReachedTells(es, n);
    if es[n].Check? {
      CheckTells(es, n, d);
    } else {
      OtherTells(es, n, d);
    }
  }
}
