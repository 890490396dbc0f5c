/** The interrupt and timer registers of the Phi board, the timer catch-up loop, interrupt
    delivery, and the operating system's clock driver on top of them. */
module Phi {
  import opened Words
  import opened Cpu

  const UART_DATA: word := 0x080a_000c
  const SAMPLE_LOW: word := 0x080a_0014
  const SAMPLE_HIGH: word := 0x080a_0018
  const INTERRUPT_MASK: word := 0x080a_0020
  const TIMER_ENABLE: word := 0x080a_002c
  const TIMER_INTERRUPT: word := 0x080a_0030
  const TIMER_PERIOD: word := 0x080a_0034
  const TIMER_COUNTER: word := 0x080a_0038

  /** The register state as a value. */
  datatype Device = Device(interrupt: bool, timer: bool, timerPending: bool, inInterrupt: bool,
                           lastTimer: int, timerInterval: int, cycles: int, sampledCycle: int, output: seq<word>)

  datatype Status = Fine | Raised(f: Fault)

  /** Java's `%`: the remainder has the sign of the dividend. */
  function JavaRemainder(x: int, y: int): int
    requires y != 0
  {
    x - y * Quotient(x, y)
  }

  function DeviceRead(d: Device, a: word): Access<word> {
    if a == INTERRUPT_MASK then Got(if d.interrupt then 0 else 1)
    else if a == UART_DATA then Got(0x100)
    else if a == SAMPLE_LOW then Got(Wrap(d.sampledCycle))
    else if a == SAMPLE_HIGH then Got(Wrap(d.sampledCycle / M))
    else if a == TIMER_INTERRUPT then Got(if d.timerPending then 1 else 0)
    else if a == TIMER_COUNTER then
      if d.timerInterval == 0 then Bad(DivideByZero)
      else Got(Wrap(d.timerInterval - 1 - JavaRemainder(d.cycles - d.lastTimer, d.timerInterval)))
    else Bad(MemoryAccess)
  }

  function DeviceWrite(d: Device, a: word, v: word): Access<Device> {
    if a == INTERRUPT_MASK then Got(d.(interrupt := v % 2 == 0))
    else if a == TIMER_ENABLE then Got(d.(timer := v % 2 != 0))
    else if a == TIMER_INTERRUPT then
      Got(d.(timerPending := d.timerPending && v % 2 == 0, lastTimer := if v / 2 % 2 != 0 then d.cycles else d.lastTimer))
    else if a == TIMER_PERIOD then Got(d.(timerInterval := Signed(v)))
    else if a == SAMPLE_LOW then
      Got(d.(sampledCycle := if v / 2 % 2 != 0 then d.cycles + 3 else d.sampledCycle, output := d.output + [v]))
    else if a == UART_DATA then Got(d.(output := d.output + [v]))
    else Bad(MemoryAccess)
  }

  // ---- The timer ----

  /** The last point of the grid start, start + interval, ... before now, or start; for an
      interval that is not positive, now. */
  function GridTime(start: int, interval: int, now: int): int {
    if start + interval >= now then start
    else if interval > 0 then start + interval * ((now - start - 1) / interval)
    else now
  }

  function Caught(d: Device): Device {
    d.(lastTimer := GridTime(d.lastTimer, d.timerInterval, d.cycles),
       timerPending := d.timerPending || d.lastTimer + d.timerInterval < d.cycles)
  }

  /** Catching up stays on the grid and ends less than or exactly one interval behind. */
  lemma GridBounds(start: int, interval: int, now: int) returns (k: nat)
    requires interval > 0 && start <= now
    ensures GridTime(start, interval, now) == start + k * interval
    ensures 0 <= now - GridTime(start, interval, now) <= interval
    ensures k > 0 <==> start + interval < now
  {
    if start + interval >= now {
      k := 0;
    } else {
      k := (now - start - 1) / interval;
      MulBound(interval, k);
      MulBound(interval, k - 1);
    }
  }

  /** One turn of the loop moves along the grid to the same end. */
  lemma GridStep(start: int, interval: int, now: int)
    requires start + interval < now
    ensures interval > 0 ==> GridTime(start + interval, interval, now) == GridTime(start, interval, now)
    ensures interval == 0 ==> GridTime(now, interval, now) == GridTime(start, interval, now)
  {
    if interval > 0 {
      var x := now - start - 1;
      DivModUnique(x - interval, interval, x / interval - 1, x % interval);
      if start + interval + interval >= now {
        DivModUnique(x, interval, 1, x - interval);
      }
    }
  }

  /** The catch-up loop ends from here. */
  predicate LoopEnds(d: Device) {
    d.timerInterval >= 0 || d.lastTimer + d.timerInterval >= d.cycles
  }

  /** lastTimer after k turns of the catch-up loop. */
  function Stepped(start: int, interval: int, now: int, k: nat): int {
    if k == 0 then start
    else
      var t := Stepped(start, interval, now, k - 1);
      if t + interval >= now then t else if interval > 0 then t + interval else now
  }

  /** Otherwise it never does: after any number of turns the guard of the loop still holds. */
  lemma {:induction false} NegativeIntervalSpins(d: Device, k: nat)
    requires !LoopEnds(d)
    ensures Stepped(d.lastTimer, d.timerInterval, d.cycles, k) + d.timerInterval < d.cycles
    decreases k
  {
    if k > 0 {
      NegativeIntervalSpins(d, k - 1);
    }
  }

  /** checkInterrupts: the state afterwards, and whether an interrupt is delivered. */
  function Checked(d: Device, decodeMask: bool): (Device, bool) {
    var e := Caught(d);
    if !e.interrupt || decodeMask then (e, false)
    else
      var f := e.(inInterrupt := e.inInterrupt && e.timerPending);
      if !f.inInterrupt && f.timer && f.timerPending then (f.(inInterrupt := true), true) else (f, false)
  }

  /** The timer was last restarted or caught up in the past. */
  predicate Timely(d: Device) {
    d.lastTimer <= d.cycles
  }

  lemma CheckedTimely(d: Device, mask: bool)
    requires Timely(d)
    ensures Timely(Checked(d, mask).0) && Checked(d, mask).0.cycles == d.cycles
  {
    if d.timerInterval > 0 {
      var k := GridBounds(d.lastTimer, d.timerInterval, d.cycles);
    }
  }

  lemma DeliversUnmasked(d: Device, mask: bool)
    ensures Checked(d, mask).1 ==> !mask && d.interrupt && d.timer
  {
  }

  class Board {
    var interrupt: bool
    var timer: bool
    var timerPending: bool
    var inInterrupt: bool
    var lastTimer: int
    var timerInterval: int
    var cycles: int
    var sampledCycle: int
    var output: seq<word>

    ghost function View(): Device
      reads this
    {
      Device(interrupt, timer, timerPending, inInterrupt, lastTimer, timerInterval, cycles, sampledCycle, output)
    }

    constructor ()
      ensures View() == Device(false, false, false, false, 0, 0, 0, 0, [])
    {
      interrupt, timer, timerPending, inInterrupt := false, false, false, false;
      lastTimer, timerInterval, cycles, sampledCycle, output := 0, 0, 0, 0, [];
    }

    method IoRead(a: word) returns (r: Access<word>)
      ensures r == DeviceRead(View(), a)
    {
      if a == INTERRUPT_MASK {
        r := Got(if interrupt then 0 else 1);
      } else if a == UART_DATA {
        r := Got(0x100);
      } else if a == SAMPLE_LOW {
        r := Got(Wrap(sampledCycle));
      } else if a == SAMPLE_HIGH {
        r := Got(Wrap(sampledCycle / M));
      } else if a == TIMER_INTERRUPT {
        r := Got(if timerPending then 1 else 0);
      } else if a == TIMER_COUNTER {
        if timerInterval == 0 {
          r := Bad(DivideByZero);
        } else {
          r := Got(Wrap(timerInterval - 1 - JavaRemainder(cycles - lastTimer, timerInterval)));
        }
      } else {
        r := Bad(MemoryAccess);
      }
    }

    method IoWrite(a: word, v: word) returns (s: Status)
      modifies this
      ensures match DeviceWrite(old(View()), a, v)
              case Got(d) => s == Fine && View() == d
              case Bad(f) => s == Raised(f) && View() == old(View())
    {
      s := Fine;
      if a == INTERRUPT_MASK {
        interrupt := v % 2 == 0;
      } else if a == TIMER_ENABLE {
        timer := v % 2 != 0;
      } else if a == TIMER_INTERRUPT {
        if v % 2 != 0 {
          timerPending := false;
        }
        if v / 2 % 2 != 0 {
          lastTimer := cycles;
        }
      } else if a == TIMER_PERIOD {
        timerInterval := Signed(v);
      } else if a == SAMPLE_LOW || a == UART_DATA {
        if a == SAMPLE_LOW && v / 2 % 2 != 0 {
          sampledCycle := cycles + 3;
        }
        output := output + [v];
      } else {
        s := Raised(MemoryAccess);
      }
    }

    method Tick()
      modifies this`cycles
      ensures cycles == old(cycles) + 1
    {
      cycles := cycles + 1;
    }

    /** The loop that advances lastTimer, whenever it ends. */
    method CatchUp()
      requires LoopEnds(View())
      modifies this`lastTimer, this`timerPending
      ensures View() == Caught(old(View()))
    {
      while lastTimer + timerInterval < cycles
        invariant GridTime(lastTimer, timerInterval, cycles) == GridTime(old(lastTimer), timerInterval, cycles)
        invariant timerPending == (old(timerPending) || lastTimer != old(lastTimer))
        invariant lastTimer != old(lastTimer) ==> old(lastTimer) + timerInterval < cycles
        invariant lastTimer >= old(lastTimer) && (timerInterval >= 0 || lastTimer == old(lastTimer))
        decreases cycles - lastTimer
      {
        GridStep(lastTimer, timerInterval, cycles);
        if timerInterval > 0 {
          lastTimer := lastTimer + timerInterval;
        } else {
          lastTimer := cycles;
        }
        timerPending := true;
      }
    }

    method CheckInterrupts(decodeMask: bool) returns (deliver: bool)
      requires LoopEnds(View())
      modifies this`lastTimer, this`timerPending, this`inInterrupt
      ensures (View(), deliver) == Checked(old(View()), decodeMask)
    {
      CatchUp();
      deliver := false;
      if !interrupt || decodeMask {
        return;
      }
      if !timerPending {
        inInterrupt := false;
      }
      if inInterrupt {
        return;
      }
      if timer && timerPending {
        inInterrupt := true;
        deliver := true;
      }
    }
  }

  // ---- The clock driver ----

  class Clock {
    const board: Board
    var period: word

    constructor (b: Board)
      ensures board == b
    {
      board := b;
    }

    /** The timer runs with the period that was set. */
    ghost predicate Valid()
      reads this, board
    {
      board.timerInterval == Signed(period) && Timely(board.View())
    }

    /** hal_clock_initialize. */
    method Initialize(p: word)
      modifies this, board
      ensures period == p && Valid()
      ensures board.timerInterval == Signed(p) && board.lastTimer == board.cycles == old(board.cycles)
    {
      period := p;
      var s := board.IoWrite(TIMER_PERIOD, p);
      s := board.IoWrite(TIMER_INTERRUPT, 2);
    }

    /** hal_clock_read: the cycles since the last tick of the grid.  A period of 2^31 or more is a negative
        interval to the board, and without a period the register cannot be read. */
    method Read() returns (r: Access<word>)
      requires Valid()
      ensures period == 0 ==> r.Bad?
      ensures 0 < period < 0x8000_0000 ==> r == Got((board.cycles - board.lastTimer) % period)
      ensures period >= 0x8000_0000 ==> r == Got((board.cycles - board.lastTimer) % (M - period))
    {
      r := board.IoRead(TIMER_COUNTER);
      if r.Got? {
        CounterValue(board.cycles - board.lastTimer, period);
        r := Got(Wrap(period - 1 - r.t));
      }
    }
  }

  /** The counter register counts down from period - 1. */
  lemma CounterValue(x: nat, p: word)
    requires p > 0
    ensures var q := if p < 0x8000_0000 then p else M - p;
      JavaRemainder(x, Signed(p)) == x % q && Wrap(p - 1 - Wrap(Signed(p) - 1 - x % q)) == x % q
  {
    hide Wrap;
    var q := if p < 0x8000_0000 then p else M - p;
    CountsBack(p, x % q);
  }

  lemma CountsBack(p: word, x: word)
    ensures Wrap(p - 1 - Wrap(Signed(p) - 1 - x)) == x
  {
  }

  // ---- Interrupt delivery over whole runs ----

  datatype Event = Ticks | Check(decodeMask: bool) | Poke(a: word, v: word)

  function Updated(d: Device, e: Event): Device {
    match e
    case Ticks => d.(cycles := d.cycles + 1)
    case Check(mask) => Checked(d, mask).0
    case Poke(a, v) => match DeviceWrite(d, a, v) case Got(d') => d' case Bad(f) => d
  }

  predicate Delivers(d: Device, e: Event) {
    e.Check? && Checked(d, e.decodeMask).1
  }

  /** A write that clears timerPending. */
  predicate Acknowledges(e: Event) {
    e.Poke? && e.a == TIMER_INTERRUPT && e.v % 2 != 0
  }

  /** The device after the first n events. */
  function Reached(d: Device, es: seq<Event>, n: nat): Device
    requires n <= |es|
  {
    if n == 0 then d else Updated(Reached(d, es, n - 1), es[n - 1])
  }

  /** Whatever happens to the board, its timer stays in the past; the interval stays what it is unless
      software sets the period. */
  lemma {:induction false} ReachedTimely(d: Device, es: seq<Event>, n: nat)
    requires Timely(d) && n <= |es|
    ensures Timely(Reached(d, es, n))
    ensures (forall k :: 0 <= k < n && es[k].Poke? ==> es[k].a != TIMER_PERIOD) ==>
      Reached(d, es, n).timerInterval == d.timerInterval
    decreases n
  {
    hide Checked, DeviceWrite;
    if n > 0 {
      ReachedTimely(d, es, n - 1);
      AfterTimely(Reached(d, es, n - 1), es[n - 1]);
    }
  }

  lemma AfterTimely(d: Device, e: Event)
    requires Timely(d)
    ensures Timely(Updated(d, e))
    ensures !(e.Poke? && e.a == TIMER_PERIOD) ==> Updated(d, e).timerInterval == d.timerInterval
  {
    if e.Check? {
      CheckedTimely(d, e.decodeMask);
    }
  }

  /** What a program reads after it has written v to register a. */
  lemma ReadBack(d: Device, a: word, v: word)
    requires DeviceWrite(d, a, v).Got?
    ensures var e := DeviceWrite(d, a, v).t;
      && DeviceRead(e, INTERRUPT_MASK) == (if a == INTERRUPT_MASK then Got(v % 2) else DeviceRead(d, INTERRUPT_MASK))
      && DeviceRead(e, TIMER_INTERRUPT)
         == (if a == TIMER_INTERRUPT && v % 2 == 1 then Got(0) else DeviceRead(d, TIMER_INTERRUPT))
      && (a != TIMER_INTERRUPT && a != TIMER_PERIOD ==> DeviceRead(e, TIMER_COUNTER) == DeviceRead(d, TIMER_COUNTER))
      && e.output == (if a == UART_DATA || a == SAMPLE_LOW then d.output + [v] else d.output)
  {
    hide JavaRemainder;
  }

  /** The registers by their addresses; the UART is always ready, and no other address answers. */
  lemma Registers(d: Device, a: word)
    ensures DeviceRead(d, 0x080a_000c) == Got(0x100)
    ensures DeviceRead(d, 0x080a_0020) == Got(if d.interrupt then 0 else 1)
    ensures DeviceRead(d, 0x080a_0030) == Got(if d.timerPending then 1 else 0)
    ensures d.timerInterval == 0 ==> DeviceRead(d, 0x080a_0038) == Bad(DivideByZero)
    ensures a !in {0x080a_000c, 0x080a_0014, 0x080a_0018, 0x080a_0020, 0x080a_0030, 0x080a_0038} ==>
      DeviceRead(d, a) == Bad(MemoryAccess)
    ensures DeviceWrite(d, a, 0).Bad?
       <==> a !in {0x080a_000c, 0x080a_0014, 0x080a_0020, 0x080a_002c, 0x080a_0030, 0x080a_0034}
  {
    hide JavaRemainder;
  }

  /** Sampling: a write with bit 1 set takes the cycle count, three cycles on, and the two registers give it
      back as a 64-bit number. */
  lemma SampleReads(d: Device, v: word)
    requires v / 2 % 2 == 1 && 0 <= d.cycles < M * M - 3
    ensures var e := DeviceWrite(d, SAMPLE_LOW, v).t;
      var low, high := DeviceRead(e, SAMPLE_LOW), DeviceRead(e, SAMPLE_HIGH);
      low.Got? && high.Got? && M * high.t + low.t == d.cycles + 3
  {
    hide JavaRemainder;
    var x := d.cycles + 3;
    assert x == M * (x / M) + x % M && x / M < M;
  }

  /** A restarted timer counts down from its period again. */
  lemma CounterRestarts(d: Device, v: word)
    requires v / 2 % 2 == 1 && d.timerInterval > 0
    ensures DeviceRead(DeviceWrite(d, TIMER_INTERRUPT, v).t, TIMER_COUNTER) == Got(Wrap(d.timerInterval - 1))
  {
    var e := DeviceWrite(d, TIMER_INTERRUPT, v).t;
    assert JavaRemainder(e.cycles - e.lastTimer, e.timerInterval) == 0;
  }

  /** Between two deliveries the software has acknowledged the timer at least once. */
  lemma AcknowledgedBetween(d: Device, es: seq<Event>, i: nat, j: nat) returns (k: nat)
    requires i < j < |es| && Delivers(Reached(d, es, i), es[i]) && Delivers(Reached(d, es, j), es[j])
    ensures i < k < j && Acknowledges(es[k])
  {
    k := i + 1;
    while k < j && !Acknowledges(es[k])
      invariant i < k <= j
      invariant Reached(d, es, k).inInterrupt && Reached(d, es, k).timerPending
    {
      assert Reached(d, es, k + 1) == Updated(Reached(d, es, k), es[k]);
      k := k + 1;
    }
    assert Reached(d, es, i + 1) == Updated(Reached(d, es, i), es[i]);
  }

  /** No interrupt is delivered in front of an IM byte that continues a run. */
  lemma NoDeliveryInsideIm(d: Device)
    ensures !Delivers(d, Check(true)) && Checked(d, true).0 == Caught(d)
  {
  }
}
