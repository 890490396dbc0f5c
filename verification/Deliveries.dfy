/** What happens to the board during a run of the whole machine, as events of module Phi: between two
    interrupts the program has acknowledged the first. */
module Deliveries {
  import opened Words
  import opened Isa
  import opened Cpu
  import opened Phi
  import opened Machines
  import opened DeliveryLaw

  // ---- Sequences of events ----

  /** The board once all the events have happened. */
  function Final(d: Device, es: seq<Event>): Device {
    Reached(d, es, |es|)
  }

  lemma {:induction false} SamePrefix(d: Device, xs: seq<Event>, ys: seq<Event>, n: nat)
    requires n <= |xs|
    ensures Reached(d, xs + ys, n) == Reached(d, xs, n)
    decreases n
  {
    hide Updated;
    if n > 0 {
      SamePrefix(d, xs, ys, n - 1);
    }
  }

  lemma {:induction false} Joined(d: Device, xs: seq<Event>, ys: seq<Event>)
    ensures Final(d, xs + ys) == Final(Final(d, xs), ys)
    decreases |ys|
  {
    hide Updated;
    if ys == [] {
      assert xs + ys == xs;
    } else {
      var zs := ys[..|ys| - 1];
      Joined(d, xs, zs);
      assert (xs + ys)[..|xs + ys| - 1] == xs + zs && xs + ys == (xs + zs) + [ys[|ys| - 1]] && ys == zs + [ys[|ys| - 1]];
      SamePrefix(d, xs + zs, [ys[|ys| - 1]], |xs + zs|);
      SamePrefix(Final(d, xs), zs, [ys[|ys| - 1]], |zs|);
    }
  }

  lemma OneEvent(d: Device, e: Event)
    ensures Final(d, [e]) == Updated(d, e) && Final(d, []) == d
  {
    hide Updated;
    assert Reached(d, [e], 1) == Updated(Reached(d, [e], 0), [e][0]);
  }

  // ---- The events of a turn ----

  /** The push of checkVector reaches the board only if sp points there. */
  function PushEvents(m: Machine): seq<Event>
    requires Valid(m.core)
  {
    if m.hitVector && IsIo((m.core.sp - 4) % M) then [Poke((m.core.sp - 4) % M, Wrap(m.core.pc))] else []
  }

  function WriteEvents(d: Device, wr: Write): seq<Event> {
    if wr.Io? && 0 <= wr.a < M && Resolve(d, wr.v).Got? then [Poke(wr.a, Resolve(d, wr.v).t)] else []
  }

  function AttemptEvents(feeble: set<Op>, m: Machine): seq<Event>
    requires Valid(m.core)
  {
    if m.core.pc < RAM_SIZE then [Ticks] + WriteEvents(Ticked(m.device), Effect(feeble, m.core).wr)
    else WriteEvents(m.device, Effect(feeble, m.core).wr)
  }

  function CheckEvents(feeble: set<Op>, v: Machine): seq<Event>
    requires Valid(v.core)
  {
    var (d, deliver) := Checked(v.device, v.core.decodeMask);
    [Check(v.core.decodeMask)] + if deliver then [] else AttemptEvents(feeble, v.(device := d))
  }

  function TurnEvents(feeble: set<Op>, m: Machine): seq<Event>
    requires Valid(m.core)
  {
    PushEvents(m) + if CheckVector(m).Entered? then CheckEvents(feeble, CheckVector(m).m) else []
  }

  function RunEvents(feeble: set<Op>, m: Machine, n: nat): seq<Event>
    requires Valid(m.core)
    decreases n
  {
    if n == 0 then []
    else match Turn(feeble, m)
      case Spinning => []
      case After(d) => TurnEvents(feeble, m) + RunEvents(feeble, d, n - 1)
  }

  lemma PushedBoard(m: Machine)
    requires Valid(m.core)
    ensures CheckVector(m).m.device == Final(m.device, PushEvents(m))
  {
    hide DeviceWrite;
    var sp := (m.core.sp - 4) % M;
    OneEvent(m.device, Poke(sp, Wrap(m.core.pc)));
  }

  lemma WrittenBoard(mem: seq<word>, d: Device, wr: Write)
    ensures (if Perform(mem, d, wr).Got? then Perform(mem, d, wr).t.device else d) == Final(d, WriteEvents(d, wr))
  {
    hide DeviceWrite, Resolve;
    if WriteEvents(d, wr) != [] {
      OneEvent(d, WriteEvents(d, wr)[0]);
    }
  }

  lemma AttemptedBoard(feeble: set<Op>, m: Machine)
    requires Valid(m.core)
    ensures Attempt(feeble, m).device == Final(m.device, AttemptEvents(feeble, m))
  {
    hide Perform, WriteEvents, Effect;
    var d := if m.core.pc < RAM_SIZE then Ticked(m.device) else m.device;
    WrittenBoard(m.core.mem, d, Effect(feeble, m.core).wr);
    if m.core.pc < RAM_SIZE {
      OneEvent(m.device, Ticks);
      Joined(m.device, [Ticks], WriteEvents(d, Effect(feeble, m.core).wr));
    }
  }

  lemma CheckedBoard(feeble: set<Op>, v: Machine)
    requires Valid(v.core)
    ensures var (d, deliver) := Checked(v.device, v.core.decodeMask);
      Final(v.device, CheckEvents(feeble, v)) == if deliver then d else Attempt(feeble, v.(device := d)).device
  {
    hide Attempt, AttemptEvents, Final;
    var (d, deliver) := Checked(v.device, v.core.decodeMask);
    var e := Check(v.core.decodeMask);
    OneEvent(v.device, e);
    if deliver {
      assert CheckEvents(feeble, v) == [e];
    } else {
      AttemptedBoard(feeble, v.(device := d));
      Joined(v.device, [e], AttemptEvents(feeble, v.(device := d)));
    }
  }

  /** The board after a turn is the one its events lead to. */
  lemma TurnBoard(feeble: set<Op>, m: Machine)
    requires Valid(m.core) && Turn(feeble, m).After?
    ensures Turn(feeble, m).m.device == Final(m.device, TurnEvents(feeble, m))
  {
    hide Final, CheckEvents, PushEvents, CheckVector, Attempt, Checked;
    PushedBoard(m);
    if CheckVector(m).Entered? {
      CheckedBoard(feeble, CheckVector(m).m);
      Joined(m.device, PushEvents(m), CheckEvents(feeble, CheckVector(m).m));
    } else {
      assert TurnEvents(feeble, m) == PushEvents(m);
    }
  }

  /** And after any number of turns. */
  lemma {:induction false} RunBoard(feeble: set<Op>, m: Machine, n: nat)
    requires Valid(m.core) && Turns(feeble, m, n).After?
    ensures Turns(feeble, m, n).m.device == Final(m.device, RunEvents(feeble, m, n))
    decreases n
  {
    hide Final, Turn, TurnEvents;
    if n == 0 {
      OneEvent(m.device, Ticks);
    } else {
      TurnBoard(feeble, m);
      RunBoard(feeble, Turn(feeble, m).m, n - 1);
      Joined(m.device, TurnEvents(feeble, m), RunEvents(feeble, Turn(feeble, m).m, n - 1));
    }
  }

  // ---- Two deliveries ----

  /** The turn delivers an interrupt. */
  predicate Arms(m: Machine)
    requires Valid(m.core)
  {
    var r := CheckVector(m);
    r.Entered? && LoopEnds(r.m.device) && Checked(r.m.device, r.m.core.decodeMask).1
  }

  lemma ArmsAt(feeble: set<Op>, m: Machine, before: seq<Event>, d: Device, rest: seq<Event>)
    requires Valid(m.core) && Arms(m) && Final(d, before) == m.device
    ensures var es := before + TurnEvents(feeble, m) + rest;
      var p := |before| + |PushEvents(m)|;
      p < |es| && Delivers(Reached(d, es, p), es[p])
  {
    hide Checked, CheckVector, PushEvents, Final, LoopEnds;
    var v := CheckVector(m).m;
    var es, pre := before + TurnEvents(feeble, m) + rest, before + PushEvents(m);
    assert es == pre + (CheckEvents(feeble, v) + rest);
    PushedBoard(m);
    Joined(d, before, PushEvents(m));
    SamePrefix(d, pre, CheckEvents(feeble, v) + rest, |pre|);
    FinalIs(d, pre);
  }

  lemma FinalIs(d: Device, es: seq<Event>)
    ensures Final(d, es) == Reached(d, es, |es|)
  {
  }

  /** If an interrupt is delivered now and again after n turns, then among the writes to the board after
      the first delivery and before the second there is one that acknowledges the timer. */
  lemma AcknowledgedInRun(feeble: set<Op>, m: Machine, n: nat, t: Machine) returns (e: Event)
    requires Valid(m.core) && n > 0 && Turns(feeble, m, n) == After(t) && Arms(m) && Arms(t)
    ensures |PushEvents(m)| <= |RunEvents(feeble, m, n)|
    ensures e in (RunEvents(feeble, m, n) + PushEvents(t))[|PushEvents(m)|..] && Acknowledges(e)
  {
    hide Turn, TurnEvents, Final, Arms, PushEvents, Reached, Delivers, Acknowledges;
    var run, last, rest := RunEvents(feeble, m, n), TurnEvents(feeble, t), RunEvents(feeble, Turn(feeble, m).m, n - 1);
    assert run == TurnEvents(feeble, m) + rest;
    var es := run + last;
    OneEvent(m.device, Ticks);
    ArmsAt(feeble, m, [], m.device, rest + last);
    assert [] + TurnEvents(feeble, m) + (rest + last) == es;
    RunBoard(feeble, m, n);
    ArmsAt(feeble, t, run, m.device, []);
    assert run + last + [] == es;
    var p, q := |PushEvents(m)|, |run| + |PushEvents(t)|;
    PushFirst(feeble, m);
    PushFirst(feeble, t);
    var k := AcknowledgedBetween(m.device, es, p, q);
    e := es[k];
    assert es[..q] == run + PushEvents(t);
    assert e == es[..q][k] == es[..q][p..][k - p];
  }

  lemma PushFirst(feeble: set<Op>, m: Machine)
    requires Valid(m.core) && Arms(m)
    ensures |PushEvents(m)| < |TurnEvents(feeble, m)| && TurnEvents(feeble, m)[..|PushEvents(m)|] == PushEvents(m)
  {
    hide Checked, CheckVector, PushEvents, LoopEnds, AttemptEvents;
  }

  /** On the whole machine, after any number of turns since power on: the next turn delivers an interrupt if
      and only if it gets to its check and the writes, cycles and checks so far make one due. */
  lemma DeliversWhenDue(feeble: set<Op>, m: Machine, n: nat, t: Machine)
    requires Valid(m.core) && m.device == PowerOn() && Turns(feeble, m, n) == After(t)
    ensures var es := RunEvents(feeble, m, n) + TurnEvents(feeble, t);
      var p := |RunEvents(feeble, m, n)| + |PushEvents(t)|;
      var v := CheckVector(t);
      Arms(t) <==> v.Entered? && LoopEnds(v.m.device) && p < |es| && Due(es, p)
  {
    hide Checked, CheckVector, PushEvents, Final, LoopEnds, Due, Turns, RunEvents, AttemptEvents;
    if CheckVector(t).Entered? {
      RunBoard(feeble, m, n);
      CheckAt(feeble, t, RunEvents(feeble, m, n), m.device);
      var es := RunEvents(feeble, m, n) + TurnEvents(feeble, t);
      DeliversExactly(es, |RunEvents(feeble, m, n)| + |PushEvents(t)|);
    }
  }

  /** The check of a turn among the events since power on. */
  lemma CheckAt(feeble: set<Op>, m: Machine, before: seq<Event>, d: Device)
    requires Valid(m.core) && CheckVector(m).Entered? && Final(d, before) == m.device
    ensures var es, p, v := before + TurnEvents(feeble, m), |before| + |PushEvents(m)|, CheckVector(m).m;
      p < |es| && es[p] == Check(v.core.decodeMask) && Reached(d, es, p) == v.device
  {
    hide Checked, CheckVector, PushEvents, Final, AttemptEvents;
    var v := CheckVector(m).m;
    var es, pre := before + TurnEvents(feeble, m), before + PushEvents(m);
    assert es == pre + CheckEvents(feeble, v);
    PushedBoard(m);
    Joined(d, before, PushEvents(m));
    SamePrefix(d, pre, CheckEvents(feeble, v), |pre|);
    FinalIs(d, pre);
  }
}
