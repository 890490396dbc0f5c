/** Steps and runs of the processor on RAM, and runs of IM bytes. */
module Runs {
  import opened Words
  import opened Isa
  import opened Cpu

  /** The state after an instruction, unless it traps or needs a device register. */
  datatype Stepped = Stuck | Ran(c: State)

  function Step(feeble: set<Op>, c: State): (r: Stepped)
    requires Valid(c)
    ensures r.Ran? ==> Valid(r.c)
  {
    match Effect(feeble, c)
    case Trap(f, wr) => Stuck
    case Next(pc, sp, mask, NoWrite) => Ran(State(pc, sp, mask, c.mem))
    case Next(pc, sp, mask, Ram(i, Word(w))) => Ran(State(pc, sp, mask, c.mem[i := w]))
    case Next(pc, sp, mask, wr) => Stuck
  }

  function Run(feeble: set<Op>, c: State, n: nat): (r: Stepped)
    requires Valid(c)
    ensures r.Ran? ==> Valid(r.c)
    decreases n
  {
    if n == 0 then Ran(c)
    else match Step(feeble, c)
      case Stuck => Stuck
      case Ran(d) => Run(feeble, d, n - 1)
  }

  ghost predicate Reaches(feeble: set<Op>, c: State, d: State)
    requires Valid(c)
  {
    exists n: nat :: Run(feeble, c, n) == Ran(d)
  }

  lemma {:induction false} RunAppend(feeble: set<Op>, c: State, n: nat, d: State, m: nat)
    requires Valid(c) && Run(feeble, c, n) == Ran(d)
    ensures Run(feeble, c, n + m) == Run(feeble, d, m)
    decreases n
  {
    hide Step;
    if n > 0 {
      RunAppend(feeble, Step(feeble, c).c, n - 1, d, m);
    }
  }

  lemma ReachesSelf(feeble: set<Op>, c: State)
    requires Valid(c)
    ensures Reaches(feeble, c, c)
  {
    assert Run(feeble, c, 0) == Ran(c);
  }

  lemma ReachesStep(feeble: set<Op>, c: State)
    requires Valid(c) && Step(feeble, c).Ran?
    ensures Reaches(feeble, c, Step(feeble, c).c)
  {
    assert Run(feeble, c, 1) == Run(feeble, Step(feeble, c).c, 0);
  }

  lemma ReachesJoin(feeble: set<Op>, c: State, d: State, e: State)
    requires Valid(c) && Valid(d) && Reaches(feeble, c, d) && Reaches(feeble, d, e)
    ensures Reaches(feeble, c, e)
  {
    var n: nat :| Run(feeble, c, n) == Ran(d);
    var m: nat :| Run(feeble, d, m) == Ran(e);
    RunAppend(feeble, c, n, d, m);
  }

  lemma ReachesThen(feeble: set<Op>, c: State, d: State)
    requires Valid(c) && Valid(d) && Reaches(feeble, c, d) && Step(feeble, d).Ran?
    ensures Reaches(feeble, c, Step(feeble, d).c)
  {
    ReachesStep(feeble, d);
    ReachesJoin(feeble, c, d, Step(feeble, d).c);
  }

  // ---- Runs of IM bytes ----

  function SignExtend7(g: nat): word
    requires g < 128
  {
    Wrap(if g < 64 then g else g - 128)
  }

  predicate Groups(gs: seq<nat>) {
    |gs| >= 1 && forall j :: 0 <= j < |gs| ==> gs[j] < 128
  }

  /** The word a run of IM instructions with these seven-bit groups leaves on the stack. */
  function ImmediateValue(gs: seq<nat>): word
    requires Groups(gs)
  {
    if |gs| == 1 then SignExtend7(gs[0])
    else Wrap(ImmediateValue(gs[..|gs| - 1]) * 128 + gs[|gs| - 1])
  }

  /** No byte at pc..pc+n lies in word i. */
  ghost predicate Outside(i: int, pc: int, n: int) {
    i < pc / 4 || (pc + n - 1) / 4 < i
  }

  ghost predicate ImAt(mem: seq<word>, pc: int, gs: seq<nat>) {
    && 0 <= pc <= pc + |gs| <= RAM_SIZE && |mem| == RAM_WORDS
    && forall j :: 0 <= j < |gs| ==> OpAt(mem, pc + j) == Im(gs[j])
  }

  lemma ImmediatePrefix(mem: seq<word>, pc: int, gs: seq<nat>, i: int, j: nat)
    requires ImAt(mem, pc, gs) && Outside(i, pc, |gs|) && 1 <= j <= |gs|
    requires forall k :: 0 <= k < |gs| ==> gs[k] < 128
    ensures ImAt(mem, pc, gs[..j]) && Outside(i, pc, j) && Groups(gs[..j])
  {
  }

  /** Any run of IM bytes moves sp by one word and pushes one value. */
  lemma {:induction false} ImmediateRun(feeble: set<Op>, c: State, gs: seq<nat>)
    requires Valid(c) && !c.decodeMask && 4 <= c.sp <= RAM_SIZE
    requires Groups(gs) && ImAt(c.mem, c.pc, gs)
    requires Outside(c.sp / 4 - 1, c.pc, |gs|)
    ensures Run(feeble, c, |gs|)
         == Ran(State(c.pc + |gs|, c.sp - 4, true, c.mem[c.sp / 4 - 1 := ImmediateValue(gs)]))
    decreases |gs|
  {
    hide Step, Run, OpAt;
    var n, i := |gs| - 1, c.sp / 4 - 1;
    if n == 0 {
      assert OpAt(c.mem, c.pc + 0) == Im(gs[0]);
      ImmediateFirst(feeble, c, gs[0]);
      RunOne(feeble, c);
    } else {
      ImmediateRun(feeble, c, gs[..n]);
      var d := State(c.pc + n, c.sp - 4, true, c.mem[i := ImmediateValue(gs[..n])]);
      assert OpAt(c.mem, c.pc + n) == Im(gs[n]);
      ImmediateNext(feeble, c, d, i, gs[n]);
      RunAppend(feeble, c, n, d, 1);
      RunOne(feeble, d);
    }
  }

  lemma RunOne(feeble: set<Op>, c: State)
    requires Valid(c) && Step(feeble, c).Ran?
    ensures Run(feeble, c, 1) == Ran(Step(feeble, c).c)
  {
    hide Step;
    assert Run(feeble, c, 1) == Run(feeble, Step(feeble, c).c, 0);
  }

  lemma ImmediateNext(feeble: set<Op>, c: State, d: State, i: int, g: nat)
    requires Valid(d) && |c.mem| == RAM_WORDS && d.decodeMask && d.pc < RAM_SIZE && 0 <= i < RAM_WORDS && d.sp == 4 * i
    requires d.mem == c.mem[i := d.mem[i]] && d.pc / 4 != i && OpAt(c.mem, d.pc) == Im(g)
    ensures Step(feeble, d)
         == Ran(State(d.pc + 1, d.sp, true, c.mem[i := Wrap(d.mem[i] * 128 + g)]))
  {
    ImmediateStep(feeble, d, g);
    assert d.mem[i := Wrap(d.mem[i] * 128 + g)] == c.mem[i := Wrap(d.mem[i] * 128 + g)];
  }

  lemma ImmediateFirst(feeble: set<Op>, c: State, g: nat)
    requires Valid(c) && !c.decodeMask && 4 <= c.sp <= RAM_SIZE && g < 128 && Fetch(c) == Got(Im(g))
    ensures Step(feeble, c)
         == Ran(State(c.pc + 1, c.sp - 4, true, c.mem[c.sp / 4 - 1 := SignExtend7(g)]))
  {
  }

  lemma ImmediateStep(feeble: set<Op>, d: State, g: nat)
    requires Valid(d) && d.decodeMask && d.sp < RAM_SIZE && Fetch(d) == Got(Im(g))
    ensures Step(feeble, d)
         == Ran(State(d.pc + 1, d.sp, true, d.mem[d.sp / 4 := Wrap(d.mem[d.sp / 4] * 128 + g)]))
  {
  }
}
