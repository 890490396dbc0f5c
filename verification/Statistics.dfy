/** Counts of opcode sequences: a trie fed from a ring of the last three retired opcodes, against
    naive counting in the stream of all opcodes. */
module Statistics {

  // ---- What is counted ----

  /** The last three opcodes of a stream, or all of a shorter one. */
  function Window(xs: seq<int>): seq<int> {
    if |xs| <= 3 then xs else xs[|xs| - 3..]
  }

  /** The paths of length d counted while the stream came in: each opcode counts the first d opcodes
      of the window that it completes. */
  function Counted(xs: seq<int>, d: nat): multiset<seq<int>>
    decreases |xs|
  {
    if xs == [] then multiset{}
    else Counted(xs[..|xs| - 1], d) + (if d <= |Window(xs)| then multiset{Window(xs)[..d]} else multiset{})
  }

  /** Occurrences of p in xs that start in front of position n. */
  function Occurrences(xs: seq<int>, p: seq<int>, n: nat): nat
    requires n + |p| <= |xs| + 1
    decreases n
  {
    if n == 0 then 0 else Occurrences(xs, p, n - 1) + (if xs[n - 1..n - 1 + |p|] == p then 1 else 0)
  }

  /** Appending to the stream leaves earlier occurrences alone. */
  lemma {:induction false} OccurrencesAppend(xs: seq<int>, x: int, p: seq<int>, n: nat)
    requires n + |p| <= |xs| + 1
    ensures Occurrences(xs + [x], p, n) == Occurrences(xs, p, n)
    decreases n
  {
    if n > 0 {
      OccurrencesAppend(xs, x, p, n - 1);
      assert (xs + [x])[n - 1..n - 1 + |p|] == xs[n - 1..n - 1 + |p|];
    }
  }

  /** Counting by the trie against naive counting: full triples exactly; shorter paths only where a
      triple starts, and once or twice more for the opcodes the stream begins with. */
  lemma {:induction false} CountedIsOccurrences(xs: seq<int>, p: seq<int>)
    requires |xs| >= 3 && 1 <= |p| <= 3
    ensures Counted(xs, |p|)[p] == Occurrences(xs, p, |xs| - 2) + (if p == xs[..|p|] then 3 - |p| else 0)
    decreases |xs|
  {
    hide Counted, Occurrences;
    var n := |xs| - 1;
    if n == 2 {
      FirstThree(xs, p);
    } else {
      CountedIsOccurrences(xs[..n], p);
      CountedNext(xs, p);
      OccurrencesNext(xs, p);
      assert xs[..n][..|p|] == xs[..|p|];
    }
  }

  lemma CountedNext(xs: seq<int>, p: seq<int>)
    requires |xs| > 3 && 1 <= |p| <= 3
    ensures Counted(xs, |p|)[p]
         == Counted(xs[..|xs| - 1], |p|)[p] + (if xs[|xs| - 3..|xs| - 3 + |p|] == p then 1 else 0)
  {
    hide Counted;
    CountedLast(xs, |p|);
    var last := xs[|xs| - 3..|xs| - 3 + |p|];
    assert Window(xs)[..|p|] == last;
    OneOccurrence(Counted(xs[..|xs| - 1], |p|), last, p);
  }

  lemma CountedLast(xs: seq<int>, d: nat)
    requires xs != [] && d <= |Window(xs)|
    ensures Counted(xs, d) == Counted(xs[..|xs| - 1], d) + multiset{Window(xs)[..d]}
  {
  }

  lemma OneOccurrence(m: multiset<seq<int>>, x: seq<int>, p: seq<int>)
    ensures (m + multiset{x})[p] == m[p] + (if x == p then 1 else 0)
  {
  }

  lemma OneMore(xs: seq<int>, p: seq<int>, n: nat)
    requires 0 < n && n + |p| <= |xs| + 1
    ensures Occurrences(xs, p, n) == Occurrences(xs, p, n - 1) + (if xs[n - 1..n - 1 + |p|] == p then 1 else 0)
  {
  }

  lemma OccurrencesNext(xs: seq<int>, p: seq<int>)
    requires |xs| > 3 && 1 <= |p| <= 3
    ensures Occurrences(xs, p, |xs| - 2)
         == Occurrences(xs[..|xs| - 1], p, |xs| - 3) + (if xs[|xs| - 3..|xs| - 3 + |p|] == p then 1 else 0)
  {
    hide Occurrences;
    var n, front, x := |xs| - 3, xs[..|xs| - 1], xs[|xs| - 1];
    OneMore(xs, p, n + 1);
    assert xs == front + [x];
    OccurrencesAppend(front, x, p, n);
  }

  lemma FirstThree(xs: seq<int>, p: seq<int>)
    requires |xs| == 3 && 1 <= |p| <= 3
    ensures Counted(xs, |p|)[p] == Occurrences(xs, p, 1) + (if p == xs[..|p|] then 3 - |p| else 0)
  {
    var d := |p|;
    var two, one := xs[..2], xs[..1];
    assert Counted(one, d) == if d <= 1 then multiset{one[..d]} else multiset{} by {
      assert one[..0] == [];
    }
    assert two[..1] == one && xs[..2] == two;
    assert Occurrences(xs, p, 1) == if xs[0..d] == p then 1 else 0 by {
      assert Occurrences(xs, p, 0) == 0;
    }
    assert xs[0..d] == xs[..d];
    assert d <= 2 ==> two[..d] == xs[..d];
    assert d <= 1 ==> one[..d] == xs[..d];
  }

  /** The counts at depth d add up to the number of windows at least d long. */
  lemma {:induction false} DepthTotals(xs: seq<int>, d: nat)
    requires 1 <= d <= 3
    ensures |Counted(xs, d)| == if |xs| >= d then |xs| - d + 1 else 0
    decreases |xs|
  {
    if xs != [] {
      DepthTotals(xs[..|xs| - 1], d);
    }
  }

  // ---- The trie ----

  class Instruction {
    const insn: array<Instruction?>
    var count: int

    constructor ()
      ensures fresh(insn) && insn.Length == 256 && count == 0
      ensures forall i :: 0 <= i < 256 ==> insn[i] == null
    {
      insn := new Instruction?[256](_ => null);
      count := 0;
    }

    method AddInstruction(i: int) returns (child: Instruction)
      requires insn.Length == 256 && 0 <= i < 256
      modifies insn
      ensures insn[i] == child && forall j :: 0 <= j < 256 && j != i ==> insn[j] == old(insn[j])
      ensures old(insn[i]) != null ==> child == old(insn[i])
      ensures old(insn[i]) == null ==>
        fresh(child) && fresh(child.insn) && child.insn.Length == 256 && child.count == 0
        && forall j :: 0 <= j < 256 ==> child.insn[j] == null
    {
      if insn[i] == null {
        insn[i] := new Instruction();
      }
      child := insn[i];
    }
  }

  /** A path from the root of the trie. */
  datatype Path = Root | Then(front: Path, last: int)

  function Opcodes(p: Path): seq<int> {
    if p.Root? then [] else Opcodes(p.front) + [p.last]
  }

  function PathOf(xs: seq<int>): Path {
    if xs == [] then Root else Then(PathOf(xs[..|xs| - 1]), xs[|xs| - 1])
  }

  lemma {:induction false} PathUnique(p: Path)
    ensures PathOf(Opcodes(p)) == p
    decreases p
  {
    if p.Then? {
      PathUnique(p.front);
      assert Opcodes(p)[..|Opcodes(p)| - 1] == Opcodes(p.front);
    }
  }

  lemma {:induction false} OpcodesOf(xs: seq<int>)
    ensures Opcodes(PathOf(xs)) == xs
    decreases |xs|
  {
    if xs != [] {
      OpcodesOf(xs[..|xs| - 1]);
    }
  }

  /** The trie that spans the nodes: every path leads to its own node through the child arrays. */
  ghost predicate Spans(nodes: map<Path, Instruction>)
    reads nodes.Values, set p | p in nodes :: nodes[p].insn
  {
    && (forall p :: p in nodes ==> nodes[p].insn.Length == 256)
    && (forall p, i :: p in nodes && 0 <= i < 256 ==>
          nodes[p].insn[i] == if Then(p, i) in nodes then nodes[Then(p, i)] else null)
    && (forall p, i :: Then(p, i) in nodes ==> p in nodes)
    && (forall p, q :: p in nodes && q in nodes && p != q ==> nodes[p] != nodes[q] && nodes[p].insn != nodes[q].insn)
  }

  class StatKeeper {
    const top: Instruction
    const state: array<int>
    var trackPos: nat
    ghost var stream: seq<int>
    ghost var nodes: map<Path, Instruction>
    ghost var Repr: set<object>

    ghost predicate Rooted()
      reads this
    {
      && this in Repr && state in Repr && Root in nodes && nodes[Root] == top
      && forall p :: p in nodes ==> nodes[p] in Repr && nodes[p].insn in Repr
    }

    ghost function Tally(p: Path): int
      reads this, nodes.Values
    {
      if p in nodes then nodes[p].count else 0
    }

    ghost predicate RingHolds()
      reads this, state
    {
      && state.Length == 3 && trackPos == |stream|
      && (forall k :: 0 <= k < |stream| ==> 0 <= stream[k] < 256)
      && forall k :: 0 <= k < |stream| && |stream| - 3 <= k ==> state[k % 3] == stream[k]
    }

    /** Every node counts the paths of the stream that lead to it. */
    ghost predicate Valid()
      reads this, Repr
    {
      && Rooted() && RingHolds() && Spans(nodes)
      && forall p :: Tally(p) == Expected(stream, p)
    }

    constructor ()
      ensures Valid() && stream == [] && fresh(Repr)
    {
      top := new Instruction();
      state := new int[3](_ => 0);
      trackPos := 0;
      stream := [];
      new;
      nodes := map[Root := top];
      Repr := {this, state, top, top.insn};
    }

    /** Following opcode i from the node of path p, which grows the trie where it has no such node. */
    method Follow(t: Instruction, ghost p: Path, i: int) returns (child: Instruction)
      requires Rooted() && Spans(nodes) && p in nodes && nodes[p] == t && 0 <= i < 256
      modifies this`nodes, this`Repr, t.insn
      ensures Rooted() && Spans(nodes) && Then(p, i) in nodes && nodes[Then(p, i)] == child
      ensures fresh(Repr - old(Repr)) && old(Repr) <= Repr
      ensures forall q :: q in old(nodes) ==> q in nodes && nodes[q] == old(nodes)[q]
      ensures forall q :: Tally(q) == old(Tally(q))
    {
      child := t.AddInstruction(i);
      if Then(p, i) !in nodes {
        nodes := nodes[Then(p, i) := child];
        Repr := Repr + {child, child.insn};
      }
    }

    /** The inner loop: down the trie along the first n opcodes of the ring. */
    method Descend(n: nat, backtrack: nat) returns (t: Instruction)
      requires Rooted() && RingHolds() && Spans(nodes)
      requires n <= backtrack == |Window(stream)|
      modifies this`nodes, this`Repr, Repr - {this, state}
      ensures Rooted() && RingHolds() && Spans(nodes)
      ensures PathOf(Window(stream)[..n]) in nodes && nodes[PathOf(Window(stream)[..n])] == t
      ensures fresh(Repr - old(Repr)) && old(Repr) <= Repr
      ensures forall q :: Tally(q) == old(Tally(q))
    {
      t := top;
      ghost var w, p := Window(stream), Root;
      for j := 0 to n
        invariant Rooted() && RingHolds() && Spans(nodes) && p == PathOf(w[..j]) && p in nodes && nodes[p] == t
        invariant fresh(Repr - old(Repr)) && old(Repr) <= Repr
        invariant forall q :: Tally(q) == old(Tally(q))
      {
        var current := state[(trackPos - backtrack + j) % 3];
        assert current == w[j] && 0 <= current < 256 by { RingEntry(j, backtrack); }
        PathStep(w, j);
        t := Follow(t, p, current);
        p := Then(p, current);
      }
    }

    lemma RingEntry(j: nat, backtrack: nat)
      requires RingHolds() && j < backtrack == |Window(stream)|
      ensures state[(trackPos - backtrack + j) % 3] == Window(stream)[j] && 0 <= Window(stream)[j] < 256
    {
      assert Window(stream)[j] == stream[|stream| - backtrack + j];
    }

    /** The opcode replaces the oldest entry of the ring. */
    method Record(x: int)
      requires Rooted() && RingHolds() && Spans(nodes) && 0 <= x < 256
      modifies state, this`trackPos, this`stream
      ensures Rooted() && RingHolds() && Spans(nodes) && stream == old(stream) + [x]
      ensures forall q :: Tally(q) == old(Tally(q))
    {
      state[trackPos % 3] := x;
      trackPos := trackPos + 1;
      stream := stream + [x];
    }

    /** One turn of the outer loop: the node for the first n opcodes of the window counts one more. */
    method CountPrefix(n: nat, backtrack: nat)
      requires Rooted() && RingHolds() && Spans(nodes)
      requires 1 <= n <= backtrack == |Window(stream)|
      modifies this`nodes, this`Repr, Repr - {this, state}
      ensures Rooted() && RingHolds() && Spans(nodes)
      ensures fresh(Repr - old(Repr)) && old(Repr) <= Repr
      ensures forall q :: Tally(q) == old(Tally(q)) + (if q == PathOf(Window(stream)[..n]) then 1 else 0)
    {
      hide Window;
      var t := Descend(n, backtrack);
      t.count := t.count + 1;
    }

    /** countInstruction. */
    method CountInstruction(x: int)
      requires Valid() && 0 <= x < 256
      modifies Repr
      ensures Valid() && stream == old(stream) + [x] && fresh(Repr - old(Repr))
    {
      hide Counted, Opcodes, RingHolds, Spans, Bump, Expected, Tally, PathOf;
      Record(x);
      var backtrack := if trackPos < 3 then trackPos else 3;
      ghost var w := Window(stream);
      assert |w| == backtrack by { RingLength(); }
      forall q ensures Tally(q) == Expected(old(stream), q) + Bump(w, q, 0) {
        BumpNone(w, q);
      }
      for i := 0 to backtrack
        invariant Rooted() && RingHolds() && Spans(nodes) && stream == old(stream) + [x]
        invariant fresh(Repr - old(Repr)) && old(Repr) <= Repr
        invariant forall q :: Tally(q) == Expected(old(stream), q) + Bump(w, q, i)
      {
        CountPrefix(i + 1, backtrack);
        forall q ensures Tally(q) == Expected(old(stream), q) + Bump(w, q, i + 1) {
          BumpNext(w, q, i);
        }
      }
      forall q ensures Tally(q) == Expected(stream, q) {
        ExpectedNext(old(stream), x, q);
      }
    }

    lemma RingLength()
      requires RingHolds()
      ensures |Window(stream)| == if trackPos < 3 then trackPos else 3
    {
    }
  }

  lemma BumpNone(w: seq<int>, q: Path)
    ensures Bump(w, q, 0) == 0
  {
  }

  lemma PathStep(w: seq<int>, j: nat)
    requires j < |w|
    ensures PathOf(w[..j + 1]) == Then(PathOf(w[..j]), w[j])
  {
    assert w[..j + 1][..j] == w[..j];
  }

  /** One if the path is a first part of the window, between 1 and n opcodes long. */
  ghost function Bump(w: seq<int>, q: Path, n: nat): int {
    var d := |Opcodes(q)|;
    if 1 <= d <= n && d <= |w| && q == PathOf(w[..d]) then 1 else 0
  }

  lemma BumpNext(w: seq<int>, q: Path, i: nat)
    requires i < |w|
    ensures Bump(w, q, i + 1) == Bump(w, q, i) + (if q == PathOf(w[..i + 1]) then 1 else 0)
  {
    OpcodesOf(w[..i + 1]);
  }

  lemma ExpectedNext(xs: seq<int>, x: int, q: Path)
    ensures Expected(xs + [x], q) == Expected(xs, q) + Bump(Window(xs + [x]), q, |Window(xs + [x])|)
  {
    var ys, w, d := xs + [x], Window(xs + [x]), |Opcodes(q)|;
    assert ys[..|ys| - 1] == xs;
    if d <= |w| {
      PathUnique(q);
      OpcodesOf(w[..d]);
    }
  }

  /** The count the node of a path should have: no node counts the root. */
  ghost function Expected(xs: seq<int>, p: Path): int {
    if p.Root? then 0 else Counted(xs, |Opcodes(p)|)[Opcodes(p)]
  }
}
