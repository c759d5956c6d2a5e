// Whole runs of a ring buffer: when exactly it panics. One that never holds maxCap values does
// not; one that has held as many and run empty panics when maxCap more have been put.

module RingRuns {
  import opened Arith
  import opened Basics
  import opened RingBuffer

  function Run(s: Shape, ops: seq<Op>): Option<Shape>
    decreases |ops|
  {
    if ops == [] then Some(s)
    else
      var next := Next(s, ops[0]);
      if next == None then None else Run(next.value, ops[1..])
  }

  // How many are in the queue after an operation.
  function After(n: nat, op: Op): nat {
    if op == PutOp then n + 1 else if n == 0 then 0 else n - 1
  }

  function Filled(n: nat, ops: seq<Op>): nat
    decreases |ops|
  {
    if ops == [] then n else Filled(After(n, ops[0]), ops[1..])
  }

  predicate StaysBelow(n: nat, max: nat, ops: seq<Op>)
    decreases |ops|
  {
    n < max && (ops == [] || StaysBelow(After(n, ops[0]), max, ops[1..]))
  }

  lemma {:induction false} PowersDouble(j: nat, k: nat)
    requires Pow2(j) < Pow2(k)
    ensures 2 * Pow2(j) <= Pow2(k)
  {
    if j > 0 {
      assert k > 0;
      PowersDouble(j - 1, k - 1);
    }
  }

  lemma SmallerPower(a: nat, b: nat)
    requires Power(a) && Power(b) && a < b
    ensures 2 * a <= b && Power(2 * a)
  {
    var j: nat :| a == Pow2(j);
    var k: nat :| b == Pow2(k);
    PowersDouble(j, k);
    assert 2 * a == Pow2(j + 1);
  }

  // ------------------------------------------------------------ exactly where it breaks

  // What a caller sees of a run: how many values are in the queue, the most there ever were,
  // whether it has run empty after there were maxCap, and how many were put since it last did.
  datatype Story = Story(n: nat, most: nat, drained: bool, puts: nat)

  function Told(t: Story, maxCap: nat, op: Op): Story {
    var n := After(t.n, op);
    if op == PutOp then Story(n, if n > t.most then n else t.most, t.drained && t.puts < maxCap, t.puts + 1)
    else if t.n == 1 && t.most >= maxCap then Story(0, t.most, true, 0)
    else t.(n := n)
  }

  // Such a queue takes maxCap values. (The one exception is a queue for one value that has
  // never held two: it is full, and so it grows.)
  predicate OneTooMany(t: Story, maxCap: nat) {
    t.drained && t.puts == maxCap && (maxCap >= 2 || t.most >= 2)
  }

  predicate Breaks(t: Story, maxCap: nat, ops: seq<Op>)
    decreases |ops|
  {
    ops != [] && ((ops[0] == PutOp && OneTooMany(t, maxCap)) || Breaks(Told(t, maxCap, ops[0]), maxCap, ops[1..]))
  }

  function ToldAll(t: Story, maxCap: nat, ops: seq<Op>): Story
    decreases |ops|
  {
    if ops == [] then t else ToldAll(Told(t, maxCap, ops[0]), maxCap, ops[1..])
  }

  // A story fits the sizes of the buffer.
  predicate Tells(s: Shape, t: Story) {
    && s.n == t.n <= t.most < s.cap
    && (s.cap > s.maxCap <==> t.most >= s.maxCap)
    && (s.maxCap == 1 && s.cap > 2 ==> t.most >= 2)
    && s.cut == t.drained && s.at == (if s.cut then t.puts else 0)
    && (s.cut ==> s.cap > s.maxCap && s.n <= t.puts <= s.maxCap && (s.n == 0 ==> t.puts == 0))
  }

  ghost predicate Powers(s: Shape) { Power(s.cap) && Power(s.maxCap) }

  // Of two different powers of two one is at least twice the other.
  predicate FarApart(a: nat, b: nat) { (a < b ==> 2 * a <= b) && (b < a ==> 2 * b <= a) }

  lemma PowersFarApart(s: Shape)
    requires Powers(s)
    ensures FarApart(s.cap, s.maxCap) && Power(2 * s.cap) && s.maxCap >= 1
  {
    if s.cap < s.maxCap { SmallerPower(s.cap, s.maxCap); }
    if s.maxCap < s.cap { SmallerPower(s.maxCap, s.cap); }
    Doubled(s.cap);
  }

  lemma StepTells(s: Shape, t: Story, op: Op)
    requires Tells(s, t) && FarApart(s.cap, s.maxCap) && s.maxCap >= 1
    ensures Next(s, op) == None <==> op == PutOp && OneTooMany(t, s.maxCap)
    ensures var next := Next(s, op);
            next.Some? ==>
              && next.value.maxCap == s.maxCap && (next.value.cap == s.cap || next.value.cap == 2 * s.cap)
              && Tells(next.value, Told(t, s.maxCap, op))
  {
  }

  // Over all runs: the buffer panics if and only if some put is one too many.
  lemma {:induction false} BreaksExactly(s: Shape, t: Story, ops: seq<Op>)
    requires Powers(s) && Tells(s, t)
    ensures Run(s, ops) == None <==> Breaks(t, s.maxCap, ops)
    ensures var r := Run(s, ops);
            r.Some? ==>
              Powers(r.value) && Tells(r.value, ToldAll(t, s.maxCap, ops)) && r.value.maxCap == s.maxCap &&
              r.value.n == Filled(s.n, ops)
    decreases |ops|
  {
    if ops != [] {
      PowersFarApart(s);
      StepTells(s, t, ops[0]);
      var next := Next(s, ops[0]);
      if next.Some? { BreaksExactly(next.value, Told(t, s.maxCap, ops[0]), ops[1..]); }
    }
  }

  // So for a new buffer of any sizes that it accepts.
  lemma NewBreaksExactly(size: nat, maxCap: nat, ops: seq<Op>)
    requires Power(size) && Power(maxCap)
    ensures Run(Shape(0, 0, size, maxCap, false), ops) == None <==> Breaks(Story(0, size - 1, false, 0), maxCap, ops)
  {
    BreaksExactly(Shape(0, 0, size, maxCap, false), Story(0, size - 1, false, 0), ops);
  }

  lemma {:induction false} SmallNeverBreaks(t: Story, maxCap: nat, ops: seq<Op>)
    requires t.most < maxCap && !t.drained && StaysBelow(t.n, maxCap, ops)
    ensures !Breaks(t, maxCap, ops) && ToldAll(t, maxCap, ops).most < maxCap && !ToldAll(t, maxCap, ops).drained
    decreases |ops|
  {
    if ops != [] { SmallNeverBreaks(Told(t, maxCap, ops[0]), maxCap, ops[1..]); }
  }

  ghost predicate Whole(s: Shape) {
    !s.cut && s.at == 0 && Power(s.cap) && Power(s.maxCap) && s.n < s.cap
  }

  // A buffer that never holds maxCap values never panics, and counts as it should.
  lemma SafeWhileSmall(s: Shape, ops: seq<Op>)
    requires Whole(s) && s.cap <= s.maxCap && StaysBelow(s.n, s.maxCap, ops)
    ensures var r := Run(s, ops);
            r.Some? && Whole(r.value) && r.value.cap <= s.maxCap && r.value.n == Filled(s.n, ops)
  {
    var t := Story(s.n, s.cap - 1, false, 0);
    SmallNeverBreaks(t, s.maxCap, ops);
    BreaksExactly(s, t, ops);
  }

  // ------------------------------------------------------------ the shortest way to break it

  function Puts(n: nat): seq<Op> { if n == 0 then [] else [PutOp] + Puts(n - 1) }

  function Pops(n: nat): seq<Op> { if n == 0 then [] else [PopOp] + Pops(n - 1) }

  lemma {:induction false} PutMany(t: Story, maxCap: nat, k: nat, rest: seq<Op>)
    requires Breaks(Story(t.n + k, if k > 0 && t.n + k > t.most then t.n + k else t.most, t.drained, t.puts + k),
             maxCap, rest)
    requires t.drained ==> t.puts + k <= maxCap
    ensures Breaks(t, maxCap, Puts(k) + rest)
    decreases k
  {
    if k == 0 {
      assert Puts(0) + rest == rest;
    } else {
      assert (Puts(k) + rest)[1..] == Puts(k - 1) + rest;
      PutMany(Told(t, maxCap, PutOp), maxCap, k - 1, rest);
    }
  }

  lemma {:induction false} PopAll(t: Story, maxCap: nat, rest: seq<Op>)
    requires t.n > 0 && t.most >= maxCap && Breaks(Story(0, t.most, true, 0), maxCap, rest)
    ensures Breaks(t, maxCap, Pops(t.n) + rest)
    decreases t.n
  {
    assert (Pops(t.n) + rest)[1..] == Pops(t.n - 1) + rest;
    if t.n > 1 {
      PopAll(Told(t, maxCap, PopOp), maxCap, rest);
    } else {
      assert Pops(0) + rest == rest;
    }
  }

  // Put maxCap values, pop them all, and put maxCap + 1: the last one panics, whatever the
  // buffer was made with.
  lemma GrownAndDrainedBreaks(size: nat, maxCap: nat)
    requires Power(size) && Power(maxCap) && maxCap >= 2
    ensures Run(Shape(0, 0, size, maxCap, false), Puts(maxCap) + (Pops(maxCap) + (Puts(maxCap) + [PutOp]))) == None
  {
    var most := if maxCap > size - 1 then maxCap else size - 1;
    assert Breaks(Story(maxCap, most, true, maxCap), maxCap, [PutOp]);
    PutMany(Story(0, most, true, 0), maxCap, maxCap, [PutOp]);
    PopAll(Story(maxCap, most, false, maxCap), maxCap, Puts(maxCap) + [PutOp]);
    PutMany(Story(0, size - 1, false, 0), maxCap, maxCap, Pops(maxCap) + (Puts(maxCap) + [PutOp]));
    NewBreaksExactly(size, maxCap, Puts(maxCap) + (Pops(maxCap) + (Puts(maxCap) + [PutOp])));
  }
}
