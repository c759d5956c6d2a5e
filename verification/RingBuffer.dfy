// The ring buffer under mailboxes and pools (ringbuffer/single_ring_buffer.go) as a queue,
// and where it stops being one.

module RingBuffer {
  import opened Basics
  import opened Arith

  // ------------------------------------------------------------ masks and powers of two

  // The bitwise and of two numbers.
  function And(a: nat, b: nat): nat {
    if a == 0 || b == 0 then 0 else 2 * And(a / 2, b / 2) + if a % 2 == 1 && b % 2 == 1 then 1 else 0
  }

  // isPower
  predicate IsPower(v: int) { v > 0 && And(v, v - 1) == 0 }

  ghost predicate Power(v: int) { exists k :: v == Pow2(k) }

  lemma {:induction false} PowerOf(v: nat) returns (k: nat)
    requires IsPower(v)
    ensures v == Pow2(k)
  {
    if v == 1 {
      k := 0;
    } else if v % 2 == 1 {
      assert And(v, v - 1) == 2 * And(v / 2, v / 2);
      AndSelf(v / 2);
      assert false;
    } else {
      assert (v - 1) / 2 == v / 2 - 1;
      k := PowerOf(v / 2);
      k := k + 1;
    }
  }

  lemma {:induction false} AndSelf(a: nat)
    ensures And(a, a) == a
  {
    if a > 0 { AndSelf(a / 2); }
  }

  lemma {:induction false} PassesAsPower(k: nat)
    ensures IsPower(Pow2(k))
  {
    if k > 0 {
      PassesAsPower(k - 1);
      var v := Pow2(k);
      assert v / 2 == Pow2(k - 1) && (v - 1) / 2 == Pow2(k - 1) - 1;
    }
  }

  // What isPower accepts are the powers of two.
  lemma PowerExactly(v: int)
    ensures IsPower(v) <==> Power(v)
  {
    if IsPower(v) { var k := PowerOf(v); }
    if Power(v) {
      var k: nat :| v == Pow2(k);
      PassesAsPower(k);
    }
  }

  // A mask of ones is a remainder.
  lemma {:induction false} MaskIsMod(x: nat, k: nat)
    ensures And(x, Pow2(k) - 1) == x % Pow2(k)
  {
    if k == 0 {
      DivMod(x, 1, x, 0);
    } else if x == 0 {
      DivMod(0, Pow2(k), 0, 0);
    } else {
      var p := Pow2(k - 1);
      var mask := Pow2(k) - 1;
      assert mask / 2 == p - 1 && mask % 2 == 1;
      MaskIsMod(x / 2, k - 1);
      HalfMod(x, p);
    }
  }

  lemma HalfMod(x: nat, p: nat)
    requires p > 0
    ensures x % (2 * p) == 2 * (x / 2 % p) + x % 2
  {
    var q, r := x / 2 / p, x / 2 % p;
    assert x / 2 == q * p + r;
    assert q * (2 * p) == 2 * (q * p);
    DivMod(x, 2 * p, q, 2 * r + x % 2);
  }

  // The next place round a ring.
  lemma NextPlace(x: nat, cap: nat)
    requires Power(cap) && x < cap
    ensures And(x + 1, cap - 1) == if x + 1 == cap then 0 else x + 1
  {
    var k: nat :| cap == Pow2(k);
    MaskIsMod(x + 1, k);
    if x + 1 < cap { DivMod(x + 1, cap, 0, x + 1); } else { DivMod(x + 1, cap, 1, 0); }
  }

  // ------------------------------------------------------------ the places of a queue

  // The place of the i-th element of a queue that starts at head.
  function Place(head: nat, cap: nat, i: nat): nat {
    if head + i < cap then head + i else head + i - cap
  }

  function Count(head: nat, tail: nat, cap: nat): int {
    if head > tail then cap - head + tail else tail - head
  }

  // The next place is the head exactly if all places but one are taken.
  lemma FullMeans(head: nat, tail: nat, cap: nat)
    requires head < cap && tail < cap
    ensures (if tail + 1 == cap then 0 else tail + 1) == head <==> Count(head, tail, cap) + 1 == cap
  {
  }

  // What decides whether the buffer holds out: how many are in it, and its sizes. `at` is the
  // place of the tail in a cache that was cut.
  datatype Shape = Shape(n: nat, at: nat, cap: nat, maxCap: nat, cut: bool)

  datatype Op = PutOp | PopOp

  // The shape after an operation; None if it panics.
  function Next(s: Shape, op: Op): Option<Shape> {
    match op
    case PutOp =>
      if s.n + 1 == s.cap then Some(Shape(s.n + 1, 0, 2 * s.cap, s.maxCap, false))
      else if s.cut && s.at == s.maxCap then None
      else Some(s.(n := s.n + 1, at := if s.cut then s.at + 1 else 0))
    case PopOp =>
      if s.n == 0 then Some(s)
      else if s.n == 1 && s.cap > s.maxCap then Some(Shape(0, 0, s.cap, s.maxCap, true))
      else Some(s.(n := s.n - 1))
  }

  class SingleRingBuffer<V> {
    var head: nat
    var tail: nat
    var cap: nat
    var maxCap: nat
    var cache: array<Option<V>>
    ghost var q: seq<V>  // what is in the queue

    // Either the cache is as long as it is said to be, or it was cut to maxCap and only its
    // beginning is in use.
    ghost predicate Valid()
      reads this, cache
    {
      && Power(cap) && Power(maxCap) && head < cap && tail < cap
      && (cache.Length == cap || (cache.Length == maxCap < cap && head <= tail <= maxCap))
      && |q| == Count(head, tail, cap)
      && forall i :: 0 <= i < |q| ==> Place(head, cap, i) < cache.Length && cache[Place(head, cap, i)] == Some(q[i])
    }

    // The cache is shorter than it is taken to be.
    predicate Cut()
      reads this, cache
    {
      cache.Length < cap
    }

    ghost function ShapeOf(): Shape
      reads this, cache
    {
      Shape(|q|, if Cut() then tail else 0, cap, maxCap, Cut())
    }

    // For sizes that are powers of two.
    constructor (size: nat, maxSize: nat)
      requires Power(size) && Power(maxSize)
      ensures Valid() && q == [] && ShapeOf() == Shape(0, 0, size, maxSize, false) && fresh(cache)
    {
      head, tail, cap, maxCap, q := 0, 0, size, maxSize, [];
      cache := new Option<V>[size](_ => None);
    }

    method Size() returns (n: nat)
      requires Valid()
      ensures n == |q|
    {
      if head > tail {
        return cap - head + tail;
      }
      return tail - head;
    }

    // Put; `crash` says that it panics, and the value is lost.
    method Put(value: V) returns (crash: bool)
      requires Valid()
      modifies this, cache
      ensures Valid() && (cache == old(cache) || fresh(cache))
      ensures q == if crash then old(q) else old(q) + [value]
      ensures Next(old(ShapeOf()), PutOp) == if crash then None else Some(ShapeOf())
    {
      var next := Room();
      crash := Store(value, next);
    }

    // The beginning of Put: the next place of the tail, in a bigger cache if there is none.
    method Room() returns (next: nat)
      requires Valid()
      modifies this`head, this`tail, this`cap, this`cache
      ensures Valid() && (cache == old(cache) || fresh(cache))
      ensures next != head && next == if tail + 1 == cap then 0 else tail + 1
      ensures ShapeOf() == old(if |q| + 1 == cap then Shape(|q|, 0, 2 * cap, maxCap, false) else ShapeOf())
    {
      NextPlace(tail, cap);
      FullMeans(head, tail, cap);
      next := And(tail + 1, cap - 1);
      if next == head {
        Expand();
        NextPlace(tail, cap);
        next := And(tail + 1, cap - 1);
      }
    }

    // The end of Put, when there is room as far as the counters go.
    method Store(value: V, next: nat) returns (crash: bool)
      requires Valid() && next != head && next == if tail + 1 == cap then 0 else tail + 1
      modifies this`tail, this`q, cache
      ensures Valid() && q == if crash then old(q) else old(q) + [value]
      ensures crash == old(ShapeOf().cut && ShapeOf().at == maxCap)
      ensures ShapeOf()
              == old(if crash then ShapeOf() else ShapeOf().(n := |q| + 1, at := if Cut() then tail + 1 else 0))
    {
      if tail >= cache.Length {
        return true;
      }
      crash := false;
      assert Place(head, cap, |q|) == tail;
      assert forall i :: 0 <= i < |q| ==> Place(head, cap, i) != tail;
      cache[tail] := Some(value);
      tail := next;
      q := q + [value];
    }

    method Pop() returns (r: Option<V>)
      requires Valid()
      modifies this, cache
      ensures Valid() && (cache == old(cache) || fresh(cache))
      ensures r == if old(q) == [] then None else Some(old(q)[0])
      ensures q == if old(q) == [] then [] else old(q)[1..]
      ensures Next(old(ShapeOf()), PopOp) == Some(ShapeOf())
    {
      if tail == head {
        return None;
      }
      r := cache[head];
      assert Place(head, cap, 0) == head;
      TakeFirst();
      if tail == head && cap > maxCap {
        Narrow();
      }
    }

    method TakeFirst()
      requires Valid() && q != []
      modifies this`head, this`q, cache
      ensures Valid() && q == old(q)[1..]
      ensures head == if old(head) + 1 == cap then 0 else old(head) + 1
    {
      NextPlace(head, cap);
      assert forall i :: 0 < i < |q| ==> Place(head, cap, i) != head;
      cache[head] := None;
      var next := And(head + 1, cap - 1);
      assert forall i :: 0 <= i < |q| - 1 ==> Place(next, cap, i) == Place(head, cap, i + 1);
      head := next;
      q := q[1..];
    }

    // The queue, in order, at the beginning of a cache twice as long.
    method Unroll() returns (cache': array<Option<V>>, size: nat)
      requires Valid()
      ensures fresh(cache') && cache'.Length == 2 * cap && size == |q|
      ensures forall i :: 0 <= i < |q| ==> cache'[i] == Some(q[i])
    {
      cache' := new Option<V>[cap * 2](_ => None);
      if head > tail {
        var idx := cap - head;
        size := idx + tail;
        Copy(cache', 0, cache, head, cap);
        Copy(cache', idx, cache, 0, tail);
        forall i | 0 <= i < |q|
          ensures cache'[i] == Some(q[i])
        {
          assert cache[Place(head, cap, i)] == Some(q[i]);
        }
      } else {
        size := tail - head;
        Copy(cache', 0, cache, head, tail);
        forall i | 0 <= i < |q|
          ensures cache'[i] == Some(q[i])
        {
          assert cache[Place(head, cap, i)] == Some(q[i]);
        }
      }
    }

    // The queue is full: it moves to a cache twice as long.
    method Expand()
      requires Valid() && |q| == cap - 1
      modifies this`head, this`tail, this`cap, this`cache
      ensures Valid() && fresh(cache) && head == 0 && tail == |q|
      ensures ShapeOf() == Shape(|q|, 0, 2 * old(cap), maxCap, false)
    {
      var cache', size := Unroll();
      Doubled(cap);
      head, tail, cache, cap := 0, size, cache', cap * 2;
    }

    // The cache is replaced by one of maxCap places; cap is left as it was.
    method Narrow()
      requires Valid() && q == [] && cap > maxCap
      modifies this`head, this`tail, this`cache
      ensures Valid() && Cut() && head == 0 && tail == 0 && fresh(cache)
    {
      cache := new Option<V>[maxCap](_ => None);
      head, tail := 0, 0;
    }
  }

  // NewSingleRingBuffer
  method NewSingleRingBuffer<V>(size: int, maxSize: int) returns (s: SingleRingBuffer?<V>)
    ensures s != null <==> Power(size) && Power(maxSize)
    ensures s != null ==>
              fresh(s) && fresh(s.cache) && s.Valid() && s.q == [] && s.ShapeOf() == Shape(0, 0, size, maxSize, false)
  {
    PowerExactly(size);
    PowerExactly(maxSize);
    s := null;
    if IsPower(size) && IsPower(maxSize) {
      s := new SingleRingBuffer(size, maxSize);
    }
  }

  // As httpc asks for: no queue at all.
  lemma TenIsNoPower()
    ensures !Power(10) && !Power(100)
  {
    assert And(5, 4) == 4 && And(50, 49) == 2 * And(25, 24);
    PowerExactly(10);
    PowerExactly(100);
  }

  lemma Doubled(cap: nat)
    requires Power(cap)
    ensures Power(cap * 2)
  {
    var k: nat :| cap == Pow2(k);
    assert cap * 2 == Pow2(k + 1);
  }

  // copy(dst[at:], src[from:to])
  method Copy<T>(dst: array<T>, at: nat, src: array<T>, from: nat, to: nat)
    requires dst != src && from <= to <= src.Length && at + to - from <= dst.Length
    modifies dst
    ensures forall i :: 0 <= i < at ==> dst[i] == old(dst[i])
    ensures forall i :: at <= i < at + to - from ==> dst[i] == src[from + i - at]
  {
    forall i | 0 <= i < to - from {
      dst[at + i] := src[from + i];
    }
  }
}
