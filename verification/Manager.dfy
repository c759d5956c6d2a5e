// The pool of workers behind an HTTP engine (httpd/manager.go): requests go to an idle worker,
// to a new one, or wait.

module Manager {
  import opened Arith
  import opened Basics
  import opened RingBuffer
  import RingRuns

  // ------------------------------------------------------------ on values

  // `sent` is what has been given to workers, in order; busy workers are those that have not
  // come back since.
  datatype Pool<R> = Pool(idle: seq<nat>, busy: set<nat>, waiting: seq<R>, workers: nat, max: int, sent: seq<(nat, R)>)

  datatype Event<R> = Request(r: R) | Done(worker: nat)

  function Give<R>(p: Pool<R>, w: nat, r: R): Pool<R> {
    p.(busy := p.busy + {w}, sent := p.sent + [(w, r)])
  }

  function Step<R>(p: Pool<R>, e: Event<R>): Pool<R> {
    match e
    case Request(r) =>
      if p.idle != [] then Give(p.(idle := p.idle[1..]), p.idle[0], r)
      else if p.workers < p.max then Give(p.(workers := p.workers + 1), p.workers, r)
      else p.(waiting := p.waiting + [r])
    case Done(w) =>
      if p.waiting != [] then Give(p.(waiting := p.waiting[1..]), w, p.waiting[0])
      else p.(idle := p.idle + [w], busy := p.busy - {w})
  }

  // Idle and busy workers are all there are and no more than allowed, and requests wait only
  // if no worker is idle and no more may be started.
  ghost predicate Good<R>(p: Pool<R>) {
    && |p.idle| + |p.busy| == p.workers && (p.workers <= p.max || p.workers == 0)
    && (forall i, j :: 0 <= i < j < |p.idle| ==> p.idle[i] != p.idle[j])
    && (forall i :: 0 <= i < |p.idle| ==> p.idle[i] !in p.busy && p.idle[i] < p.workers)
    && (forall w :: w in p.busy ==> w < p.workers)
    && (p.waiting != [] ==> p.idle == [] && p.workers >= p.max)
  }

  function Requests<R>(sent: seq<(nat, R)>): seq<R> {
    if sent == [] then [] else Requests(sent[..|sent| - 1]) + [sent[|sent| - 1].1]
  }

  // The requests in the order they were given out, and then those that wait.
  function Served<R>(p: Pool<R>): seq<R> { Requests(p.sent) + p.waiting }

  lemma OneMoreServed<R>(sent: seq<(nat, R)>, w: nat, r: R)
    ensures Requests(sent + [(w, r)]) == Requests(sent) + [r]
  {
    assert (sent + [(w, r)])[..|sent|] == sent;
  }

  lemma RequestIsGood<R>(p: Pool<R>, r: R)
    requires Good(p)
    ensures Good(Step(p, Request(r)))
  {
    if p.idle != [] {
      assert p.busy !! {p.idle[0]} && |p.busy + {p.idle[0]}| == |p.busy| + 1;
    } else if p.workers < p.max {
      assert p.busy !! {p.workers} && |p.busy + {p.workers}| == |p.busy| + 1;
    }
  }

  lemma DoneIsGood<R>(p: Pool<R>, w: nat)
    requires Good(p) && w in p.busy
    ensures Good(Step(p, Done(w)))
  {
    assert p.waiting != [] ==> p.busy + {w} == p.busy;
    assert p.busy == (p.busy - {w}) + {w};
  }

  lemma StepServes<R>(p: Pool<R>, e: Event<R>)
    ensures Served(Step(p, e)) == Served(p) + (if e.Request? then [e.r] else []) ||
            (e.Request? && p.waiting != [] && (p.idle != [] || p.workers < p.max))
  {
    match e
    case Request(r) =>
      OneMoreServed(p.sent, if p.idle != [] then p.idle[0] else p.workers, r);
      assert p.waiting == [] ==> (Requests(p.sent) + [r]) + p.waiting == (Requests(p.sent) + p.waiting) + [r];
      assert Requests(p.sent) + (p.waiting + [r]) == (Requests(p.sent) + p.waiting) + [r];
    case Done(w) =>
      if p.waiting != [] {
        OneMoreServed(p.sent, w, p.waiting[0]);
        assert p.waiting == [p.waiting[0]] + p.waiting[1..];
      }
  }

  // A worker that was busy is given nothing: only one that is idle, new or has just come back.
  lemma StepIsGood<R>(p: Pool<R>, e: Event<R>)
    requires Good(p) && (e.Done? ==> e.worker in p.busy)
    ensures Good(Step(p, e))
    ensures Served(Step(p, e)) == Served(p) + if e.Request? then [e.r] else []
    ensures e.Request? && Step(p, e).sent != p.sent ==> Step(p, e).sent[|p.sent|].0 !in p.busy
  {
    StepServes(p, e);
    if e.Request? { RequestIsGood(p, e.r); } else { DoneIsGood(p, e.worker); }
  }

  // A run in which only busy workers come back.
  ghost predicate Proper<R>(p: Pool<R>, es: seq<Event<R>>)
    decreases |es|
  {
    es == [] || ((es[0].Done? ==> es[0].worker in p.busy) && Proper(Step(p, es[0]), es[1..]))
  }

  function Run<R>(p: Pool<R>, es: seq<Event<R>>): Pool<R>
    decreases |es|
  {
    if es == [] then p else Run(Step(p, es[0]), es[1..])
  }

  function Arrived<R>(es: seq<Event<R>>): seq<R> {
    if es == [] then [] else (if es[0].Request? then [es[0].r] else []) + Arrived(es[1..])
  }

  // In every run the pool stays good, and requests are given out in the order they came.
  lemma {:induction false} RunIsGood<R>(p: Pool<R>, es: seq<Event<R>>)
    requires Good(p) && Proper(p, es)
    ensures Good(Run(p, es)) && Served(Run(p, es)) == Served(p) + Arrived(es)
    decreases |es|
  {
    if es == [] {
      assert Served(p) + [] == Served(p);
    } else {
      StepIsGood(p, es[0]);
      RunIsGood(Step(p, es[0]), es[1..]);
      Associate(Served(p), if es[0].Request? then [es[0].r] else [], Arrived(es[1..]));
    }
  }

  // ------------------------------------------------------------ the ring buffers behind the pool

  // What an event does to the queue of idle workers.
  function WorkerOps<R>(p: Pool<R>, e: Event<R>): seq<Op> {
    match e
    case Request(_) => if p.idle != [] then [PopOp] else []
    case Done(_) => if p.waiting == [] then [PutOp] else []
  }

  // And to that of the requests that wait.
  function WaitOps<R>(p: Pool<R>, e: Event<R>): seq<Op> {
    match e
    case Request(_) => if p.idle == [] && p.workers >= p.max then [PutOp] else []
    case Done(_) => [PopOp]
  }

  function AllWorkerOps<R>(p: Pool<R>, es: seq<Event<R>>): seq<Op>
    decreases |es|
  {
    if es == [] then [] else WorkerOps(p, es[0]) + AllWorkerOps(Step(p, es[0]), es[1..])
  }

  function AllWaitOps<R>(p: Pool<R>, es: seq<Event<R>>): seq<Op>
    decreases |es|
  {
    if es == [] then [] else WaitOps(p, es[0]) + AllWaitOps(Step(p, es[0]), es[1..])
  }

  predicate FewWait<R>(p: Pool<R>, most: nat, es: seq<Event<R>>)
    decreases |es|
  {
    |p.waiting| < most && (es == [] || FewWait(Step(p, es[0]), most, es[1..]))
  }

  lemma {:induction false} FewWaitingBelow<R>(p: Pool<R>, most: nat, es: seq<Event<R>>)
    requires FewWait(p, most, es)
    ensures RingRuns.StaysBelow(|p.waiting|, most, AllWaitOps(p, es))
    decreases |es|
  {
    if es != [] {
      var now, later := WaitOps(p, es[0]), AllWaitOps(Step(p, es[0]), es[1..]);
      FewWaitingBelow(Step(p, es[0]), most, es[1..]);
      assert if now == [] then now + later == later else (now + later)[1..] == later;
    }
  }

  // A run in which fewer than 2048 requests wait at a time loses none.
  lemma FewNeverCrash<R>(n: int, es: seq<Event<R>>)
    requires FewWait(Fresh(n), 2048, es)
    ensures RingRuns.Run(Shape(0, 0, 128, 2048, false), AllWaitOps(Fresh(n), es)).Some?
  {
    WaitSizes();
    FewWaitingBelow(Fresh(n), 2048, es);
    RingRuns.SafeWhileSmall(Shape(0, 0, 128, 2048, false), AllWaitOps(Fresh(n), es));
  }

  lemma WaitSizes()
    ensures Power(128) && Power(2048) && Pow2(7) == 128
  {
    assert Pow2(7) == 128 && Pow2(11) == 16 * Pow2(7);
  }

  function Fresh<R>(max: int): Pool<R> { Pool([], {}, [], 0, max, []) }

  // As no more workers are idle than there are.
  lemma {:induction false} IdleStayBelow<R>(p: Pool<R>, most: nat, es: seq<Event<R>>)
    requires Good(p) && Proper(p, es) && p.max < most && 0 < most
    ensures RingRuns.StaysBelow(|p.idle|, most, AllWorkerOps(p, es))
    decreases |es|
  {
    if es != [] {
      var now, later := WorkerOps(p, es[0]), AllWorkerOps(Step(p, es[0]), es[1..]);
      StepIsGood(p, es[0]);
      IdleStayBelow(Step(p, es[0]), most, es[1..]);
      assert if now == [] then now + later == later else (now + later)[1..] == later;
    }
  }

  // ------------------------------------------------------------ a pool that is too big

  // A proper run leads from one pool to the other, with these operations on the idle workers.
  ghost predicate Leads<R(!new)>(p: Pool<R>, q: Pool<R>, ops: seq<Op>) {
    exists es :: Proper(p, es) && Run(p, es) == q && AllWorkerOps(p, es) == ops
  }

  lemma {:induction false} Joined<R>(p: Pool<R>, a: seq<Event<R>>, b: seq<Event<R>>)
    requires Proper(p, a) && Proper(Run(p, a), b)
    ensures Proper(p, a + b) && Run(p, a + b) == Run(Run(p, a), b)
    ensures AllWorkerOps(p, a + b) == AllWorkerOps(p, a) + AllWorkerOps(Run(p, a), b)
    decreases |a|
  {
    if a == [] {
      assert a + b == b;
    } else {
      assert (a + b)[1..] == a[1..] + b;
      Joined(Step(p, a[0]), a[1..], b);
      Associate(WorkerOps(p, a[0]), AllWorkerOps(Step(p, a[0]), a[1..]), AllWorkerOps(Run(p, a), b));
    }
  }

  lemma LeadsOn<R(!new)>(p: Pool<R>, q: Pool<R>, t: Pool<R>, a: seq<Op>, b: seq<Op>)
    requires Leads(p, q, a) && Leads(q, t, b)
    ensures Leads(p, t, a + b)
  {
    var es :| Proper(p, es) && Run(p, es) == q && AllWorkerOps(p, es) == a;
    var fs :| Proper(q, fs) && Run(q, fs) == t && AllWorkerOps(q, fs) == b;
    Joined(p, es, fs);
  }

  lemma OneLeads<R(!new)>(p: Pool<R>, e: Event<R>)
    requires e.Done? ==> e.worker in p.busy
    ensures Leads(p, Step(p, e), WorkerOps(p, e))
  {
    var es := [e];
    var next := Step(p, e);
    assert es[1..] == [] && Proper(next, es[1..]) && Run(next, es[1..]) == next && AllWorkerOps(next, es[1..]) == [];
    assert Proper(p, es) && Run(p, es) == Step(p, e) && AllWorkerOps(p, es) == WorkerOps(p, e) + [];
  }

  lemma NoneLeads<R(!new)>(p: Pool<R>)
    ensures Leads(p, p, [])
  {
    assert Proper(p, []) && Run(p, []) == p && AllWorkerOps(p, []) == [];
  }

  // Requests start new workers.
  lemma {:induction false} Start<R(!new)>(p: Pool<R>, k: nat, r: R) returns (q: Pool<R>)
    requires Good(p) && p.idle == [] && p.waiting == [] && p.workers + k <= p.max
    ensures Good(q) && Leads(p, q, []) && q.idle == [] && q.waiting == [] && q.workers == p.workers + k &&
            q.max == p.max
    decreases k
  {
    if k == 0 {
      NoneLeads(p);
      q := p;
    } else {
      var next := Step(p, Request(r));
      StepIsGood(p, Request(r));
      OneLeads(p, Request(r));
      q := Start(next, k - 1, r);
      LeadsOn(p, next, q, [], []);
    }
  }

  // Busy workers come back.
  lemma {:induction false} Return<R(!new)>(p: Pool<R>, k: nat) returns (q: Pool<R>)
    requires Good(p) && p.waiting == [] && k <= |p.busy|
    ensures Good(q) && Leads(p, q, RingRuns.Puts(k)) && q.waiting == []
    ensures |q.idle| == |p.idle| + k && q.workers == p.workers && q.max == p.max
    decreases k
  {
    if k == 0 {
      NoneLeads(p);
      q := p;
    } else {
      assert p.busy != {};
      var w :| w in p.busy;
      var next := Step(p, Done(w));
      StepIsGood(p, Done(w));
      OneLeads(p, Done(w));
      q := Return(next, k - 1);
      LeadsOn(p, next, q, [PutOp], RingRuns.Puts(k - 1));
    }
  }

  // Idle workers get requests.
  lemma {:induction false} Ask<R(!new)>(p: Pool<R>, k: nat, r: R) returns (q: Pool<R>)
    requires Good(p) && k <= |p.idle|
    ensures Good(q) && Leads(p, q, RingRuns.Pops(k)) && q.waiting == p.waiting
    ensures |q.idle| == |p.idle| - k && q.workers == p.workers && q.max == p.max
    decreases k
  {
    if k == 0 {
      NoneLeads(p);
      q := p;
    } else {
      var next := Step(p, Request(r));
      StepIsGood(p, Request(r));
      OneLeads(p, Request(r));
      q := Ask(next, k - 1, r);
      LeadsOn(p, next, q, [PopOp], RingRuns.Pops(k - 1));
    }
  }

  // What a queue of idle workers does not survive, if it is as long as there are workers.
  function Overfill(most: nat): seq<Op> {
    RingRuns.Puts(most) + (RingRuns.Pops(most) + (RingRuns.Puts(most) + [PopOp, PutOp]))
  }

  lemma OverfillBreaks(size: nat, most: nat)
    requires Power(size) && Power(most) && most >= 2
    ensures RingRuns.Run(Shape(0, 0, size, most, false), Overfill(most)) == None
  {
    var held := if most > size - 1 then most else size - 1;
    var end := [PopOp, PutOp];
    assert end[1..] == [PutOp];
    var full := RingRuns.Story(most, held, true, most);
    assert RingRuns.Breaks(RingRuns.Told(full, most, PopOp), most, [PutOp]);
    assert RingRuns.Breaks(full, most, end);
    RingRuns.PutMany(RingRuns.Story(0, held, true, 0), most, most, end);
    RingRuns.PopAll(RingRuns.Story(most, held, false, most), most, RingRuns.Puts(most) + end);
    RingRuns.PutMany(RingRuns.Story(0, size - 1, false, 0), most, most,
      RingRuns.Pops(most) + (RingRuns.Puts(most) + end));
    RingRuns.NewBreaksExactly(size, most, Overfill(most));
  }

  // All workers that are busy come back, one gets a request and comes back again.
  lemma BackAndOnce<R(!new)>(p: Pool<R>, most: nat, r: R) returns (q: Pool<R>)
    requires Good(p) && p.waiting == [] && 2 <= most <= |p.busy|
    ensures Leads(p, q, RingRuns.Puts(most) + [PopOp, PutOp])
  {
    var back := Return(p, most);
    var again := Ask(back, 1, r);
    q := Return(again, 1);
    assert RingRuns.Pops(1) == [PopOp] && RingRuns.Puts(1) == [PutOp];
    LeadsOn(back, again, q, [PopOp], [PutOp]);
    LeadsOn(p, back, q, RingRuns.Puts(most), [PopOp] + [PutOp]);
  }

  // All workers start and come back, all get requests and come back, one more gets a request:
  // when it comes back, the queue has no place for it.
  lemma BigPoolOverfills<R(!new)>(n: int, most: nat, r: R) returns (q: Pool<R>)
    requires 2 <= most <= n
    ensures Leads(Fresh(n), q, Overfill(most))
  {
    var q1 := Start(Fresh(n), most, r);
    var q2 := Return(q1, most);
    var q3 := Ask(q2, most, r);
    q := BackAndOnce(q3, most, r);
    LeadsOn(q2, q3, q, RingRuns.Pops(most), RingRuns.Puts(most) + [PopOp, PutOp]);
    LeadsOn(q1, q2, q, RingRuns.Puts(most), RingRuns.Pops(most) + (RingRuns.Puts(most) + [PopOp, PutOp]));
    LeadsOn(Fresh(n), q1, q, [], Overfill(most));
    assert [] + Overfill(most) == Overfill(most);
  }

  // ------------------------------------------------------------ the sizes of the pool

  // The size that the queue of idle workers goes back to: a shift of 64 bits cut to 32, or 128.
  // A number below 1 wraps round to 64 bits.
  function QueueMax(n: int): nat {
    var k := if n <= 0 then 64 else Len(n - 1);
    var shifted: int := if k <= 30 then Pow2(k) else if k == 31 then -0x8000_0000 else 0;
    if shifted > 128 then shifted else 128
  }

  // The power of two that holds n numbers holds one more, unless n is a power of two.
  lemma RoundedExactly(n: nat)
    requires n > 0
    ensures Power(n) <==> n == Pow2(Len(n - 1))
  {
    var k := Len(n - 1);
    if Power(n) {
      var j: nat :| n == Pow2(j);
      if j < k { PowGrows(j + 1, k); }
      if k < j { PowGrows(k + 1, j); }
    }
  }

  lemma QueueMaxIsPower(n: int)
    ensures Power(QueueMax(n)) && QueueMax(n) >= 128
  {
    assert Pow2(7) == 128;
    assert n > 0 ==> Pow2(Len(n - 1)) > 0;
  }

  lemma BigPowers()
    ensures Pow2(7) == 128 && Pow2(8) == 256 && Pow2(30) == 0x4000_0000 && Pow2(31) == 0x8000_0000
  {
    assert Pow2(10) == 1024 && Pow2(20) == 1024 * Pow2(10);
  }

  lemma RoundedSize(n: nat)
    requires n > 0
    ensures n < QueueMax(n) <==> n < 128 || (n < 0x4000_0000 && n != Pow2(Len(n - 1)))
  {
    var k := Len(n - 1);
    BigPowers();
    if k <= 7 {
      PowGrows(k, 7);
    } else if k <= 30 {
      PowGrows(8, k);
      PowGrows(k, 30);
    } else {
      PowGrows(31, k);
    }
  }

  // The queue is longer than the pool is big, unless that is a power of two or very big.
  lemma SizeExactly(n: int)
    ensures n < QueueMax(n) <==> n < 128 || (n < 0x4000_0000 && !Power(n))
  {
    if n > 0 {
      RoundedSize(n);
      RoundedExactly(n);
    }
  }

  // The queue of the idle workers holds out in a run.
  predicate Holds<R>(n: int, es: seq<Event<R>>) {
    RingRuns.Run(Shape(0, 0, 128, QueueMax(n), false), AllWorkerOps(Fresh<R>(n), es)).Some?
  }

  // Over every run: a request is lost to a panic if and only if the story of its queue breaks,
  // and a worker if and only if that of the other does.
  lemma CrashesExactly<R>(n: int, es: seq<Event<R>>)
    ensures var ops := AllWaitOps(Fresh(n), es);
            RingRuns.Run(Shape(0, 0, 128, 2048, false), ops) == None <==>
              RingRuns.Breaks(RingRuns.Story(0, 127, false, 0), 2048, ops)
    ensures var ops := AllWorkerOps(Fresh(n), es);
            !Holds(n, es) <==> RingRuns.Breaks(RingRuns.Story(0, 127, false, 0), QueueMax(n), ops)
  {
    WaitSizes();
    QueueMaxIsPower(n);
    RingRuns.NewBreaksExactly(128, 2048, AllWaitOps(Fresh(n), es));
    RingRuns.NewBreaksExactly(128, QueueMax(n), AllWorkerOps(Fresh(n), es));
  }

  lemma SmallPoolHolds<R>(n: int, es: seq<Event<R>>)
    requires n < QueueMax(n) && Proper(Fresh<R>(n), es)
    ensures Holds(n, es)
  {
    WaitSizes();
    QueueMaxIsPower(n);
    IdleStayBelow(Fresh<R>(n), QueueMax(n), es);
    RingRuns.SafeWhileSmall(Shape(0, 0, 128, QueueMax(n), false), AllWorkerOps(Fresh<R>(n), es));
  }

  lemma BigPoolBreaks<R(!new)>(n: int, r: R) returns (es: seq<Event<R>>)
    requires n >= QueueMax(n)
    ensures Proper(Fresh(n), es) && !Holds(n, es)
  {
    WaitSizes();
    QueueMaxIsPower(n);
    var q := BigPoolOverfills(n, QueueMax(n), r);
    OverfillBreaks(128, QueueMax(n));
    es :| Proper(Fresh(n), es) && Run(Fresh(n), es) == q && AllWorkerOps(Fresh(n), es) == Overfill(QueueMax(n));
  }

  // A pool of any size loses no worker, in any run, if and only if it has fewer than 128
  // workers, or fewer than 2^30 and no power of two.
  lemma WorkersStayExactly<R(!new)>(n: int, r: R)
    ensures (forall es: seq<Event<R>> :: Proper(Fresh(n), es) ==> Holds(n, es)) <==>
            n < 128 || (n < 0x4000_0000 && !Power(n))
  {
    SizeExactly(n);
    if n < QueueMax(n) {
      forall es: seq<Event<R>> | Proper(Fresh(n), es)
        ensures Holds(n, es)
      {
        SmallPoolHolds(n, es);
      }
    } else {
      var es := BigPoolBreaks(n, r);
    }
  }

  // ------------------------------------------------------------ as it runs

  class ManagerState<R> {
    var workerNum: nat
    const maxWorkerNum: int
    const worker: SingleRingBuffer<nat>
    const wait: SingleRingBuffer<R>
    var sent: seq<(nat, R)>  // the casts to workers
    ghost var busy: set<nat>

    ghost predicate Valid()
      reads this, worker, worker.cache, wait, wait.cache
    {
      worker.Valid() && wait.Valid() && {worker, worker.cache} !! {wait, wait.cache} &&
        {worker, worker.cache, wait, wait.cache} !! {this}
    }

    ghost function View(): Pool<R>
      reads this, worker, wait
    {
      Pool(worker.q, busy, wait.q, workerNum, maxWorkerNum, sent)
    }

    constructor (maxWorkerNum: int)
      ensures Valid() && View() == Fresh(maxWorkerNum) && Good(View())
      ensures worker.ShapeOf() == Shape(0, 0, 128, QueueMax(maxWorkerNum), false)
      ensures wait.ShapeOf() == Shape(0, 0, 128, 2048, false)
    {
      this.maxWorkerNum := maxWorkerNum;
      var idle := NewSingleRingBuffer(128, QueueMax(maxWorkerNum));
      var queue := NewSingleRingBuffer(128, 2048);
      QueueMaxIsPower(maxWorkerNum);
      WaitSizes();
      worker, wait := idle, queue;
      workerNum, sent, busy := 0, [], {};
    }

    method Send(w: nat, r: R)
      modifies this`sent, this`busy
      ensures sent == old(sent) + [(w, r)] && busy == old(busy) + {w}
      ensures worker.ShapeOf() == old(worker.ShapeOf()) && wait.ShapeOf() == old(wait.ShapeOf())
    {
      sent := sent + [(w, r)];
      busy := busy + {w};
    }

    method TakeIdle() returns (w: nat)
      requires Valid() && worker.q != []
      modifies worker, worker.cache
      ensures Valid() && w == old(worker.q)[0] && View() == old(View()).(idle := old(worker.q)[1..])
      ensures wait.ShapeOf() == old(wait.ShapeOf()) && Next(old(worker.ShapeOf()), PopOp) == Some(worker.ShapeOf())
    {
      var first := worker.Pop();
      w := first.value;
    }

    method PutIdle(w: nat) returns (crash: bool)
      requires Valid()
      modifies worker, worker.cache
      ensures Valid() && View() == if crash then old(View()) else old(View()).(idle := old(worker.q) + [w])
      ensures wait.ShapeOf() == old(wait.ShapeOf())
      ensures Next(old(worker.ShapeOf()), PutOp) == if crash then None else Some(worker.ShapeOf())
    {
      crash := worker.Put(w);
    }

    method TakeWaiting() returns (r: Option<R>)
      requires Valid()
      modifies wait, wait.cache
      ensures Valid() && r == if old(wait.q) == [] then None else Some(old(wait.q)[0])
      ensures View() == old(View()).(waiting := if r == None then [] else old(wait.q)[1..])
      ensures worker.ShapeOf() == old(worker.ShapeOf()) && Next(old(wait.ShapeOf()), PopOp) == Some(wait.ShapeOf())
    {
      r := wait.Pop();
    }

    method PutWaiting(r: R) returns (crash: bool)
      requires Valid()
      modifies wait, wait.cache
      ensures Valid() && View() == if crash then old(View()) else old(View()).(waiting := old(wait.q) + [r])
      ensures worker.ShapeOf() == old(worker.ShapeOf())
      ensures Next(old(wait.ShapeOf()), PutOp) == if crash then None else Some(wait.ShapeOf())
    {
      crash := wait.Put(r);
    }

    // newRequest; `crash` says that the queue panics, and the request is lost.
    method NewRequest(r: R) returns (crash: bool)
      requires Valid()
      modifies this`workerNum, this`sent, this`busy, worker, worker.cache, wait, wait.cache
      ensures Valid() && View() == if crash then old(View()) else Step(old(View()), Request(r))
      ensures RingRuns.Run(old(worker.ShapeOf()), WorkerOps(old(View()), Request(r))) == Some(worker.ShapeOf())
      ensures RingRuns.Run(old(wait.ShapeOf()), WaitOps(old(View()), Request(r))) == if crash then None
              else Some(wait.ShapeOf())
    {
      crash := false;
      var n := worker.Size();
      if n > 0 {
        var w := TakeIdle();
        Send(w, r);
      } else if workerNum < maxWorkerNum {
        workerNum := workerNum + 1;
        Send(workerNum - 1, r);
      } else {
        crash := PutWaiting(r);
      }
    }

    // A worker comes back; if the queue panics it is lost to the pool.
    method WorkerDone(w: nat) returns (crash: bool)
      requires Valid() && w in busy
      modifies this`sent, this`busy, worker, worker.cache, wait, wait.cache
      ensures Valid() && (!crash ==> View() == Step(old(View()), Done(w)))
      ensures crash ==> View() == old(View()).(busy := old(busy) - {w})
      ensures RingRuns.Run(old(worker.ShapeOf()), WorkerOps(old(View()), Done(w))) == if crash then None
              else Some(worker.ShapeOf())
      ensures RingRuns.Run(old(wait.ShapeOf()), WaitOps(old(View()), Done(w))) == Some(wait.ShapeOf())
    {
      crash := false;
      var req := TakeWaiting();
      if req.Some? {
        Send(w, req.value);
      } else {
        busy := busy - {w};
        crash := PutIdle(w);
      }
    }
  }
}
