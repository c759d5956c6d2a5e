// The two stages of a mailbox (kernel/context.go, kernel/actor.go): the channel of an actor,
// and the queue where it keeps what comes while it waits for the answer to a call.

module Mailbox {
  import opened Arith
  import opened Basics
  import opened RingBuffer
  import RingRuns

  // ------------------------------------------------------------ on values

  // `routed` is what the actor has cast to itself by way of the self-sender, and is not there yet.
  datatype Mail<M> = Mail(handled: seq<M>, queued: seq<M>, channel: seq<M>, routed: seq<M>)

  datatype Event<M> =
    | Arrive(m: M)    // somebody casts to the actor
    | Deliver         // the self-sender passes on a message
    | TakeInCall      // the actor, waiting in a call, takes a message from its channel
    | CastSelf(m: M)
    | Handle          // the actor handles its next message

  function Step<M>(s: Mail<M>, e: Event<M>): Mail<M> {
    match e
    case Arrive(m) => s.(channel := s.channel + [m])
    case Deliver => if s.routed == [] then s else s.(channel := s.channel + [s.routed[0]], routed := s.routed[1..])
    case TakeInCall =>
      if s.channel == [] then s else s.(queued := s.queued + [s.channel[0]], channel := s.channel[1..])
    case CastSelf(m) => if s.channel == [] then s.(queued := s.queued + [m]) else s.(routed := s.routed + [m])
    case Handle =>
      if s.queued != [] then s.(handled := s.handled + [s.queued[0]], queued := s.queued[1..])
      else if s.channel != [] then s.(handled := s.handled + [s.channel[0]], channel := s.channel[1..])
      else s
  }

  // All messages that have come, in the order they are and will be handled.
  function Order<M>(s: Mail<M>): seq<M> { s.handled + s.queued + s.channel }

  // What an event adds to it.
  function Comes<M>(s: Mail<M>, e: Event<M>): seq<M> {
    match e
    case Arrive(m) => [m]
    case Deliver => if s.routed == [] then [] else [s.routed[0]]
    case CastSelf(m) => if s.channel == [] then [m] else []
    case _ => []
  }

  lemma StepKeepsOrder<M>(s: Mail<M>, e: Event<M>)
    ensures Order(Step(s, e)) == Order(s) + Comes(s, e)
    ensures s.handled <= Step(s, e).handled
  {
    if e.Handle? && s.queued == [] && s.channel != [] {
      assert s.channel == [s.channel[0]] + s.channel[1..];
    } else if e.Handle? && s.queued != [] {
      assert s.queued == [s.queued[0]] + s.queued[1..];
    } else if e.TakeInCall? && s.channel != [] {
      assert s.channel == [s.channel[0]] + s.channel[1..];
    }
  }

  function Run<M>(s: Mail<M>, es: seq<Event<M>>): Mail<M>
    decreases |es|
  {
    if es == [] then s else Run(Step(s, es[0]), es[1..])
  }

  function AllComing<M>(s: Mail<M>, es: seq<Event<M>>): seq<M>
    decreases |es|
  {
    if es == [] then [] else Comes(s, es[0]) + AllComing(Step(s, es[0]), es[1..])
  }

  // Over any run, whatever is moved between the stages, messages are handled in the order
  // in which they came.
  lemma {:induction false} RunKeepsOrder<M>(s: Mail<M>, es: seq<Event<M>>)
    ensures Order(Run(s, es)) == Order(s) + AllComing(s, es)
    ensures s == Mail([], [], [], []) ==> Run(s, es).handled <= AllComing(s, es)
    decreases |es|
  {
    if es == [] {
      assert Order(s) + [] == Order(s);
    } else {
      var next := Step(s, es[0]);
      StepKeepsOrder(s, es[0]);
      RunKeepsOrder(next, es[1..]);
      assert (Order(s) + Comes(s, es[0])) + AllComing(next, es[1..]) == Order(s) + AllComing(s, es);
    }
    if s == Mail([], [], [], []) {
      var r := Run(s, es);
      assert Order(s) == [] && r.handled <= Order(r);
    }
  }

  // ------------------------------------------------------------ what an actor casts to itself

  // The actor's own messages that come, in order.
  function OwnComing<M>(s: Mail<M>, es: seq<Event<M>>): seq<M>
    decreases |es|
  {
    if es == [] then [] else OwnComes(s, es[0]) + OwnComing(Step(s, es[0]), es[1..])
  }

  function OwnComes<M>(s: Mail<M>, e: Event<M>): seq<M> { if e.Arrive? then [] else Comes(s, e) }

  // What it casts to itself.
  function OwnCasts<M>(es: seq<Event<M>>): seq<M> {
    if es == [] then [] else OwnCast(es[0]) + OwnCasts(es[1..])
  }

  function OwnCast<M>(e: Event<M>): seq<M> { if e.CastSelf? then [e.m] else [] }

  // A cast into an empty channel while something is with the self-sender.
  predicate Overtakes<M>(s: Mail<M>, e: Event<M>) { e.CastSelf? && s.channel == [] && s.routed != [] }

  predicate NoneOvertakes<M>(s: Mail<M>, es: seq<Event<M>>)
    decreases |es|
  {
    es != [] ==> !Overtakes(s, es[0]) && NoneOvertakes(Step(s, es[0]), es[1..])
  }

  ghost predicate Different<M>(ms: seq<M>) {
    forall i, j :: 0 <= i < j < |ms| ==> ms[i] != ms[j]
  }

  lemma BehindSame<M>(c: seq<M>, a: seq<M>, b: seq<M>)
    ensures c + a <= c + b <==> a <= b
    ensures Different(c + b) ==> Different(b)
  {
    assert (c + a)[|c|..] == a && (c + b)[|c|..] == b;
    if c + a <= c + b { assert a == (c + b)[|c|..][..|a|]; }
    if Different(c + b) { assert forall i :: 0 <= i < |b| ==> b[i] == (c + b)[|c| + i]; }
  }

  // What was cast and is not there yet loses from its front what comes, or it is overtaken.
  lemma StepOwn<M>(s: Mail<M>, e: Event<M>, rest: seq<M>)
    ensures var next := Step(s, e);
            if Overtakes(s, e) then OwnComes(s, e) == [e.m]
            else OwnComes(s, e) + (next.routed + rest) == s.routed + (OwnCast(e) + rest)
  {
    if e.Deliver? && s.routed != [] { assert s.routed == [s.routed[0]] + s.routed[1..]; }
  }

  // Over any run: messages that an actor casts to itself come in the order in which it cast
  // them if and only if it never casts one into an empty channel while an earlier one is still
  // with the self-sender.
  lemma {:induction false} OwnOrderExactly<M>(s: Mail<M>, es: seq<Event<M>>)
    requires Different(s.routed + OwnCasts(es))
    ensures OwnComing(s, es) <= s.routed + OwnCasts(es) <==> NoneOvertakes(s, es)
    decreases |es|
  {
    if es != [] {
      var next, rest := Step(s, es[0]), OwnCasts(es[1..]);
      var all := s.routed + OwnCasts(es);
      StepOwn(s, es[0], rest);
      if Overtakes(s, es[0]) {
        assert all[0] == s.routed[0] && all[|s.routed|] == es[0].m;
      } else {
        BehindSame(OwnComes(s, es[0]), OwnComing(next, es[1..]), next.routed + rest);
        OwnOrderExactly(next, es[1..]);
      }
    }
  }

  // What a run does from its first event on.
  lemma Onward<M>(s: Mail<M>, e: Event<M>, next: Mail<M>, rest: seq<Event<M>>) returns (es: seq<Event<M>>)
    requires next == Step(s, e)
    ensures Run(s, es) == Run(next, rest) && OwnCasts(es) == OwnCast(e) + OwnCasts(rest)
  {
    es := [e] + rest;
    assert es[1..] == rest;
  }

  // Two messages x and y are there, and the actor casts a while it handles the first. It takes
  // y in during a call and casts b: b is handled before a.
  lemma OwnMessagesSwapped<M>(x: M, y: M, a: M, b: M) returns (es: seq<Event<M>>)
    ensures OwnCasts(es) == [a, b] && Run(Mail([], [], [], []), es).handled == [x, y, b, a]
  {
    es := Delivered(x, y, a, b);
    es := Onward(Mail([x], [y], [], [a]), Event.CastSelf(b), Mail([x], [y, b], [], [a]), es);
    es := Onward(Mail([x], [], [y], [a]), Event.TakeInCall, Mail([x], [y], [], [a]), es);
    es := Onward(Mail([x], [], [y], []), Event.CastSelf(a), Mail([x], [], [y], [a]), es);
    es := Onward(Mail([], [], [x, y], []), Event.Handle, Mail([x], [], [y], []), es);
    es := Onward(Mail([], [], [x], []), Arrive(y), Mail([], [], [x, y], []), es);
    es := Onward(Mail([], [], [], []), Arrive(x), Mail([], [], [x], []), es);
  }

  lemma Delivered<M>(x: M, y: M, a: M, b: M) returns (es: seq<Event<M>>)
    ensures OwnCasts(es) == [] && Run(Mail([x], [y, b], [], [a]), es).handled == [x, y, b, a]
  {
    es := Onward(Mail([x, y, b], [], [a], []), Event.Handle, Mail([x, y, b, a], [], [], []), []);
    es := Onward(Mail([x, y], [b], [a], []), Event.Handle, Mail([x, y, b], [], [a], []), es);
    es := Onward(Mail([x], [y, b], [a], []), Event.Handle, Mail([x, y], [b], [a], []), es);
    es := Onward(Mail([x], [y, b], [], [a]), Deliver, Mail([x], [y, b], [a], []), es);
  }

  // ------------------------------------------------------------ the ring buffer behind the queue

  // What an event does to it.
  function QueueOps<M>(s: Mail<M>, e: Event<M>): seq<Op> {
    match e
    case TakeInCall => if s.channel == [] then [] else [PutOp]
    case CastSelf(_) => if s.channel == [] then [PutOp] else []
    case Handle => [PopOp]
    case _ => []
  }

  function AllQueueOps<M>(s: Mail<M>, es: seq<Event<M>>): seq<Op>
    decreases |es|
  {
    if es == [] then [] else QueueOps(s, es[0]) + AllQueueOps(Step(s, es[0]), es[1..])
  }

  predicate FewQueued<M>(s: Mail<M>, max: nat, es: seq<Event<M>>)
    decreases |es|
  {
    |s.queued| < max && (es == [] || FewQueued(Step(s, es[0]), max, es[1..]))
  }

  lemma {:induction false} FewStaysBelow<M>(s: Mail<M>, max: nat, es: seq<Event<M>>)
    requires FewQueued(s, max, es)
    ensures RingRuns.StaysBelow(|s.queued|, max, AllQueueOps(s, es))
    decreases |es|
  {
    if es != [] {
      var now, later := QueueOps(s, es[0]), AllQueueOps(Step(s, es[0]), es[1..]);
      FewStaysBelow(Step(s, es[0]), max, es[1..]);
      assert if now == [] then now + later == later else (now + later)[1..] == later;
    }
  }

  // Over every run: a message is lost to a panic if and only if the story of the queue breaks.
  lemma CrashesExactly<M>(es: seq<Event<M>>)
    ensures var ops := AllQueueOps(Mail([], [], [], []), es);
            RingRuns.Run(Shape(0, 0, 4, 32, false), ops) == None <==>
              RingRuns.Breaks(RingRuns.Story(0, 3, false, 0), 32, ops)
  {
    SizesArePowers();
    RingRuns.NewBreaksExactly(4, 32, AllQueueOps(Mail([], [], [], []), es));
  }

  // So a run that never queues 32 messages at a time never panics.
  lemma FewNeverCrash<M>(es: seq<Event<M>>)
    requires FewQueued(Mail([], [], [], []), 32, es)
    ensures RingRuns.Run(Shape(0, 0, 4, 32, false), AllQueueOps(Mail([], [], [], []), es)).Some?
  {
    SizesArePowers();
    FewStaysBelow(Mail([], [], [], []), 32, es);
    RingRuns.SafeWhileSmall(Shape(0, 0, 4, 32, false), AllQueueOps(Mail([], [], [], []), es));
  }

  lemma SizesArePowers()
    ensures Power(4) && Power(32)
  {
    assert Pow2(2) == 4 && Pow2(5) == 32;
  }

  // ------------------------------------------------------------ as it runs

  class Context<M> {
    var msgQ: SingleRingBuffer?<M>
    var channel: seq<M>
    var routed: seq<M>
    var handled: seq<M>

    ghost predicate Valid()
      reads this, msgQ, if msgQ == null then {} else {msgQ.cache}
    {
      msgQ != null ==> msgQ.Valid()
    }

    ghost function View(): Mail<M>
      reads this, msgQ
    {
      Mail(handled, if msgQ == null then [] else msgQ.q, channel, routed)
    }

    // The sizes of the queue, which is made when it is first needed.
    ghost function QueueShape(): Shape
      reads this, msgQ, if msgQ == null then {} else {msgQ.cache}
    {
      if msgQ == null then Shape(0, 0, 4, 32, false) else msgQ.ShapeOf()
    }

    constructor ()
      ensures Valid() && View() == Mail([], [], [], []) && QueueShape() == Shape(0, 0, 4, 32, false)
    {
      msgQ, channel, routed, handled := null, [], [], [];
    }

    // recMsg of the context; `crash` says that the queue panics, and the message is lost.
    method RecMsg(m: M) returns (crash: bool)
      requires Valid()
      modifies this`msgQ, msgQ, if msgQ == null then {} else {msgQ.cache}
      ensures Valid() && View() == if crash then old(View()) else old(View()).(queued := old(View()).queued + [m])
      ensures Next(old(QueueShape()), PutOp) == if crash then None else Some(QueueShape())
    {
      if msgQ == null {
        SizesArePowers();
        msgQ := new SingleRingBuffer(4, 32);
      }
      crash := msgQ.Put(m);
    }

    method CastSelf(m: M) returns (crash: bool)
      requires Valid()
      modifies this`msgQ, this`routed, msgQ, if msgQ == null then {} else {msgQ.cache}
      ensures Valid() && View() == if crash then old(View()) else Step(old(View()), Event.CastSelf(m))
      ensures RingRuns.Run(old(QueueShape()), QueueOps(old(View()), Event.CastSelf(m))) == if crash then None
              else Some(QueueShape())
    {
      crash := false;
      if |channel| == 0 {
        crash := RecMsg(m);
      } else {
        routed := routed + [m];
      }
    }

    // recResult, when a message comes instead of the answer.
    method TakeInCall() returns (crash: bool)
      requires Valid() && channel != []
      modifies this`msgQ, this`channel, msgQ, if msgQ == null then {} else {msgQ.cache}
      ensures Valid()
      ensures View() == if crash then old(View()).(channel := old(channel)[1..])
              else Step(old(View()), Event.TakeInCall)
      ensures RingRuns.Run(old(QueueShape()), QueueOps(old(View()), Event.TakeInCall)) == if crash then None
              else Some(QueueShape())
    {
      var m := channel[0];
      channel := channel[1..];
      crash := RecMsg(m);
    }

    // The dequeue of the receive loop; None when it would block.
    method Handle() returns (m: Option<M>)
      requires Valid()
      modifies this`channel, this`handled, msgQ, if msgQ == null then {} else {msgQ.cache}
      ensures Valid() && View() == Step(old(View()), Event.Handle)
      ensures RingRuns.Run(old(QueueShape()), QueueOps(old(View()), Event.Handle)) == Some(QueueShape())
      ensures m == None <==> old(View()).queued == [] && old(channel) == []
      ensures m.Some? ==> handled == old(handled) + [m.value]
    {
      m := TakeQueued();
      if m == None && channel != [] {
        m := Some(channel[0]);
        channel := channel[1..];
      }
      if m.Some? {
        handled := handled + [m.value];
      }
    }

    // Pop of a queue that may not be there yet.
    method TakeQueued() returns (m: Option<M>)
      requires Valid()
      modifies msgQ, if msgQ == null then {} else {msgQ.cache}
      ensures Valid() && m == if old(View()).queued == [] then None else Some(old(View()).queued[0])
      ensures View() == old(View()).(queued := if m == None then [] else old(View()).queued[1..])
      ensures Next(old(QueueShape()), PopOp) == Some(QueueShape())
    {
      m := None;
      if msgQ != null {
        m := msgQ.Pop();
      }
    }
  }
}
