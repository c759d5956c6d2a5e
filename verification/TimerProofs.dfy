// What the timer lists guarantee over every run: nothing fires early, nothing fires
// more than one tick late, and nothing is lost or fired twice.

module TimerProofs {
  import opened Arith
  import opened TimerModel

  // ------------------------------------------------------------ punctuality

  // A timer whose next deadline is never closer than a tick.
  predicate Steady(e: Entry, minTick: int) {
    e.timer.kind == Forever ==> e.timer.inv >= minTick
  }

  ghost predicate NotBefore(s: seq<Entry>, minTick: int, bound: int) {
    forall e :: e in s && Steady(e, minTick) ==> e.timer.d + e.late >= bound
  }

  ghost predicate AllNotBefore(ls: Lists, minTick: int, bounds: seq<int>)
    requires |bounds| == 5
  {
    forall k :: 0 <= k < 5 ==> NotBefore(ls[k], minTick, bounds[k])
  }

  lemma PutNotBefore(ls: Lists, e: Entry, inv: int, minTick: int, bounds: seq<int>)
    requires |bounds| == 5 && AllNotBefore(ls, minTick, bounds)
    requires Steady(e, minTick) ==> e.timer.d + e.late >= bounds[Slot(inv)]
    ensures AllNotBefore(Put(ls, e, inv), minTick, bounds)
  {
  }

  // A sweep of list k at `now` leaves every list waiting for its own next sweep.
  lemma {:induction false} CascadeNotBefore(ls: Lists, k: nat, kept: seq<Entry>, rest: seq<Entry>, now: int,
                                            minTick: int, bounds: seq<int>)
    requires 1 <= k < 5 && |bounds| == 5
    requires AllNotBefore(ls[k := []], minTick, bounds)
    requires bounds[0] <= now && forall j :: 1 <= j <= k ==> bounds[j] <= now + Span(j - 1)
    requires NotBefore(kept, minTick, bounds[k]) && NotBefore(rest, minTick, now)
    ensures AllNotBefore(Cascade(ls, k, kept, rest, now), minTick, bounds)
    decreases |rest|
  {
    if rest == [] {
      assert ls[k := kept] == ls[k := []][k := kept];
    } else {
      var e := rest[0];
      var dif := e.timer.d - now;
      if dif <= Span(k - 1) {
        PutNotBefore(ls[k := []], e, dif, minTick, bounds);
        assert Put(ls, e, dif)[k := []] == Put(ls[k := []], e, dif);
        CascadeNotBefore(Put(ls, e, dif), k, kept, rest[1..], now, minTick, bounds);
      } else {
        CascadeNotBefore(ls, k, kept + [e], rest[1..], now, minTick, bounds);
      }
    }
  }

  // A walk of t0 at `now`, when the walk before was one tick earlier.
  lemma {:induction false} CheckNotBefore(c: Checked, kept: seq<Entry>, rest: seq<Entry>, now: int, alive: set<Pid>,
                                          minTick: int, bounds: seq<int>)
    requires |bounds| == 5 && 0 < minTick
    requires AllNotBefore(c.lists[0 := []], minTick, bounds)
    requires bounds[0] == now && forall j :: 1 <= j < 5 ==> bounds[j] <= now - minTick + Span(j - 1)
    requires NotBefore(kept, minTick, now) && NotBefore(rest, minTick, now - minTick)
    ensures AllNotBefore(Check(c, kept, rest, now, alive).lists, minTick, bounds)
    decreases |rest|
  {
    if rest == [] {
      assert c.lists[0 := kept] == c.lists[0 := []][0 := kept];
    } else {
      var e := rest[0];
      if now < e.timer.d {
        CheckNotBefore(c, kept + [e], rest[1..], now, alive, minTick, bounds);
      } else if e.timer.pid !in alive {
        CheckNotBefore(c.(dropped := c.dropped + [e]), kept, rest[1..], now, alive, minTick, bounds);
      } else {
        var c' := c.(fired := c.fired + [e]);
        if e.timer.kind == Once {
          CheckNotBefore(c', kept, rest[1..], now, alive, minTick, bounds);
        } else if e.timer.inv > SECOND {
          var ls := Put(c'.lists, Renew(e), e.timer.inv);
          PutNotBefore(c.lists[0 := []], Renew(e), e.timer.inv, minTick, bounds);
          assert ls[0 := []] == Put(c.lists[0 := []], Renew(e), e.timer.inv);
          CheckNotBefore(c'.(lists := ls), kept, rest[1..], now, alive, minTick, bounds);
        } else {
          CheckNotBefore(c', kept + [Renew(e)], rest[1..], now, alive, minTick, bounds);
        }
      }
    }
  }

  // What a walk of t0 casts was in t0, is due, and is to a live process.
  lemma {:induction false} CheckFires(c: Checked, kept: seq<Entry>, rest: seq<Entry>, now: int, alive: set<Pid>)
    ensures forall e :: e in Check(c, kept, rest, now, alive).fired ==>
                          e in c.fired || (e in rest && e.timer.d <= now && e.timer.pid in alive)
    ensures forall e :: e in Check(c, kept, rest, now, alive).dropped ==>
                          e in c.dropped || (e in rest && e.timer.d <= now && e.timer.pid !in alive)
    decreases |rest|
  {
    if rest != [] {
      var e := rest[0];
      if now < e.timer.d {
        CheckFires(c, kept + [e], rest[1..], now, alive);
      } else if e.timer.pid !in alive {
        CheckFires(c.(dropped := c.dropped + [e]), kept, rest[1..], now, alive);
      } else {
        var c' := c.(fired := c.fired + [e]);
        if e.timer.kind == Once {
          CheckFires(c', kept, rest[1..], now, alive);
        } else if e.timer.inv > SECOND {
          CheckFires(c'.(lists := Put(c'.lists, Renew(e), e.timer.inv)), kept, rest[1..], now, alive);
        } else {
          CheckFires(c', kept + [Renew(e)], rest[1..], now, alive);
        }
      }
    }
  }

  // The tick length SetTimerMinTick accepts.
  predicate DividesSecond(minTick: int) {
    ValidTick(minTick) && SECOND % minTick == 0
  }

  // How many ticks after the counter read `tick` it is next a multiple of `period`.
  function TicksTo(period: int, tick: nat): int
    requires period >= 1
  {
    period - tick % period
  }

  // When list k is next looked at: t0 was walked at `last`, the others are swept at a
  // multiple of their period.
  function NextLook(k: nat, minTick: int, tick: nat, last: int): int
    requires k < 5 && DividesSecond(minTick)
  {
    if k == 0 then last
    else
      PeriodOf(k, minTick);
      last + TicksTo(Period(k, minTick), tick) * minTick
  }

  // A second is a whole number of ticks, so every period is, and the hour is a whole
  // number of each of them.
  lemma PeriodOf(k: nat, minTick: int)
    requires 1 <= k < 5 && DividesSecond(minTick)
    ensures var p := Period(k, minTick);
            p >= 1 && p * minTick == Span(k - 1) && Period(4, minTick) % p == 0
  {
    var s := SECOND / minTick;
    assert s * minTick == SECOND;
    var n := if k == 1 then 1 else if k == 2 then 10 else if k == 3 then 60 else 3600;
    assert Span(k - 1) == n * SECOND;
    assert (n * s) * minTick == n * (s * minTick);
    DivMod(Span(k - 1), minTick, n * s, 0);
    assert (3600 * s) * minTick == 3600 * (s * minTick);
    DivMod(HOUR, minTick, 3600 * s, 0);
    var q := if k == 1 then 3600 else if k == 2 then 360 else if k == 3 then 60 else 1;
    assert q * (n * s) == 3600 * s;
    assert n * s >= 1;
    DivMod(3600 * s, n * s, q, 0);
  }

  function NextLooks(minTick: int, tick: nat, last: int): (b: seq<int>)
    requires DividesSecond(minTick)
    ensures |b| == 5
  {
    [NextLook(0, minTick, tick, last), NextLook(1, minTick, tick, last), NextLook(2, minTick, tick, last),
     NextLook(3, minTick, tick, last), NextLook(4, minTick, tick, last)]
  }

  // The invariant of the five lists: every entry may still wait for the next look at its list.
  ghost predicate Scheduled(st: State) {
    && DividesSecond(st.minTick)
    && st.tick < Period(4, st.minTick)
    && AllNotBefore(st.lists, st.minTick, NextLooks(st.minTick, st.tick, st.last))
  }

  lemma TicksToNext(period: int, tick: nat)
    requires period >= 1
    ensures 1 <= TicksTo(period, tick) <= period
    ensures if (tick + 1) % period == 0 then TicksTo(period, tick) == 1
            else TicksTo(period, tick) == TicksTo(period, tick + 1) + 1
  {
    Successor(tick, period);
  }

  // One tick on: either list k is swept now, or its next sweep has not moved.
  lemma NextTick(k: nat, minTick: int, tick: nat, last: int)
    requires 1 <= k < 5 && DividesSecond(minTick) && tick < Period(4, minTick)
    ensures last + minTick <= NextLook(k, minTick, tick, last) <= last + Span(k - 1)
    ensures var now := last + minTick;
            if SweepDue(k, tick + 1, minTick)
            then NextLook(k, minTick, tick, last) == now && (tick + 1) % Period(k, minTick) == 0
            else NextLook(k, minTick, tick, last) == NextLook(k, minTick, tick + 1, now)
  {
    PeriodOf(k, minTick);
    var p := Period(k, minTick);
    TicksToNext(p, tick);
    Monotone(1, TicksTo(p, tick), minTick);
    Monotone(TicksTo(p, tick), p, minTick);
    HourTick(tick, Period(4, minTick));
    if (tick + 1) % p != 0 {
      assert (TicksTo(p, tick + 1) + 1) * minTick == TicksTo(p, tick + 1) * minTick + minTick;
    }
  }

  lemma HourTick(tick: nat, hour: int)
    requires tick < hour
    ensures (tick + 1) % hour == 0 <==> tick + 1 == hour
  {
    DivMod(hour, hour, 1, 0);
    if tick + 1 < hour { DivMod(tick + 1, hour, 0, tick + 1); }
  }

  lemma Successor(c: nat, p: int)
    requires p >= 1
    ensures 0 <= c % p < p
    ensures (c + 1) % p == if c % p == p - 1 then 0 else c % p + 1
  {
    var q, r := c / p, c % p;
    assert c == q * p + r;
    if r == p - 1 {
      assert c + 1 == (q + 1) * p;
      DivMod(c + 1, p, q + 1, 0);
    } else {
      DivMod(c + 1, p, q, r + 1);
    }
  }

  // The bounds after list k has been swept if it was due.
  function Moved(b: seq<int>, k: nat, tick: nat, minTick: int, now: int): (r: seq<int>)
    requires 1 <= k < 5 && ValidTick(minTick) && |b| == 5
    ensures |r| == 5 && forall j :: 0 <= j < 5 && j != k ==> r[j] == b[j]
  {
    if SweepDue(k, tick, minTick) then b[k := now + Span(k - 1)] else b
  }

  // Bounds with which a tick at `now` can sweep list k and everything after it.
  predicate Sweepable(b: seq<int>, k: nat, tick: nat, minTick: int, now: int)
    requires 1 <= k < 6 && ValidTick(minTick) && |b| == 5
  {
    && b[0] == now
    && (forall j :: 1 <= j < 5 ==> b[j] <= now + Span(j - 1))
    && (forall j :: k <= j < 5 && SweepDue(j, tick, minTick) ==> b[j] == now)
  }

  lemma SweepNotBefore(ls: Lists, k: nat, tick: nat, minTick: int, now: int, b: seq<int>)
    requires 1 <= k < 5 && ValidTick(minTick) && |b| == 5
    requires AllNotBefore(ls, minTick, b) && Sweepable(b, k, tick, minTick, now)
    ensures AllNotBefore(Sweep(ls, k, tick, minTick, now), minTick, Moved(b, k, tick, minTick, now))
    ensures Sweepable(Moved(b, k, tick, minTick, now), k + 1, tick, minTick, now)
  {
    if SweepDue(k, tick, minTick) {
      var next := Moved(b, k, tick, minTick, now);
      assert AllNotBefore(ls[k := []], minTick, next);
      CascadeNotBefore(ls, k, [], ls[k], now, minTick, next);
    }
  }

  // The bounds after every list has been swept that was due.
  function AllMoved(b: seq<int>, tick: nat, minTick: int, now: int): (r: seq<int>)
    requires ValidTick(minTick) && |b| == 5
    ensures |r| == 5
  {
    var b1 := Moved(b, 1, tick, minTick, now);
    var b2 := Moved(b1, 2, tick, minTick, now);
    var b3 := Moved(b2, 3, tick, minTick, now);
    Moved(b3, 4, tick, minTick, now)
  }

  lemma SweepsNotBefore(ls: Lists, tick: nat, m: int, now: int, b: seq<int>)
    requires ValidTick(m) && |b| == 5
    requires AllNotBefore(ls, m, b) && Sweepable(b, 1, tick, m, now)
    ensures AllNotBefore(Sweeps(ls, tick, m, now), m, AllMoved(b, tick, m, now))
  {
    SweepNotBefore(ls, 1, tick, m, now, b);
    var l1, b1 := Sweep(ls, 1, tick, m, now), Moved(b, 1, tick, m, now);
    SweepNotBefore(l1, 2, tick, m, now, b1);
    var l2, b2 := Sweep(l1, 2, tick, m, now), Moved(b1, 2, tick, m, now);
    SweepNotBefore(l2, 3, tick, m, now, b2);
    var l3, b3 := Sweep(l2, 3, tick, m, now), Moved(b2, 3, tick, m, now);
    SweepNotBefore(l3, 4, tick, m, now, b3);
  }

  lemma LoopKeepsSchedule(st: State, alive: set<Pid>)
    requires Scheduled(st)
    ensures Scheduled(Loop(st, st.last + st.minTick, alive).0)
  {
    var m, now, tick := st.minTick, st.last + st.minTick, st.tick + 1;
    var b0 := NextLooks(m, st.tick, st.last)[0 := now];
    var c0 := Checked(st.lists, [], []);
    FirstBounds(st);
    CheckNotBefore(c0, [], st.lists[0], now, alive, m, b0);
    SweepsNotBefore(Check(c0, [], st.lists[0], now, alive).lists, tick, m, now, b0);
    NextBounds(st, AllMoved(b0, tick, m, now));
  }

  // The bounds a tick starts from, once t0 has been walked.
  lemma FirstBounds(st: State)
    requires DividesSecond(st.minTick) && st.tick < Period(4, st.minTick)
    ensures var m, now := st.minTick, st.last + st.minTick;
            var b := NextLooks(m, st.tick, st.last)[0 := now];
            && Sweepable(b, 1, st.tick + 1, m, now)
            && forall j :: 1 <= j < 5 ==> b[j] <= st.last + Span(j - 1)
  {
    forall k | 1 <= k < 5 { NextTick(k, st.minTick, st.tick, st.last); }
  }

  // The bounds a tick arrives at are those of the new tick counter.
  lemma NextBounds(st: State, b: seq<int>)
    requires DividesSecond(st.minTick) && st.tick < Period(4, st.minTick) && |b| == 5
    requires var m, now, tick := st.minTick, st.last + st.minTick, st.tick + 1;
             && b[0] == now
             && forall k :: 1 <= k < 5 ==>
                              b[k] == if SweepDue(k, tick, m) then now + Span(k - 1)
                                else NextLook(k, m, st.tick, st.last)
    ensures var m, now, tick := st.minTick, st.last + st.minTick, st.tick + 1;
            var tick' := if SweepDue(4, tick, m) then 0 else tick;
            tick' < Period(4, m) && b == NextLooks(m, tick', now)
  {
    var m, now, tick := st.minTick, st.last + st.minTick, st.tick + 1;
    var tick' := if SweepDue(4, tick, m) then 0 else tick;
    PeriodOf(4, m);
    forall k | 1 <= k < 5
      ensures b[k] == NextLook(k, m, tick', now)
    {
      NextTick(k, m, st.tick, st.last);
      PeriodOf(k, m);
      var p := Period(k, m);
      DivMod(0, p, 0, 0);
      if SweepDue(4, tick, m) || SweepDue(k, tick, m) {
        assert tick' % p == 0;
        assert TicksTo(p, tick') == p;
      }
    }
  }

  lemma HandleKeepsSchedule(st: State, e: Entry, inv: int, at: int)
    requires Scheduled(st) && st.last <= at && e.timer.d + e.late >= at + inv && e.timer.d + e.late >= at
    ensures Scheduled(st.(lists := Put(st.lists, e, inv)))
  {
    var k := Slot(inv);
    if k > 0 { NextTick(k, st.minTick, st.tick, st.last); }
    PutNotBefore(st.lists, e, inv, st.minTick, NextLooks(st.minTick, st.tick, st.last));
  }

  ghost predicate AllPunctual(fired: seq<Firing>, minTick: int) {
    forall f :: f in fired ==> Punctual(f, minTick)
  }

  ghost predicate Punctual(f: Firing, minTick: int) {
    && f.entry.timer.d <= f.at
    && (Steady(f.entry, minTick) ==> f.at <= f.entry.timer.d + f.entry.late + minTick)
  }

  lemma TickIsPunctual(st: State, alive: set<Pid>)
    requires Scheduled(st)
    ensures var now := st.last + st.minTick;
            AllPunctual(At(Loop(st, now, alive).1, now), st.minTick)
  {
    var now := st.last + st.minTick;
    CheckFires(Checked(st.lists, [], []), [], st.lists[0], now, alive);
    assert NotBefore(st.lists[0], st.minTick, NextLooks(st.minTick, st.tick, st.last)[0]);
  }

  // Over every run the lists stay scheduled, and every firing is punctual: not before its
  // deadline, and at most one tick after it beyond the delay of the message that set it.
  lemma {:induction false} RunIsPunctual(minTick: int, start: int, run: seq<Event>)
    requires DividesSecond(minTick) && TimelyRun(minTick, start, run)
    ensures Scheduled(Run(minTick, start, run).st)
    ensures AllPunctual(Run(minTick, start, run).fired, minTick)
    decreases |run|
  {
    if run == [] {
      PeriodOf(4, minTick);
    } else {
      RunIsPunctual(minTick, start, run[..|run| - 1]);
      StepKeepsSchedule(Run(minTick, start, run[..|run| - 1]), run[|run| - 1]);
      StepIsPunctual(Run(minTick, start, run[..|run| - 1]), run[|run| - 1]);
    }
  }

  lemma StepKeepsSchedule(h: History, ev: Event)
    requires Scheduled(h.st) && Timely(h, ev)
    ensures Scheduled(Apply(h, ev).st)
  {
    match ev
    case Handle(kind, inv, pid, msg, sent, at) =>
      HandleKeepsSchedule(h.st, Sent(kind, inv, pid, msg, sent, at), inv, at);
    case Tick(alive) =>
      LoopKeepsSchedule(h.st, alive);
  }

  lemma StepIsPunctual(h: History, ev: Event)
    requires Scheduled(h.st) && Timely(h, ev) && AllPunctual(h.fired, h.st.minTick)
    ensures AllPunctual(Apply(h, ev).fired, h.st.minTick)
  {
    if ev.Tick? {
      TickIsPunctual(h.st, ev.alive);
      FiredAt(h, ev.alive);
    }
  }

  lemma FiredAt(h: History, alive: set<Pid>)
    requires ValidTick(h.st.minTick) && AllPunctual(h.fired, h.st.minTick)
    requires AllPunctual(At(Loop(h.st, h.st.last + h.st.minTick, alive).1, h.st.last + h.st.minTick), h.st.minTick)
    ensures AllPunctual(Apply(h, Tick(alive)).fired, h.st.minTick)
  {
  }

  // ------------------------------------------------------------ conservation

  function Count(s: seq<Entry>, e: Entry): nat {
    multiset(s)[e]
  }

  // How often an entry is in one of the lists.
  function Pending(ls: Lists, e: Entry): nat {
    Count(ls[0], e) + Count(ls[1], e) + Count(ls[2], e) + Count(ls[3], e) + Count(ls[4], e)
  }

  // How often casting these entries set up the given one again.
  function Renewals(fired: seq<Entry>, e: Entry): nat
    decreases |fired|
  {
    if fired == [] then 0
    else Renewals(fired[..|fired| - 1], e) + RenewsTo(fired[|fired| - 1], e)
  }

  function RenewsTo(f: Entry, e: Entry): nat {
    if f.timer.kind == Forever && Renew(f) == e then 1 else 0
  }

  function One(f: Entry, e: Entry): nat {
    if f == e then 1 else 0
  }

  function Entries(fired: seq<Firing>): seq<Entry> {
    seq(|fired|, i requires 0 <= i < |fired| => fired[i].entry)
  }

  lemma CountFirst(s: seq<Entry>, e: Entry)
    requires s != []
    ensures Count(s, e) == One(s[0], e) + Count(s[1..], e)
  {
    assert s == [s[0]] + s[1..];
  }

  lemma CountLast(s: seq<Entry>, f: Entry, e: Entry)
    ensures Count(s + [f], e) == Count(s, e) + One(f, e)
    ensures Count([f] + s, e) == Count(s, e) + One(f, e)
    ensures Renewals(s + [f], e) == Renewals(s, e) + RenewsTo(f, e)
  {
    assert (s + [f])[..|s|] == s;
  }

  lemma PutPends(ls: Lists, f: Entry, inv: int, e: Entry)
    ensures Pending(Put(ls, f, inv), e) == Pending(ls, e) + One(f, e)
  {
    CountLast(ls[Slot(inv)], f, e);
  }

  lemma PutElsewhere(ls: Lists, k: nat, f: Entry, inv: int, e: Entry)
    requires k < 5 && Slot(inv) != k
    ensures Pending(Put(ls, f, inv)[k := []], e) == Pending(ls[k := []], e) + One(f, e)
  {
    PutPends(ls[k := []], f, inv, e);
    assert Put(ls, f, inv)[k := []] == Put(ls[k := []], f, inv);
  }

  lemma OtherwiseIn(ls: Lists, k: nat, s: seq<Entry>, e: Entry)
    requires k < 5
    ensures Pending(ls[k := s], e) == Pending(ls[k := []], e) + Count(s, e)
  {
  }

  lemma {:induction false} CascadeConserves(ls: Lists, k: nat, kept: seq<Entry>, rest: seq<Entry>, now: int, e: Entry)
    requires 1 <= k < 5
    ensures Pending(Cascade(ls, k, kept, rest, now), e) == Pending(ls[k := []], e) + Count(kept, e) + Count(rest, e)
    decreases |rest|
  {
    if rest == [] {
      OtherwiseIn(ls, k, kept, e);
    } else {
      var f := rest[0];
      var dif := f.timer.d - now;
      CountFirst(rest, e);
      if dif <= Span(k - 1) {
        CascadeConserves(Put(ls, f, dif), k, kept, rest[1..], now, e);
        PutElsewhere(ls, k, f, dif, e);
      } else {
        CascadeConserves(ls, k, kept + [f], rest[1..], now, e);
        CountLast(kept, f, e);
      }
    }
  }

  // What the walk of t0 has accounted for so far.
  function Held(c: Checked, e: Entry): int {
    Pending(c.lists[0 := []], e) + Count(c.fired, e) + Count(c.dropped, e) - Renewals(c.fired, e)
  }

  // What a walk of t0 is given, together with the renewals, is what it leaves behind.
  lemma {:induction false} CheckConserves(c: Checked, kept: seq<Entry>, rest: seq<Entry>, now: int, alive: set<Pid>,
                                          e: Entry)
    ensures var r := Check(c, kept, rest, now, alive);
            Pending(r.lists, e) + Count(r.fired, e) + Count(r.dropped, e) - Renewals(r.fired, e)
            == Held(c, e) + Count(kept, e) + Count(rest, e)
    decreases |rest|
  {
    if rest == [] {
      OtherwiseIn(c.lists, 0, kept, e);
    } else {
      var f := rest[0];
      CountFirst(rest, e);
      if now < f.timer.d {
        CheckConserves(c, kept + [f], rest[1..], now, alive, e);
        CountLast(kept, f, e);
      } else if f.timer.pid !in alive {
        CheckConserves(c.(dropped := c.dropped + [f]), kept, rest[1..], now, alive, e);
        CountLast(c.dropped, f, e);
      } else {
        var c' := c.(fired := c.fired + [f]);
        CountLast(c.fired, f, e);
        if f.timer.kind == Once {
          CheckConserves(c', kept, rest[1..], now, alive, e);
        } else if f.timer.inv > SECOND {
          var ls := Put(c'.lists, Renew(f), f.timer.inv);
          PutElsewhere(c.lists, 0, Renew(f), f.timer.inv, e);
          CheckConserves(c'.(lists := ls), kept, rest[1..], now, alive, e);
        } else {
          CheckConserves(c', kept + [Renew(f)], rest[1..], now, alive, e);
          CountLast(kept, Renew(f), e);
        }
      }
    }
  }

  lemma SweepConserves(ls: Lists, k: nat, tick: nat, minTick: int, now: int, e: Entry)
    requires 1 <= k < 5 && ValidTick(minTick)
    ensures Pending(Sweep(ls, k, tick, minTick, now), e) == Pending(ls, e)
  {
    CascadeConserves(ls, k, [], ls[k], now, e);
    OtherwiseIn(ls, k, ls[k], e);
    assert ls[k := ls[k]] == ls;
  }

  lemma LoopConserves(st: State, now: int, alive: set<Pid>, e: Entry)
    requires ValidTick(st.minTick)
    ensures var r := Loop(st, now, alive);
            Pending(r.0.lists, e) + Count(r.1, e) + Count(r.2, e) == Pending(st.lists, e) + Renewals(r.1, e)
  {
    var c0 := Checked(st.lists, [], []);
    var c := Check(c0, [], st.lists[0], now, alive);
    CheckConserves(c0, [], st.lists[0], now, alive, e);
    OtherwiseIn(st.lists, 0, st.lists[0], e);
    assert st.lists[0 := st.lists[0]] == st.lists;
    var tick := st.tick + 1;
    SweepConserves(c.lists, 1, tick, st.minTick, now, e);
    var l1 := Sweep(c.lists, 1, tick, st.minTick, now);
    SweepConserves(l1, 2, tick, st.minTick, now, e);
    var l2 := Sweep(l1, 2, tick, st.minTick, now);
    SweepConserves(l2, 3, tick, st.minTick, now, e);
    var l3 := Sweep(l2, 3, tick, st.minTick, now);
    SweepConserves(l3, 4, tick, st.minTick, now, e);
  }

  lemma {:induction false} CountJoin(a: seq<Entry>, b: seq<Entry>, e: Entry)
    ensures Count(a + b, e) == Count(a, e) + Count(b, e)
    ensures Renewals(a + b, e) == Renewals(a, e) + Renewals(b, e)
    decreases |b|
  {
    if b == [] {
      assert a + b == a;
    } else {
      var b' := b[..|b| - 1];
      CountJoin(a, b', e);
      assert (a + b)[..|a + b| - 1] == a + b';
    }
  }

  function Settled(h: History, e: Entry): int {
    Pending(h.st.lists, e) + Count(Entries(h.fired), e) + h.dropped[e] - Renewals(Entries(h.fired), e)
  }

  // The account over a whole run: everything handled or renewed is pending, has fired, or
  // was dropped because its process had died, and nothing else is.
  lemma {:induction false} RunConserves(minTick: int, start: int, run: seq<Event>, e: Entry)
    requires TimelyRun(minTick, start, run)
    ensures var h := Run(minTick, start, run);
            Pending(h.st.lists, e) + Count(Entries(h.fired), e) + h.dropped[e]
            == h.handled[e] + Renewals(Entries(h.fired), e)
    decreases |run|
  {
    if run != [] {
      var h := Run(minTick, start, run[..|run| - 1]);
      RunConserves(minTick, start, run[..|run| - 1], e);
      match run[|run| - 1]
      case Handle(kind, inv, pid, msg, sent, at) =>
        PutPends(h.st.lists, Sent(kind, inv, pid, msg, sent, at), inv, e);
      case Tick(alive) =>
        TickConserves(h, alive, e);
    }
  }

  lemma TickConserves(h: History, alive: set<Pid>, e: Entry)
    requires ValidTick(h.st.minTick)
    ensures Settled(Apply(h, Tick(alive)), e) == Settled(h, e)
  {
    var now := h.st.last + h.st.minTick;
    LoopConserves(h.st, now, alive, e);
    var fired := Loop(h.st, now, alive).1;
    assert Entries(h.fired + At(fired, now)) == Entries(h.fired) + fired;
    CountJoin(Entries(h.fired), fired, e);
  }

  // ------------------------------------------------------------ every deadline is met

  // Nothing steady is still pending once its time has passed.
  lemma NothingOverdue(st: State, e: Entry)
    requires Scheduled(st) && Steady(e, st.minTick) && e.timer.d + e.late < st.last
    ensures Pending(st.lists, e) == 0
  {
    forall k | 0 <= k < 5
      ensures e !in st.lists[k]
    {
      if k > 0 { NextTick(k, st.minTick, st.tick, st.last); }
      assert NotBefore(st.lists[k], st.minTick, NextLooks(st.minTick, st.tick, st.last)[k]);
    }
  }

  // A deadline that has passed has been met exactly as often as it was set.
  lemma MetOncePerSetting(minTick: int, start: int, run: seq<Event>, e: Entry)
    requires DividesSecond(minTick) && TimelyRun(minTick, start, run) && Steady(e, minTick)
    requires e.timer.d + e.late < Run(minTick, start, run).st.last
    ensures var h := Run(minTick, start, run);
            Count(Entries(h.fired), e) + h.dropped[e] == h.handled[e] + Renewals(Entries(h.fired), e)
  {
    RunIsPunctual(minTick, start, run);
    RunConserves(minTick, start, run, e);
    NothingOverdue(Run(minTick, start, run).st, e);
  }

  predicate AlwaysAlive(run: seq<Event>, pid: Pid) {
    forall ev :: ev in run && ev.Tick? ==> pid in ev.alive
  }

  lemma {:induction false} AliveIsNotDropped(minTick: int, start: int, run: seq<Event>, e: Entry)
    requires TimelyRun(minTick, start, run) && AlwaysAlive(run, e.timer.pid)
    ensures e !in Run(minTick, start, run).dropped
    decreases |run|
  {
    if run != [] {
      var h := Run(minTick, start, run[..|run| - 1]);
      AliveIsNotDropped(minTick, start, run[..|run| - 1], e);
      var ev := run[|run| - 1];
      if ev.Tick? { TickDrops(h, ev.alive, e); }
    }
  }

  lemma TickDrops(h: History, alive: set<Pid>, e: Entry)
    requires ValidTick(h.st.minTick) && e.timer.pid in alive && e !in h.dropped
    ensures e !in Apply(h, Tick(alive)).dropped
  {
    CheckFires(Checked(h.st.lists, [], []), [], h.st.lists[0], h.st.last + h.st.minTick, alive);
  }

  // The entry with its deadline moved on by n intervals.
  function Nth(e: Entry, n: nat): Entry {
    e.(timer := e.timer.(d := e.timer.d + n * e.timer.inv))
  }

  lemma {:induction false} RenewedOnce(fired: seq<Entry>, e: Entry)
    requires e in fired && e.timer.kind == Forever
    ensures Renewals(fired, Renew(e)) > 0
    decreases |fired|
  {
    var n := |fired| - 1;
    if fired[n] != e {
      assert fired == fired[..n] + [fired[n]];
      RenewedOnce(fired[..n], e);
    }
  }

  // An entry that was met and renews was set again.
  lemma MetIsRenewed(fired: seq<Firing>, f: Firing, next: Entry)
    requires f in fired && f.entry.timer.kind == Forever && Renew(f.entry) == next
    ensures Renewals(Entries(fired), next) > 0
  {
    var i :| 0 <= i < |fired| && fired[i] == f;
    assert Entries(fired)[i] == f.entry;
    RenewedOnce(Entries(fired), f.entry);
  }

  // A setting whose deadline has passed, of a process that stays alive, has been met.
  lemma SettingIsMet(minTick: int, start: int, run: seq<Event>, e: Entry)
    requires DividesSecond(minTick) && TimelyRun(minTick, start, run)
    requires Steady(e, minTick) && AlwaysAlive(run, e.timer.pid) &&
             e.timer.d + e.late < Run(minTick, start, run).st.last
    requires var h := Run(minTick, start, run); e in h.handled || Renewals(Entries(h.fired), e) > 0
    ensures exists f :: f in Run(minTick, start, run).fired && f.entry == e
  {
    var h := Run(minTick, start, run);
    MetOncePerSetting(minTick, start, run, e);
    AliveIsNotDropped(minTick, start, run, e);
    var i :| 0 <= i < |h.fired| && Entries(h.fired)[i] == e;
    assert h.fired[i] in h.fired;
  }

  // A handled timer whose process stays alive meets every deadline that has passed: the
  // one of a one-shot, and for a periodic timer d, d + inv, d + 2 inv, and so on.
  lemma {:induction false} EveryDeadlineIsMet(minTick: int, start: int, run: seq<Event>, e: Entry, n: nat)
    requires DividesSecond(minTick) && TimelyRun(minTick, start, run)
    requires Steady(e, minTick) && AlwaysAlive(run, e.timer.pid) && (n > 0 ==> e.timer.kind == Forever)
    requires e in Run(minTick, start, run).handled
    requires Nth(e, n).timer.d + e.late < Run(minTick, start, run).st.last
    ensures exists f :: f in Run(minTick, start, run).fired && f.entry == Nth(e, n) && Punctual(f, minTick)
    decreases n
  {
    var h := Run(minTick, start, run);
    RunIsPunctual(minTick, start, run);
    if n == 0 {
      assert Nth(e, 0) == e;
    } else {
      assert (n - 1) * e.timer.inv == n * e.timer.inv - e.timer.inv;
      EveryDeadlineIsMet(minTick, start, run, e, n - 1);
      assert Renew(Nth(e, n - 1)) == Nth(e, n);
      var f :| f in h.fired && f.entry == Nth(e, n - 1);
      MetIsRenewed(h.fired, f, Nth(e, n));
    }
    SettingIsMet(minTick, start, run, Nth(e, n));
  }

  // ------------------------------------------------------------ when it fails

  // A process with one periodic timer, sent and handled at time 0, and n ticks.
  function OneTimer(inv: int, n: nat): seq<Event> {
    if n == 0 then [Handle(Forever, inv, 0, 0, 0, 0)] else OneTimer(inv, n - 1) + [Tick({0})]
  }

  function OneEntry(inv: int): Entry {
    Sent(Forever, inv, 0, 0, 0, 0)
  }

  ghost predicate Behind(h: History, inv: int, n: nat) {
    && h.st.last == n * h.st.minTick
    && h.st.lists == [[Nth(OneEntry(inv), n)], [], [], [], []]
    && (n > 0 ==> Firing(Nth(OneEntry(inv), n - 1), n * h.st.minTick) in h.fired)
  }

  // An interval under a tick: the timer falls behind by the difference at every tick.
  lemma {:induction false} FallsBehind(minTick: int, inv: int, n: nat)
    requires ValidTick(minTick) && inv < minTick
    ensures TimelyRun(minTick, 0, OneTimer(inv, n))
    ensures Behind(Run(minTick, 0, OneTimer(inv, n)), inv, n)
  {
    if n == 0 {
      OneHandled(minTick, inv);
    } else {
      FallsBehind(minTick, inv, n - 1);
      var h := Run(minTick, 0, OneTimer(inv, n - 1));
      RunOn(minTick, 0, OneTimer(inv, n - 1), Tick({0}));
      LoneTick(h, inv, n);
    }
  }

  lemma RunOn(minTick: int, start: int, run: seq<Event>, ev: Event)
    requires TimelyRun(minTick, start, run) && Timely(Run(minTick, start, run), ev)
    ensures TimelyRun(minTick, start, run + [ev])
    ensures Run(minTick, start, run + [ev]) == Apply(Run(minTick, start, run), ev)
  {
    assert (run + [ev])[..|run|] == run;
  }

  lemma OneHandled(minTick: int, inv: int)
    requires ValidTick(minTick) && inv < minTick
    ensures TimelyRun(minTick, 0, OneTimer(inv, 0))
    ensures Behind(Run(minTick, 0, OneTimer(inv, 0)), inv, 0)
  {
    var run := OneTimer(inv, 0);
    assert run[..0] == [] && [Nth(OneEntry(inv), 0)] + [] == [Nth(OneEntry(inv), 0)];
    assert Nth(OneEntry(inv), 0) == OneEntry(inv);
  }

  lemma LoneTick(h: History, inv: int, n: nat)
    requires n > 0 && ValidTick(h.st.minTick) && inv < h.st.minTick && Behind(h, inv, n - 1)
    ensures Behind(Apply(h, Tick({0})), inv, n)
  {
    var e, now := Nth(OneEntry(inv), n - 1), n * h.st.minTick;
    assert now == (n - 1) * h.st.minTick + h.st.minTick;
    assert n * inv == (n - 1) * inv + inv;
    Monotone(inv, h.st.minTick, n);
    assert Renew(e) == Nth(OneEntry(inv), n);
    LoneEntry(h.st, e, now);
    assert At([e], now)[0] == Firing(e, now);
  }

  lemma LoneEntry(st: State, e: Entry, now: int)
    requires ValidTick(st.minTick) && st.lists == [[e], [], [], [], []]
    requires e.timer.kind == Forever && e.timer.pid == 0 && e.timer.inv <= SECOND && e.timer.d <= now
    ensures var r := Loop(st, now, {0});
            r.0.lists == [[Renew(e)], [], [], [], []] && r.0.last == now && r.1 == [e]
  {
    var c0 := Checked(st.lists, [], []);
    var c1 := c0.(fired := [e]);
    assert c0.fired + [e] == [e] && [] + [Renew(e)] == [Renew(e)];
    assert Check(c0, [], [e], now, {0}) == Check(c1, [Renew(e)], [e][1..], now, {0});
    var ls := st.lists[0 := [Renew(e)]];
    EmptySweep(ls, 1, st.tick + 1, st.minTick, now);
    EmptySweep(ls, 2, st.tick + 1, st.minTick, now);
    EmptySweep(ls, 3, st.tick + 1, st.minTick, now);
    EmptySweep(ls, 4, st.tick + 1, st.minTick, now);
  }

  lemma EmptySweep(ls: Lists, k: nat, tick: nat, minTick: int, now: int)
    requires 1 <= k < 5 && ValidTick(minTick) && ls[k] == []
    ensures Sweep(ls, k, tick, minTick, now) == ls
  {
    assert Cascade(ls, k, [], [], now) == ls[k := []];
  }

  // Is this firing of a periodic timer of the interval `inv`?
  predicate FiresEvery(f: Firing, inv: int) {
    f.entry.timer.kind == Forever && f.entry.timer.inv == inv
  }

  predicate InTime(f: Firing, minTick: int) {
    f.entry.timer.d <= f.at <= f.entry.timer.d + f.entry.late + minTick
  }

  ghost predicate AlwaysInTime(minTick: int, inv: int) {
    forall start, run, f ::
      TimelyRun(minTick, start, run) && f in Run(minTick, start, run).fired && FiresEvery(f, inv)
      ==> InTime(f, minTick)
  }

  lemma Lags(minTick: int, inv: int, n: int)
    requires inv < minTick && n >= 0
    ensures n * minTick >= n * inv + n
  {
    Monotone(1, minTick - inv, n);
    assert n * minTick - n * inv == (minTick - inv) * n;
  }

  lemma TooOften(minTick: int, inv: int) returns (run: seq<Event>, f: Firing)
    requires DividesSecond(minTick) && inv < minTick
    ensures TimelyRun(minTick, 0, run) && f in Run(minTick, 0, run).fired
    ensures FiresEvery(f, inv) && !InTime(f, minTick)
  {
    var n := OneEntry(inv).late + minTick + 1;
    run := OneTimer(inv, n);
    f := Firing(Nth(OneEntry(inv), n - 1), n * minTick);
    FallsBehind(minTick, inv, n);
    OnceMore(n - 1, inv);
    assert f.entry.timer.d == n * inv;
    Lags(minTick, inv, n);
  }

  // Periodic timers of an interval are in time in every run if and only if the interval
  // is at least a tick.
  lemma InTimeExactlyWhenSteady(minTick: int, inv: int)
    requires DividesSecond(minTick)
    ensures AlwaysInTime(minTick, inv) <==> inv >= minTick
  {
    if inv >= minTick {
      forall start, run, f
        | TimelyRun(minTick, start, run) && f in Run(minTick, start, run).fired && FiresEvery(f, inv)
        ensures InTime(f, minTick)
      {
        RunIsPunctual(minTick, start, run);
      }
    } else {
      var run, f := TooOften(minTick, inv);
    }
  }
}
