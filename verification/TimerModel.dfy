// The timer actor of kernel/timer.go, as a function on values: five lists, swept
// at one tick, one second, ten seconds, one minute and one hour.

module TimerModel {

  const SECOND := 1000
  const TEN_SECONDS := 10 * SECOND
  const MINUTE := 60 * SECOND
  const HOUR := 60 * MINUTE

  type Pid = nat
  type Message = int

  datatype TimerType = Forever | Once

  datatype Timer = Timer(kind: TimerType, d: int, inv: int, pid: Pid, msg: Message)

  // `late` is how long the timer travelled through channels before the actor handled
  // it, plus how far in the past its first deadline already lay when it was sent. The
  // program does not store it; the theorems are stated with it.
  datatype Entry = Entry(timer: Timer, late: nat)

  // Element k is the list t_k, head first.
  type Lists = ls: seq<seq<Entry>> | |ls| == 5 witness [[], [], [], [], []]

  // The longest interval list k takes; list k + 1 is swept with this as its cut-off.
  function Span(k: nat): int
    requires k < 4
  {
    if k == 0 then SECOND else if k == 1 then TEN_SECONDS else if k == 2 then MINUTE else HOUR
  }

  // The list that takes an interval.
  function Slot(inv: int): (k: nat)
    ensures k < 5
    ensures k > 0 ==> Span(k - 1) < inv
    ensures k < 4 ==> inv <= Span(k)
  {
    if inv <= SECOND then 0
    else if inv <= TEN_SECONDS then 1
    else if inv <= MINUTE then 2
    else if inv <= HOUR then 3
    else 4
  }

  function Put(ls: Lists, e: Entry, inv: int): Lists {
    ls[Slot(inv) := [e] + ls[Slot(inv)]]
  }

  function Renew(e: Entry): Entry {
    e.(timer := e.timer.(d := e.timer.d + e.timer.inv))
  }

  // actTimer: sweep list k, where `kept` has been looked at and `rest` has not.
  function Cascade(ls: Lists, k: nat, kept: seq<Entry>, rest: seq<Entry>, now: int): Lists
    requires 1 <= k < 5
    decreases |rest|
  {
    if rest == [] then ls[k := kept]
    else
      var e := rest[0];
      var dif := e.timer.d - now;
      if dif <= Span(k - 1) then Cascade(Put(ls, e, dif), k, kept, rest[1..], now)
      else Cascade(ls, k, kept + [e], rest[1..], now)
  }

  datatype Checked = Checked(lists: Lists, fired: seq<Entry>, dropped: seq<Entry>)

  // loopTimerCheck: walk t0, cast what is due, and forget what is due to a dead process.
  function Check(c: Checked, kept: seq<Entry>, rest: seq<Entry>, now: int, alive: set<Pid>): Checked
    decreases |rest|
  {
    if rest == [] then c.(lists := c.lists[0 := kept])
    else
      var e := rest[0];
      if now < e.timer.d then Check(c, kept + [e], rest[1..], now, alive)
      else if e.timer.pid !in alive then
        Check(c.(dropped := c.dropped + [e]), kept, rest[1..], now, alive)
      else
        var c' := c.(fired := c.fired + [e]);
        if e.timer.kind == Once then Check(c', kept, rest[1..], now, alive)
        else if e.timer.inv > SECOND then
          Check(c'.(lists := Put(c'.lists, Renew(e), e.timer.inv)), kept, rest[1..], now, alive)
        else Check(c', kept + [Renew(e)], rest[1..], now, alive)
  }

  // `last` is the time of the last walk of t0; the program does not store it.
  datatype State = State(minTick: int, tick: nat, lists: Lists, last: int)

  // How many ticks lie between two sweeps of list k: the fields secM, tenM, minM, hourM.
  function Period(k: nat, minTick: int): int
    requires 1 <= k < 5 && minTick > 0
  {
    Span(k - 1) / minTick
  }

  predicate ValidTick(minTick: int) {
    0 < minTick <= SECOND
  }

  predicate SweepDue(k: nat, tick: nat, minTick: int)
    requires 1 <= k < 5 && ValidTick(minTick)
  {
    if k < 4 then tick % Period(k, minTick) == 0 else tick == Period(4, minTick)
  }

  function Sweep(ls: Lists, k: nat, tick: nat, minTick: int, now: int): Lists
    requires 1 <= k < 5 && ValidTick(minTick)
  {
    if SweepDue(k, tick, minTick) then Cascade(ls, k, [], ls[k], now) else ls
  }

  // Every list that is due, in order; a timer can come down several lists in one tick.
  function Sweeps(ls: Lists, tick: nat, minTick: int, now: int): Lists
    requires ValidTick(minTick)
  {
    var l1 := Sweep(ls, 1, tick, minTick, now);
    var l2 := Sweep(l1, 2, tick, minTick, now);
    var l3 := Sweep(l2, 3, tick, minTick, now);
    Sweep(l3, 4, tick, minTick, now)
  }

  // loopTimer
  function Loop(st: State, now: int, alive: set<Pid>): (State, seq<Entry>, seq<Entry>)
    requires ValidTick(st.minTick)
  {
    var c := Check(Checked(st.lists, [], []), [], st.lists[0], now, alive);
    var tick := st.tick + 1;
    var tick' := if SweepDue(4, tick, st.minTick) then 0 else tick;
    (State(st.minTick, tick', Sweeps(c.lists, tick, st.minTick, now), now), c.fired, c.dropped)
  }

  // SendAfter at time `sent`, handled by the actor at time `at`.
  function Sent(kind: TimerType, inv: int, pid: Pid, msg: Message, sent: int, at: int): Entry
    requires sent <= at
  {
    Entry(Timer(kind, sent + inv, inv, pid, msg), at - sent + if inv < 0 then -inv else 0)
  }

  // ---------------------------------------------------------------- runs

  datatype Event =
    | Handle(kind: TimerType, inv: int, pid: Pid, msg: Message, sent: int, at: int)
    | Tick(alive: set<Pid>)

  datatype Firing = Firing(entry: Entry, at: int)

  datatype History = History(st: State, handled: multiset<Entry>, fired: seq<Firing>, dropped: multiset<Entry>)

  function At(fired: seq<Entry>, now: int): seq<Firing> {
    seq(|fired|, i requires 0 <= i < |fired| => Firing(fired[i], now))
  }

  function Init(minTick: int, start: int): History {
    History(State(minTick, 0, [[], [], [], [], []], start), multiset{}, [], multiset{})
  }

  // Ticks come exactly minTick apart; a message is handled between two ticks.
  predicate Timely(h: History, ev: Event) {
    ev.Handle? ==> ev.sent <= ev.at && h.st.last <= ev.at <= h.st.last + h.st.minTick
  }

  function Apply(h: History, ev: Event): History
    requires ValidTick(h.st.minTick) && Timely(h, ev)
  {
    match ev
    case Handle(kind, inv, pid, msg, sent, at) =>
      var e := Sent(kind, inv, pid, msg, sent, at);
      h.(st := h.st.(lists := Put(h.st.lists, e, inv)), handled := h.handled + multiset{e})
    case Tick(alive) =>
      var now := h.st.last + h.st.minTick;
      var (st', fired, dropped) := Loop(h.st, now, alive);
      History(st', h.handled, h.fired + At(fired, now), h.dropped + multiset(dropped))
  }

  predicate TimelyRun(minTick: int, start: int, run: seq<Event>)
    decreases |run|, 0
  {
    ValidTick(minTick) &&
    (run != [] ==>
       TimelyRun(minTick, start, run[..|run| - 1]) &&
       Timely(Run(minTick, start, run[..|run| - 1]), run[|run| - 1]))
  }

  function Run(minTick: int, start: int, run: seq<Event>): (h: History)
    requires TimelyRun(minTick, start, run)
    ensures h.st.minTick == minTick
    decreases |run|, 1
  {
    if run == [] then Init(minTick, start)
    else Apply(Run(minTick, start, run[..|run| - 1]), run[|run| - 1])
  }
}
