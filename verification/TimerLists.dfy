// The timer actor's five intrusive doubly linked lists, updated in place.

module TimerLists {
  import opened TimerModel

  class TimerNode {
    var pre: TimerNode?
    var next: TimerNode?
    var data: Timer
    ghost var late: nat
    ghost var home: nat  // the list this node is in

    constructor (data: Timer, ghost late: nat)
      ensures this.data == data && this.late == late
    {
      this.pre, this.next, this.data, this.late, this.home := null, null, data, late, 0;
    }
  }

  ghost function Nodes(s: seq<TimerNode>): set<TimerNode> {
    set n | n in s
  }

  // `list` is the head of a doubly linked list of exactly the nodes s, in order.
  ghost predicate Linked(list: TimerNode?, s: seq<TimerNode>)
    reads Nodes(s)
  {
    && (s == [] <==> list == null)
    && (s != [] ==> list == s[0] && s[0].pre == null && s[|s| - 1].next == null)
    && (forall i {:trigger s[i].next} :: 0 <= i < |s| - 1 ==> s[i].next == s[i + 1])
    && (forall i {:trigger s[i].pre} :: 0 < i < |s| ==> s[i].pre == s[i - 1])
    && (forall i, j :: 0 <= i < j < |s| ==> s[i] != s[j])
  }

  // The nodes s are those of list k, and carry the values v.
  ghost predicate Carries(s: seq<TimerNode>, k: nat, v: seq<Entry>)
    reads Nodes(s)
  {
    && |s| == |v|
    && forall i :: 0 <= i < |s| ==> s[i].home == k && v[i] == Entry(s[i].data, s[i].late)
  }

  // The five heads hold five disjoint, correctly linked lists, of these nodes and values.
  ghost predicate Holds(heads: seq<TimerNode?>, nodes: seq<seq<TimerNode>>, ls: Lists, repr: set<TimerNode>)
    reads repr
  {
    && |heads| == 5 && |nodes| == 5
    && (forall k, n :: 0 <= k < 5 && n in nodes[k] ==> n in repr)
    && (forall k :: 0 <= k < 5 ==> Linked(heads[k], nodes[k]))
    && (forall k :: 0 <= k < 5 ==> Carries(nodes[k], k, ls[k]))
  }

  ghost predicate Free(ti: TimerNode, nodes: seq<seq<TimerNode>>) {
    forall k :: 0 <= k < |nodes| ==> ti !in nodes[k]
  }

  ghost function Without<T>(s: seq<T>, k: nat): seq<T>
    requires k < |s|
  {
    s[..k] + s[k + 1..]
  }

  // Different lists have no node in common.
  lemma Apart(heads: seq<TimerNode?>, nodes: seq<seq<TimerNode>>, ls: Lists, repr: set<TimerNode>, j: nat)
    requires Holds(heads, nodes, ls, repr) && j < 5
    ensures Nodes(nodes[j]) <= repr
    ensures forall i :: 0 <= i < 5 && i != j ==> Nodes(nodes[i]) <= repr - Nodes(nodes[j])
  {
    forall i | 0 <= i < 5 && i != j
      ensures Nodes(nodes[i]) <= repr - Nodes(nodes[j])
    {
      assert Carries(nodes[i], i, ls[i]) && Carries(nodes[j], j, ls[j]);
    }
  }

  lemma Larger(heads: seq<TimerNode?>, nodes: seq<seq<TimerNode>>, ls: Lists, repr: set<TimerNode>,
               more: set<TimerNode>)
    requires Holds(heads, nodes, ls, repr) && repr <= more
    ensures Holds(heads, nodes, ls, more)
  {
  }

  // insertTimer: `list` is the head of list j.
  method InsertFirst(list: TimerNode?, ti: TimerNode, ghost heads: seq<TimerNode?>, ghost nodes: seq<seq<TimerNode>>,
                     ghost ls: Lists, ghost repr: set<TimerNode>, ghost j: nat)
    returns (first: TimerNode)
    requires Holds(heads, nodes, ls, repr) && j < 5 && list == heads[j] && ti in repr && Free(ti, nodes)
    modifies repr`next, repr`pre, repr`home
    ensures first == ti
    ensures Holds(heads[j := ti], nodes[j := [ti] + nodes[j]], ls[j := [Entry(ti.data, ti.late)] + ls[j]], repr)
  {
    Apart(heads, nodes, ls, repr, j);
    ti.next := list;
    ti.pre := null;
    ti.home := j;
    if list != null {
      list.pre := ti;
    }
    first := ti;
    forall i | 0 <= i < 5 && i != j
      ensures Linked(heads[i], nodes[i]) && Carries(nodes[i], i, ls[i])
    {
    }
    assert Linked(ti, [ti] + nodes[j]);
  }

  // removeTimer: node number i of the list goes; its own links are left as they were.
  method Remove(list: TimerNode?, e: TimerNode, ghost s: seq<TimerNode>, ghost i: nat) returns (list': TimerNode?)
    requires Linked(list, s) && i < |s| && e == s[i]
    modifies Nodes(s)`next, Nodes(s)`pre
    ensures Linked(list', Without(s, i))
  {
    list' := list;
    assert i < |s| - 1 ==> s[i].next == s[i + 1];
    if e.next == null {
      if list == e {
        list' := null;
      } else {
        e.pre.next := null;
      }
    } else {
      if list == e {
        list' := e.next;
        if list' != null {
          list'.pre := null;
        }
      } else {
        e.pre.next := e.next;
        e.next.pre := e.pre;
      }
    }
  }

  // The same, for node number i of list k among the five.
  method RemoveFrom(list: TimerNode?, e: TimerNode, ghost heads: seq<TimerNode?>, ghost nodes: seq<seq<TimerNode>>,
                    ghost ls: Lists, ghost repr: set<TimerNode>, ghost k: nat, ghost i: nat)
    returns (list': TimerNode?)
    requires Holds(heads, nodes, ls, repr) && k < 5 && list == heads[k] && i < |nodes[k]| && e == nodes[k][i]
    modifies repr`next, repr`pre
    ensures Holds(heads[k := list'], nodes[k := Without(nodes[k], i)], ls[k := Without(ls[k], i)], repr)
    ensures Free(e, nodes[k := Without(nodes[k], i)])
  {
    Apart(heads, nodes, ls, repr, k);
    list' := Remove(list, e, nodes[k], i);
    forall j | 0 <= j < 5 && j != k
      ensures Linked(heads[j], nodes[j]) && Carries(nodes[j], j, ls[j])
    {
    }
    assert Carries(Without(nodes[k], i), k, Without(ls[k], i));
  }

  lemma {:induction false} CascadeElsewhere(ls: Lists, s: seq<Entry>, k: nat, kept: seq<Entry>, rest: seq<Entry>,
                                            now: int)
    requires 1 <= k < 5
    ensures Cascade(ls[k := s], k, kept, rest, now) == Cascade(ls, k, kept, rest, now)
    decreases |rest|
  {
    if rest == [] {
      assert ls[k := s][k := kept] == ls[k := kept];
    } else {
      var e := rest[0];
      var dif := e.timer.d - now;
      if dif <= Span(k - 1) {
        assert Put(ls[k := s], e, dif) == Put(ls, e, dif)[k := s];
        CascadeElsewhere(Put(ls, e, dif), s, k, kept, rest[1..], now);
      } else {
        CascadeElsewhere(ls, s, k, kept + [e], rest[1..], now);
      }
    }
  }

  // What is left of a sweep of list k that stands before node i.
  ghost function CascadeFrom(ls: Lists, k: nat, i: nat, now: int): Lists
    requires 1 <= k < 5 && i <= |ls[k]|
  {
    Cascade(ls, k, ls[k][..i], ls[k][i..], now)
  }

  ghost function Moved(ls: Lists, k: nat, i: nat, inv: int): Lists
    requires k < 5 && i < |ls[k]|
  {
    Put(ls[k := Without(ls[k], i)], ls[k][i], inv)
  }

  lemma CascadeStep(ls: Lists, k: nat, i: nat, now: int)
    requires 1 <= k < 5 && i < |ls[k]|
    ensures var dif := ls[k][i].timer.d - now;
            CascadeFrom(ls, k, i, now) ==
            if dif <= Span(k - 1) then CascadeFrom(Moved(ls, k, i, dif), k, i, now)
            else CascadeFrom(ls, k, i + 1, now)
  {
    var f := ls[k][i];
    var dif := f.timer.d - now;
    assert ls[k][i..][1..] == ls[k][i + 1..];
    if dif <= Span(k - 1) {
      var w := Without(ls[k], i);
      CascadeElsewhere(Put(ls, f, dif), w, k, ls[k][..i], ls[k][i + 1..], now);
      assert Put(ls[k := w], f, dif) == Put(ls, f, dif)[k := w];
      assert w[..i] == ls[k][..i] && w[i..] == ls[k][i + 1..];
    } else {
      assert ls[k][..i] + [f] == ls[k][..i + 1];
    }
  }

  lemma {:induction false} CheckElsewhere(c: Checked, s: seq<Entry>, kept: seq<Entry>, rest: seq<Entry>, now: int,
                                          alive: set<Pid>)
    ensures Check(c.(lists := c.lists[0 := s]), kept, rest, now, alive) == Check(c, kept, rest, now, alive)
    decreases |rest|
  {
    if rest == [] {
      assert c.lists[0 := s][0 := kept] == c.lists[0 := kept];
    } else {
      var e := rest[0];
      if now < e.timer.d {
        CheckElsewhere(c, s, kept + [e], rest[1..], now, alive);
      } else if e.timer.pid !in alive {
        CheckElsewhere(c.(dropped := c.dropped + [e]), s, kept, rest[1..], now, alive);
      } else {
        var c' := c.(fired := c.fired + [e]);
        if e.timer.kind == Once {
          CheckElsewhere(c', s, kept, rest[1..], now, alive);
        } else if e.timer.inv > SECOND {
          assert Put(c.lists[0 := s], Renew(e), e.timer.inv) == Put(c.lists, Renew(e), e.timer.inv)[0 := s];
          CheckElsewhere(c'.(lists := Put(c'.lists, Renew(e), e.timer.inv)), s, kept, rest[1..], now, alive);
        } else {
          CheckElsewhere(c', s, kept + [Renew(e)], rest[1..], now, alive);
        }
      }
    }
  }

  // What casting node i of t0 does to the lists, and where the walk goes on.
  ghost function CastOne(ls: Lists, i: nat): (Lists, nat)
    requires i < |ls[0]|
  {
    var e := ls[0][i];
    var gone := ls[0 := Without(ls[0], i)];
    if e.timer.kind == Once then (gone, i)
    else if e.timer.inv > SECOND then (Put(gone, Renew(e), e.timer.inv), i)
    else (ls[0 := ls[0][i := Renew(e)]], i + 1)
  }

  // One step of the walk of t0, on the lists as they stand.
  ghost function CheckOne(c: Checked, i: nat, now: int, alive: set<Pid>): (Checked, nat)
    requires i < |c.lists[0]|
  {
    var e := c.lists[0][i];
    if now < e.timer.d then (c, i + 1)
    else if e.timer.pid !in alive then
      (Checked(c.lists[0 := Without(c.lists[0], i)], c.fired, c.dropped + [e]), i)
    else (Checked(CastOne(c.lists, i).0, c.fired + [e], c.dropped), CastOne(c.lists, i).1)
  }

  // What is left of a walk of t0 that stands before node i.
  ghost function CheckFrom(c: Checked, i: nat, now: int, alive: set<Pid>): Checked
    requires i <= |c.lists[0]|
  {
    Check(c, c.lists[0][..i], c.lists[0][i..], now, alive)
  }

  lemma CheckStep(c: Checked, i: nat, now: int, alive: set<Pid>)
    requires i < |c.lists[0]|
    ensures var r := CheckOne(c, i, now, alive);
            && r.1 <= |r.0.lists[0]| && |r.0.lists[0]| - r.1 < |c.lists[0]| - i
            && CheckFrom(c, i, now, alive) == CheckFrom(r.0, r.1, now, alive)
  {
    var s, e := c.lists[0], c.lists[0][i];
    var (c', i') := CheckOne(c, i, now, alive);
    var w := Without(s, i);
    assert s[i..][1..] == s[i + 1..] && w[..i] == s[..i] && w[i..] == s[i + 1..];
    if now < e.timer.d {
      assert s[..i] + [e] == s[..i + 1];
    } else if e.timer.pid !in alive {
      CheckElsewhere(c.(dropped := c.dropped + [e]), w, s[..i], s[i + 1..], now, alive);
    } else {
      var c1 := c.(fired := c.fired + [e]);
      if e.timer.kind == Once {
        CheckElsewhere(c1, w, s[..i], s[i + 1..], now, alive);
      } else if e.timer.inv > SECOND {
        var ls := Put(c.lists, Renew(e), e.timer.inv);
        assert Put(c.lists[0 := w], Renew(e), e.timer.inv) == ls[0 := w];
        CheckElsewhere(c1.(lists := ls), w, s[..i], s[i + 1..], now, alive);
      } else {
        var r := s[i := Renew(e)];
        assert r[..i + 1] == s[..i] + [Renew(e)] && r[i + 1..] == s[i + 1..];
        CheckElsewhere(c1, r, s[..i] + [Renew(e)], s[i + 1..], now, alive);
      }
    }
  }

  ghost function Timers(fired: seq<Entry>): (r: seq<Timer>) {
    seq(|fired|, i requires 0 <= i < |fired| => fired[i].timer)
  }

  class ATimer {
    const minTick: int
    const secM: int
    const tenM: int
    const minM: int
    const hourM: int
    var tick: nat
    var t: seq<TimerNode?>  // the heads t0 to t4
    ghost var nodes: seq<seq<TimerNode>>
    ghost var lists: Lists
    ghost var last: int
    ghost var repr: set<TimerNode>

    ghost predicate Counters() {
      && ValidTick(minTick)
      && secM == Period(1, minTick) && tenM == Period(2, minTick)
      && minM == Period(3, minTick) && hourM == Period(4, minTick)
    }

    ghost predicate Valid()
      reads this, repr
    {
      Counters() && Holds(t, nodes, lists, repr)
    }

    ghost function Abstract(): State
      reads this
    {
      State(minTick, tick, lists, last)
    }

    constructor (minTick: int, ghost start: int)
      requires ValidTick(minTick)
      ensures Valid() && Abstract() == Init(minTick, start).st && repr == {}
    {
      this.minTick := minTick;
      secM, tenM, minM, hourM := SECOND / minTick, TEN_SECONDS / minTick, MINUTE / minTick, HOUR / minTick;
      tick := 0;
      t := [null, null, null, null, null];
      nodes, lists, last, repr := [[], [], [], [], []], [[], [], [], [], []], start, {};
    }

    // insertTimer, while the head of list k is in the caller's hands as `list`
    method InsertTimer(ti: TimerNode, inv: int, ghost k: nat, ghost list: TimerNode?)
      requires |t| == 5 && k < 5 && k != Slot(inv) && Holds(t[k := list], nodes, lists, repr)
      requires ti in repr && Free(ti, nodes)
      modifies this`t, this`nodes, this`lists
      modifies repr`next, repr`pre, repr`home
      ensures |t| == 5 && Holds(t[k := list], nodes, lists, repr) && t[k] == old(t[k])
      ensures nodes == old(nodes)[Slot(inv) := [ti] + old(nodes)[Slot(inv)]]
      ensures lists == Put(old(lists), Entry(ti.data, ti.late), inv)
    {
      var j := Slot(inv);
      ghost var heads, ns, ls := t[k := list], nodes, lists;
      nodes := ns[j := [ti] + ns[j]];
      lists := ls[j := [Entry(ti.data, ti.late)] + ls[j]];
      var first := InsertFirst(t[j], ti, heads, ns, ls, repr, j);
      t := t[j := first];
      assert t[k := list] == heads[j := ti];
    }

    // removeTimer, node number i of list k, whose head is in the caller's hands as `list`
    method RemoveTimer(list: TimerNode?, v: TimerNode, ghost k: nat, ghost i: nat) returns (list': TimerNode?)
      requires |t| == 5 && k < 5 && Holds(t[k := list], nodes, lists, repr)
      requires i < |nodes[k]| && v == nodes[k][i]
      modifies this`nodes, this`lists, repr`next, repr`pre
      ensures Holds(t[k := list'], nodes, lists, repr) && Free(v, nodes)
      ensures nodes == old(nodes)[k := Without(old(nodes)[k], i)]
      ensures lists == old(lists)[k := Without(old(lists)[k], i)]
    {
      ghost var ns, ls := nodes, lists;
      nodes, lists := ns[k := Without(ns[k], i)], ls[k := Without(ls[k], i)];
      list' := RemoveFrom(list, v, t[k := list], ns, ls, repr, k, i);
      assert t[k := list][k := list'] == t[k := list'];
    }

    // The move of a timer from list k, under the head `list`, to the list for `inv`.
    method MoveTimer(list: TimerNode?, v: TimerNode, inv: int, ghost k: nat, ghost i: nat) returns (list': TimerNode?)
      requires |t| == 5 && k < 5 && k != Slot(inv) && Holds(t[k := list], nodes, lists, repr)
      requires i < |nodes[k]| && v == nodes[k][i]
      modifies this`t, this`nodes, this`lists, repr`next, repr`pre, repr`home
      ensures |t| == 5 && Holds(t[k := list'], nodes, lists, repr)
      ensures nodes[k] == Without(old(nodes)[k], i)
      ensures i < |old(lists)[k]| && lists == Moved(old(lists), k, i, inv)
    {
      assert lists[k][i] == Entry(v.data, v.late);
      list' := RemoveTimer(list, v, k, i);
      InsertTimer(v, inv, k, list');
    }

    // actTimer on list k
    method ActTimer(head: TimerNode?, now: int, inv: int, ghost k: nat) returns (list: TimerNode?)
      requires |t| == 5 && 1 <= k < 5 && inv == Span(k - 1) && head == t[k] && Holds(t, nodes, lists, repr)
      modifies this`t, this`nodes, this`lists, repr`next, repr`pre, repr`home
      ensures |t| == 5 && Holds(t[k := list], nodes, lists, repr)
      ensures lists == Cascade(old(lists), k, [], old(lists)[k], now)
    {
      list := head;
      var e := head;
      ghost var i: nat := 0;
      ghost var goal := Cascade(lists, k, [], lists[k], now);
      assert t[k := list] == t && lists[k][..0] == [] && lists[k][0..] == lists[k];
      while e != null
        invariant |t| == 5 && Holds(t[k := list], nodes, lists, repr)
        invariant i <= |nodes[k]| && e == (if i == |nodes[k]| then null else nodes[k][i])
        invariant i <= |lists[k]| && CascadeFrom(lists, k, i, now) == goal
        decreases |nodes[k]| - i
      {
        var v := e;
        e := e.next;
        assert lists[k][i] == Entry(v.data, v.late);
        CascadeStep(lists, k, i, now);
        var dif := v.data.d - now;
        if dif <= inv {
          list := MoveTimer(list, v, dif, k, i);
        } else {
          i := i + 1;
        }
      }
      assert lists[k][..i] == lists[k] && lists[k][i..] == [];
    }

    // A due timer is set up again: its node leaves t0 and goes where its interval belongs.
    method RenewTimer(list: TimerNode?, v: TimerNode, ghost i: nat) returns (list': TimerNode?)
      requires |t| == 5 && v.data.inv > SECOND && Holds(t[0 := list], nodes, lists, repr)
      requires i < |nodes[0]| && v == nodes[0][i]
      modifies this`t, this`nodes, this`lists, repr`next, repr`pre, repr`home, v`data
      ensures |t| == 5 && Holds(t[0 := list'], nodes, lists, repr)
      ensures nodes[0] == Without(old(nodes)[0], i) && i < |old(lists)[0]|
      ensures var e := old(lists)[0][i];
              lists == Put(old(lists)[0 := Without(old(lists)[0], i)], Renew(e), e.timer.inv)
    {
      assert lists[0][i] == Entry(v.data, v.late);
      list' := RemoveTimer(list, v, 0, i);
      v.data := v.data.(d := v.data.d + v.data.inv);
      forall j | 0 <= j < 5
        ensures Carries(nodes[j], j, lists[j])
      {
      }
      assert Holds(t[0 := list'], nodes, lists, repr);
      InsertTimer(v, v.data.inv, 0, list');
    }

    // The same for an interval of at most a second: the node stays where it is.
    method RenewInPlace(v: TimerNode, ghost list: TimerNode?, ghost i: nat)
      requires |t| == 5 && Holds(t[0 := list], nodes, lists, repr)
      requires i < |nodes[0]| && v == nodes[0][i]
      modifies v`data, this`lists
      ensures Holds(t[0 := list], nodes, lists, repr)
      ensures i < |old(lists)[0]| && lists == old(lists)[0 := old(lists)[0][i := Renew(old(lists)[0][i])]]
    {
      assert lists[0][i] == Entry(v.data, v.late);
      Apart(t[0 := list], nodes, lists, repr, 0);
      lists := lists[0 := lists[0][i := Renew(lists[0][i])]];
      v.data := v.data.(d := v.data.d + v.data.inv);
      forall j | 0 <= j < 5
        ensures Carries(nodes[j], j, lists[j])
      {
      }
    }

    // What becomes of a due timer once its message has been cast.
    method AfterCast(list: TimerNode?, v: TimerNode, ghost i: nat) returns (list': TimerNode?, ghost i': nat)
      requires |t| == 5 && Holds(t[0 := list], nodes, lists, repr)
      requires i < |nodes[0]| && v == nodes[0][i]
      modifies this`t, this`nodes, this`lists, repr
      ensures |t| == 5 && Holds(t[0 := list'], nodes, lists, repr)
      ensures i < |old(lists)[0]| && lists == CastOne(old(lists), i).0 && i' == CastOne(old(lists), i).1
      ensures i' <= |nodes[0]| && |nodes[0]| - i' < |old(nodes)[0]| - i
      ensures old(v.next) == (if i' == |nodes[0]| then null else nodes[0][i'])
    {
      assert lists[0][i] == Entry(v.data, v.late);
      list', i' := list, i;
      if v.data.kind == Once {
        list' := RemoveTimer(list, v, 0, i);
      } else if v.data.inv > SECOND {
        list' := RenewTimer(list, v, i);
      } else {
        RenewInPlace(v, list, i);
        i' := i + 1;
      }
    }

    // loopTimerCheck: the timers whose messages are cast, in order, are the result `casts`.
    method LoopTimerCheck(head: TimerNode?, now: int, alive: set<Pid>)
      returns (list: TimerNode?, casts: seq<Timer>, ghost fired: seq<Entry>, ghost dropped: seq<Entry>)
      requires |t| == 5 && head == t[0] && Holds(t, nodes, lists, repr)
      modifies this`t, this`nodes, this`lists, repr
      ensures |t| == 5 && Holds(t[0 := list], nodes, lists, repr)
      ensures Checked(lists, fired, dropped) == Check(Checked(old(lists), [], []), [], old(lists)[0], now, alive)
      ensures casts == Timers(fired)
    {
      list := head;
      casts, fired, dropped := [], [], [];
      var e := head;
      ghost var i: nat := 0;
      ghost var goal := Check(Checked(lists, [], []), [], lists[0], now, alive);
      assert t[0 := list] == t && lists[0][..0] == [] && lists[0][0..] == lists[0];
      while e != null
        invariant |t| == 5 && Holds(t[0 := list], nodes, lists, repr)
        invariant i <= |nodes[0]| && e == (if i == |nodes[0]| then null else nodes[0][i])
        invariant i <= |lists[0]| && CheckFrom(Checked(lists, fired, dropped), i, now, alive) == goal
        invariant casts == Timers(fired)
        decreases |nodes[0]| - i
      {
        var v := e;
        ghost var f := Entry(v.data, v.late);
        assert lists[0][i] == f;
        CheckStep(Checked(lists, fired, dropped), i, now, alive);
        e := e.next;
        if now >= v.data.d {
          if v.data.pid in alive {
            assert Timers(fired + [f]) == Timers(fired) + [f.timer];
            casts, fired := casts + [v.data], fired + [f];
            list, i := AfterCast(list, v, i);
          } else {
            list := RemoveTimer(list, v, 0, i);
            dropped := dropped + [f];
          }
        } else {
          i := i + 1;
        }
      }
      assert lists[0][..i] == lists[0] && lists[0][i..] == [];
    }

    // One of the conditional sweeps of loopTimer: list k, if it is due.
    method SweepList(due: bool, now: int, inv: int, k: nat)
      requires |t| == 5 && 1 <= k < 5 && inv == Span(k - 1) && Holds(t, nodes, lists, repr)
      requires ValidTick(minTick) && due == SweepDue(k, tick, minTick)
      modifies this`t, this`nodes, this`lists, repr`next, repr`pre, repr`home
      ensures Holds(t, nodes, lists, repr) && lists == Sweep(old(lists), k, tick, minTick, now)
    {
      if due {
        var list := ActTimer(t[k], now, inv, k);
        t := t[k := list];
      }
    }

    method WalkFirst(now: int, alive: set<Pid>)
      returns (casts: seq<Timer>, ghost fired: seq<Entry>, ghost dropped: seq<Entry>)
      requires Holds(t, nodes, lists, repr)
      modifies this`t, this`nodes, this`lists, repr
      ensures Holds(t, nodes, lists, repr)
      ensures Checked(lists, fired, dropped) == Check(Checked(old(lists), [], []), [], old(lists)[0], now, alive)
      ensures casts == Timers(fired)
    {
      var t0;
      t0, casts, fired, dropped := LoopTimerCheck(t[0], now, alive);
      t := t[0 := t0];
    }

    method SweepLists(now: int)
      requires Valid()
      modifies this`t, this`nodes, this`lists, repr`next, repr`pre, repr`home
      ensures Valid() && lists == Sweeps(old(lists), tick, minTick, now)
    {
      SweepList(tick % secM == 0, now, SECOND, 1);
      SweepList(tick % tenM == 0, now, TEN_SECONDS, 2);
      SweepList(tick % minM == 0, now, MINUTE, 3);
      SweepList(tick == hourM, now, HOUR, 4);
    }

    // loopTimer, at time `now`, with the processes in `alive` alive
    method LoopTimer(now: int, alive: set<Pid>)
      returns (casts: seq<Timer>, ghost fired: seq<Entry>, ghost dropped: seq<Entry>)
      requires Valid()
      modifies this`t, this`nodes, this`lists, this`tick, this`last, repr
      ensures Valid()
      ensures (Abstract(), fired, dropped) == Loop(old(Abstract()), now, alive)
      ensures casts == Timers(fired)
    {
      casts, fired, dropped := WalkFirst(now, alive);
      last := now;
      tick := tick + 1;
      SweepLists(now);
      if tick == hourM {
        tick := 0;
      }
    }

    // The actor handles, at time `at`, a timer that was sent at time `sent`.
    method HandleTimer(tm: Timer, ghost sent: int, ghost at: int)
      requires Valid() && sent <= at && tm.d == sent + tm.inv
      modifies this`t, this`nodes, this`lists, this`repr, repr`next, repr`pre, repr`home
      ensures Valid() && fresh(repr - old(repr))
      ensures Abstract()
              == old(Abstract()).(lists := Put(old(lists), Sent(tm.kind, tm.inv, tm.pid, tm.msg, sent, at), tm.inv))
    {
      ghost var e := Sent(tm.kind, tm.inv, tm.pid, tm.msg, sent, at);
      var ti := new TimerNode(tm, e.late);
      Larger(t, nodes, lists, repr, repr + {ti});
      repr := repr + {ti};
      ghost var k := if Slot(tm.inv) == 0 then 1 else 0;
      assert t[k := t[k]] == t;
      assert e == Entry(ti.data, ti.late) && Free(ti, nodes);
      InsertTimer(ti, tm.inv, k, t[k]);
      assert t[k := t[k]] == t;
    }
  }
}
