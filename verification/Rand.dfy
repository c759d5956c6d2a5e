// Drawing without replacement (rand/rand.go): numbers of a range by a map of the intervals
// that are left, and candidates by weight. The random source may answer anything, and keeps
// what it was asked.

module Rand {

  // A number below n that was asked for, and the answer.
  datatype Ask = Ask(n: int, k: int)

  class Source {
    ghost var asked: seq<Ask>

    constructor ()
      ensures asked == []
    {
      asked := [];
    }

    method Int31n(n: int) returns (k: int)
      requires n > 0
      modifies this
      ensures 0 <= k < n && asked == old(asked) + [Ask(n, k)]
    {
      k :| 0 <= k < n;
      asked := asked + [Ask(n, k)];
    }
  }

  // ------------------------------------------------------------ intervals

  datatype Mv = Mv(min: int, max: int)

  predicate Has(v: Mv, x: int) { v.min <= x <= v.max }

  // The intervals have the keys 0 to |m| - 1, and none is empty.
  predicate Keyed(m: map<int, Mv>) {
    && (forall k :: 0 <= k < |m| ==> k in m)
    && (forall k :: k in m ==> 0 <= k < |m| && m[k].min <= m[k].max)
  }

  predicate Apart(m: map<int, Mv>) {
    forall j, k :: j in m && k in m && j != k ==> m[j].max < m[k].min || m[k].max < m[j].min
  }

  ghost predicate Left(m: map<int, Mv>, x: int) { exists k :: k in m && Has(m[k], x) }

  // The numbers of the range are those that are left and those that have been drawn.
  ghost predicate Drawing(min: int, max: int, m: map<int, Mv>, rs: seq<int>) {
    && Keyed(m) && Apart(m)
    && (forall x :: Left(m, x) ==> min <= x <= max && x !in rs)
    && (forall x :: min <= x <= max ==> Left(m, x) || x in rs)
    && (forall x :: x in rs ==> min <= x <= max)
    && Different(rs)
  }

  // A number leaves its interval, which shrinks, splits or goes.
  function Without(m: map<int, Mv>, k: int, v: int): map<int, Mv>
    requires Keyed(m) && k in m && Has(m[k], v)
  {
    var l := |m|;
    var tmp := m[k];
    if tmp.min == tmp.max then m[k := m[l - 1]] - {l - 1}
    else if v == tmp.min then m[k := Mv(v + 1, tmp.max)]
    else if v == tmp.max then m[k := Mv(tmp.min, v - 1)]
    else m[l := Mv(v + 1, tmp.max)][k := Mv(tmp.min, v - 1)]
  }

  lemma KeysWithout(m: map<int, Mv>, k: int, v: int)
    requires Keyed(m) && k in m && Has(m[k], v)
    ensures var m', l := Without(m, k, v), |m|;
            if m[k].min == m[k].max then m'.Keys == m.Keys - {l - 1} && |m'| == l - 1
            else if v == m[k].min || v == m[k].max then m'.Keys == m.Keys && |m'| == l
            else m'.Keys == m.Keys + {l} && |m'| == l + 1
  {
    var m', l := Without(m, k, v), |m|;
    assert |m.Keys| == l && |m'.Keys| == |m'|;
    if m[k].min == m[k].max {
      assert m'.Keys == m.Keys - {l - 1};
    } else if v == m[k].min || v == m[k].max {
      assert m'.Keys == m.Keys;
    } else {
      assert m'.Keys == m.Keys + {l};
    }
  }

  lemma SizeWithout(m: map<int, Mv>, k: int, v: int)
    requires Keyed(m) && k in m && Has(m[k], v)
    ensures Keyed(Without(m, k, v))
  {
    KeysWithout(m, k, v);
  }

  lemma ApartWithout(m: map<int, Mv>, k: int, v: int)
    requires Keyed(m) && Apart(m) && k in m && Has(m[k], v)
    ensures Apart(Without(m, k, v))
  {
  }

  // What is left is what was left but the number drawn.
  lemma LeftWithout(m: map<int, Mv>, k: int, v: int, x: int)
    requires Keyed(m) && Apart(m) && k in m && Has(m[k], v)
    ensures Left(Without(m, k, v), x) <==> Left(m, x) && x != v
  {
    var m', l := Without(m, k, v), |m|;
    if Left(m, x) && x != v {
      var j :| j in m && Has(m[j], x);
      if j == k && m[k].min < v < m[k].max && x > v {
        assert l in m' && Has(m'[l], x);
      } else if m[k].min == m[k].max && j == l - 1 {
        assert k in m' && Has(m'[k], x);
      } else {
        assert j in m' && Has(m'[j], x);
      }
    }
    if Left(m', x) {
      var j :| j in m' && Has(m'[j], x);
      if m[k].min == m[k].max && j == k {
        assert Has(m[l - 1], x);
      } else if j == l {
        assert Has(m[k], x);
      } else {
        assert Has(m[j], x);
      }
    }
  }

  lemma DrawnOnce(min: int, max: int, m: map<int, Mv>, rs: seq<int>, k: int, v: int)
    requires Drawing(min, max, m, rs) && k in m && Has(m[k], v)
    ensures Drawing(min, max, Without(m, k, v), rs + [v])
  {
    SizeWithout(m, k, v);
    ApartWithout(m, k, v);
    forall x
      ensures Left(Without(m, k, v), x) <==> Left(m, x) && x != v
    {
      LeftWithout(m, k, v, x);
    }
    assert Left(m, v);
  }

  // ------------------------------------------------------------ counting

  function Cut(rs: seq<int>, i: nat): seq<int>
    requires i < |rs|
  {
    rs[..i] + rs[i + 1..]
  }

  lemma CutHas(rs: seq<int>, i: nat, x: int)
    requires i < |rs| && x in rs && x != rs[i]
    ensures x in Cut(rs, i)
  {
    var j :| 0 <= j < |rs| && rs[j] == x;
    if j < i { assert Cut(rs, i)[j] == x; } else { assert Cut(rs, i)[j - 1] == x; }
  }

  // A list in which every number of a range occurs is as long as the range.
  lemma {:induction false} LongEnough(min: int, max: int, rs: seq<int>)
    requires forall x :: min <= x <= max ==> x in rs
    ensures |rs| >= max - min + 1
    decreases max - min
  {
    if min <= max {
      assert max in rs;
      var i :| 0 <= i < |rs| && rs[i] == max;
      forall x | min <= x <= max - 1
        ensures x in Cut(rs, i)
      {
        CutHas(rs, i, x);
      }
      LongEnough(min, max - 1, Cut(rs, i));
    }
  }

  predicate Different(rs: seq<int>) { forall i, j :: 0 <= i < j < |rs| ==> rs[i] != rs[j] }

  // Different numbers of a range are no more than it has.
  lemma {:induction false} NotTooMany(min: int, max: int, rs: seq<int>)
    requires Different(rs) && min <= max + 1 && forall i :: 0 <= i < |rs| ==> min <= rs[i] <= max
    ensures |rs| <= max - min + 1
    decreases max - min + 1
  {
    if rs != [] {
      assert min <= rs[0] <= max;
      if i :| 0 <= i < |rs| && rs[i] == max {
        NotTooMany(min, max - 1, Cut(rs, i));
      } else {
        NotTooMany(min, max - 1, rs);
      }
    }
  }

  // While not all numbers are drawn, an interval is left to draw from.
  lemma SomethingLeft(min: int, max: int, m: map<int, Mv>, rs: seq<int>)
    requires Drawing(min, max, m, rs) && |rs| < max - min + 1
    ensures |m| > 0
  {
    if |m| == 0 {
      forall x | min <= x <= max
        ensures x in rs
      {
        assert Left(m, x) || x in rs;
      }
      LongEnough(min, max, rs);
    }
  }

  // Different numbers of a range, as many as it has, are all of them.
  lemma AllDrawn(min: int, max: int, rs: seq<int>, x: int)
    requires Different(rs) && forall i :: 0 <= i < |rs| ==> min <= rs[i] <= max
    requires |rs| >= max - min + 1 && min <= x <= max
    ensures x in rs
  {
    if x !in rs {
      NotTooMany(min, max, rs + [x]);
    }
  }

  // ------------------------------------------------------------ what the source decides

  // The number a round takes for these answers: the first chooses the interval, and the second
  // the place in it, which is asked for only if there are several.
  ghost predicate Round(m: map<int, Mv>, v: int, asked: seq<Ask>) {
    && |asked| > 0 && asked[0].n == |m| && asked[0].k in m
    && var tmp := m[asked[0].k];
       Has(tmp, v) && asked[1..] == if tmp.min == tmp.max then [] else [Ask(tmp.max - tmp.min + 1, v - tmp.min)]
  }

  // The numbers taken in some rounds, one list of answers each, and the intervals then left.
  ghost predicate Rounds(m: map<int, Mv>, rs: seq<int>, asked: seq<seq<Ask>>, m': map<int, Mv>)
    requires Keyed(m)
    decreases |rs|
  {
    |asked| == |rs| &&
    if rs == [] then m' == m
    else
      Round(m, rs[0], asked[0]) &&
      var k := asked[0][0].k;
      KeyedWithout(m, k, rs[0]) && Rounds(Without(m, k, rs[0]), rs[1..], asked[1..], m')
  }

  // SizeWithout, as a condition that always holds.
  ghost predicate KeyedWithout(m: map<int, Mv>, k: int, v: int)
    requires Keyed(m) && k in m && Has(m[k], v)
    ensures KeyedWithout(m, k, v) && Keyed(Without(m, k, v))
  {
    SizeWithout(m, k, v);
    true
  }

  function Flat(asked: seq<seq<Ask>>): seq<Ask> {
    if asked == [] then [] else Flat(asked[..|asked| - 1]) + asked[|asked| - 1]
  }

  lemma {:induction false} OneMoreRound(m: map<int, Mv>, rs: seq<int>, asked: seq<seq<Ask>>, m': map<int, Mv>,
                                        v: int, answers: seq<Ask>)
    requires Keyed(m) && Keyed(m') && Rounds(m, rs, asked, m') && Round(m', v, answers)
    ensures Rounds(m, rs + [v], asked + [answers], Without(m', answers[0].k, v))
    decreases |rs|
  {
    var k := answers[0].k;
    if rs == [] {
      assert KeyedWithout(m, k, v);
      assert Rounds(Without(m, k, v), [], [], Without(m, k, v));
      assert ([v])[1..] == [] && ([answers])[1..] == [];
    } else {
      var m1 := Without(m, asked[0][0].k, rs[0]);
      assert KeyedWithout(m, asked[0][0].k, rs[0]);
      OneMoreRound(m1, rs[1..], asked[1..], m', v, answers);
      assert (rs + [v])[1..] == rs[1..] + [v] && (asked + [answers])[1..] == asked[1..] + [answers];
    }
  }

  // What the source may answer.
  predicate Answers(asked: seq<Ask>) { forall i :: 0 <= i < |asked| ==> 0 <= asked[i].k < asked[i].n }

  // The source can have any different numbers of the range come up, in any order.
  lemma {:induction false} AnyCanComeUp(min: int, max: int, m: map<int, Mv>, done: seq<int>, rs: seq<int>)
    returns (asked: seq<seq<Ask>>, m': map<int, Mv>)
    requires Drawing(min, max, m, done) && Different(done + rs)
    requires forall i :: 0 <= i < |rs| ==> min <= rs[i] <= max
    ensures Rounds(m, rs, asked, m')
    ensures forall i :: 0 <= i < |asked| ==> Answers(asked[i])
    decreases |rs|
  {
    asked, m' := [], m;
    if rs != [] {
      var v := rs[0];
      assert (done + rs)[|done|] == v;
      assert v !in done by {
        assert forall i :: 0 <= i < |done| ==> (done + rs)[i] == done[i];
      }
      var k :| k in m && Has(m[k], v);
      var answers := [Ask(|m|, k)] + if m[k].min == m[k].max then [] else [Ask(m[k].max - m[k].min + 1, v - m[k].min)];
      DrawnOnce(min, max, m, done, k, v);
      assert done + [v] + rs[1..] == done + rs;
      var rest;
      rest, m' := AnyCanComeUp(min, max, Without(m, k, v), done + [v], rs[1..]);
      asked := [answers] + rest;
      assert asked[1..] == rest && Answers(answers);
      assert KeyedWithout(m, k, v);
    }
  }

  // And its answers leave no choice.
  lemma {:induction false} AnswersDecide(m: map<int, Mv>, rs: seq<int>, rs': seq<int>, asked: seq<seq<Ask>>,
                                         m1: map<int, Mv>, m2: map<int, Mv>)
    requires Keyed(m) && Rounds(m, rs, asked, m1) && Rounds(m, rs', asked, m2)
    ensures rs == rs' && m1 == m2
    decreases |rs|
  {
    if rs != [] {
      var tmp := m[asked[0][0].k];
      assert tmp.min < tmp.max ==> asked[0][1..][0].k == rs[0] - tmp.min && asked[0][1..][0].k == rs'[0] - tmp.min;
      AnswersDecide(Without(m, asked[0][0].k, rs[0]), rs[1..], rs'[1..], asked[1..], m1, m2);
      assert rs == [rs[0]] + rs[1..] && rs' == [rs'[0]] + rs'[1..];
    }
  }

  // The numbers of a range are taken as the answers say, from the range as one interval.
  ghost predicate Answered(min: int, max: int, rs: seq<int>, asked: seq<seq<Ask>>, left: map<int, Mv>) {
    if min > max then asked == []
    else
      var m := map[0 := Mv(min, max)];
      Keyed(m) && Rounds(m, rs, asked, left)
  }

  lemma OneMoreAnswered(min: int, max: int, rs: seq<int>, asked: seq<seq<Ask>>, left: map<int, Mv>, v: int,
                        answers: seq<Ask>)
    requires min <= max && Answered(min, max, rs, asked, left) && Keyed(left) && Round(left, v, answers)
    ensures Answered(min, max, rs + [v], asked + [answers], Without(left, answers[0].k, v))
    ensures Flat(asked + [answers]) == Flat(asked) + answers
  {
    OneMoreRound(map[0 := Mv(min, max)], rs, asked, left, v, answers);
    assert (asked + [answers])[..|asked|] == asked;
  }

  // One round: a random interval, and a random number of it.
  method DrawOne(m: map<int, Mv>, random: Source) returns (k: int, v: int, m': map<int, Mv>, ghost answers: seq<Ask>)
    requires Keyed(m) && |m| > 0
    modifies random
    ensures random.asked == old(random.asked) + answers && Round(m, v, answers) && k == answers[0].k
    ensures m' == Without(m, k, v)
  {
    var l := |m|;
    k := random.Int31n(l);
    answers := [Ask(l, k)];
    var tmp := m[k];
    if tmp.min == tmp.max {
      v := tmp.min;
      l := l - 1;
      m' := m[k := m[l]];
      m' := m' - {l};
    } else {
      v := random.Int31n(tmp.max - tmp.min + 1);
      answers := answers + [Ask(tmp.max - tmp.min + 1, v)];
      v := v + tmp.min;
      if v == tmp.min {
        m' := m[k := Mv(tmp.min + 1, tmp.max)];
      } else if v == tmp.max {
        m' := m[k := Mv(tmp.min, tmp.max - 1)];
      } else {
        m' := m[l := Mv(v + 1, tmp.max)];
        m' := m'[k := Mv(tmp.min, v - 1)];
      }
    }
  }

  ghost predicate Underway(min: int, max: int, m: map<int, Mv>, rs: seq<int>, asked: seq<seq<Ask>>) {
    && (if min <= max then Drawing(min, max, m, rs) else rs == [])
    && Answered(min, max, rs, asked, m)
  }

  // The state between two rounds, stated so that the definitions are not unfolded.
  ghost predicate Goes(min: int, max: int, m: map<int, Mv>, rs: seq<int>, asked: seq<seq<Ask>>) {
    forall some :: some == rs ==> Underway(min, max, m, some, asked)
  }

  lemma RoundIsTaken(min: int, max: int, m: map<int, Mv>, rs: seq<int>, asked: seq<seq<Ask>>, v: int, answers: seq<Ask>)
    requires min <= max && Underway(min, max, m, rs, asked) && Round(m, v, answers)
    ensures Goes(min, max, Without(m, answers[0].k, v), rs + [v], asked + [answers])
    ensures Flat(asked + [answers]) == Flat(asked) + answers
  {
    DrawnOnce(min, max, m, rs, answers[0].k, v);
    OneMoreAnswered(min, max, rs, asked, m, v, answers);
  }

  lemma CanGo(min: int, max: int, m: map<int, Mv>, rs: seq<int>, asked: seq<seq<Ask>>)
    requires Goes(min, max, m, rs, asked) && |rs| < max - min + 1
    ensures Underway(min, max, m, rs, asked) && Keyed(m) && |m| > 0
  {
    assert Underway(min, max, m, rs, asked);
    SomethingLeft(min, max, m, rs);
  }

  // One turn of the loop of RandomNum.
  method TakeRound(min: int, max: int, m: map<int, Mv>, random: Source, ghost rs: seq<int>, ghost asked: seq<seq<Ask>>)
    returns (v: int, m': map<int, Mv>, ghost asked': seq<seq<Ask>>)
    requires Goes(min, max, m, rs, asked) && |rs| < max - min + 1
    modifies random
    ensures Goes(min, max, m', rs + [v], asked')
    ensures |asked'| == |asked| + 1 && asked'[..|asked|] == asked
    ensures random.asked == old(random.asked) + asked'[|asked|] && Flat(asked') == Flat(asked) + asked'[|asked|]
  {
    CanGo(min, max, m, rs, asked);
    var k;
    ghost var answers;
    k, v, m', answers := DrawOne(m, random);
    RoundIsTaken(min, max, m, rs, asked, v, answers);
    asked' := asked + [answers];
  }

  // RandomNum: that many different numbers of the range, or all of them, as the answers say.
  method RandomNum(min: int, max: int, num: int, random: Source)
    returns (rs: seq<int>, ghost asked: seq<seq<Ask>>, ghost left: map<int, Mv>)
    requires min <= max + 1 && num >= 0
    modifies random
    ensures |rs| == if max - min + 1 < num then max - min + 1 else num
    ensures Different(rs) && forall x :: x in rs ==> min <= x <= max
    ensures num >= max - min + 1 ==> forall x :: min <= x <= max ==> x in rs
    ensures random.asked == old(random.asked) + Flat(asked) && Answered(min, max, rs, asked, left)
  {
    var dc, num' := max - min + 1, num;
    if dc < num' {
      num' := dc;
    }
    rs, asked := [], [];
    var m := map[0 := Mv(min, max)];
    var i := 0;
    Begins(min, max, m);
    while i < num'
      invariant 0 <= i == |rs| <= num' && Goes(min, max, m, rs, asked)
      invariant random.asked == old(random.asked) + Flat(asked)
    {
      var v;
      v, m, asked := TakeRound(min, max, m, random, rs, asked);
      rs := rs + [v];
      i := i + 1;
    }
    left := m;
    DrawnAre(min, max, m, rs, asked, num);
  }

  lemma DrawnAre(min: int, max: int, m: map<int, Mv>, rs: seq<int>, asked: seq<seq<Ask>>, num: int)
    requires Goes(min, max, m, rs, asked) && (num >= max - min + 1 ==> |rs| >= max - min + 1)
    ensures Answered(min, max, rs, asked, m)
    ensures Different(rs) && forall x :: x in rs ==> min <= x <= max
    ensures num >= max - min + 1 ==> forall x :: min <= x <= max ==> x in rs
  {
    assert Underway(min, max, m, rs, asked);
    if num >= max - min + 1 { AllAreDrawn(min, max, rs); }
  }

  lemma AllAreDrawn(min: int, max: int, rs: seq<int>)
    requires Different(rs) && (forall x :: x in rs ==> min <= x <= max) && |rs| >= max - min + 1
    ensures forall x :: min <= x <= max ==> x in rs
  {
    assert forall j :: 0 <= j < |rs| ==> rs[j] in rs;
    forall x | min <= x <= max
      ensures x in rs
    {
      AllDrawn(min, max, rs, x);
    }
  }

  lemma Begins(min: int, max: int, m: map<int, Mv>)
    requires m == map[0 := Mv(min, max)]
    ensures Goes(min, max, m, [], [])
  {
    assert m.Keys == {0} && |m| == |m.Keys|;
    forall x | min <= x <= max
      ensures Left(m, x)
    {
      assert 0 in m && Has(m[0], x);
    }
  }
}
