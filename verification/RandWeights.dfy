// Drawing candidates by weight (rand/rand.go:106-151).

module RandWeights {
  import opened Basics
  import opened Rand

  // A weight and the candidate it belongs to.
  datatype Qi = Qi(q: int, idx: int)

  function Total(s: seq<Qi>): int {
    if s == [] then 0 else Total(s[..|s| - 1]) + s[|s| - 1].q
  }

  predicate Weights(s: seq<Qi>) { forall i :: 0 <= i < |s| ==> s[i].q >= 0 }

  // The first candidate at which the weights add up to r.
  function Pick(s: seq<Qi>, r: int): (j: nat)
    ensures j <= |s|
  {
    if s == [] then 0 else if s[0].q >= r then 0 else 1 + Pick(s[1..], r - s[0].q)
  }

  lemma {:induction false} TotalFirst(s: seq<Qi>)
    requires s != []
    ensures Total(s) == s[0].q + Total(s[1..])
    decreases |s|
  {
    if |s| > 1 {
      TotalFirst(s[..|s| - 1]);
      assert s[..|s| - 1][1..] == s[1..][..|s| - 2];
    }
  }

  lemma {:induction false} TotalNotNegative(s: seq<Qi>)
    requires Weights(s)
    ensures Total(s) >= 0
    decreases |s|
  {
    if s != [] { TotalNotNegative(s[..|s| - 1]); }
  }

  // A number up to the total of the weights always finds a candidate.
  lemma {:induction false} PickFinds(s: seq<Qi>, r: int)
    requires s != [] && r <= Total(s)
    ensures Pick(s, r) < |s|
    decreases |s|
  {
    TotalFirst(s);
    if s[0].q < r {
      assert s[1..] != [];
      PickFinds(s[1..], r - s[0].q);
    }
  }

  // And never one of negative weight.
  lemma {:induction false} PickNotNegative(s: seq<Qi>, r: int)
    requires r >= 0 && Pick(s, r) < |s|
    ensures s[Pick(s, r)].q >= 0
    decreases |s|
  {
    if s[0].q < r { PickNotNegative(s[1..], r - s[0].q); }
  }

  // Which numbers pick a candidate: as many as its weight says, and one more, the nought,
  // for the first.
  lemma {:induction false} ChanceOf(s: seq<Qi>, r: int, j: nat)
    requires Weights(s) && j < |s| && 0 <= r <= Total(s)
    ensures Pick(s, r) == j <==> (if j == 0 then r <= s[0].q else Total(s[..j]) < r <= Total(s[..j]) + s[j].q)
    decreases |s|
  {
    TotalFirst(s);
    if j > 0 {
      TotalFirst(s[..j]);
      assert s[..j][1..] == s[1..][..j - 1];
      TotalNotNegative(s[1..][..j - 1]);
      if s[0].q < r {
        ChanceOf(s[1..], r - s[0].q, j - 1);
      }
    }
  }

  lemma {:induction false} TotalUpdate(s: seq<Qi>, j: nat, v: Qi)
    requires j < |s|
    ensures Total(s[j := v]) == Total(s) - s[j].q + v.q
    decreases |s|
  {
    if j < |s| - 1 {
      TotalUpdate(s[..|s| - 1], j, v);
      assert s[j := v][..|s| - 1] == s[..|s| - 1][j := v];
    } else {
      assert s[j := v][..|s| - 1] == s[..|s| - 1];
    }
  }

  // The last candidate takes the place of one that is taken out.
  function TakeOut(s: seq<Qi>, j: nat): (r: seq<Qi>)
    requires j < |s|
    ensures |r| == |s| - 1
  {
    s[j := s[|s| - 1]][..|s| - 1]
  }

  lemma TotalTakenOut(s: seq<Qi>, j: nat)
    requires j < |s|
    ensures Total(TakeOut(s, j)) == Total(s) - s[j].q
  {
    TotalUpdate(s, j, s[|s| - 1]);
  }

  // The candidates that can still be drawn, each once and with its own weight.
  ghost predicate Remaining<V>(list: seq<(int, V)>, s: seq<Qi>) {
    && (forall i :: 0 <= i < |s| ==> 0 <= s[i].idx < |list| && s[i].q == list[s[i].idx].0)
    && (forall i, j :: 0 <= i < j < |s| ==> s[i].idx != s[j].idx)
  }

  lemma RemainingTakenOut<V>(list: seq<(int, V)>, s: seq<Qi>, j: nat)
    requires Remaining(list, s) && j < |s|
    ensures Remaining(list, TakeOut(s, j))
    ensures forall i :: 0 <= i < |s| - 1 ==> TakeOut(s, j)[i].idx != s[j].idx
    ensures forall i :: 0 <= i < |s| - 1 ==> exists k :: 0 <= k < |s| && TakeOut(s, j)[i] == s[k]
  {
    var t := TakeOut(s, j);
    forall i | 0 <= i < |s| - 1
      ensures exists k :: 0 <= k < |s| && t[i] == s[k]
    {
      assert t[i] == if i == j then s[|s| - 1] else s[i];
    }
  }

  // The inner loop: the candidate that a random number falls on.
  method Choose(ql: array<Qi>, size: nat, r: int) returns (j: nat)
    requires size <= ql.Length
    ensures j == Pick(ql[..size], r)
  {
    var random := r;
    j := 0;
    while j < size
      invariant j <= size && Pick(ql[..size], r) == j + Pick(ql[j..size], random)
    {
      var q := ql[j].q;
      assert ql[j..size][0] == ql[j] && ql[j..size][1..] == ql[j + 1..size];
      if q >= random {
        return;
      }
      random := random - q;
      j := j + 1;
    }
  }

  // All weights of the list, those picked, and those left to draw from.
  function Sum<V>(list: seq<(int, V)>): int {
    if list == [] then 0 else Sum(list[..|list| - 1]) + list[|list| - 1].0
  }

  function Picked<V>(list: seq<(int, V)>, picks: seq<int>): int
    requires forall i :: 0 <= i < |picks| ==> 0 <= picks[i] < |list|
  {
    if picks == [] then 0 else Picked(list, picks[..|picks| - 1]) + list[picks[|picks| - 1]].0
  }

  function Left<V>(list: seq<(int, V)>, picks: seq<int>, canRepeated: bool): int
    requires forall i :: 0 <= i < |picks| ==> 0 <= picks[i] < |list|
  {
    if canRepeated then Sum(list) else Sum(list) - Picked(list, picks)
  }

  // The copy of the list that is worked on, and one more than the total of the weights.
  method Prepare<V>(list: seq<(int, V)>) returns (ql: array<Qi>, total: int)
    ensures fresh(ql) && ql.Length == |list| && Remaining(list, ql[..])
    ensures total == 1 + Total(ql[..]) && Total(ql[..]) == Sum(list)
    ensures ql[..] == Remains(list, [], false)
  {
    ql := new Qi[|list|](_ => Qi(0, 0));
    total := 1;
    var i := 0;
    while i < |list|
      invariant 0 <= i <= |list| && total == 1 + Total(ql[..i]) && Total(ql[..i]) == Sum(list[..i])
      invariant forall k :: 0 <= k < i ==> ql[k] == Qi(list[k].0, k)
    {
      ql[i] := Qi(list[i].0, i);
      assert ql[..i + 1][..i] == ql[..i] && list[..i + 1][..i] == list[..i];
      total := total + list[i].0;
      i := i + 1;
    }
    assert ql[..] == ql[..i] && list == list[..i];
  }

  ghost predicate Unpicked(s: seq<Qi>, picks: seq<int>) {
    forall i :: 0 <= i < |s| ==> s[i].idx !in picks
  }

  // The places filled so far: with the candidates picked, and then none.
  ghost predicate Placed<V>(list: seq<(int, V)>, rs: seq<Option<V>>, picks: seq<int>) {
    && |picks| <= |rs|
    && (forall i :: 0 <= i < |picks| ==> 0 <= picks[i] < |list| && rs[i] == Some(list[picks[i]].1))
    && (forall i :: |picks| <= i < |rs| ==> rs[i] == None)
  }

  // What there is to draw from.
  ghost predicate Stock<V>(list: seq<(int, V)>, s: seq<Qi>, total: int, picks: seq<int>, canRepeated: bool) {
    && Remaining(list, s) && total == 1 + Total(s)
    && (forall i :: 0 <= i < |picks| ==> 0 <= picks[i] < |list|) && Total(s) == Left(list, picks, canRepeated)
    && if canRepeated then |s| == |list| else |s| == |list| - |picks| && Different(picks) && Unpicked(s, picks)
  }

  lemma TakenFromStock<V>(list: seq<(int, V)>, s: seq<Qi>, total: int, picks: seq<int>, j: nat)
    requires Stock(list, s, total, picks, false) && j < |s|
    ensures Stock(list, TakeOut(s, j), total - s[j].q, picks + [s[j].idx], false)
  {
    var t := TakeOut(s, j);
    TotalTakenOut(s, j);
    RemainingTakenOut(list, s, j);
    assert (picks + [s[j].idx])[..|picks|] == picks;
    assert forall i :: 0 <= i < |picks| ==> picks[i] in picks;
    forall i | 0 <= i < |t|
      ensures t[i].idx !in picks + [s[j].idx]
    {
      var k :| 0 <= k < |s| && t[i] == s[k];
    }
  }

  lemma OneMorePlaced<V>(list: seq<(int, V)>, rs: seq<Option<V>>, picks: seq<int>, idx: int)
    requires Placed(list, rs, picks) && 0 <= idx < |list| && |picks| == |rs|
    ensures Placed(list, rs + [Some(list[idx].1)], picks + [idx])
  {
  }

  // ------------------------------------------------------------ what the source decides

  // What is left to draw from when a number has picked its candidate.
  function After(s: seq<Qi>, r: int, canRepeated: bool): seq<Qi> {
    if canRepeated || Pick(s, r) >= |s| then s else TakeOut(s, Pick(s, r))
  }

  // The list as it is copied, and what is left of it after these answers.
  function Remains<V>(list: seq<(int, V)>, asked: seq<Ask>, canRepeated: bool): seq<Qi> {
    if asked == [] then seq(|list|, i requires 0 <= i < |list| => Qi(list[i].0, i))
    else
      var n := |asked| - 1;
      After(Remains(list, asked[..n], canRepeated), asked[n].k, canRepeated)
  }

  // One number is asked for in every round, up to the weights that are left, and picks the
  // candidate of its round.
  ghost predicate Answered<V>(list: seq<(int, V)>, asked: seq<Ask>, picks: seq<int>, canRepeated: bool) {
    && |picks| <= |asked|
    && (forall i :: 0 <= i < |asked| ==> asked[i].n == 1 + Total(Remains(list, asked[..i], canRepeated)))
    && forall i :: 0 <= i < |picks| ==> PickedBy(list, asked[..i], asked[i].k, picks[i], canRepeated)
  }

  ghost predicate PickedBy<V>(list: seq<(int, V)>, asked: seq<Ask>, r: int, idx: int, canRepeated: bool) {
    var s := Remains(list, asked, canRepeated);
    Pick(s, r) < |s| && s[Pick(s, r)].idx == idx
  }

  lemma OneMoreAnswer<V>(list: seq<(int, V)>, asked: seq<Ask>, picks: seq<int>, canRepeated: bool, ask: Ask)
    requires Answered(list, asked, picks, canRepeated) && ask.n == 1 + Total(Remains(list, asked, canRepeated))
    ensures Answered(list, asked + [ask], picks, canRepeated)
    ensures Remains(list, asked + [ask], canRepeated) == After(Remains(list, asked, canRepeated), ask.k, canRepeated)
  {
    var more := asked + [ask];
    forall i | 0 <= i <= |asked|
      ensures more[..i] == asked[..i]
    {
    }
    assert asked[..|asked|] == asked;
  }

  lemma OneMoreAnswered<V>(list: seq<(int, V)>, asked: seq<Ask>, picks: seq<int>, canRepeated: bool, ask: Ask, idx: int)
    requires Answered(list, asked, picks, canRepeated) && ask.n == 1 + Total(Remains(list, asked, canRepeated))
    requires |picks| == |asked| && PickedBy(list, asked, ask.k, idx, canRepeated)
    ensures Answered(list, asked + [ask], picks + [idx], canRepeated)
  {
    OneMoreAnswer(list, asked, picks, canRepeated, ask);
    var more := asked + [ask];
    forall i | 0 <= i <= |picks|
      ensures PickedBy(list, more[..i], more[i].k, (picks + [idx])[i], canRepeated)
    {
      assert more[..i] == asked[..i];
      if i == |picks| { assert more[..i] == asked; }
    }
  }

  // A candidate is drawn from what there is, and taken out if it may not come again.
  method Draw<V>(list: seq<(int, V)>, ql: array<Qi>, size: nat, total: int, canRepeated: bool, random: Source,
                 ghost picks: seq<int>)
    returns (idx: int, size': nat, total': int, ghost r: int)
    requires 0 < size <= ql.Length && Stock(list, ql[..size], total, picks, canRepeated) && total > 0
    modifies ql, random
    ensures 0 <= idx < |list| && list[idx].0 >= 0 && size' <= ql.Length &&
            Stock(list, ql[..size'], total', picks + [idx], canRepeated)
    ensures random.asked == old(random.asked) + [Ask(total, r)] && 0 <= r < total
    ensures Pick(old(ql[..size]), r) < size && idx == old(ql[..size])[Pick(old(ql[..size]), r)].idx
    ensures ql[..size'] == After(old(ql[..size]), r, canRepeated)
  {
    ghost var s := ql[..size];
    var k := random.Int31n(total);
    r := k;
    var j := Choose(ql, size, k);
    PickFinds(s, k);
    PickNotNegative(s, k);
    assert s[j] == ql[j];
    idx, size', total' := ql[j].idx, size, total;
    if !canRepeated {
      total' := total - ql[j].q;
      size' := size - 1;
      ql[j] := ql[size'];
      TakenFromStock(list, s, total, picks, j);
      assert ql[..size'] == TakeOut(s, j);
    }
  }

  // How many candidates have been picked when `rounds` places are filled.
  function PicksAfter<V>(list: seq<(int, V)>, rounds: nat, canRepeated: bool): nat {
    if canRepeated then (if list == [] then 0 else rounds) else if rounds < |list| then rounds else |list|
  }

  // No candidate of negative weight was drawn, and in no round so far were the weights that
  // were left below nought.
  ghost predicate NeverBelow<V>(list: seq<(int, V)>, picks: seq<int>, canRepeated: bool) {
    && (forall i :: 0 <= i < |picks| ==> 0 <= picks[i] < |list| && list[picks[i]].0 >= 0)
    && forall k :: 0 <= k < |picks| ==> Left(list, picks[..k], canRepeated) >= 0
  }

  lemma OneMoreRound<V>(list: seq<(int, V)>, picks: seq<int>, idx: int, canRepeated: bool)
    requires NeverBelow(list, picks, canRepeated) && 0 <= idx < |list| && list[idx].0 >= 0 &&
             Left(list, picks, canRepeated) >= 0
    ensures NeverBelow(list, picks + [idx], canRepeated)
  {
    var more := picks + [idx];
    forall k | 0 <= k < |more|
      ensures Left(list, more[..k], canRepeated) >= 0
    {
      assert more[..k] == picks[..k];
      if k == |picks| { assert picks[..k] == picks; }
    }
  }

  ghost predicate SomeBelow<V>(list: seq<(int, V)>) { exists i :: 0 <= i < |list| && list[i].0 < 0 }

  lemma SomeNegative<V>(list: seq<(int, V)>, s: seq<Qi>, total: int, picks: seq<int>, canRepeated: bool)
    requires Stock(list, s, total, picks, canRepeated) && total <= 0
    ensures SomeBelow(list)
  {
    if Weights(s) { TotalNotNegative(s); }
    if !Weights(s) {
      var i :| 0 <= i < |s| && s[i].q < 0;
      assert list[s[i].idx].0 < 0;
    }
  }

  // ------------------------------------------------------------ when it panics

  // The candidates that can be drawn at all.
  ghost function Drawable<V>(list: seq<(int, V)>): set<int> { set i | 0 <= i < |list| && list[i].0 >= 0 }

  // What a run of RandomQSlice can come to, whatever the random source: the places it filled,
  // whether it panicked then, and the candidates it drew, None being a place that is left empty.
  ghost predicate Outcome<V>(list: seq<(int, V)>, num: nat, canRepeated: bool, rs: seq<Option<V>>, crash: bool,
                             picks: seq<int>) {
    && |rs| <= num && Placed(list, rs, picks) && |picks| == PicksAfter(list, |rs|, canRepeated)
    && (!canRepeated ==> Different(picks))
    && NeverBelow(list, picks, canRepeated)
    && (crash <==> |rs| < num)
    && (crash ==> Left(list, picks, canRepeated) < 0 && SomeBelow(list))
  }

  // If the weights add up to less than nought it panics at once.
  lemma BelowCrashes<V>(list: seq<(int, V)>, num: nat, canRepeated: bool, rs: seq<Option<V>>, crash: bool,
                        picks: seq<int>)
    requires Outcome(list, num, canRepeated, rs, crash, picks) && num > 0 && Sum(list) < 0
    ensures crash && rs == []
  {
    assert picks != [] ==> Left(list, picks[..0], canRepeated) == Sum(list);
  }

  // With repetition, if and only if they do.
  lemma RepeatedCrashExactly<V>(list: seq<(int, V)>, num: nat, rs: seq<Option<V>>, crash: bool, picks: seq<int>)
    requires Outcome(list, num, true, rs, crash, picks)
    ensures crash <==> num > 0 && Sum(list) < 0
  {
    if num > 0 && Sum(list) < 0 { BelowCrashes(list, num, true, rs, crash, picks); }
  }

  // The numbers below n.
  ghost function Below(n: nat): (ns: set<int>)
    ensures |ns| == n && forall i :: i in ns <==> 0 <= i < n
  {
    if n == 0 then {} else Below(n - 1) + {n - 1}
  }

  lemma {:induction false} PicksCounted(picks: seq<int>, from: set<int>)
    requires Different(picks) && forall i :: 0 <= i < |picks| ==> picks[i] in from
    ensures |picks| <= |from|
    decreases |picks|
  {
    if picks != [] {
      var n := |picks| - 1;
      PicksCounted(picks[..n], from - {picks[n]});
    }
  }

  lemma SubsetIsSmaller(a: set<int>, b: set<int>)
    requires a <= b
    ensures |a| <= |b|
  {
    assert b == a + (b - a);
  }

  lemma DrawableAreFewer<V>(list: seq<(int, V)>)
    ensures |Drawable(list)| <= |list| && (SomeBelow(list) ==> |Drawable(list)| < |list|)
  {
    SubsetIsSmaller(Drawable(list), Below(|list|));
    if SomeBelow(list) {
      var i :| 0 <= i < |list| && list[i].0 < 0;
      SubsetIsSmaller(Drawable(list), Below(|list|) - {i});
    }
  }

  // Without repetition, when more are drawn than there are candidates that can be drawn, it
  // panics if and only if some weight is negative.
  lemma CrashExactly<V>(list: seq<(int, V)>, num: nat, rs: seq<Option<V>>, crash: bool, picks: seq<int>)
    requires Outcome(list, num, false, rs, crash, picks) && num > |Drawable(list)|
    ensures crash <==> SomeBelow(list)
  {
    PicksCounted(picks, Drawable(list));
    DrawableAreFewer(list);
  }

  lemma ExactlyWhen<V>(list: seq<(int, V)>, num: nat, canRepeated: bool, rs: seq<Option<V>>, crash: bool,
                       picks: seq<int>)
    requires Outcome(list, num, canRepeated, rs, crash, picks)
    ensures canRepeated ==> (crash <==> num > 0 && Sum(list) < 0)
    ensures !canRepeated && num > |Drawable(list)| ==> (crash <==> SomeBelow(list))
    ensures num > 0 && Sum(list) < 0 ==> crash
  {
    if canRepeated { RepeatedCrashExactly(list, num, rs, crash, picks); }
    if !canRepeated && num > |Drawable(list)| { CrashExactly(list, num, rs, crash, picks); }
    if num > 0 && Sum(list) < 0 { BelowCrashes(list, num, canRepeated, rs, crash, picks); }
  }

  // Weights 5 and -3: they add up to 2, and yet two draws panic whatever the random source.
  lemma PositiveTotalCrashes<V>(a: V, b: V, rs: seq<Option<V>>, crash: bool, picks: seq<int>)
    requires Outcome([(5, a), (-3, b)], 2, false, rs, crash, picks)
    ensures crash && |rs| == 1
  {
    var list := [(5, a), (-3, b)];
    assert list[1].0 < 0 && Drawable(list) == {0};
    assert list[..1] == [(5, a)] && Sum(list[..1][..0]) == 0 && Sum(list[..1]) == 5 && Sum(list) == 2;
    CrashExactly(list, 2, rs, crash, picks);
  }

  // With fewer draws the source may decide. Of the weights 1, 5 and -3 the numbers 0 and 1 pick
  // the first, and what is left adds up to 2; 2 and 3 pick the second, and -2 are left.
  lemma SourceDecides()
    ensures var s := [Qi(1, 0), Qi(5, 1), Qi(-3, 2)];
            && Total(s) == 3 && (forall r :: 0 <= r <= 3 ==> Pick(s, r) == if r <= 1 then 0 else 1)
            && Total(TakeOut(s, 0)) == 2 && Total(TakeOut(s, 1)) == -2
  {
    var s := [Qi(1, 0), Qi(5, 1), Qi(-3, 2)];
    TotalFirst(s);
    TotalFirst(s[1..]);
    TotalFirst(s[1..][1..]);
    assert s[1..][1..][1..] == [];
    TotalTakenOut(s, 0);
    TotalTakenOut(s, 1);
    assert s[1..][0] == Qi(5, 1);
  }

  // Between two rounds: what is left, and the places filled so far.
  ghost predicate Going<V>(list: seq<(int, V)>, s: seq<Qi>, total: int, rs: seq<Option<V>>, picks: seq<int>,
                           canRepeated: bool) {
    && Stock(list, s, total, picks, canRepeated) && Placed(list, rs, picks) && NeverBelow(list, picks, canRepeated)
    && (|picks| < |rs| ==> |s| == 0)
  }

  lemma OneMoreDrawn<V>(list: seq<(int, V)>, s: seq<Qi>, total: int, s': seq<Qi>, total': int, rs: seq<Option<V>>,
                        picks: seq<int>,
                        idx: int, canRepeated: bool)
    requires Going(list, s, total, rs, picks, canRepeated) && total > 0 && |s| > 0
    requires 0 <= idx < |list| && list[idx].0 >= 0 && Stock(list, s', total', picks + [idx], canRepeated)
    ensures Going(list, s', total', rs + [Some(list[idx].1)], picks + [idx], canRepeated)
  {
    OneMorePlaced(list, rs, picks, idx);
    OneMoreRound(list, picks, idx, canRepeated);
  }

  lemma OneMoreEmpty<V>(list: seq<(int, V)>, s: seq<Qi>, total: int, rs: seq<Option<V>>, picks: seq<int>,
                        canRepeated: bool)
    requires Going(list, s, total, rs, picks, canRepeated) && |s| == 0
    ensures Going(list, s, total, rs + [None], picks, canRepeated)
  {
  }

  lemma Ends<V>(list: seq<(int, V)>, s: seq<Qi>, total: int, num: nat, canRepeated: bool, rs: seq<Option<V>>,
                crash: bool, picks: seq<int>)
    requires Going(list, s, total, rs, picks, canRepeated)
    requires |rs| <= num && (crash <==> |rs| < num) && (crash ==> total <= 0)
    ensures Outcome(list, num, canRepeated, rs, crash, picks)
  {
    if crash { SomeNegative(list, s, total, picks, canRepeated); }
    assert |picks| > 0 ==> 0 <= picks[0] < |list|;
  }

  // What is left is what the answers leave of the list.
  ghost predicate Told<V>(list: seq<(int, V)>, s: seq<Qi>, asked: seq<Ask>, picks: seq<int>, canRepeated: bool) {
    Answered(list, asked, picks, canRepeated) && s == Remains(list, asked, canRepeated)
  }

  lemma OneMoreTold<V>(list: seq<(int, V)>, s: seq<Qi>, total: int, s': seq<Qi>, asked: seq<Ask>, picks: seq<int>,
                       canRepeated: bool, r: int, idx: int)
    requires Told(list, s, asked, picks, canRepeated) && total == 1 + Total(s) && |picks| == |asked|
    requires Pick(s, r) < |s| && idx == s[Pick(s, r)].idx && s' == After(s, r, canRepeated)
    ensures Told(list, s', asked + [Ask(total, r)], picks + [idx], canRepeated)
  {
    OneMoreAnswered(list, asked, picks, canRepeated, Ask(total, r), idx);
    OneMoreAnswer(list, asked, picks, canRepeated, Ask(total, r));
  }

  lemma NoneTold<V>(list: seq<(int, V)>, s: seq<Qi>, total: int, asked: seq<Ask>, picks: seq<int>,
                    canRepeated: bool, r: int)
    requires Told(list, s, asked, picks, canRepeated) && total == 1 + Total(s) && s == []
    ensures Told(list, s, asked + [Ask(total, r)], picks, canRepeated)
  {
    OneMoreAnswer(list, asked, picks, canRepeated, Ask(total, r));
  }

  // The state between two rounds, stated so that the definitions are not unfolded.
  ghost predicate Goes<V>(list: seq<(int, V)>, s: seq<Qi>, total: int, rs: seq<Option<V>>, picks: seq<int>,
                          asked: seq<Ask>, canRepeated: bool) {
    forall left :: left == s ==> Midway(list, left, total, rs, picks, asked, canRepeated)
  }

  ghost predicate Midway<V>(list: seq<(int, V)>, s: seq<Qi>, total: int, rs: seq<Option<V>>, picks: seq<int>,
                            asked: seq<Ask>, canRepeated: bool) {
    && Going(list, s, total, rs, picks, canRepeated) && Told(list, s, asked, picks, canRepeated) && |asked| == |rs|
  }

  // When the rounds are over.
  lemma AllPlaced<V>(list: seq<(int, V)>, s: seq<Qi>, total: int, num: nat, canRepeated: bool, rs: seq<Option<V>>,
                     crash: bool, picks: seq<int>, asked: seq<Ask>)
    requires Goes(list, s, total, rs, picks, asked, canRepeated)
    requires |rs| <= num && (crash <==> |rs| < num) && (crash ==> total <= 0)
    ensures Outcome(list, num, canRepeated, rs, crash, picks) && |asked| == |rs|
    ensures Answered(list, asked, picks, canRepeated)
  {
    assert Midway(list, s, total, rs, picks, asked, canRepeated);
    Ends(list, s, total, num, canRepeated, rs, crash, picks);
  }

  lemma NonePlaced<V>(list: seq<(int, V)>, s: seq<Qi>, total: int, canRepeated: bool)
    requires Stock(list, s, total, [], canRepeated) && s == Remains(list, [], canRepeated)
    ensures Goes(list, s, total, [], [], [], canRepeated)
  {
  }

  // One round: a candidate that the number asked for picks, or none if there are none.
  method PlaceOne<V>(list: seq<(int, V)>, ql: array<Qi>, size: nat, total: int, canRepeated: bool, random: Source,
                     ghost rs: seq<Option<V>>, ghost picks: seq<int>, ghost asked: seq<Ask>)
    returns (place: Option<V>, size': nat, total': int, ghost picks': seq<int>, ghost ask: Ask)
    requires size <= ql.Length && Goes(list, ql[..size], total, rs, picks, asked, canRepeated) && total > 0
    modifies ql, random
    ensures size' <= ql.Length
    ensures Goes(list, ql[..size'], total', rs + [place], picks', asked + [ask], canRepeated)
    ensures random.asked == old(random.asked) + [ask]
  {
    ghost var s := ql[..size];
    assert Midway(list, s, total, rs, picks, asked, canRepeated);
    if size > 0 {
      var idx;
      ghost var r;
      idx, size', total', r := Draw(list, ql, size, total, canRepeated, random, picks);
      OneMoreTold(list, s, total, ql[..size'], asked, picks, canRepeated, r, idx);
      OneMoreDrawn(list, s, total, ql[..size'], total', rs, picks, idx, canRepeated);
      place, picks', ask := Some(list[idx].1), picks + [idx], Ask(total, r);
    } else {
      var k := random.Int31n(total);
      NoneTold(list, s, total, asked, picks, canRepeated, k);
      OneMoreEmpty(list, s, total, rs, picks, canRepeated);
      place, size', total', picks', ask := None, size, total, picks, Ask(total, k);
    }
  }

  // The rounds of RandomQSlice.
  method Fill<V>(list: seq<(int, V)>, num: nat, canRepeated: bool, ql: array<Qi>, total0: int, random: Source)
    returns (rs: seq<Option<V>>, crash: bool, ghost picks: seq<int>, ghost asked: seq<Ask>)
    requires ql.Length == |list| && Stock(list, ql[..], total0, [], canRepeated)
    requires ql[..] == Remains(list, [], canRepeated)
    modifies ql, random
    ensures Outcome(list, num, canRepeated, rs, crash, picks)
    ensures random.asked == old(random.asked) + asked && |asked| == |rs| && Answered(list, asked, picks, canRepeated)
  {
    var size: nat, total := |list|, total0;
    assert ql[..size] == ql[..];
    rs, crash, picks, asked := [], false, [], [];
    NonePlaced(list, ql[..size], total, canRepeated);
    while |rs| < num
      invariant |rs| <= num && size <= ql.Length && Goes(list, ql[..size], total, rs, picks, asked, canRepeated)
      invariant random.asked == old(random.asked) + asked
      decreases num - |rs|
    {
      if total <= 0 {
        crash := true;
        break;
      }
      var place;
      ghost var ask;
      place, size, total, picks, ask := PlaceOne(list, ql, size, total, canRepeated, random, rs, picks, asked);
      rs, asked := rs + [place], asked + [ask];
    }
    AllPlaced(list, ql[..size], total, num, canRepeated, rs, crash, picks, asked);
  }

  // RandomQSlice: in every round one candidate is drawn while there is one, and without
  // repetition never the same one twice. It panics at the first round before which the weights
  // that are left add up to less than nought. Each candidate is the one that the number asked for
  // in its round picks.
  method RandomQSlice<V>(list: seq<(int, V)>, num: nat, canRepeated: bool, random: Source)
    returns (rs: seq<Option<V>>, crash: bool, ghost picks: seq<int>, ghost asked: seq<Ask>)
    modifies random
    ensures random.asked == old(random.asked) + asked && |asked| == |rs| && Answered(list, asked, picks, canRepeated)
    ensures Outcome(list, num, canRepeated, rs, crash, picks)
    ensures canRepeated ==> (crash <==> num > 0 && Sum(list) < 0)
    ensures !canRepeated && num > |Drawable(list)| ==> (crash <==> SomeBelow(list))
    ensures num > 0 && Sum(list) < 0 ==> crash
    ensures !SomeBelow(list) ==> !crash
  {
    var ql, total := Prepare(list);
    rs, crash, picks, asked := Fill(list, num, canRepeated, ql, total, random);
    ExactlyWhen(list, num, canRepeated, rs, crash, picks);
  }
}
