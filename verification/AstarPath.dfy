// From the tree of a search to the list of turning points (astar/astar.go:147-178): the parent
// pointers on the way back are turned round in place, leaving out what can be passed in a
// straight line.

module AstarPath {
  import opened AstarLine
  import opened AstarModel

  // From a to b, b nearer the target: one move, or a straight line back from b that is passed.
  ghost predicate Link(g: Grid, a: Cell, b: Cell) {
    Step(g, a, b) || (a != b && ThroughBorder(b.0, b.1, a.0, a.1, g.border))
  }

  // A line of points from s to t, each linked to the next.
  ghost predicate Polyline(g: Grid, line: seq<Cell>, s: Cell, t: Cell) {
    && |line| >= 2 && line[0] == s && line[|line| - 1] == t
    && forall i :: 0 < i < |line| ==> Link(g, line[i - 1], line[i])
  }

  function Flat(cells: seq<Cell>): (r: seq<int>)
    ensures |r| == 2 * |cells|
  {
    if cells == [] then []
    else var c := cells[|cells| - 1]; Flat(cells[..|cells| - 1]) + [c.0, c.1]
  }

  // The nodes from the target back to the root, as the search left them.
  ghost predicate IsChain(g: Grid, nodes: seq<Node>, chain: seq<nat>) {
    && |chain| > 1 && (forall i :: 0 <= i < |chain| ==> chain[i] < |nodes|)
    && (forall i, j :: 0 <= i < j < |chain| ==> chain[i] != chain[j] && Pos(nodes[chain[i]]) != Pos(nodes[chain[j]]))
    && (forall i :: 0 <= i < |chain| - 1 ==>
          nodes[chain[i]].parent == chain[i + 1] && Step(g, Pos(nodes[chain[i + 1]]), Pos(nodes[chain[i]])))
    && nodes[chain[|chain| - 1]].parent == chain[|chain| - 1]
  }

  // Nothing but parents has changed.
  predicate SameBut(a: seq<Node>, b: seq<Node>) {
    |a| == |b| && forall k :: 0 <= k < |a| ==> b[k] == a[k].(parent := b[k].parent)
  }

  // A straight line back, from one cell to another, is passed.
  ghost predicate CanPass(g: Grid, a: Cell, b: Cell) { a != b && ThroughBorder(a.0, a.1, b.0, b.1, g.border) }

  // A way back: from the target, move by move, to the start.
  ghost predicate WayBack(g: Grid, way: seq<Cell>, s: Cell, t: Cell) {
    && |way| >= 2 && way[0] == t && way[|way| - 1] == s
    && (forall i, j :: 0 <= i < j < |way| ==> way[i] != way[j])
    && forall i :: 0 <= i < |way| - 1 ==> Step(g, way[i + 1], way[i])
  }

  // Places among n, in order, from the first on.
  predicate Ordered(turns: seq<nat>, n: nat) {
    && turns != [] && turns[0] == 0 && (forall m :: 0 <= m < |turns| ==> turns[m] < n)
    && (forall i, j :: 0 <= i < j < |turns| ==> turns[i] < turns[j])
  }

  // The places of a way at which it turns, as far as they are known: a place is passed exactly
  // if the straight line from the turn before it to the next place is passed.
  ghost predicate Turns(g: Grid, way: seq<Cell>, turns: seq<nat>) {
    && Ordered(turns, |way|)
    && (forall m :: 0 < m < |turns| ==> Stretch(g, way, turns[m - 1], turns[m]))
    && (forall m :: 0 < m < |turns| && turns[m] < |way| - 1 ==> !CanPass(g, way[turns[m - 1]], way[turns[m] + 1]))
  }

  // All places between these two are passed: lines back to those behind them can be.
  ghost predicate Stretch(g: Grid, way: seq<Cell>, a: nat, b: nat)
    requires b < |way|
  {
    forall k :: a + 1 < k <= b ==> CanPass(g, way[a], way[k])
  }

  // All of the turns: the last one is the start.
  ghost predicate Smooth(g: Grid, way: seq<Cell>, turns: seq<nat>) {
    Turns(g, way, turns) && |turns| >= 2 && turns[|turns| - 1] == |way| - 1
  }

  // There is only one way to smooth a way back.
  lemma {:induction false} SameTurns(g: Grid, way: seq<Cell>, a: seq<nat>, b: seq<nat>, k: nat)
    requires Smooth(g, way, a) && Smooth(g, way, b) && k < |a| && k < |b|
    ensures a[k] == b[k]
    decreases k
  {
    if k > 0 {
      SameTurns(g, way, a, b, k - 1);
      NotBefore(g, way, a, b, k);
      NotBefore(g, way, b, a, k);
    }
  }

  lemma NotBefore(g: Grid, way: seq<Cell>, a: seq<nat>, b: seq<nat>, k: nat)
    requires Smooth(g, way, a) && Smooth(g, way, b) && 0 < k < |a| && k < |b| && a[k - 1] == b[k - 1]
    ensures a[k] >= b[k]
  {
    assert Stretch(g, way, b[k - 1], b[k]);
    assert a[k - 1] < a[k] && forall c :: a[k - 1] + 1 < c <= b[k] ==> CanPass(g, way[a[k - 1]], way[c]);
  }

  lemma SmoothIsUnique(g: Grid, way: seq<Cell>, a: seq<nat>, b: seq<nat>)
    requires Smooth(g, way, a) && Smooth(g, way, b)
    ensures a == b
  {
    var n := if |a| < |b| then |a| else |b|;
    SameTurns(g, way, a, b, n - 1);
    forall k | 0 <= k < n
      ensures a[k] == b[k]
    {
      SameTurns(g, way, a, b, k);
    }
  }

  // Where the nodes of a chain are.
  function Cells(nodes: seq<Node>, chain: seq<nat>): (way: seq<Cell>)
    requires forall i :: 0 <= i < |chain| ==> chain[i] < |nodes|
    ensures |way| == |chain| && forall i :: 0 <= i < |way| ==> way[i] == Pos(nodes[chain[i]])
  {
    seq(|chain|, i requires 0 <= i < |chain| => Pos(nodes[chain[i]]))
  }

  // The turns so far, as places in the chain: each points back to the one before it.
  ghost predicate Turned(g: Grid, was: seq<Node>, nodes: seq<Node>, chain: seq<nat>, turns: seq<nat>) {
    && SameBut(was, nodes) && (forall i :: 0 <= i < |chain| ==> chain[i] < |was|)
    && Turns(g, Cells(was, chain), turns)
    && Back(nodes, chain, turns)
  }

  // Each turn points to the one before it.
  ghost predicate Back(nodes: seq<Node>, chain: seq<nat>, turns: seq<nat>) {
    && Ordered(turns, |chain|) && (forall i :: 0 <= i < |chain| ==> chain[i] < |nodes|)
    && forall m :: 0 < m < |turns| ==> nodes[chain[turns[m]]].parent == chain[turns[m - 1]]
  }

  // Where the loop stands: at a place behind the last turn, with everything from there untouched.
  ghost predicate Turning(g: Grid, was: seq<Node>, nodes: seq<Node>, chain: seq<nat>, turns: seq<nat>, at: nat) {
    && IsChain(g, was, chain) && Turned(g, was, nodes, chain, turns) && turns[|turns| - 1] < at < |chain|
    && (forall j :: at <= j < |chain| ==> nodes[chain[j]] == was[chain[j]])
    && Stretch(g, Cells(was, chain), turns[|turns| - 1], at)
  }

  // The same, stated so that it is not unfolded.
  ghost predicate Stands(g: Grid, was: seq<Node>, nodes: seq<Node>, chain: seq<nat>, turns: seq<nat>, at: nat) {
    forall x :: x == at ==> Turning(g, was, nodes, chain, turns, x)
  }

  lemma TurnsOn(g: Grid, way: seq<Cell>, turns: seq<nat>, at: nat)
    requires Turns(g, way, turns) && turns[|turns| - 1] < at < |way| && Stretch(g, way, turns[|turns| - 1], at)
    requires at < |way| - 1 ==> !CanPass(g, way[turns[|turns| - 1]], way[at + 1])
    ensures Turns(g, way, turns + [at])
  {
    var more := turns + [at];
    forall m | 0 < m < |more|
      ensures Stretch(g, way, more[m - 1], more[m])
      ensures more[m] < |way| - 1 ==> !CanPass(g, way[more[m - 1]], way[more[m] + 1])
    {
      if m < |turns| { assert more[m] == turns[m] && more[m - 1] == turns[m - 1]; }
    }
  }

  lemma TurnHere(g: Grid, was: seq<Node>, nodes: seq<Node>, chain: seq<nat>, turns: seq<nat>, at: nat,
                 nodes': seq<Node>)
    requires Turning(g, was, nodes, chain, turns, at)
    requires var way := Cells(was, chain); at < |way| - 1 ==> !CanPass(g, way[turns[|turns| - 1]], way[at + 1])
    requires nodes' == nodes[chain[at] := nodes[chain[at]].(parent := chain[turns[|turns| - 1]])]
    ensures Turned(g, was, nodes', chain, turns + [at])
    ensures forall j :: at < j < |chain| ==> nodes'[chain[j]] == was[chain[j]]
    ensures at + 1 < |chain| ==> Stands(g, was, nodes', chain, turns + [at], at + 1)
  {
    var turns' := turns + [at];
    TurnsOn(g, Cells(was, chain), turns, at);
    forall m | 0 < m < |turns'|
      ensures nodes'[chain[turns'[m]]].parent == chain[turns'[m - 1]]
    {
      if m < |turns| { assert turns'[m] == turns[m] && chain[turns[m]] != chain[at]; }
    }
  }

  lemma PassHere(g: Grid, was: seq<Node>, nodes: seq<Node>, chain: seq<nat>, turns: seq<nat>, at: nat)
    requires Turning(g, was, nodes, chain, turns, at) && at + 1 < |chain|
    requires CanPass(g, Pos(was[chain[turns[|turns| - 1]]]), Pos(was[chain[at + 1]]))
    ensures Stands(g, was, nodes, chain, turns, at + 1)
  {
  }

  // Where the loop begins, and what it needs to know.
  lemma StandsAtFirst(g: Grid, was: seq<Node>, chain: seq<nat>)
    requires IsChain(g, was, chain)
    ensures Stands(g, was, was, chain, [0], 1) && was[chain[0]].parent == chain[1] && chain[1] != chain[0]
  {
  }

  lemma StandTells(g: Grid, was: seq<Node>, nodes: seq<Node>, chain: seq<nat>, turns: seq<nat>, at: nat)
    requires Stands(g, was, nodes, chain, turns, at)
    ensures Turning(g, was, nodes, chain, turns, at) && chain[at] < |nodes| == |was|
    ensures nodes[chain[at]].parent == if at == |chain| - 1 then chain[at] else chain[at + 1]
    ensures at < |chain| - 1 ==> chain[at] != chain[at + 1] && chain[at + 1] < |nodes|
    ensures chain[turns[|turns| - 1]] < |nodes|
    ensures forall k :: 0 <= k < |nodes| ==> Pos(nodes[k]) == Pos(was[k])
  {
    assert Turning(g, was, nodes, chain, turns, at);
  }

  // The way back, turned round: afterwards the root points to the last turn.
  method TurnRound(g: Grid, was: seq<Node>, end: nat, ghost chain: seq<nat>)
    returns (nodes: seq<Node>, pathNode: nat, ghost turns: seq<nat>)
    requires IsChain(g, was, chain) && end == chain[0]
    ensures Turned(g, was, nodes, chain, turns) && Smooth(g, Cells(was, chain), turns) && pathNode == chain[|chain| - 1]
  {
    nodes := was;
    pathNode := end;
    var start := end;
    if nodes[pathNode].parent != pathNode {
      pathNode := nodes[pathNode].parent;
    }
    ghost var at := 1;
    turns := [0];
    StandsAtFirst(g, was, chain);
    StandTells(g, was, nodes, chain, turns, at);
    while nodes[pathNode].parent != pathNode
      invariant Stands(g, was, nodes, chain, turns, at) && turns != [] && turns[|turns| - 1] < |chain| && at < |chain|
      invariant pathNode == chain[at] < |nodes| && start == chain[turns[|turns| - 1]]
      decreases |chain| - at
    {
      StandTells(g, was, nodes, chain, turns, at);
      var parent := nodes[pathNode].parent;
      var through := IsThroughBorder(nodes[start].X, nodes[start].Y, nodes[parent].X, nodes[parent].Y, g.border);
      if !through {
        ghost var before := nodes;
        nodes := nodes[pathNode := nodes[pathNode].(parent := start)];
        TurnHere(g, was, before, chain, turns, at, nodes);
        start, pathNode := pathNode, parent;
        turns := turns + [at];
      } else {
        PassHere(g, was, nodes, chain, turns, at);
        pathNode := parent;
      }
      at := at + 1;
    }
    StandTells(g, was, nodes, chain, turns, at);
    ghost var before := nodes;
    nodes := nodes[pathNode := nodes[pathNode].(parent := start)];
    TurnHere(g, was, before, chain, turns, at, nodes);
    turns := turns + [at];
  }

  // The points of the turns, from the start to the target.
  function PointsOf(way: seq<Cell>, turns: seq<nat>): (line: seq<Cell>)
    requires forall m :: 0 <= m < |turns| ==> turns[m] < |way|
    ensures |line| == |turns| && forall i :: 0 <= i < |line| ==> line[i] == way[turns[|turns| - 1 - i]]
  {
    seq(|turns|, i requires 0 <= i < |turns| => way[turns[|turns| - 1 - i]])
  }

  // They are a line of linked points.
  lemma SmoothIsPolyline(g: Grid, way: seq<Cell>, turns: seq<nat>, s: Cell, t: Cell)
    requires WayBack(g, way, s, t) && Smooth(g, way, turns)
    ensures Polyline(g, PointsOf(way, turns), s, t)
  {
    var line := PointsOf(way, turns);
    forall i | 0 < i < |line|
      ensures Link(g, line[i - 1], line[i])
    {
      var m := |turns| - i;
      var a, b := turns[m - 1], turns[m];
      assert line[i - 1] == way[b] && line[i] == way[a] && Stretch(g, way, a, b);
    }
  }

  lemma OneMorePoint(cells: seq<Cell>, c: Cell)
    ensures Flat(cells + [c]) == Flat(cells) + [c.0, c.1]
  {
    assert (cells + [c])[..|cells|] == cells;
  }

  // From a turn back to the one before it: the next point of the line.
  lemma BackOne(g: Grid, was: seq<Node>, nodes: seq<Node>, chain: seq<nat>, turns: seq<nat>, line: seq<Cell>, m: nat)
    requires IsChain(g, was, chain) && SameBut(was, nodes) && Back(nodes, chain, turns) && 0 < m < |turns|
    requires line == PointsOf(Cells(was, chain), turns)
    ensures var next := chain[turns[m - 1]];
            && next < |nodes| && nodes[chain[turns[m]]].parent == next && (next == chain[0] <==> m == 1)
            && Pos(nodes[next]) == line[|turns| - m]
  {
    if m > 1 { assert turns[0] < turns[m - 1]; }
  }

  lemma NextPoint(g: Grid, was: seq<Node>, nodes: seq<Node>, chain: seq<nat>, turns: seq<nat>, line: seq<Cell>, m: nat)
    requires IsChain(g, was, chain) && SameBut(was, nodes) && Back(nodes, chain, turns) && 0 < m < |turns|
    requires line == PointsOf(Cells(was, chain), turns)
    ensures var next := chain[turns[m - 1]];
            && next < |nodes| && 1 <= |turns| - m < |line|
            && Flat(line[1..|turns| - m + 1]) == Flat(line[1..|turns| - m]) + [nodes[next].X, nodes[next].Y]
  {
    BackOne(g, was, nodes, chain, turns, line, m);
    OneMorePoint(line[1..|turns| - m], line[|turns| - m]);
    assert line[1..|turns| - m + 1] == line[1..|turns| - m] + [line[|turns| - m]];
  }

  // The points between the ends, in the order of the line.
  method Collect(g: Grid, was: seq<Node>, nodes: seq<Node>, root: nat, end: nat, ghost chain: seq<nat>,
                 ghost turns: seq<nat>, ghost line: seq<Cell>)
    returns (gridList: seq<int>)
    requires IsChain(g, was, chain) && SameBut(was, nodes) && Back(nodes, chain, turns) && |turns| >= 2
    requires root == chain[turns[|turns| - 1]] && end == chain[0] && line == PointsOf(Cells(was, chain), turns)
    ensures gridList == Flat(line[1..|line| - 1])
  {
    var pathNode := root;
    ghost var m := |turns| - 1;
    gridList := [];
    BackOne(g, was, nodes, chain, turns, line, m);
    assert line[1..1] == [];
    while nodes[pathNode].parent != end
      invariant 0 < m < |turns| && pathNode == chain[turns[m]] && gridList == Flat(line[1..|turns| - m])
      invariant nodes[pathNode].parent == chain[turns[m - 1]] && (chain[turns[m - 1]] == end <==> m == 1)
      decreases m
    {
      var next := nodes[pathNode].parent;
      BackOne(g, was, nodes, chain, turns, line, m - 1);
      NextPoint(g, was, nodes, chain, turns, line, m);
      gridList := gridList + [nodes[next].X, nodes[next].Y];
      pathNode, m := next, m - 1;
    }
  }

  // The list that Search returns: the points of a line from the start to the target, without
  // its two ends, at which the way back turns.
  method Rebuild(g: Grid, was: seq<Node>, end: nat, ghost chain: seq<nat>)
    returns (gridList: seq<int>, nodes: seq<Node>, ghost way: seq<Cell>, ghost turns: seq<nat>)
    requires IsChain(g, was, chain) && end == chain[0]
    ensures SameBut(was, nodes) && WayBack(g, way, Pos(was[chain[|chain| - 1]]), Pos(was[end])) && Smooth(g, way, turns)
    ensures |way| == |chain| && forall i :: 0 <= i < |way| ==> way[i] == Pos(was[chain[i]])
    ensures gridList == Flat(PointsOf(way, turns)[1..|turns| - 1])
  {
    var pathNode;
    nodes, pathNode, turns := TurnRound(g, was, end, chain);
    way := Cells(was, chain);
    gridList := Collect(g, was, nodes, pathNode, end, chain, turns, PointsOf(way, turns));
  }
}
