// The search of astar/astar.go over cells alone, without the cache of nodes: which cell is
// expanded next, what is noted of each cell, and the way back that this leads to.

module AstarHunt {
  import opened Arith
  import opened AstarLine
  import opened AstarModel
  import opened AstarPath

  // What is noted of a cell: where it was come from, what the way there costs, and its rank.
  datatype Mark = Mark(parent: Cell, g: int, f: int)

  datatype Hunt = Hunt(marks: map<Cell, Mark>, open: seq<Cell>)

  function Dist(a: Cell, b: Cell): int { Abs(b.0 - a.0) + Abs(b.1 - a.1) }

  function Begin(s: Cell, t: Cell): Hunt { Hunt(map[s := Mark(s, 0, Dist(s, t))], [s]) }

  function Rank(marks: map<Cell, Mark>, c: Cell): int { if c in marks then marks[c].f else 0 }

  // A cell goes behind all open ones of a lower rank.
  function Placed(marks: map<Cell, Mark>, open: seq<Cell>, c: Cell): seq<Cell> {
    if open == [] || Rank(marks, c) <= Rank(marks, open[0]) then [c] + open
    else [open[0]] + Placed(marks, open[1..], c)
  }

  // A free neighbour of the current cell is noted, unless it has been before.
  function Note(g: Grid, t: Cell, h: Hunt, cur: Cell, c: Cell): Hunt {
    if c in h.marks || cur !in h.marks then h
    else
      var cost := h.marks[cur].g + g.gridG(GridIdx(g, c));
      var marks := h.marks[c := Mark(cur, cost, cost + Dist(cur, t))];
      Hunt(marks, Placed(marks, h.open, c))
  }

  function TryOne(g: Grid, t: Cell, h: Hunt, cur: Cell, i: nat): Hunt
    requires i < 8
  {
    var c := Neighbour(cur, i);
    if Free(g, c) then Note(g, t, h, cur, c) else h
  }

  // The directions from the i-th on, until the target is noted.
  function TryFrom(g: Grid, t: Cell, h: Hunt, cur: Cell, i: nat): Hunt
    requires i <= 8
    decreases 8 - i
  {
    if i == 8 || t in h.marks then h else TryFrom(g, t, TryOne(g, t, h, cur, i), cur, i + 1)
  }

  predicate Over(t: Cell, h: Hunt) { h.open == [] || t in h.marks }

  // The first of the open cells is expanded.
  function Turn(g: Grid, t: Cell, h: Hunt): Hunt {
    if Over(t, h) then h else TryFrom(g, t, h.(open := h.open[1..]), h.open[0], 0)
  }

  function After(g: Grid, s: Cell, t: Cell, n: nat): Hunt {
    if n == 0 then Begin(s, t) else Turn(g, t, After(g, s, t, n - 1))
  }

  // ------------------------------------------------------------ the way it leads to

  // Back from the target, from each cell to the one it was come from.
  predicate Follows(h: Hunt, way: seq<Cell>, s: Cell, t: Cell) {
    && way != [] && way[0] == t && way[|way| - 1] == s
    && forall i :: 0 <= i < |way| - 1 ==> way[i] != s && way[i] in h.marks && h.marks[way[i]].parent == way[i + 1]
  }

  // The way back that the hunt leads to.
  ghost predicate Hunted(g: Grid, s: Cell, t: Cell, way: seq<Cell>) {
    exists n: nat :: t in After(g, s, t, n).marks && Follows(After(g, s, t, n), way, s, t)
  }

  lemma {:induction false} StaysOver(g: Grid, s: Cell, t: Cell, n: nat, m: nat)
    requires n <= m && Over(t, After(g, s, t, n))
    ensures After(g, s, t, m) == After(g, s, t, n)
    decreases m
  {
    if n < m { StaysOver(g, s, t, n, m - 1); }
  }

  lemma {:induction false} SameWay(h: Hunt, a: seq<Cell>, b: seq<Cell>, s: Cell, t: Cell, k: nat)
    requires Follows(h, a, s, t) && Follows(h, b, s, t) && k < |a| && k < |b|
    ensures a[k] == b[k]
    decreases k
  {
    if k > 0 { SameWay(h, a, b, s, t, k - 1); }
  }

  lemma NotLonger(h: Hunt, a: seq<Cell>, b: seq<Cell>, s: Cell, t: Cell)
    requires Follows(h, a, s, t) && Follows(h, b, s, t)
    ensures |a| <= |b|
  {
    if |b| < |a| { SameWay(h, a, b, s, t, |b| - 1); }
  }

  lemma FollowsOnce(h: Hunt, a: seq<Cell>, b: seq<Cell>, s: Cell, t: Cell)
    requires Follows(h, a, s, t) && Follows(h, b, s, t)
    ensures a == b
  {
    NotLonger(h, a, b, s, t);
    NotLonger(h, b, a, s, t);
    forall k | 0 <= k < |a|
      ensures a[k] == b[k]
    {
      SameWay(h, a, b, s, t, k);
    }
  }

  // There is only one.
  lemma HuntedOnce(g: Grid, s: Cell, t: Cell, a: seq<Cell>, b: seq<Cell>)
    requires Hunted(g, s, t, a) && Hunted(g, s, t, b)
    ensures a == b
  {
    var n: nat :| t in After(g, s, t, n).marks && Follows(After(g, s, t, n), a, s, t);
    var m: nat :| t in After(g, s, t, m).marks && Follows(After(g, s, t, m), b, s, t);
    if n <= m { StaysOver(g, s, t, n, m); } else { StaysOver(g, s, t, m, n); }
    FollowsOnce(After(g, s, t, n), a, b, s, t);
  }

  // ------------------------------------------------------------ the cache shows it

  // An open list of nodes with one more, behind all of a lower rank.
  function Inserted(nodes: seq<Node>, open: seq<nat>, child: nat): (r: seq<nat>)
    requires child < |nodes| && forall i :: 0 <= i < |open| ==> open[i] < |nodes|
    ensures |r| == |open| + 1 && forall i :: 0 <= i < |r| ==> r[i] < |nodes|
  {
    if open == [] || nodes[child].f <= nodes[open[0]].f then [child] + open
    else [open[0]] + Inserted(nodes, open[1..], child)
  }

  lemma {:induction false} InsertedAt(nodes: seq<Node>, open: seq<nat>, child: nat, j: nat)
    requires child < |nodes| && (forall i :: 0 <= i < |open| ==> open[i] < |nodes|) && j <= |open|
    requires forall i :: 0 <= i < j ==> nodes[open[i]].f < nodes[child].f
    requires j < |open| ==> nodes[child].f <= nodes[open[j]].f
    ensures Inserted(nodes, open, child) == open[..j] + [child] + open[j..]
    decreases j
  {
    if j == 0 {
      assert open[..0] + [child] + open[0..] == [child] + open;
    } else {
      InsertedAt(nodes, open[1..], child, j - 1);
      assert open[1..][..j - 1] == open[1..j] && open[1..][j - 1..] == open[j..];
      assert [open[0]] + open[1..j] == open[..j];
    }
  }

  // The node of a cell, as it is noted.
  ghost predicate Shows(nodes: seq<Node>, h: Hunt, k: nat) {
    && k < |nodes| && nodes[k].parent < |nodes| && Pos(nodes[k]) in h.marks
    && h.marks[Pos(nodes[k])] == Mark(Pos(nodes[nodes[k].parent]), nodes[k].g, nodes[k].f)
  }

  // The nodes of this search are the cells that are noted, and the open ones stand in the same order.
  ghost predicate View(g: Grid, nodeIdx: seq<nat>, nodes: seq<Node>, depth: map<nat, nat>, open: seq<nat>, h: Hunt) {
    && (forall k :: k in depth ==> Shows(nodes, h, k))
    && (forall c :: c in h.marks ==> Inside(g, c) && Seen(g, nodeIdx, depth, c))
    && h.open == Spots(nodes, open)
  }

  // Where nodes are, none of them past the end.
  function Spots(nodes: seq<Node>, open: seq<nat>): (cells: seq<Cell>)
    ensures |cells| == |open| && forall i :: 0 <= i < |open| && open[i] < |nodes| ==> cells[i] == Pos(nodes[open[i]])
  {
    seq(|open|, i requires 0 <= i < |open| => if open[i] < |nodes| then Pos(nodes[open[i]]) else (0, 0))
  }

  lemma FirstSpot(nodes: seq<Node>, k: nat, open: seq<nat>)
    requires k < |nodes|
    ensures Spots(nodes, [k] + open) == [Pos(nodes[k])] + Spots(nodes, open)
  {
  }

  lemma {:induction false} PlacedIsInserted(nodes: seq<Node>, open: seq<nat>, child: nat, marks: map<Cell, Mark>)
    requires child < |nodes| && Rank(marks, Pos(nodes[child])) == nodes[child].f
    requires forall i :: 0 <= i < |open| ==> open[i] < |nodes| && Rank(marks, Pos(nodes[open[i]])) == nodes[open[i]].f
    ensures Spots(nodes, Inserted(nodes, open, child)) == Placed(marks, Spots(nodes, open), Pos(nodes[child]))
    decreases |open|
  {
    FirstSpot(nodes, child, open);
    if open != [] {
      PlacedIsInserted(nodes, open[1..], child, marks);
      FirstSpot(nodes, open[0], open[1..]);
      assert open == [open[0]] + open[1..];
      FirstSpot(nodes, open[0], Inserted(nodes, open[1..], child));
    }
  }

  // The cells that are seen are those that are noted.
  lemma SeenIsNoted(g: Grid, nodeIdx: seq<nat>, nodes: seq<Node>, depth: map<nat, nat>, open: seq<nat>, h: Hunt,
                    c: Cell)
    requires View(g, nodeIdx, nodes, depth, open, h) && Coherent(g, nodeIdx, nodes) && Inside(g, c) && 0 !in depth
    ensures Seen(g, nodeIdx, depth, c) <==> c in h.marks
  {
    if Seen(g, nodeIdx, depth, c) {
      var k := nodeIdx[GridIdx(g, c)];
      assert Shows(nodes, h, k);
      SameIndex(g, c, Pos(nodes[k]));
    }
  }
}
