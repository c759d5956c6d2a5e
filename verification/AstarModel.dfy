// The grid that astar/astar.go searches, and what a search keeps between its steps: a tree
// of nodes over the cells seen so far.

module AstarModel {
  import opened Arith
  import opened AstarLine

  type Cell = (int, int)

  datatype Grid = Grid(
    width: nat, height: nat,
    gridType: int -> int,               // by the index of a cell; 0 is blocked
    gridG: int -> int,
    walkAble: (int, int) -> bool,
    border: (int, int, int) -> int)

  function CellLength(g: Grid): nat { (g.width + 1) * (g.height + 1) }

  function GridIdx(g: Grid, c: Cell): int { c.1 * g.width + c.0 }

  predicate Free(g: Grid, c: Cell) {
    0 <= GridIdx(g, c) < CellLength(g) && g.gridType(GridIdx(g, c)) != 0
  }

  // No cell of the first or the last column is free: else an index may mean two cells.
  ghost predicate Walled(g: Grid) {
    g.width > 0 && forall i :: 0 <= i < CellLength(g) && g.gridType(i) != 0 ==> 0 < i % g.width < g.width - 1
  }

  predicate Inside(g: Grid, c: Cell) {
    0 < c.0 < g.width - 1 && 0 <= GridIdx(g, c) < CellLength(g)
  }

  // A move: to a free one of the eight neighbours.
  predicate Step(g: Grid, a: Cell, b: Cell) { Adjacent(a, b) && Free(g, b) }

  predicate Route(g: Grid, p: seq<Cell>) {
    p != [] && forall i :: 0 < i < |p| ==> Step(g, p[i - 1], p[i])
  }

  ghost predicate Reachable(g: Grid, s: Cell, t: Cell) {
    exists p :: Route(g, p) && p[0] == s && p[|p| - 1] == t
  }

  // Inside the walls an index means one cell.
  lemma IndexMeans(g: Grid, c: Cell)
    requires g.width > 0 && 0 <= c.0 < g.width
    ensures GridIdx(g, c) / g.width == c.1 && GridIdx(g, c) % g.width == c.0
  {
    DivMod(GridIdx(g, c), g.width, c.1, c.0);
  }

  lemma SameIndex(g: Grid, a: Cell, b: Cell)
    requires Inside(g, a) && Inside(g, b) && GridIdx(g, a) == GridIdx(g, b)
    ensures a == b
  {
    IndexMeans(g, a);
    IndexMeans(g, b);
  }

  // Moves stay inside the walls.
  lemma StepInside(g: Grid, a: Cell, b: Cell)
    requires Walled(g) && Inside(g, a) && Step(g, a, b)
    ensures Inside(g, b)
  {
    IndexMeans(g, b);
  }

  // The neighbours in the order they are tried.
  const DIRS: seq<Cell> := [(0, 1), (0, -1), (-1, 0), (1, 0), (-1, 1), (1, 1), (-1, -1), (1, -1)]

  function Neighbour(c: Cell, i: nat): Cell
    requires i < 8
  {
    (c.0 + DIRS[i].0, c.1 + DIRS[i].1)
  }

  lemma NeighboursAreAll(a: Cell, b: Cell) returns (i: nat)
    requires Adjacent(a, b)
    ensures i < 8 && b == Neighbour(a, i)
  {
    var x, y := b.0 - a.0, b.1 - a.1;
    i := if x == 0 then (if y == 1 then 0 else 1)
      else if x == -1 then (if y == 0 then 2 else if y == 1 then 4 else 6)
      else if y == 0 then 3 else if y == 1 then 5 else 7;
  }

  lemma NeighbourIsAdjacent(c: Cell, i: nat)
    requires i < 8
    ensures Adjacent(c, Neighbour(c, i))
  {
  }

  // ------------------------------------------------------------ the cache

  // A node; its parent is the number of another node.
  datatype Node = Node(X: int, Y: int, idx: nat, g: int, f: int, parent: nat)

  const ZERO := Node(0, 0, 0, 0, 0, 0)

  function Pos(n: Node): Cell { (n.X, n.Y) }

  function Used(nodeIdx: seq<nat>): (n: nat)
    ensures n <= |nodeIdx|
  {
    if nodeIdx == [] then 0 else Used(nodeIdx[1..]) + if nodeIdx[0] > 0 then 1 else 0
  }

  lemma {:induction false} UseOne(nodeIdx: seq<nat>, i: nat, k: nat)
    requires i < |nodeIdx| && nodeIdx[i] == 0 && k > 0
    ensures Used(nodeIdx[i := k]) == Used(nodeIdx) + 1
    decreases |nodeIdx|
  {
    if i > 0 {
      UseOne(nodeIdx[1..], i - 1, k);
      assert nodeIdx[i := k][1..] == nodeIdx[1..][i - 1 := k];
    } else {
      assert nodeIdx[i := k][1..] == nodeIdx[1..];
    }
  }

  lemma {:induction false} UseNone(nodeIdx: seq<nat>)
    requires forall i :: 0 <= i < |nodeIdx| ==> nodeIdx[i] == 0
    ensures Used(nodeIdx) == 0
    decreases |nodeIdx|
  {
    if nodeIdx != [] { UseNone(nodeIdx[1..]); }
  }

  // The node of a cell, and the cell of a node, undo each other; node 0 is nobody's.
  predicate Coherent(g: Grid, nodeIdx: seq<nat>, nodes: seq<Node>) {
    && |nodeIdx| == CellLength(g) && |nodes| == Used(nodeIdx) + 1
    && (forall i :: 0 <= i < |nodeIdx| && nodeIdx[i] > 0 ==>
          nodeIdx[i] < |nodes| && GridIdx(g, Pos(nodes[nodeIdx[i]])) == i)
    && (forall k :: 0 < k < |nodes| ==>
          Inside(g, Pos(nodes[k])) && nodeIdx[GridIdx(g, Pos(nodes[k]))] == k)
  }

  // Changing anything but where a node is.
  predicate SamePlaces(a: seq<Node>, b: seq<Node>) {
    |a| == |b| && forall k :: 0 <= k < |a| ==> Pos(a[k]) == Pos(b[k])
  }

  lemma StaysCoherent(g: Grid, nodeIdx: seq<nat>, a: seq<Node>, b: seq<Node>)
    requires Coherent(g, nodeIdx, a) && SamePlaces(a, b)
    ensures Coherent(g, nodeIdx, b)
  {
    forall i | 0 <= i < |nodeIdx| && nodeIdx[i] > 0
      ensures nodeIdx[i] < |b| && GridIdx(g, Pos(b[nodeIdx[i]])) == i
    {
      assert Pos(a[nodeIdx[i]]) == Pos(b[nodeIdx[i]]);
    }
    forall k | 0 < k < |b|
      ensures Inside(g, Pos(b[k])) && nodeIdx[GridIdx(g, Pos(b[k]))] == k
    {
      assert Pos(a[k]) == Pos(b[k]);
    }
  }

  // A node for a cell that had none.
  lemma OneMore(g: Grid, nodeIdx: seq<nat>, nodes: seq<Node>, c: Cell, n: Node)
    requires Coherent(g, nodeIdx, nodes) && Inside(g, c) && nodeIdx[GridIdx(g, c)] == 0 && Pos(n) == c
    ensures Coherent(g, nodeIdx[GridIdx(g, c) := |nodes|], nodes + [n])
  {
    UseOne(nodeIdx, GridIdx(g, c), |nodes|);
    var i', k' := nodeIdx[GridIdx(g, c) := |nodes|], nodes + [n];
    forall i | 0 <= i < |i'| && i'[i] > 0
      ensures i'[i] < |k'| && GridIdx(g, Pos(k'[i'[i]])) == i
    {
    }
    forall k | 0 < k < |k'|
      ensures Inside(g, Pos(k'[k])) && i'[GridIdx(g, Pos(k'[k]))] == k
    {
      if k < |nodes| { assert k'[k] == nodes[k]; }
    }
  }

  // ------------------------------------------------------------ the tree of a search

  // Exactly the nodes with the current stamp have a depth.
  ghost predicate Deep(nodes: seq<Node>, ci: nat, depth: map<nat, nat>) {
    forall k :: k in depth <==> 0 < k < |nodes| && nodes[k].idx == ci
  }

  // `depth` has the nodes seen in this search, and how far each is from the root.
  ghost predicate Tree(g: Grid, nodes: seq<Node>, ci: nat, depth: map<nat, nat>, root: nat) {
    && Deep(nodes, ci, depth)
    && root in depth && depth[root] == 0 && nodes[root].parent == root
    && (forall k :: k in depth && k != root ==> Hangs(g, nodes, depth, k))
  }

  ghost predicate Hangs(g: Grid, nodes: seq<Node>, depth: map<nat, nat>, k: nat)
    requires k in depth && k < |nodes|
  {
    var p := nodes[k].parent;
    p in depth && p < |nodes| && depth[k] == depth[p] + 1 && Step(g, Pos(nodes[p]), Pos(nodes[k]))
  }

  // The nodes from one node back to the root.
  ghost function Chain(g: Grid, nodes: seq<Node>, ci: nat, depth: map<nat, nat>, root: nat, k: nat): (c: seq<nat>)
    requires Tree(g, nodes, ci, depth, root) && k in depth
    ensures c != [] && c[0] == k && c[|c| - 1] == root && (k != root ==> |c| > 1)
    ensures forall i :: 0 <= i < |c| ==> c[i] in depth && depth[c[i]] == depth[k] - i
    ensures forall i :: 0 <= i < |c| - 1 ==> c[i] != root && nodes[c[i]].parent == c[i + 1]
    decreases depth[k]
  {
    if k == root then [k]
    else
      assert Hangs(g, nodes, depth, k);
      [k] + Chain(g, nodes, ci, depth, root, nodes[k].parent)
  }

  // The cells from the root to a node.
  ghost function Places(nodes: seq<Node>, chain: seq<nat>): (p: seq<Cell>)
    requires forall i :: 0 <= i < |chain| ==> chain[i] < |nodes|
    ensures |p| == |chain| && forall i :: 0 <= i < |p| ==> p[i] == Pos(nodes[chain[i]])
  {
    seq(|chain|, i requires 0 <= i < |chain| => Pos(nodes[chain[i]]))
  }

  function Reversed<T>(s: seq<T>): (r: seq<T>)
    ensures |r| == |s| && forall i :: 0 <= i < |s| ==> r[i] == s[|s| - 1 - i]
  {
    seq(|s|, i requires 0 <= i < |s| => s[|s| - 1 - i])
  }

  // A node that was seen can be reached.
  lemma SeenIsReachable(g: Grid, nodes: seq<Node>, ci: nat, depth: map<nat, nat>, root: nat, k: nat)
    requires Tree(g, nodes, ci, depth, root) && k in depth
    ensures var p := Reversed(Places(nodes, Chain(g, nodes, ci, depth, root, k)));
            Route(g, p) && p[0] == Pos(nodes[root]) && p[|p| - 1] == Pos(nodes[k])
  {
    var c := Chain(g, nodes, ci, depth, root, k);
    var p := Reversed(Places(nodes, c));
    forall i | 0 < i < |p|
      ensures Step(g, p[i - 1], p[i])
    {
      assert Hangs(g, nodes, depth, c[|p| - 1 - i]);
    }
  }

  // The cell has a node in this search.
  ghost predicate Seen(g: Grid, nodeIdx: seq<nat>, depth: map<nat, nat>, c: Cell) {
    0 <= GridIdx(g, c) < |nodeIdx| && nodeIdx[GridIdx(g, c)] in depth
  }

  // All that can be reached from the node in one move has been seen.
  ghost predicate Expanded(g: Grid, nodeIdx: seq<nat>, nodes: seq<Node>, depth: map<nat, nat>, k: nat)
    requires k < |nodes|
  {
    forall c :: Step(g, Pos(nodes[k]), c) ==> Seen(g, nodeIdx, depth, c)
  }

  // When every node is expanded, what can be reached has been seen.
  lemma {:induction false} AllReachableSeen(g: Grid, nodeIdx: seq<nat>, nodes: seq<Node>, ci: nat,
                                            depth: map<nat, nat>, root: nat, p: seq<Cell>)
    requires Walled(g) && Coherent(g, nodeIdx, nodes) && Tree(g, nodes, ci, depth, root)
    requires forall k :: k in depth ==> Expanded(g, nodeIdx, nodes, depth, k)
    requires Route(g, p) && p[0] == Pos(nodes[root])
    ensures Seen(g, nodeIdx, depth, p[|p| - 1]) && Inside(g, p[|p| - 1])
    decreases |p|
  {
    if |p| > 1 {
      var q := p[..|p| - 1];
      AllReachableSeen(g, nodeIdx, nodes, ci, depth, root, q);
      var a, b := q[|q| - 1], p[|p| - 1];
      var k := nodeIdx[GridIdx(g, a)];
      assert Step(g, p[|p| - 2], b) && k in depth;
      SameIndex(g, a, Pos(nodes[k]));
      StepInside(g, a, b);
      assert Expanded(g, nodeIdx, nodes, depth, k);
    } else {
      assert nodeIdx[GridIdx(g, Pos(nodes[root]))] == root;
    }
  }
}
