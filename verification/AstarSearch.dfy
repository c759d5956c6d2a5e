// The search itself (astar/astar.go): a cache of nodes that is used again from search to
// search, an open list, and parent pointers that are turned round in place.

module AstarSearch {
  import opened AstarLine
  import opened AstarModel
  import opened AstarPath
  import opened AstarHunt

  // ------------------------------------------------------------ the open list

  ghost predicate Sorted(nodes: seq<Node>, open: seq<nat>) {
    && (forall i :: 0 <= i < |open| ==> open[i] < |nodes|)
    && (forall i, j :: 0 <= i < j < |open| ==> nodes[open[i]].f <= nodes[open[j]].f)
  }

  lemma SwapOne(open: seq<nat>, child: nat, j: nat)
    requires j < |open|
    ensures var r := open[..j] + [child] + open[j..];
            r[j] == child && r[j + 1] == open[j] &&
              r[j := open[j]][j + 1 := child] == open[..j + 1] + [child] + open[j + 1..]
  {
  }

  lemma InsertedSorted(nodes: seq<Node>, open: seq<nat>, child: nat, j: nat)
    requires Sorted(nodes, open) && child < |nodes| && j <= |open|
    requires forall i :: 0 <= i < j ==> nodes[open[i]].f < nodes[child].f
    requires j < |open| ==> nodes[child].f <= nodes[open[j]].f
    ensures Sorted(nodes, open[..j] + [child] + open[j..])
  {
  }

  lemma InsertedAll(open: seq<nat>, child: nat, j: nat)
    requires j <= |open|
    ensures multiset(open[..j] + [child] + open[j..]) == multiset(open) + multiset{child}
  {
    assert open == open[..j] + open[j..];
  }

  // Where it goes, stated so that the definition is not unfolded.
  ghost predicate IsInserted(nodes: seq<Node>, open: seq<nat>, child: nat, r: seq<nat>)
    requires child < |nodes| && forall i :: 0 <= i < |open| ==> open[i] < |nodes|
  {
    forall x :: x == child ==> r == Inserted(nodes, open, x)
  }

  // insertOpen: in front, and then back past every smaller one.
  method InsertOpen(nodes: seq<Node>, open: seq<nat>, child: nat) returns (r: seq<nat>)
    requires Sorted(nodes, open) && child < |nodes|
    ensures Sorted(nodes, r) && multiset(r) == multiset(open) + multiset{child}
    ensures IsInserted(nodes, open, child, r)
  {
    r := [child] + open;
    var j := 0;
    assert r == open[..0] + [child] + open[0..];
    while j + 1 < |r| && nodes[r[j]].f > nodes[r[j + 1]].f
      invariant 0 <= j <= |open| && r == open[..j] + [child] + open[j..]
      invariant forall i :: 0 <= i < j ==> nodes[open[i]].f < nodes[child].f
      decreases |r| - j
    {
      SwapOne(open, child, j);
      r := r[j := r[j + 1]][j + 1 := r[j]];
      j := j + 1;
    }
    if j < |open| { SwapOne(open, child, j); }
    InsertedSorted(nodes, open, child, j);
    InsertedAll(open, child, j);
    InsertedAt(nodes, open, child, j);
  }

  lemma InsertedIn(open: seq<nat>, r: seq<nat>, child: nat)
    requires multiset(r) == multiset(open) + multiset{child}
    ensures |r| == |open| + 1 && forall k :: k in r <==> k in open || k == child
  {
    assert |multiset(r)| == |multiset(open)| + 1;
    forall k
      ensures k in r <==> k in open || k == child
    {
      assert k in r <==> k in multiset(r);
      assert k in open <==> k in multiset(open);
    }
  }

  // ------------------------------------------------------------ one more node

  // What a visit does to the cache: it writes the node of a cell, and makes it if there is none.
  ghost predicate Writes(nodeIdx: seq<nat>, nodes: seq<Node>, nodeIdx': seq<nat>, nodes': seq<Node>, i: nat, slot: nat,
                         n: Node) {
    && i < |nodeIdx|
    && if nodeIdx[i] > 0
       then slot == nodeIdx[i] && slot < |nodes| && nodeIdx' == nodeIdx && nodes' == nodes[slot := n]
       else slot == |nodes| && nodeIdx' == nodeIdx[i := slot] && nodes' == nodes + [n]
  }

  lemma WritesCoherent(g: Grid, nodeIdx: seq<nat>, nodes: seq<Node>, nodeIdx': seq<nat>, nodes': seq<Node>, c: Cell,
                       slot: nat, n: Node)
    requires Coherent(g, nodeIdx, nodes) && Inside(g, c) && Pos(n) == c
    requires Writes(nodeIdx, nodes, nodeIdx', nodes', GridIdx(g, c), slot, n)
    ensures Coherent(g, nodeIdx', nodes') && nodeIdx'[GridIdx(g, c)] == slot && 0 < slot < |nodes'| && nodes'[slot] == n
    ensures forall k :: 0 <= k < |nodes| && k != slot ==> nodes'[k] == nodes[k]
    ensures forall i :: 0 <= i < |nodeIdx| && nodeIdx[i] > 0 ==> nodeIdx'[i] == nodeIdx[i]
  {
    if nodeIdx[GridIdx(g, c)] > 0 {
      SameIndex(g, c, Pos(nodes[slot]));
      StaysCoherent(g, nodeIdx, nodes, nodes');
    } else {
      OneMore(g, nodeIdx, nodes, c, n);
    }
  }

  lemma StillHangs(g: Grid, nodes: seq<Node>, nodes': seq<Node>, depth: map<nat, nat>, depth': map<nat, nat>, k: nat)
    requires k in depth && k < |nodes| && Hangs(g, nodes, depth, k)
    requires forall j :: j in depth && j < |nodes| ==>
               j in depth' && depth'[j] == depth[j] && j < |nodes'| && nodes'[j] == nodes[j]
    ensures k in depth' && k < |nodes'| && Hangs(g, nodes', depth', k)
  {
  }

  lemma OneMoreDeep(nodes: seq<Node>, nodes': seq<Node>, ci: nat, depth: map<nat, nat>, slot: nat, d: nat)
    requires Deep(nodes, ci, depth) && 0 < slot < |nodes'| && nodes'[slot].idx == ci
    requires |nodes| <= |nodes'| && (|nodes'| > |nodes| ==> slot == |nodes| == |nodes'| - 1)
    requires forall k :: 0 <= k < |nodes| && k != slot ==> nodes'[k] == nodes[k]
    ensures Deep(nodes', ci, depth[slot := d])
  {
    assert depth[slot := d].Keys == depth.Keys + {slot};
  }

  lemma GrowsTree(g: Grid, nodes: seq<Node>, nodes': seq<Node>, ci: nat, depth: map<nat, nat>, root: nat, cur: nat,
                  slot: nat)
    requires Tree(g, nodes, ci, depth, root) && cur in depth && slot !in depth && 0 < slot < |nodes'|
    requires |nodes| <= |nodes'| && (|nodes'| > |nodes| ==> slot == |nodes| == |nodes'| - 1)
    requires forall k :: 0 <= k < |nodes| && k != slot ==> nodes'[k] == nodes[k]
    requires nodes'[slot].idx == ci && nodes'[slot].parent == cur && Step(g, Pos(nodes[cur]), Pos(nodes'[slot]))
    ensures Tree(g, nodes', ci, depth[slot := depth[cur] + 1], root)
  {
    var depth' := depth[slot := depth[cur] + 1];
    OneMoreDeep(nodes, nodes', ci, depth, slot, depth[cur] + 1);
    forall k | k in depth' && k != root
      ensures Hangs(g, nodes', depth', k)
    {
      if k != slot {
        assert Hangs(g, nodes, depth, k);
        StillHangs(g, nodes, nodes', depth, depth', k);
      }
    }
  }

  // ------------------------------------------------------------ what the cache shows

  // All that was noted stays as it is, and the new node shows its cell.
  lemma StillShows(nodes: seq<Node>, nodes': seq<Node>, h: Hunt, h': Hunt, c: Cell, m: Mark, k: nat)
    requires Shows(nodes, h, k) && c !in h.marks && h'.marks == h.marks[c := m]
    requires k < |nodes'| && nodes'[k] == nodes[k]
    requires nodes[k].parent < |nodes'| && nodes'[nodes[k].parent] == nodes[nodes[k].parent]
    ensures Shows(nodes', h', k)
  {
  }

  // The new node, and what is noted of it.
  predicate IsNew(g: Grid, t: Cell, nodes: seq<Node>, cur: nat, n: Node) {
    && cur < |nodes| && n.parent == cur && n.g == nodes[cur].g + g.gridG(GridIdx(g, Pos(n)))
    && n.f == n.g + Dist(Pos(nodes[cur]), t)
  }

  lemma NewIsNoted(g: Grid, t: Cell, nodes: seq<Node>, h: Hunt, cur: nat, n: Node)
    requires Shows(nodes, h, cur) && IsNew(g, t, nodes, cur, n) && Pos(n) !in h.marks
    ensures Note(g, t, h, Pos(nodes[cur]), Pos(n)).marks == h.marks[Pos(n) := Mark(Pos(nodes[cur]), n.g, n.f)]
  {
  }

  lemma ShowsOn(g: Grid, t: Cell, nodes: seq<Node>, nodes': seq<Node>, depth: map<nat, nat>, h: Hunt, cur: nat,
                slot: nat,
                depth': map<nat, nat>)
    requires forall k :: k in depth' <==> k in depth || k == slot
    requires forall k :: k in depth ==> Shows(nodes, h, k) && nodes[k].parent in depth
    requires forall k :: k in depth ==> k < |nodes| && k < |nodes'| && nodes'[k] == nodes[k]
    requires cur in depth && slot !in depth && slot < |nodes'| && Pos(nodes'[slot]) !in h.marks
    requires IsNew(g, t, nodes, cur, nodes'[slot])
    ensures forall k :: k in depth' ==> Shows(nodes', Note(g, t, h, Pos(nodes[cur]), Pos(nodes'[slot])), k)
  {
    var n := nodes'[slot];
    var h', c := Note(g, t, h, Pos(nodes[cur]), Pos(n)), Pos(n);
    assert Shows(nodes, h, cur);
    NewIsNoted(g, t, nodes, h, cur, n);
    forall k | k in depth'
      ensures Shows(nodes', h', k)
    {
      if k != slot {
        assert Shows(nodes, h, k);
        StillShows(nodes, nodes', h, h', c, Mark(Pos(nodes[cur]), n.g, n.f), k);
      }
    }
  }

  lemma OpenOn(g: Grid, t: Cell, nodes: seq<Node>, nodes': seq<Node>, depth: map<nat, nat>, h: Hunt, cur: nat,
               slot: nat,
               depth': map<nat, nat>, open: seq<nat>)
    requires forall k :: k in depth' <==> k in depth || k == slot
    requires slot < |nodes'| && cur in depth && cur < |nodes| && Pos(nodes[cur]) in h.marks
    requires Pos(nodes'[slot]) !in h.marks && forall i :: 0 <= i < |open| ==> open[i] in depth
    requires forall k :: k in depth ==> k < |nodes| && k < |nodes'| && nodes'[k] == nodes[k]
    requires forall k :: k in depth' ==> Shows(nodes', Note(g, t, h, Pos(nodes[cur]), Pos(nodes'[slot])), k)
    requires h.open == Spots(nodes, open)
    ensures Note(g, t, h, Pos(nodes[cur]), Pos(nodes'[slot])).open == Spots(nodes', Inserted(nodes', open, slot))
  {
    var h' := Note(g, t, h, Pos(nodes[cur]), Pos(nodes'[slot]));
    assert Shows(nodes', h', slot);
    forall i | 0 <= i < |open|
      ensures Rank(h'.marks, Pos(nodes'[open[i]])) == nodes'[open[i]].f
    {
      assert open[i] in depth' && Shows(nodes', h', open[i]);
    }
    PlacedIsInserted(nodes', open, slot, h'.marks);
    assert Spots(nodes', open) == Spots(nodes, open);
  }

  // The view, stated so that it is not unfolded.
  ghost predicate Views(g: Grid, nodeIdx: seq<nat>, nodes: seq<Node>, depth: map<nat, nat>, open: seq<nat>, h: Hunt) {
    forall x :: x == h ==> View(g, nodeIdx, nodes, depth, open, x)
  }

  // A new child, as far as the view goes.
  ghost predicate Child(g: Grid, t: Cell, nodeIdx: seq<nat>, nodes: seq<Node>, nodeIdx': seq<nat>, nodes': seq<Node>,
                        depth: map<nat, nat>, open: seq<nat>, cur: nat, slot: nat) {
    && cur in depth && slot !in depth && slot < |nodes'| && 0 !in depth
    && (forall k :: k in depth ==> k < |nodes| && nodes[k].parent in depth && k < |nodes'| && nodes'[k] == nodes[k])
    && (forall i :: 0 <= i < |open| ==> open[i] in depth)
    && IsNew(g, t, nodes, cur, nodes'[slot]) && Inside(g, Pos(nodes'[slot]))
    && |nodeIdx| == |nodeIdx'| == CellLength(g) && nodeIdx'[GridIdx(g, Pos(nodes'[slot]))] == slot
    && (forall i :: 0 <= i < |nodeIdx| && nodeIdx[i] > 0 ==> nodeIdx'[i] == nodeIdx[i])
  }

  // What makes it one.
  ghost predicate Grows(g: Grid, t: Cell, nodeIdx: seq<nat>, nodes: seq<Node>, nodeIdx': seq<nat>, nodes': seq<Node>,
                        ci: nat, depth: map<nat, nat>, root: nat, open: seq<nat>, cur: nat, slot: nat, n: Node) {
    && Searching(g, nodeIdx, nodes, ci, depth, root, open, cur) && cur in depth && slot !in depth
    && Step(g, Pos(nodes[cur]), Pos(n)) && Inside(g, Pos(n)) && n.idx == ci && IsNew(g, t, nodes, cur, n)
    && Writes(nodeIdx, nodes, nodeIdx', nodes', GridIdx(g, Pos(n)), slot, n)
  }

  lemma ViewIs(g: Grid, nodeIdx: seq<nat>, nodes: seq<Node>, depth: map<nat, nat>, open: seq<nat>, h: Hunt)
    requires forall k :: k in depth ==> Shows(nodes, h, k)
    requires forall c :: c in h.marks ==> Inside(g, c) && Seen(g, nodeIdx, depth, c)
    requires h.open == Spots(nodes, open)
    ensures Views(g, nodeIdx, nodes, depth, open, h)
  {
  }

  lemma IsChild(g: Grid, t: Cell, nodeIdx: seq<nat>, nodes: seq<Node>, nodeIdx': seq<nat>, nodes': seq<Node>, ci: nat,
                depth: map<nat, nat>, root: nat, open: seq<nat>, cur: nat, slot: nat, n: Node)
    requires Grows(g, t, nodeIdx, nodes, nodeIdx', nodes', ci, depth, root, open, cur, slot, n)
    ensures Child(g, t, nodeIdx, nodes, nodeIdx', nodes', depth, open, cur, slot) && nodes'[slot] == n
  {
    WritesCoherent(g, nodeIdx, nodes, nodeIdx', nodes', Pos(n), slot, n);
    ParentsInTree(g, nodes, ci, depth, root);
    forall i | 0 <= i < |open|
      ensures open[i] in depth
    {
      assert open[i] in open;
    }
  }

  lemma ChildShows(g: Grid, t: Cell, nodeIdx: seq<nat>, nodes: seq<Node>, nodeIdx': seq<nat>, nodes': seq<Node>,
                   ci: nat,
                   depth: map<nat, nat>, root: nat, open: seq<nat>, cur: nat, slot: nat, n: Node, h: Hunt,
                   depth': map<nat, nat>)
    requires cur in depth && depth' == depth[slot := depth[cur] + 1]
    requires Grows(g, t, nodeIdx, nodes, nodeIdx', nodes', ci, depth, root, open, cur, slot, n)
    requires Views(g, nodeIdx, nodes, depth, open, h)
    ensures cur < |nodes| && slot < |nodes'| && nodes'[slot] == n && Pos(n) !in h.marks && Pos(nodes[cur]) in h.marks
    ensures forall k :: k in depth' ==> Shows(nodes', Note(g, t, h, Pos(nodes[cur]), Pos(n)), k)
  {
    IsChild(g, t, nodeIdx, nodes, nodeIdx', nodes', ci, depth, root, open, cur, slot, n);
    assert View(g, nodeIdx, nodes, depth, open, h);
    assert Shows(nodes, h, cur);
    NotSeenYet(g, nodeIdx, nodes, nodeIdx', depth, open, h, Pos(n), slot);
    ShowsOn(g, t, nodes, nodes', depth, h, cur, slot, depth');
  }

  lemma ChildOpen(g: Grid, t: Cell, nodeIdx: seq<nat>, nodes: seq<Node>, nodeIdx': seq<nat>, nodes': seq<Node>, ci: nat,
                  depth: map<nat, nat>, root: nat, open: seq<nat>, cur: nat, slot: nat, n: Node, h: Hunt,
                  depth': map<nat, nat>)
    requires cur in depth && depth' == depth[slot := depth[cur] + 1]
    requires Grows(g, t, nodeIdx, nodes, nodeIdx', nodes', ci, depth, root, open, cur, slot, n)
    requires Views(g, nodeIdx, nodes, depth, open, h)
    ensures slot < |nodes'| && forall i :: 0 <= i < |open| ==> open[i] < |nodes'|
    ensures Note(g, t, h, Pos(nodes[cur]), Pos(n)).open == Spots(nodes', Inserted(nodes', open, slot))
  {
    ChildShows(g, t, nodeIdx, nodes, nodeIdx', nodes', ci, depth, root, open, cur, slot, n, h, depth');
    IsChild(g, t, nodeIdx, nodes, nodeIdx', nodes', ci, depth, root, open, cur, slot, n);
    assert View(g, nodeIdx, nodes, depth, open, h);
    OpenOn(g, t, nodes, nodes', depth, h, cur, slot, depth', open);
  }

  lemma ChildSeen(g: Grid, t: Cell, nodeIdx: seq<nat>, nodes: seq<Node>, nodeIdx': seq<nat>, nodes': seq<Node>, ci: nat,
                  depth: map<nat, nat>, root: nat, open: seq<nat>, cur: nat, slot: nat, n: Node, h: Hunt,
                  depth': map<nat, nat>)
    requires cur in depth && depth' == depth[slot := depth[cur] + 1]
    requires Grows(g, t, nodeIdx, nodes, nodeIdx', nodes', ci, depth, root, open, cur, slot, n)
    requires Views(g, nodeIdx, nodes, depth, open, h)
    ensures forall b :: b in Note(g, t, h, Pos(nodes[cur]), Pos(n)).marks ==>
              Inside(g, b) && Seen(g, nodeIdx', depth', b)
  {
    IsChild(g, t, nodeIdx, nodes, nodeIdx', nodes', ci, depth, root, open, cur, slot, n);
    assert View(g, nodeIdx, nodes, depth, open, h);
    NotedIsSeen(g, t, nodeIdx, nodeIdx', depth, h, Pos(nodes[cur]), Pos(n), slot, depth');
  }

  // The hunt with one cell more, stated so that the definition is not unfolded.
  ghost predicate IsNoted(g: Grid, t: Cell, h: Hunt, cur: Cell, c: Cell, h': Hunt) {
    forall x :: x == c ==> h' == Note(g, t, h, cur, x)
  }

  // A new child is noted in the view.
  lemma ViewOn(g: Grid, t: Cell, nodeIdx: seq<nat>, nodes: seq<Node>, nodeIdx': seq<nat>, nodes': seq<Node>, ci: nat,
               depth: map<nat, nat>, root: nat, open: seq<nat>, open': seq<nat>, cur: nat, slot: nat, n: Node, h: Hunt,
               depth': map<nat, nat>)
    returns (h': Hunt)
    requires cur in depth && depth' == depth[slot := depth[cur] + 1]
    requires Grows(g, t, nodeIdx, nodes, nodeIdx', nodes', ci, depth, root, open, cur, slot, n)
    requires Views(g, nodeIdx, nodes, depth, open, h)
    requires slot < |nodes'| && (forall i :: 0 <= i < |open| ==> open[i] < |nodes'|)
    requires IsInserted(nodes', open, slot, open')
    ensures IsNoted(g, t, h, Pos(nodes[cur]), Pos(n), h') && Views(g, nodeIdx', nodes', depth', open', h')
  {
    h' := Note(g, t, h, Pos(nodes[cur]), Pos(n));
    ChildShows(g, t, nodeIdx, nodes, nodeIdx', nodes', ci, depth, root, open, cur, slot, n, h, depth');
    ChildOpen(g, t, nodeIdx, nodes, nodeIdx', nodes', ci, depth, root, open, cur, slot, n, h, depth');
    ChildSeen(g, t, nodeIdx, nodes, nodeIdx', nodes', ci, depth, root, open, cur, slot, n, h, depth');
    ViewIs(g, nodeIdx', nodes', depth', open', h');
  }

  lemma ParentsInTree(g: Grid, nodes: seq<Node>, ci: nat, depth: map<nat, nat>, root: nat)
    requires Tree(g, nodes, ci, depth, root)
    ensures forall k :: k in depth ==> 0 < k < |nodes| && nodes[k].parent in depth
  {
    forall k | k in depth
      ensures nodes[k].parent in depth
    {
      if k != root { assert Hangs(g, nodes, depth, k); }
    }
  }

  // A cell whose node is new to the tree has not been noted.
  lemma NotSeenYet(g: Grid, nodeIdx: seq<nat>, nodes: seq<Node>, nodeIdx': seq<nat>, depth: map<nat, nat>,
                   open: seq<nat>, h: Hunt, c: Cell, slot: nat)
    requires View(g, nodeIdx, nodes, depth, open, h) && Inside(g, c) && |nodeIdx| == |nodeIdx'| == CellLength(g)
    requires nodeIdx'[GridIdx(g, c)] == slot && slot !in depth && 0 !in depth
    requires nodeIdx[GridIdx(g, c)] > 0 ==> nodeIdx'[GridIdx(g, c)] == nodeIdx[GridIdx(g, c)]
    ensures c !in h.marks
  {
  }

  lemma NotedIsSeen(g: Grid, t: Cell, nodeIdx: seq<nat>, nodeIdx': seq<nat>, depth: map<nat, nat>, h: Hunt, cur: Cell,
                    c: Cell, slot: nat, depth': map<nat, nat>)
    requires forall k :: k in depth' <==> k in depth || k == slot
    requires (forall b :: b in h.marks ==> Inside(g, b) && Seen(g, nodeIdx, depth, b)) && 0 !in depth
    requires Inside(g, c) && |nodeIdx| == |nodeIdx'| == CellLength(g) && nodeIdx'[GridIdx(g, c)] == slot
    requires forall i :: 0 <= i < |nodeIdx| && nodeIdx[i] > 0 ==> nodeIdx'[i] == nodeIdx[i]
    ensures forall b :: b in Note(g, t, h, cur, c).marks ==> Inside(g, b) && Seen(g, nodeIdx', depth', b)
  {
    forall b | b in Note(g, t, h, cur, c).marks
      ensures Inside(g, b) && Seen(g, nodeIdx', depth', b)
    {
      if b != c { assert Seen(g, nodeIdx, depth, b); }
    }
  }

  // What the view tells of a cell that is looked for, or met again.
  lemma ViewTells(g: Grid, nodeIdx: seq<nat>, nodes: seq<Node>, ci: nat, depth: map<nat, nat>, root: nat,
                  open: seq<nat>,
                  cur: nat, h: Hunt, c: Cell)
    requires Searching(g, nodeIdx, nodes, ci, depth, root, open, cur) && Views(g, nodeIdx, nodes, depth, open, h)
    ensures c in h.marks <==> Inside(g, c) && Seen(g, nodeIdx, depth, c)
    ensures |h.open| == |open| && forall i :: 0 <= i < |open| ==> open[i] < |nodes| && h.open[i] == Pos(nodes[open[i]])
    ensures cur in depth ==> cur < |nodes| && Pos(nodes[cur]) in h.marks
  {
    assert View(g, nodeIdx, nodes, depth, open, h);
    if Inside(g, c) { SeenIsNoted(g, nodeIdx, nodes, depth, open, h, c); }
    if cur in depth { assert Shows(nodes, h, cur); }
  }

  // Without its first open cell.
  lemma ViewPopped(g: Grid, nodeIdx: seq<nat>, nodes: seq<Node>, depth: map<nat, nat>, open: seq<nat>, h: Hunt)
    requires open != [] && Views(g, nodeIdx, nodes, depth, open, h)
    ensures h.open != [] && Views(g, nodeIdx, nodes, depth, open[1..], h.(open := h.open[1..]))
  {
    assert View(g, nodeIdx, nodes, depth, open, h);
    assert open == [open[0]] + open[1..];
    assert Spots(nodes, open)[1..] == Spots(nodes, open[1..]);
    var h' := h.(open := h.open[1..]);
    forall k | k in depth
      ensures Shows(nodes, h', k)
    {
      assert Shows(nodes, h, k);
    }
  }

  // At the start.
  lemma ViewBegins(g: Grid, nodeIdx: seq<nat>, nodes: seq<Node>, ci: nat, root: nat, s: Cell, t: Cell)
    requires Searching(g, nodeIdx, nodes, ci, map[root := 0], root, [root], 0) && root < |nodes| && Inside(g, s)
    requires Pos(nodes[root]) == s && nodes[root].g == 0 && nodes[root].f == Dist(s, t) && nodes[root].parent == root
    ensures Views(g, nodeIdx, nodes, map[root := 0], [root], Begin(s, t))
  {
    assert nodeIdx[GridIdx(g, s)] == root;
    assert Shows(nodes, Begin(s, t), root);
  }

  // The way back from the target is the one that the marks lead.
  lemma ChainFollows(g: Grid, nodeIdx: seq<nat>, nodes: seq<Node>, depth: map<nat, nat>, open: seq<nat>, h: Hunt,
                     chain: seq<nat>, way: seq<Cell>)
    requires Views(g, nodeIdx, nodes, depth, open, h) && IsChain(g, nodes, chain)
    requires forall i :: 0 <= i < |chain| ==> chain[i] in depth
    requires |way| == |chain| && forall i :: 0 <= i < |way| ==> way[i] == Pos(nodes[chain[i]])
    ensures Follows(h, way, way[|way| - 1], way[0])
  {
    assert View(g, nodeIdx, nodes, depth, open, h);
    forall i | 0 <= i < |way| - 1
      ensures way[i] != way[|way| - 1] && way[i] in h.marks && h.marks[way[i]].parent == way[i + 1]
    {
      assert Shows(nodes, h, chain[i]);
    }
  }

  // ------------------------------------------------------------ between two moves

  // What a search keeps: the cache, the tree, the open list; and all that is neither open nor
  // the current node (0 if there is none) has been expanded.
  ghost predicate Searching(g: Grid, nodeIdx: seq<nat>, nodes: seq<Node>, ci: nat, depth: map<nat, nat>, root: nat,
                            open: seq<nat>, cur: nat) {
    && Walled(g) && Coherent(g, nodeIdx, nodes) && Tree(g, nodes, ci, depth, root)
    && Sorted(nodes, open) && (forall k :: k in open ==> k in depth)
    && (forall k :: k in depth ==> k in open || k == cur || Expanded(g, nodeIdx, nodes, depth, k))
  }

  lemma StaysSeen(g: Grid, nodeIdx: seq<nat>, nodeIdx': seq<nat>, nodes: seq<Node>, nodes': seq<Node>,
                  depth: map<nat, nat>, depth': map<nat, nat>, k: nat)
    requires k < |nodes| && Expanded(g, nodeIdx, nodes, depth, k)
    requires |nodeIdx'| == |nodeIdx| && k < |nodes'| && nodes'[k] == nodes[k] && depth.Keys <= depth'.Keys &&
             0 !in depth
    requires forall i :: 0 <= i < |nodeIdx| && nodeIdx[i] > 0 ==> nodeIdx'[i] == nodeIdx[i]
    ensures Expanded(g, nodeIdx', nodes', depth', k)
  {
    forall c | Step(g, Pos(nodes'[k]), c)
      ensures Seen(g, nodeIdx', depth', c)
    {
      assert Seen(g, nodeIdx, depth, c);
    }
  }

  lemma OthersStay(nodeIdx: seq<nat>, nodes: seq<Node>, nodeIdx': seq<nat>, nodes': seq<Node>, i: nat, slot: nat,
                   n: Node, k: nat)
    requires Writes(nodeIdx, nodes, nodeIdx', nodes', i, slot, n) && k < |nodes| && k != slot
    ensures k < |nodes'| && nodes'[k] == nodes[k]
  {
  }

  // What was expanded stays so.
  lemma StayExpanded(g: Grid, nodeIdx: seq<nat>, nodes: seq<Node>, nodeIdx': seq<nat>, nodes': seq<Node>,
                     depth: map<nat, nat>, depth': map<nat, nat>, open: seq<nat>, open': seq<nat>, cur: nat, slot: nat)
    requires (forall k :: k in depth ==> k < |nodes|) && |nodeIdx'| == |nodeIdx| && 0 !in depth
    requires forall k :: k in depth ==> k in open || k == cur || Expanded(g, nodeIdx, nodes, depth, k)
    requires forall k :: k in depth ==> k < |nodes'| && nodes'[k] == nodes[k]
    requires forall i :: 0 <= i < |nodeIdx| && nodeIdx[i] > 0 ==> nodeIdx'[i] == nodeIdx[i]
    requires slot !in depth && depth'.Keys == depth.Keys + {slot} &&
             (forall k :: k in open' <==> k in open || k == slot)
    requires slot < |nodes'|
    ensures forall k :: k in depth' ==> k in open' || k == cur || Expanded(g, nodeIdx', nodes', depth', k)
  {
    forall k | k in depth' && k !in open' && k != cur
      ensures Expanded(g, nodeIdx', nodes', depth', k)
    {
      StaysSeen(g, nodeIdx, nodeIdx', nodes, nodes', depth, depth', k);
    }
  }

  // A new child keeps the cache and the tree.
  lemma ChildHangs(g: Grid, nodeIdx: seq<nat>, nodes: seq<Node>, nodeIdx': seq<nat>, nodes': seq<Node>, ci: nat,
                   depth: map<nat, nat>, root: nat, cur: nat, slot: nat, n: Node)
    requires Coherent(g, nodeIdx, nodes) && Tree(g, nodes, ci, depth, root) && cur in depth && slot !in depth
    requires Step(g, Pos(nodes[cur]), Pos(n)) && Inside(g, Pos(n)) && n.idx == ci && n.parent == cur
    requires Writes(nodeIdx, nodes, nodeIdx', nodes', GridIdx(g, Pos(n)), slot, n)
    ensures Coherent(g, nodeIdx', nodes') && Tree(g, nodes', ci, depth[slot := depth[cur] + 1], root)
    ensures nodeIdx'[GridIdx(g, Pos(n))] == slot < |nodes'| && |nodeIdx'| == |nodeIdx| && 0 !in depth
    ensures forall k :: k in depth ==> k < |nodes| <= |nodes'| && nodes'[k] == nodes[k]
    ensures forall i :: 0 <= i < |nodeIdx| && nodeIdx[i] > 0 ==> nodeIdx'[i] == nodeIdx[i]
  {
    WritesCoherent(g, nodeIdx, nodes, nodeIdx', nodes', Pos(n), slot, n);
    GrowsTree(g, nodes, nodes', ci, depth, root, cur, slot);
  }

  // And it goes into the open list.
  lemma ChildOpens(g: Grid, nodeIdx: seq<nat>, nodes: seq<Node>, nodeIdx': seq<nat>, nodes': seq<Node>,
                   depth: map<nat, nat>, depth': map<nat, nat>, open: seq<nat>, open': seq<nat>, cur: nat, slot: nat)
    requires (forall k :: k in depth ==> k < |nodes| <= |nodes'| && nodes'[k] == nodes[k]) &&
             |nodeIdx'| == |nodeIdx| && 0 !in depth
    requires forall k :: k in open ==> k in depth
    requires forall k :: k in depth ==> k in open || k == cur || Expanded(g, nodeIdx, nodes, depth, k)
    requires forall i :: 0 <= i < |nodeIdx| && nodeIdx[i] > 0 ==> nodeIdx'[i] == nodeIdx[i]
    requires slot !in depth && slot < |nodes'| && cur in depth && depth' == depth[slot := depth[cur] + 1]
    requires forall k :: k in open' <==> k in open || k == slot
    ensures forall k :: k in open' ==> k in depth'
    ensures forall k :: k in depth' ==> k < |nodes'|
    ensures forall k :: k in depth' ==> k in open' || k == cur || Expanded(g, nodeIdx', nodes', depth', k)
  {
    assert depth'.Keys == depth.Keys + {slot};
    StayExpanded(g, nodeIdx, nodes, nodeIdx', nodes', depth, depth', open, open', cur, slot);
  }

  // A new child keeps it all.
  lemma ChildJoins(g: Grid, nodeIdx: seq<nat>, nodes: seq<Node>, nodeIdx': seq<nat>, nodes': seq<Node>, ci: nat,
                   depth: map<nat, nat>, depth': map<nat, nat>, root: nat, open: seq<nat>, open': seq<nat>, cur: nat,
                   slot: nat, n: Node)
    requires Searching(g, nodeIdx, nodes, ci, depth, root, open, cur) && cur in depth
    requires Step(g, Pos(nodes[cur]), Pos(n)) && Inside(g, Pos(n)) && n.idx == ci && n.parent == cur
    requires slot !in depth && depth' == depth[slot := depth[cur] + 1]
    requires Writes(nodeIdx, nodes, nodeIdx', nodes', GridIdx(g, Pos(n)), slot, n)
    requires Sorted(nodes', open') && forall k :: k in open' <==> k in open || k == slot
    ensures Searching(g, nodeIdx', nodes', ci, depth', root, open', cur)
  {
    ChildHangs(g, nodeIdx, nodes, nodeIdx', nodes', ci, depth, root, cur, slot, n);
    ChildOpens(g, nodeIdx, nodes, nodeIdx', nodes', depth, depth', open, open', cur, slot);
  }

  // The open list stays sorted while a node that is not in it is written.
  lemma StaysSorted(nodes: seq<Node>, nodes': seq<Node>, open: seq<nat>, slot: nat)
    requires Sorted(nodes, open) && slot !in open && |nodes| <= |nodes'|
    requires forall k :: 0 <= k < |nodes| && k != slot ==> nodes'[k] == nodes[k]
    ensures Sorted(nodes', open)
  {
  }

  // After all eight directions the current node is expanded.
  lemma AllTried(g: Grid, nodeIdx: seq<nat>, nodes: seq<Node>, ci: nat, depth: map<nat, nat>, root: nat,
                 open: seq<nat>, cur: nat)
    requires Searching(g, nodeIdx, nodes, ci, depth, root, open, cur) && cur in depth
    requires Tried(g, nodeIdx, depth, Pos(nodes[cur]), 8)
    ensures Searching(g, nodeIdx, nodes, ci, depth, root, open, 0)
  {
    forall c | Step(g, Pos(nodes[cur]), c)
      ensures Seen(g, nodeIdx, depth, c)
    {
      var i := NeighboursAreAll(Pos(nodes[cur]), c);
    }
    assert Expanded(g, nodeIdx, nodes, depth, cur);
  }

  lemma {:induction false} Bounded(s: set<nat>, n: nat)
    requires forall k :: k in s ==> 0 < k <= n
    ensures |s| <= n
    decreases n
  {
    if n > 0 {
      Bounded(s - {n}, n - 1);
    } else {
      assert s == {};
    }
  }

  // No more nodes are seen than there are cells.
  lemma SeenAreFew(g: Grid, nodeIdx: seq<nat>, nodes: seq<Node>, ci: nat, depth: map<nat, nat>, root: nat)
    requires Coherent(g, nodeIdx, nodes) && Tree(g, nodes, ci, depth, root)
    ensures |depth| <= CellLength(g)
  {
    Bounded(depth.Keys, |nodes| - 1);
    assert |depth| == |depth.Keys|;
  }

  // No node carries a stamp of a later search.
  predicate Stamped(nodes: seq<Node>, ci: nat) {
    forall k :: 0 <= k < |nodes| ==> nodes[k].idx <= ci
  }

  // Only the cell that is written becomes seen, and none that was seen is forgotten.
  lemma OneMoreSeen(g: Grid, nodeIdx: seq<nat>, nodes: seq<Node>, nodeIdx': seq<nat>, nodes': seq<Node>,
                    depth: map<nat, nat>, depth': map<nat, nat>, c: Cell, slot: nat, n: Node)
    requires Coherent(g, nodeIdx, nodes) && Coherent(g, nodeIdx', nodes') && 0 !in depth
    requires Inside(g, c) && Pos(n) == c && Writes(nodeIdx, nodes, nodeIdx', nodes', GridIdx(g, c), slot, n)
    requires slot !in depth && depth'.Keys == depth.Keys + {slot}
    ensures forall b :: b != c && Inside(g, b) && Seen(g, nodeIdx', depth', b) ==> Seen(g, nodeIdx, depth, b)
    ensures forall b :: Seen(g, nodeIdx, depth, b) ==> Seen(g, nodeIdx', depth', b)
  {
    forall b | b != c && Inside(g, b) && Seen(g, nodeIdx', depth', b)
      ensures Seen(g, nodeIdx, depth, b)
    {
      IndexMeans(g, b);
      IndexMeans(g, c);
      assert GridIdx(g, b) != GridIdx(g, c);
      assert nodeIdx'[GridIdx(g, b)] == nodeIdx[GridIdx(g, b)];
    }
  }

  // What a joining neighbour changes besides.
  ghost predicate Joined(g: Grid, nodeIdx: seq<nat>, nodes: seq<Node>, nodeIdx': seq<nat>, nodes': seq<Node>, ci: nat,
                         depth: map<nat, nat>, depth': map<nat, nat>, root: nat, cur: nat, c: Cell)
  {
    && cur in depth' && root in depth' && cur < |nodes| <= |nodes'| && root < |nodes|
    && Pos(nodes'[cur]) == Pos(nodes[cur]) && Pos(nodes'[root]) == Pos(nodes[root])
    && Seen(g, nodeIdx', depth', c) && |depth'| == |depth| + 1
    && (forall b :: b != c && Inside(g, b) && Seen(g, nodeIdx', depth', b) ==> Seen(g, nodeIdx, depth, b))
    && (forall b :: Seen(g, nodeIdx, depth, b) ==> Seen(g, nodeIdx', depth', b))
    && (Stamped(nodes, ci) ==> Stamped(nodes', ci))
  }

  lemma StaysStamped(nodeIdx: seq<nat>, nodes: seq<Node>, nodeIdx': seq<nat>, nodes': seq<Node>, i: nat, ci: nat,
                     slot: nat, n: Node)
    requires Writes(nodeIdx, nodes, nodeIdx', nodes', i, slot, n) && n.idx == ci && Stamped(nodes, ci)
    ensures Stamped(nodes', ci)
  {
  }

  lemma RootInTree(g: Grid, nodes: seq<Node>, ci: nat, depth: map<nat, nat>, root: nat, cur: nat)
    requires Tree(g, nodes, ci, depth, root) && cur in depth
    ensures root in depth && 0 < root < |nodes| && 0 < cur < |nodes| && 0 !in depth
  {
  }

  lemma ChildHasJoined(g: Grid, nodeIdx: seq<nat>, nodes: seq<Node>, nodeIdx': seq<nat>, nodes': seq<Node>, ci: nat,
                       depth: map<nat, nat>, depth': map<nat, nat>, root: nat, cur: nat, slot: nat, n: Node)
    requires Coherent(g, nodeIdx, nodes) && Coherent(g, nodeIdx', nodes') && cur < |nodes| && root < |nodes| &&
             0 !in depth
    requires cur in depth && root in depth && slot !in depth && Inside(g, Pos(n)) && n.idx == ci
    requires Writes(nodeIdx, nodes, nodeIdx', nodes', GridIdx(g, Pos(n)), slot, n) &&
             depth' == depth[slot := depth[cur] + 1]
    requires Seen(g, nodeIdx', depth', Pos(n))
    ensures Joined(g, nodeIdx, nodes, nodeIdx', nodes', ci, depth, depth', root, cur, Pos(n))
  {
    OneMoreSeen(g, nodeIdx, nodes, nodeIdx', nodes', depth, depth', Pos(n), slot, n);
    OthersStay(nodeIdx, nodes, nodeIdx', nodes', GridIdx(g, Pos(n)), slot, n, cur);
    OthersStay(nodeIdx, nodes, nodeIdx', nodes', GridIdx(g, Pos(n)), slot, n, root);
    if Stamped(nodes, ci) { StaysStamped(nodeIdx, nodes, nodeIdx', nodes', GridIdx(g, Pos(n)), ci, slot, n); }
  }

  // All that a new child brings.
  lemma ChildEnters(g: Grid, nodeIdx: seq<nat>, nodes: seq<Node>, nodeIdx': seq<nat>, nodes': seq<Node>, ci: nat,
                    depth: map<nat, nat>, depth': map<nat, nat>, root: nat, open: seq<nat>, open': seq<nat>, cur: nat,
                    slot: nat, n: Node)
    requires Searching(g, nodeIdx, nodes, ci, depth, root, open, cur) && cur in depth
    requires Step(g, Pos(nodes[cur]), Pos(n)) && Inside(g, Pos(n)) && n.idx == ci && n.parent == cur
    requires slot !in depth && depth' == depth[slot := depth[cur] + 1]
    requires Writes(nodeIdx, nodes, nodeIdx', nodes', GridIdx(g, Pos(n)), slot, n)
    requires Sorted(nodes', open') && forall k :: k in open' <==> k in open || k == slot
    ensures Searching(g, nodeIdx', nodes', ci, depth', root, open', cur)
    ensures Joined(g, nodeIdx, nodes, nodeIdx', nodes', ci, depth, depth', root, cur, Pos(n))
  {
    ChildJoins(g, nodeIdx, nodes, nodeIdx', nodes', ci, depth, depth', root, open, open', cur, slot, n);
    ChildHangs(g, nodeIdx, nodes, nodeIdx', nodes', ci, depth, root, cur, slot, n);
    RootInTree(g, nodes, ci, depth, root, cur);
    ChildHasJoined(g, nodeIdx, nodes, nodeIdx', nodes', ci, depth, depth', root, cur, slot, n);
  }

  // The free ones of the first i neighbours have been seen.
  ghost predicate Tried(g: Grid, nodeIdx: seq<nat>, depth: map<nat, nat>, c: Cell, i: nat)
    requires i <= 8
  {
    forall j :: 0 <= j < i && Free(g, Neighbour(c, j)) ==> Seen(g, nodeIdx, depth, Neighbour(c, j))
  }

  lemma OneMoreTried(g: Grid, nodeIdx: seq<nat>, nodeIdx': seq<nat>, depth: map<nat, nat>, depth': map<nat, nat>,
                     c: Cell, i: nat)
    requires i < 8 && Tried(g, nodeIdx, depth, c, i)
    requires forall b :: Seen(g, nodeIdx, depth, b) ==> Seen(g, nodeIdx', depth', b)
    requires Free(g, Neighbour(c, i)) ==> Seen(g, nodeIdx', depth', Neighbour(c, i))
    ensures Tried(g, nodeIdx', depth', c, i + 1)
  {
  }

  // The first of the open list is a smallest one.
  lemma FirstIsLeast(nodes: seq<Node>, open: seq<nat>)
    requires open != [] && Sorted(nodes, open)
    ensures Sorted(nodes, open[1..])
    ensures forall k :: k in open <==> k == open[0] || k in open[1..]
    ensures forall k :: k in open ==> nodes[open[0]].f <= nodes[k].f
  {
    assert open == [open[0]] + open[1..];
  }

  // It becomes the current node.
  lemma Popped(g: Grid, nodeIdx: seq<nat>, nodes: seq<Node>, ci: nat, depth: map<nat, nat>, root: nat, open: seq<nat>)
    requires open != [] && Searching(g, nodeIdx, nodes, ci, depth, root, open, 0)
    ensures open[0] in depth && Searching(g, nodeIdx, nodes, ci, depth, root, open[1..], open[0])
  {
    FirstIsLeast(nodes, open);
    assert open[0] in open;
    RootInTree(g, nodes, ci, depth, root, open[0]);
    var rest, cur := open[1..], open[0];
    forall k | k in depth
      ensures k in rest || k == cur || Expanded(g, nodeIdx, nodes, depth, k)
    {
      assert k in open || k == 0 || Expanded(g, nodeIdx, nodes, depth, k);
    }
  }

  lemma FoundIsReachable(g: Grid, nodeIdx: seq<nat>, nodes: seq<Node>, ci: nat, depth: map<nat, nat>, root: nat,
                         t: Cell)
    requires Coherent(g, nodeIdx, nodes) && Tree(g, nodes, ci, depth, root) && Inside(g, t) &&
             Seen(g, nodeIdx, depth, t)
    ensures var k := nodeIdx[GridIdx(g, t)]; k in depth && k < |nodes| && Pos(nodes[k]) == t
    ensures Reachable(g, Pos(nodes[root]), t)
  {
    var k := nodeIdx[GridIdx(g, t)];
    SameIndex(g, t, Pos(nodes[k]));
    SeenIsReachable(g, nodes, ci, depth, root, k);
  }

  lemma ClosedIsUnreachable(g: Grid, nodeIdx: seq<nat>, nodes: seq<Node>, ci: nat, depth: map<nat, nat>, root: nat,
                            t: Cell)
    requires Searching(g, nodeIdx, nodes, ci, depth, root, [], 0) && !(Inside(g, t) && Seen(g, nodeIdx, depth, t))
    ensures root in depth && root < |nodes| && !Reachable(g, Pos(nodes[root]), t)
  {
    if Reachable(g, Pos(nodes[root]), t) {
      var p :| Route(g, p) && p[0] == Pos(nodes[root]) && p[|p| - 1] == t;
      AllReachableSeen(g, nodeIdx, nodes, ci, depth, root, p);
    }
  }

  lemma Rooted(g: Grid, nodeIdx: seq<nat>, nodes: seq<Node>, nodeIdx': seq<nat>, nodes': seq<Node>, ci: nat, s: Cell,
               t: Cell, root: nat)
    requires Walled(g) && Coherent(g, nodeIdx, nodes) && Inside(g, s) && s != t &&
             (forall k :: 0 <= k < |nodes| ==> nodes[k].idx != ci)
    requires root < |nodes'| && Writes(nodeIdx, nodes, nodeIdx', nodes', GridIdx(g, s), root, nodes'[root])
    requires Pos(nodes'[root]) == s && nodes'[root].idx == ci && nodes'[root].parent == root
    ensures 0 < root && Searching(g, nodeIdx', nodes', ci, map[root := 0], root, [root], 0)
    ensures !(Inside(g, t) && Seen(g, nodeIdx', map[root := 0], t))
    ensures Stamped(nodes, ci) ==> Stamped(nodes', ci)
  {
    WritesCoherent(g, nodeIdx, nodes, nodeIdx', nodes', s, root, nodes'[root]);
    if Inside(g, t) && Seen(g, nodeIdx', map[root := 0], t) {
      SameIndex(g, s, t);
    }
  }

  lemma ChainIsApart(g: Grid, nodeIdx: seq<nat>, nodes: seq<Node>, ci: nat, depth: map<nat, nat>, root: nat, k: nat)
    requires Coherent(g, nodeIdx, nodes) && Tree(g, nodes, ci, depth, root) && k in depth
    ensures var c := Chain(g, nodes, ci, depth, root, k);
            forall i, j :: 0 <= i < j < |c| ==> c[i] != c[j] && Pos(nodes[c[i]]) != Pos(nodes[c[j]])
  {
    var c := Chain(g, nodes, ci, depth, root, k);
    forall i, j | 0 <= i < j < |c|
      ensures c[i] != c[j] && Pos(nodes[c[i]]) != Pos(nodes[c[j]])
    {
      assert depth[c[i]] != depth[c[j]];
    }
  }

  // The way back from a node is a chain.
  lemma ChainIsChain(g: Grid, nodeIdx: seq<nat>, nodes: seq<Node>, ci: nat, depth: map<nat, nat>, root: nat, k: nat)
    requires Coherent(g, nodeIdx, nodes) && Tree(g, nodes, ci, depth, root) && k in depth && k != root
    ensures IsChain(g, nodes, Chain(g, nodes, ci, depth, root, k))
  {
    var c := Chain(g, nodes, ci, depth, root, k);
    ChainIsApart(g, nodeIdx, nodes, ci, depth, root, k);
    forall i | 0 <= i < |c| - 1
      ensures nodes[c[i]].parent == c[i + 1] && Step(g, Pos(nodes[c[i + 1]]), Pos(nodes[c[i]]))
    {
      assert Hangs(g, nodes, depth, c[i]);
    }
  }

  // From the node of the target, when it has been seen.
  lemma FoundChain(g: Grid, nodeIdx: seq<nat>, nodes: seq<Node>, ci: nat, depth: map<nat, nat>, root: nat, t: Cell)
    returns (chain: seq<nat>)
    requires Coherent(g, nodeIdx, nodes) && Tree(g, nodes, ci, depth, root) && Inside(g, t) &&
             Seen(g, nodeIdx, depth, t)
    requires Pos(nodes[root]) != t
    ensures IsChain(g, nodes, chain) && chain[0] == nodeIdx[GridIdx(g, t)] && chain[|chain| - 1] == root < |nodes|
    ensures forall i :: 0 <= i < |chain| ==> chain[i] in depth
    ensures Pos(nodes[chain[0]]) == t
  {
    FoundIsReachable(g, nodeIdx, nodes, ci, depth, root, t);
    var end := nodeIdx[GridIdx(g, t)];
    chain := Chain(g, nodes, ci, depth, root, end);
    ChainIsChain(g, nodeIdx, nodes, ci, depth, root, end);
  }

  lemma StaysPut(g: Grid, nodeIdx: seq<nat>, was: seq<Node>, nodes: seq<Node>, ci: nat)
    requires Coherent(g, nodeIdx, was) && SameBut(was, nodes)
    ensures Coherent(g, nodeIdx, nodes) && (Stamped(was, ci) ==> Stamped(nodes, ci))
  {
    assert SamePlaces(was, nodes);
    StaysCoherent(g, nodeIdx, was, nodes);
  }

  // The end of a turn for a neighbour that was written: it goes into the open list.
  method Enter(g: Grid, ghost ix: seq<nat>, ghost ns: seq<Node>, ghost nodeIdx: seq<nat>, nodes: seq<Node>,
               ghost ci: nat,
               ghost root: nat, ghost cur: nat, open: seq<nat>, slot: nat, ghost n: Node, ghost depth: map<nat, nat>,
               ghost t: Cell, ghost h: Hunt)
    returns (open': seq<nat>, ghost depth': map<nat, nat>, ghost h': Hunt)
    requires Searching(g, ix, ns, ci, depth, root, open, cur) && cur in depth && slot !in depth
    requires Step(g, Pos(ns[cur]), Pos(n)) && Inside(g, Pos(n)) && n.idx == ci && IsNew(g, t, ns, cur, n)
    requires Writes(ix, ns, nodeIdx, nodes, GridIdx(g, Pos(n)), slot, n) && Views(g, ix, ns, depth, open, h)
    ensures Searching(g, nodeIdx, nodes, ci, depth', root, open', cur) && |open'| == |open| + 1
    ensures Joined(g, ix, ns, nodeIdx, nodes, ci, depth, depth', root, cur, Pos(n))
    ensures IsNoted(g, t, h, Pos(ns[cur]), Pos(n), h') && Views(g, nodeIdx, nodes, depth', open', h')
  {
    StaysSorted(ns, nodes, open, slot);
    open' := InsertOpen(nodes, open, slot);
    InsertedIn(open, open', slot);
    depth' := depth[slot := depth[cur] + 1];
    h' := ViewOn(g, t, ix, ns, nodeIdx, nodes, ci, depth, root, open, open', cur, slot, n, h, depth');
    ChildEnters(g, ix, ns, nodeIdx, nodes, ci, depth, depth', root, open, open', cur, slot, n);
  }

  datatype ReturnType = SamePos | Founded | Unreachable

  // The list is that of the inner points at which a way back from t to s turns.
  ghost predicate Answer(g: Grid, s: Cell, t: Cell, gridList: seq<int>, way: seq<Cell>, turns: seq<nat>) {
    && Hunted(g, s, t, way) && WayBack(g, way, s, t) && Smooth(g, way, turns)
    && gridList == Flat(PointsOf(way, turns)[1..|turns| - 1])
  }

  // There is only one answer, whatever earlier searches have left in the cache.
  lemma AnswerIsUnique(g: Grid, s: Cell, t: Cell, a: seq<int>, way: seq<Cell>, turns: seq<nat>, b: seq<int>,
                       way': seq<Cell>, turns': seq<nat>)
    requires Answer(g, s, t, a, way, turns) && Answer(g, s, t, b, way', turns')
    ensures a == b
  {
    HuntedOnce(g, s, t, way, way');
    SmoothIsUnique(g, way, turns, turns');
  }

  // They are points of a line from s to t, each linked to the next by one move or by a straight
  // line that is passed; and no other turns would do for this way.
  lemma AnswerIsPolyline(g: Grid, s: Cell, t: Cell, gridList: seq<int>, way: seq<Cell>, turns: seq<nat>,
                         other: seq<nat>)
    requires Answer(g, s, t, gridList, way, turns)
    ensures Polyline(g, PointsOf(way, turns), s, t) && (Smooth(g, way, other) ==> other == turns)
  {
    SmoothIsPolyline(g, way, turns, s, t);
    if Smooth(g, way, other) { SmoothIsUnique(g, way, turns, other); }
  }

  // The stamp is a byte.
  lemma NextStamp(idx: nat)
    requires idx < 256
    ensures (idx + 1) % 256 == if idx < 255 then idx + 1 else 0
  {
  }

  class AStar {
    var idx: nat          // the stamp of the current search, a byte
    var nodeIdx: seq<nat>
    var nodes: seq<Node>

    ghost predicate Valid(g: Grid)
      reads this
    {
      Coherent(g, nodeIdx, nodes) && idx < 256
    }

    // newAStar
    constructor (g: Grid)
      ensures Valid(g) && idx == 0 && nodes == [ZERO]
    {
      idx := 0;
      nodeIdx := seq(CellLength(g), _ => 0);
      nodes := [ZERO];
      new;
      UseNone(nodeIdx);
    }

    method GetNode(i: nat) returns (slot: nat, ok: bool)
      requires i < |nodeIdx|
      modifies this`nodeIdx, this`nodes
      ensures ok == (old(nodeIdx)[i] > 0)
      ensures if ok then slot == old(nodeIdx)[i] && nodeIdx == old(nodeIdx) && nodes == old(nodes)
              else slot == |old(nodes)| && nodeIdx == old(nodeIdx)[i := slot] && nodes == old(nodes) + [ZERO]
    {
      slot := nodeIdx[i];
      if slot > 0 {
        return slot, true;
      }
      slot := |nodes|;
      nodes := nodes + [ZERO];
      nodeIdx := nodeIdx[i := slot];
      return slot, false;
    }

    // The node of the start: the root of the tree, and all there is to explore.
    method Start(g: Grid, ci: nat, s: Cell, t: Cell) returns (root: nat)
      requires Valid(g) && Walled(g) && Inside(g, s) && forall k :: 0 <= k < |nodes| ==> nodes[k].idx != ci
      requires t != s
      modifies this`nodeIdx, this`nodes
      ensures Valid(g) && 0 < root < |nodes| && Pos(nodes[root]) == s
      ensures Searching(g, nodeIdx, nodes, ci, map[root := 0], root, [root], 0)
      ensures Views(g, nodeIdx, nodes, map[root := 0], [root], Begin(s, t))
      ensures !(Inside(g, t) && Seen(g, nodeIdx, map[root := 0], t))
      ensures Stamped(old(nodes), ci) ==> Stamped(nodes, ci)
    {
      ghost var ix, ns := nodeIdx, nodes;
      var i := GridIdx(g, s);
      if nodeIdx[i] > 0 { SameIndex(g, s, Pos(nodes[nodeIdx[i]])); }
      var ok;
      root, ok := GetNode(i);
      if !ok {
        nodes := nodes[root := nodes[root].(X := s.0, Y := s.1)];
      }
      var f := Abs(t.0 - s.0) + Abs(t.1 - s.1);
      nodes := nodes[root := nodes[root].(f := f, g := 0, parent := root, idx := ci)];
      Rooted(g, ix, ns, nodeIdx, nodes, ci, s, t, root);
      ViewBegins(g, nodeIdx, nodes, ci, root, s, t);
    }

    // The node of a free neighbour: it was seen before, or it is written now.
    method Stamp(ci: nat, cur: nat, c: Cell, i: nat, gridG: int, t: Cell) returns (slot: nat, seen: bool, ghost n: Node)
      requires i < |nodeIdx| && cur < |nodes| && nodeIdx[i] < |nodes|
      requires nodeIdx[i] > 0 ==> Pos(nodes[nodeIdx[i]]) == c
      modifies this`nodeIdx, this`nodes
      ensures seen == (old(nodeIdx)[i] > 0 && old(nodes)[old(nodeIdx)[i]].idx == ci)
      ensures seen ==> nodeIdx == old(nodeIdx) && nodes == old(nodes)
      ensures !seen ==> Pos(n) == c && n.idx == ci && n.parent == cur && n.g == old(nodes)[cur].g + gridG
      ensures !seen ==> n.f == n.g + Abs(t.0 - old(nodes)[cur].X) + Abs(t.1 - old(nodes)[cur].Y)
      ensures !seen ==> Writes(old(nodeIdx), old(nodes), nodeIdx, nodes, i, slot, n)
    {
      var curNode := nodes[cur];
      var ok;
      slot, ok := GetNode(i);
      n := nodes[slot];
      if !ok {
        nodes := nodes[slot := nodes[slot].(X := c.0, Y := c.1)];
      } else if nodes[slot].idx == ci {
        return slot, true, n;
      }
      var h := Abs(t.0 - curNode.X) + Abs(t.1 - curNode.Y);
      var g := curNode.g + gridG;
      nodes := nodes[slot := nodes[slot].(parent := cur, g := g, f := g + h, idx := ci)];
      n := nodes[slot];
      seen := false;
    }

    // A free neighbour of the current node joins, if it has not been seen.
    method Join(g: Grid, ci: nat, root: nat, cur: nat, c: Cell, t: Cell, open: seq<nat>, ghost depth: map<nat, nat>,
                ghost h: Hunt)
      returns (open': seq<nat>, joined: bool, ghost depth': map<nat, nat>, ghost h': Hunt)
      requires cur in depth && Searching(g, nodeIdx, nodes, ci, depth, root, open, cur)
      requires Step(g, Pos(nodes[cur]), c) && Inside(g, c) && Views(g, nodeIdx, nodes, depth, open, h)
      modifies this`nodeIdx, this`nodes
      ensures joined == !Seen(g, old(nodeIdx), depth, c)
      ensures Searching(g, nodeIdx, nodes, ci, depth', root, open', cur)
      ensures if joined then |open'| == |open| + 1 &&
              Joined(g, old(nodeIdx), old(nodes), nodeIdx, nodes, ci, depth, depth', root, cur, c)
              else depth' == depth && open' == open && nodeIdx == old(nodeIdx) && nodes == old(nodes)
      ensures IsNoted(g, t, h, old(Pos(nodes[cur])), c, h') && Views(g, nodeIdx, nodes, depth', open', h')
    {
      open', joined, depth', h' := open, false, depth, h;
      var childIdx := GridIdx(g, c);
      if nodeIdx[childIdx] > 0 { SameIndex(g, c, Pos(nodes[nodeIdx[childIdx]])); }
      ghost var ix, ns := nodeIdx, nodes;
      var slot, seen;
      ghost var n;
      slot, seen, n := Stamp(ci, cur, c, childIdx, g.gridG(childIdx), t);
      ViewTells(g, ix, ns, ci, depth, root, open, cur, h, c);
      if seen {
        return;
      }
      joined := true;
      open', depth', h' := Enter(g, ix, ns, nodeIdx, nodes, ci, root, cur, open, slot, n, depth, t, h);
    }

    // One direction from the current node.
    method Try(g: Grid, ci: nat, root: nat, cur: nat, i: nat, t: Cell, open: seq<nat>, ghost depth: map<nat, nat>,
               ghost h: Hunt)
      returns (open': seq<nat>, found: bool, ghost depth': map<nat, nat>)
      requires i < 8 && cur in depth && Searching(g, nodeIdx, nodes, ci, depth, root, open, cur)
      requires Views(g, nodeIdx, nodes, depth, open, h)
      requires 0 <= t.0 < g.width && !(Inside(g, t) && Seen(g, nodeIdx, depth, t))
      modifies this`nodeIdx, this`nodes
      ensures Searching(g, nodeIdx, nodes, ci, depth', root, open', cur) && cur in depth' && root in depth
      ensures found <==> Inside(g, t) && Seen(g, nodeIdx, depth', t)
      ensures Pos(nodes[cur]) == old(Pos(nodes[cur])) && Pos(nodes[root]) == old(Pos(nodes[root]))
      ensures var c := Neighbour(Pos(nodes[cur]), i); Free(g, c) ==> Seen(g, nodeIdx, depth', c)
      ensures forall b :: Seen(g, old(nodeIdx), depth, b) ==> Seen(g, nodeIdx, depth', b)
      ensures (depth' == depth && open' == open) || (|depth'| == |depth| + 1 && |open'| == |open| + 1)
      ensures Views(g, nodeIdx, nodes, depth', open', TryOne(g, t, h, old(Pos(nodes[cur])), i))
      ensures Stamped(old(nodes), ci) ==> Stamped(nodes, ci)
    {
      open', found, depth' := open, false, depth;
      var c := Neighbour(Pos(nodes[cur]), i);
      var childIdx := GridIdx(g, c);
      if childIdx < 0 || childIdx >= CellLength(g) {
        return;
      }
      if g.gridType(childIdx) == 0 {
        return;
      }
      NeighbourIsAdjacent(Pos(nodes[cur]), i);
      StepInside(g, Pos(nodes[cur]), c);
      var joined;
      ghost var h';
      open', joined, depth', h' := Join(g, ci, root, cur, c, t, open, depth, h);
      assert h' == Note(g, t, h, old(Pos(nodes[cur])), c);
      IndexMeans(g, c);
      IndexMeans(g, t);
      found := joined && childIdx == GridIdx(g, t);
    }

    // All eight directions from the current node, until the target is found.
    method Expand(g: Grid, ci: nat, root: nat, cur: nat, t: Cell, open: seq<nat>, ghost depth: map<nat, nat>,
                  ghost h: Hunt)
      returns (open': seq<nat>, found: bool, ghost depth': map<nat, nat>)
      requires cur in depth && Searching(g, nodeIdx, nodes, ci, depth, root, open, cur)
      requires 0 <= t.0 < g.width && !(Inside(g, t) && Seen(g, nodeIdx, depth, t))
      requires Views(g, nodeIdx, nodes, depth, open, h)
      modifies this`nodeIdx, this`nodes
      ensures Views(g, nodeIdx, nodes, depth', open', TryFrom(g, t, h, old(Pos(nodes[cur])), 0))
      ensures Searching(g, nodeIdx, nodes, ci, depth', root, open', cur) && root in depth
      ensures found <==> Inside(g, t) && Seen(g, nodeIdx, depth', t)
      ensures !found ==> Searching(g, nodeIdx, nodes, ci, depth', root, open', 0)
      ensures Pos(nodes[root]) == old(Pos(nodes[root]))
      ensures |open'| - |open| == |depth'| - |depth| >= 0
      ensures Stamped(old(nodes), ci) ==> Stamped(nodes, ci)
    {
      open', found, depth' := open, false, depth;
      RootInTree(g, nodes, ci, depth, root, cur);
      ghost var hi, at := h, Pos(nodes[cur]);
      var i := 0;
      while i < 8
        invariant 0 <= i <= 8 && cur in depth' && Searching(g, nodeIdx, nodes, ci, depth', root, open', cur)
        invariant root < |nodes| && cur < |nodes| && !found && !(Inside(g, t) && Seen(g, nodeIdx, depth', t))
        invariant Pos(nodes[cur]) == old(Pos(nodes[cur])) && Pos(nodes[root]) == old(Pos(nodes[root]))
        invariant Tried(g, nodeIdx, depth', old(Pos(nodes[cur])), i)
        invariant Views(g, nodeIdx, nodes, depth', open', hi) && TryFrom(g, t, hi, at, i) == TryFrom(g, t, h, at, 0)
        invariant |open'| - |open| == |depth'| - |depth| >= 0
        invariant Stamped(old(nodes), ci) ==> Stamped(nodes, ci)
      {
        ghost var ix, before := nodeIdx, depth';
        ViewTells(g, nodeIdx, nodes, ci, depth', root, open', cur, hi, t);
        open', found, depth' := Try(g, ci, root, cur, i, t, open', depth', hi);
        hi := TryOne(g, t, hi, at, i);
        ViewTells(g, nodeIdx, nodes, ci, depth', root, open', cur, hi, t);
        if found {
          return;
        }
        OneMoreTried(g, ix, nodeIdx, before, depth', Pos(nodes[cur]), i);
        i := i + 1;
      }
      AllTried(g, nodeIdx, nodes, ci, depth', root, open', cur);
    }

    // The main loop: open nodes are expanded until the target is found or none is left. It ends
    // with the target seen exactly if it can be reached.
    method Explore(g: Grid, ci: nat, root: nat, t: Cell, first: seq<nat>, ghost first': map<nat, nat>)
      returns (found: bool, ghost depth: map<nat, nat>, ghost left: seq<nat>, ghost n: nat)
      requires Searching(g, nodeIdx, nodes, ci, first', root, first, 0)
      requires root < |nodes| && Views(g, nodeIdx, nodes, first', first, Begin(Pos(nodes[root]), t))
      requires 0 <= t.0 < g.width && root in first' && t != Pos(nodes[root]) && Inside(g, Pos(nodes[root]))
      requires !(Inside(g, t) && Seen(g, nodeIdx, first', t))
      modifies this`nodeIdx, this`nodes
      ensures Coherent(g, nodeIdx, nodes) && Tree(g, nodes, ci, depth, root) &&
              Pos(nodes[root]) == old(Pos(nodes[root]))
      ensures found ==> Inside(g, t) && Seen(g, nodeIdx, depth, t)
      ensures Views(g, nodeIdx, nodes, depth, left, After(g, old(Pos(nodes[root])), t, n))
      ensures found <==> t in After(g, old(Pos(nodes[root])), t, n).marks
      ensures Over(t, After(g, old(Pos(nodes[root])), t, n))
      ensures found <==> Reachable(g, old(Pos(nodes[root])), t)
      ensures Stamped(old(nodes), ci) ==> Stamped(nodes, ci)
    {
      var open := first;
      found, depth, n := false, first', 0;
      ghost var s := Pos(nodes[root]);
      SeenAreFew(g, nodeIdx, nodes, ci, depth, root);
      while open != []
        invariant Searching(g, nodeIdx, nodes, ci, depth, root, open, 0) && root in depth && root < |nodes|
        invariant !found && !(Inside(g, t) && Seen(g, nodeIdx, depth, t)) && Pos(nodes[root]) == old(Pos(nodes[root]))
        invariant |depth| <= CellLength(g) && Views(g, nodeIdx, nodes, depth, open, After(g, s, t, n))
        invariant Stamped(old(nodes), ci) ==> Stamped(nodes, ci)
        decreases 2 * (CellLength(g) - |depth|) + |open|
      {
        var cur := open[0];
        ghost var h := After(g, s, t, n);
        ViewTells(g, nodeIdx, nodes, ci, depth, root, open, 0, h, t);
        ViewPopped(g, nodeIdx, nodes, depth, open, h);
        Popped(g, nodeIdx, nodes, ci, depth, root, open);
        open, found, depth := Expand(g, ci, root, cur, t, open[1..], depth, h.(open := h.open[1..]));
        n, left := n + 1, open;
        ViewTells(g, nodeIdx, nodes, ci, depth, root, open, cur, After(g, s, t, n), t);
        SeenAreFew(g, nodeIdx, nodes, ci, depth, root);
        if found {
          var k := nodeIdx[GridIdx(g, t)];
          FoundIsReachable(g, nodeIdx, nodes, ci, depth, root, t);
          return;
        }
        RootInTree(g, nodes, ci, depth, root, root);
      }
      left := open;
      ViewTells(g, nodeIdx, nodes, ci, depth, root, open, 0, After(g, s, t, n), t);
      ClosedIsUnreachable(g, nodeIdx, nodes, ci, depth, root, t);
    }

    // The part of Search behind the straight line: the tree is grown, and read back.
    method SearchTree(g: Grid, s: Cell, t: Cell)
      returns (found: bool, gridList: seq<int>, ghost way: seq<Cell>, ghost turns: seq<nat>)
      requires Valid(g) && Walled(g) && Inside(g, s) && 0 <= t.0 < g.width && s != t
      requires forall k :: 0 <= k < |nodes| ==> nodes[k].idx != idx
      modifies this`nodeIdx, this`nodes
      ensures Valid(g) && found == Reachable(g, s, t)
      ensures found ==> Answer(g, s, t, gridList, way, turns)
      ensures Stamped(old(nodes), idx) ==> Stamped(nodes, idx)
    {
      gridList, way, turns := [], [], [];
      var ci := idx;
      var root := Start(g, ci, s, t);
      ghost var depth, left, n;
      found, depth, left, n := Explore(g, ci, root, t, [root], map[root := 0]);
      if found {
        gridList, way, turns := ReadBack(g, ci, root, t, depth, left, n);
      }
    }

    method ReadBack(g: Grid, ci: nat, root: nat, t: Cell, ghost depth: map<nat, nat>, ghost left: seq<nat>,
                    ghost n: nat)
      returns (gridList: seq<int>, ghost way: seq<Cell>, ghost turns: seq<nat>)
      requires Valid(g) && Tree(g, nodes, ci, depth, root) && Inside(g, t) && Seen(g, nodeIdx, depth, t)
      requires Pos(nodes[root]) != t && t in After(g, Pos(nodes[root]), t, n).marks
      requires Views(g, nodeIdx, nodes, depth, left, After(g, Pos(nodes[root]), t, n))
      modifies this`nodes
      ensures Valid(g) && root < |old(nodes)| && Answer(g, Pos(old(nodes)[root]), t, gridList, way, turns)
      ensures Stamped(old(nodes), ci) ==> Stamped(nodes, ci)
    {
      ghost var chain := FoundChain(g, nodeIdx, nodes, ci, depth, root, t);
      var end := nodeIdx[GridIdx(g, t)];
      ghost var was := nodes;
      gridList, nodes, way, turns := Rebuild(g, nodes, end, chain);
      ChainFollows(g, nodeIdx, was, depth, left, After(g, Pos(was[root]), t, n), chain, way);
      StaysPut(g, nodeIdx, was, nodes, ci);
    }

    // A search of its own, with the next index.
    method SearchAgain(g: Grid, s: Cell, t: Cell)
      returns (r: ReturnType, gridList: seq<int>, ghost way: seq<Cell>, ghost turns: seq<nat>)
      requires Valid(g) && Walled(g) && Inside(g, s) && 0 <= t.0 < g.width && s != t
      requires forall k :: 0 <= k < |nodes| ==> nodes[k].idx != (idx + 1) % 256
      modifies this
      ensures Valid(g) && r == if Reachable(g, s, t) then Founded else Unreachable
      ensures r == Founded ==> Answer(g, s, t, gridList, way, turns)
      ensures old(idx < 255 && Stamped(nodes, idx)) ==> Stamped(nodes, idx) && idx <= old(idx) + 1
    {
      NextStamp(idx);
      idx := (idx + 1) % 256;
      var found;
      found, gridList, way, turns := SearchTree(g, s, t);
      r := if found then Founded else Unreachable;
    }

    // Search, with the coordinates already rounded. `way` is the way back that was found, and
    // `turns` the places at which it turns.
    method Search(g: Grid, s: Cell, t: Cell)
      returns (r: ReturnType, gridList: seq<int>, ghost way: seq<Cell>, ghost turns: seq<nat>)
      requires Valid(g) && Walled(g) && Inside(g, s)
      requires forall x, y :: g.walkAble(x, y) ==> 0 <= x < g.width
      requires forall k :: 0 <= k < |nodes| ==> nodes[k].idx != (idx + 1) % 256
      modifies this
      ensures Valid(g)
      ensures r == SamePos <==> s == t
      ensures r == Founded <==>
              s != t && g.walkAble(t.0, t.1) && (Through(s.0, s.1, t.0, t.1, g.walkAble) || Reachable(g, s, t))
      ensures r == Founded && Through(s.0, s.1, t.0, t.1, g.walkAble) ==> gridList == []
      ensures r == Founded && !Through(s.0, s.1, t.0, t.1, g.walkAble) ==> Answer(g, s, t, gridList, way, turns)
      ensures old(idx < 255 && Stamped(nodes, idx)) ==> Stamped(nodes, idx) && idx <= old(idx) + 1
    {
      way, turns := [], [];
      if s == t {
        return SamePos, [], way, turns;
      }
      if !g.walkAble(t.0, t.1) {
        return Unreachable, [], way, turns;
      }
      var through := IsThrough(s.0, s.1, t.0, t.1, g.walkAble);
      if through {
        return Founded, [], way, turns;
      }
      r, gridList, way, turns := SearchAgain(g, s, t);
    }
  }
}
