/** The weighted A* search `pathFind` (main.js:158-226).

    Open and closed lists are sequences of node records that the search
    reassigns as the source splices and pushes its arrays. A node's `parent`
    is the index of the parent node in `closed` (-1 for the root's `null`):
    a node is closed once and never changed afterwards, so the index names
    the same record the source's pointer does. The goal callback is the
    datatype `Goal`, and the search is given `fuel` iterations because on an
    unbounded grid it need not stop. */
module Pathfinder {
  import opened Tiles
  import opened Grid
  import opened ChunkSpec
  import opened ChunkStore
  import opened Maybe

  /** The three `condition` callbacks the source passes. */
  datatype Goal =
    | Exact(target: Pos)       // a clicked cell (main.js:660-662)
    | Hunt                     // unexplored or a resource (main.js:389-392)
    | AdjacentTo(target: Pos)  // next to the cell to place on (main.js:640-651)

  datatype Node = Node(pos: Pos, f: int, g: int, h: int, parent: int)

  datatype SearchResult =
    | Found(path: seq<int>)   // direction codes, goal end first
    | Unreachable             // the open list ran dry: `false`
    | OutOfFuel               // the iteration bound ran out first

  function Manhattan(a: Pos, b: Pos): nat {
    Abs(a.x - b.x) + Abs(a.y - b.y)
  }

  /** `condition(x, y)`, given the tile the callback reads at (x, y). */
  predicate Satisfies(goal: Goal, tile: Byte, p: Pos) {
    match goal
    case Exact(t) => p == t
    case Hunt => tile == 0 || IsResource(tile)
    case AdjacentTo(t) => Manhattan(p, t) == 1
  }

  /** An `Enemy` entity within Chebyshev distance 2 of p (main.js:199-201). */
  predicate EnemyNear(entities: seq<Entity>, p: Pos) {
    exists e | e in entities ::
      e.Other? && e.className == EnemyClass && Abs(e.pos.x - p.x) <= 2 && Abs(e.pos.y - p.y) <= 2
  }

  /** The weight of entering cell p (main.js:196-201), or None when the
      search prunes it. */
  ghost function CellWeight(v: Chunks, entities: seq<Entity>, noGrief: bool, p: Pos): (w: Option<nat>)
    requires WellFormed(v)
    ensures w.None? <==> noGrief && !Walkable(ReadTile(v, p.x, p.y))
    ensures w.Some? && EnemyNear(entities, p) ==> w.value == 1000
    ensures w.Some? && !EnemyNear(entities, p) ==> w.value == if Walkable(ReadTile(v, p.x, p.y)) then 1 else 4
  {
    var tile := ReadTile(v, p.x, p.y);
    if !Walkable(tile) && noGrief then None
    else if EnemyNear(entities, p) then Some(1000)
    else if !Walkable(tile) then Some(4)
    else Some(1)
  }

  /** The direction code of the step from a to the adjacent cell b: the
      reconstruction at main.js:178-183 and the approach direction at
      main.js:643-649 both compute it. */
  function DirectionTo(a: Pos, b: Pos): (d: int)
    requires Adjacent(a, b)
    ensures 0 <= d < 4 && Move(a, d) == b
  {
    if a.y < b.y then 2
    else if a.y > b.y then 0
    else if a.x < b.x then 1
    else 3
  }

  predicate ValidCodes(path: seq<int>) {
    forall k | 0 <= k < |path| :: 0 <= path[k] < 4
  }

  /** Where a walker ends after following `path` from `start`, taking the
      codes from the last one to the first, as the walker pops them. */
  function Replay(start: Pos, path: seq<int>): Pos
    requires ValidCodes(path)
  {
    if |path| == 0 then start else Move(Replay(start, path[1..]), path[0])
  }

  /** The total weight of the cells a path enters, or None if it enters a
      pruned cell. */
  ghost function PathCost(v: Chunks, entities: seq<Entity>, noGrief: bool, start: Pos, path: seq<int>): Option<nat>
    requires WellFormed(v) && ValidCodes(path)
  {
    if |path| == 0 then Some(0)
    else
      var rest := PathCost(v, entities, noGrief, start, path[1..]);
      var w := CellWeight(v, entities, noGrief, Replay(start, path));
      if rest.None? || w.None? then None else Some(rest.value + w.value)
  }

  /** The link of node n into `closed`: its parent is an earlier closed node
      (or none), it is adjacent to its parent, and the root is the start. */
  ghost predicate LinkOk(closed: seq<Node>, origin: Pos, n: Node, bound: int)
    requires 0 <= bound <= |closed|
  {
    && -1 <= n.parent < bound
    && (n.parent == -1 ==> n.pos == origin)
    && (n.parent >= 0 ==> Adjacent(closed[n.parent].pos, n.pos))
  }

  ghost predicate Linked(closed: seq<Node>, origin: Pos) {
    forall i {:trigger LinkOk(closed, origin, closed[i], i)} | 0 <= i < |closed| :: LinkOk(closed, origin, closed[i], i)
  }

  /** Node n, linked below `bound`, carries the scores the source gives it:
      the root {f: 0, g: 0, h: 0}; every other node `g` = parent's `g` plus
      the weight of its cell, `h` = Manhattan distance to the target and
      `f` = g + h. */
  ghost predicate NodeOk(v: Chunks, entities: seq<Entity>, noGrief: bool, origin: Pos, target: Pos,
                         closed: seq<Node>, n: Node, bound: int)
    requires WellFormed(v) && 0 <= bound <= |closed|
  {
    && LinkOk(closed, origin, n, bound)
    && n.f == n.g + n.h
    && (n.parent == -1 ==> n.g == 0 && n.h == 0)
    && (n.parent >= 0 ==>
          && n.h == Manhattan(n.pos, target)
          && CellWeight(v, entities, noGrief, n.pos).Some?
          && n.g == closed[n.parent].g + CellWeight(v, entities, noGrief, n.pos).value)
  }

  /** Every node well scored; once the root is closed, no open node is a
      root. */
  ghost predicate Scored(v: Chunks, entities: seq<Entity>, noGrief: bool, origin: Pos, target: Pos,
                         open: seq<Node>, closed: seq<Node>)
    requires WellFormed(v)
  {
    && (forall i {:trigger NodeOk(v, entities, noGrief, origin, target, closed, closed[i], i)} | 0 <= i < |closed| ::
          NodeOk(v, entities, noGrief, origin, target, closed, closed[i], i))
    && (forall j {:trigger NodeOk(v, entities, noGrief, origin, target, closed, open[j], |closed|)} | 0 <= j < |open| ::
          NodeOk(v, entities, noGrief, origin, target, closed, open[j], |closed|))
    && (|closed| > 0 ==> forall j | 0 <= j < |open| :: open[j].parent >= 0)
  }

  /** The closed positions are pairwise distinct, so are the open ones, no
      open position is closed, and before the first pop only the root is
      open. */
  predicate Separate(open: seq<Node>, closed: seq<Node>) {
    && (forall i, i' | 0 <= i < i' < |closed| :: closed[i].pos != closed[i'].pos)
    && (forall j, j' | 0 <= j < j' < |open| :: open[j].pos != open[j'].pos)
    && (forall i, j | 0 <= i < |closed| && 0 <= j < |open| :: closed[i].pos != open[j].pos)
    && (|closed| == 0 ==> |open| == 1)
  }

  /** The search invariant. */
  ghost predicate SearchOk(v: Chunks, entities: seq<Entity>, noGrief: bool, origin: Pos, target: Pos,
                           open: seq<Node>, closed: seq<Node>)
    requires WellFormed(v)
  {
    Scored(v, entities, noGrief, origin, target, open, closed) && Separate(open, closed)
  }

  /** Scored closed nodes are linked. */
  lemma ScoredLinked(v: Chunks, entities: seq<Entity>, noGrief: bool, origin: Pos, target: Pos, closed: seq<Node>)
    requires WellFormed(v)
    requires forall k {:trigger NodeOk(v, entities, noGrief, origin, target, closed, closed[k], k)} | 0 <= k < |closed| ::
               NodeOk(v, entities, noGrief, origin, target, closed, closed[k], k)
    ensures Linked(closed, origin)
  {
    forall i | 0 <= i < |closed|
      ensures LinkOk(closed, origin, closed[i], i)
    {
      assert NodeOk(v, entities, noGrief, origin, target, closed, closed[i], i);
    }
  }

  /** Appending to `closed` keeps what a node's scores say about the
      nodes already there. */
  lemma NodeOkExtend(v: Chunks, entities: seq<Entity>, noGrief: bool, origin: Pos, target: Pos,
                     closed: seq<Node>, x: Node, n: Node, bound: int)
    requires WellFormed(v) && 0 <= bound <= |closed|
    requires NodeOk(v, entities, noGrief, origin, target, closed, n, bound)
    ensures NodeOk(v, entities, noGrief, origin, target, closed + [x], n, bound)
    ensures NodeOk(v, entities, noGrief, origin, target, closed + [x], n, bound + 1)
  {
    if n.parent >= 0 {
      assert (closed + [x])[n.parent] == closed[n.parent];
    }
  }

  /** Moving the best open node to `closed` (main.js:172-173) keeps the
      search invariant. */
  lemma CloseBest(v: Chunks, entities: seq<Entity>, noGrief: bool, origin: Pos, target: Pos,
                  open: seq<Node>, closed: seq<Node>, b: int)
    requires WellFormed(v) && 0 <= b < |open|
    requires SearchOk(v, entities, noGrief, origin, target, open, closed)
    ensures SearchOk(v, entities, noGrief, origin, target, RemoveAt(open, b), closed + [open[b]])
  {
    CloseScored(v, entities, noGrief, origin, target, open, closed, b);
    CloseSeparate(open, closed, b);
  }

  lemma CloseScored(v: Chunks, entities: seq<Entity>, noGrief: bool, origin: Pos, target: Pos,
                    open: seq<Node>, closed: seq<Node>, b: int)
    requires WellFormed(v) && 0 <= b < |open|
    requires Scored(v, entities, noGrief, origin, target, open, closed)
    requires |closed| == 0 ==> |open| == 1
    ensures Scored(v, entities, noGrief, origin, target, RemoveAt(open, b), closed + [open[b]])
  {
    CloseScoredClosed(v, entities, noGrief, origin, target, open, closed, b);
    if |closed| > 0 {
      CloseScoredOpen(v, entities, noGrief, origin, target, open, closed, b);
    } else {
      assert |RemoveAt(open, b)| == 0;
    }
  }

  lemma CloseScoredClosed(v: Chunks, entities: seq<Entity>, noGrief: bool, origin: Pos, target: Pos,
                          open: seq<Node>, closed: seq<Node>, b: int)
    requires WellFormed(v) && 0 <= b < |open|
    requires Scored(v, entities, noGrief, origin, target, open, closed)
    ensures var closed' := closed + [open[b]];
            forall i {:trigger NodeOk(v, entities, noGrief, origin, target, closed', closed'[i], i)} | 0 <= i < |closed'| ::
              NodeOk(v, entities, noGrief, origin, target, closed', closed'[i], i)
  {
    var closed' := closed + [open[b]];
    forall i | 0 <= i < |closed'|
      ensures NodeOk(v, entities, noGrief, origin, target, closed', closed'[i], i)
    {
      if i < |closed| {
        assert closed'[i] == closed[i];
        assert NodeOk(v, entities, noGrief, origin, target, closed, closed[i], i);
        NodeOkExtend(v, entities, noGrief, origin, target, closed, open[b], closed[i], i);
      } else {
        assert closed'[i] == open[b];
        assert NodeOk(v, entities, noGrief, origin, target, closed, open[b], |closed|);
        NodeOkExtend(v, entities, noGrief, origin, target, closed, open[b], open[b], |closed|);
      }
    }
  }

  lemma CloseScoredOpen(v: Chunks, entities: seq<Entity>, noGrief: bool, origin: Pos, target: Pos,
                        open: seq<Node>, closed: seq<Node>, b: int)
    requires WellFormed(v) && 0 <= b < |open| && |closed| > 0
    requires Scored(v, entities, noGrief, origin, target, open, closed)
    ensures var open', closed' := RemoveAt(open, b), closed + [open[b]];
            forall j {:trigger NodeOk(v, entities, noGrief, origin, target, closed', open'[j], |closed'|)} | 0 <= j < |open'| ::
              NodeOk(v, entities, noGrief, origin, target, closed', open'[j], |closed'|) && open'[j].parent >= 0
  {
    var open', closed' := RemoveAt(open, b), closed + [open[b]];
    forall j | 0 <= j < |open'|
      ensures NodeOk(v, entities, noGrief, origin, target, closed', open'[j], |closed'|)
      ensures open'[j].parent >= 0
    {
      var j0 := if j < b then j else j + 1;
      assert open'[j] == open[j0];
      assert NodeOk(v, entities, noGrief, origin, target, closed, open[j0], |closed|);
      NodeOkExtend(v, entities, noGrief, origin, target, closed, open[b], open[j0], |closed|);
    }
  }

  lemma CloseSeparate(open: seq<Node>, closed: seq<Node>, b: int)
    requires 0 <= b < |open|
    requires Separate(open, closed)
    ensures Separate(RemoveAt(open, b), closed + [open[b]])
  {
    var open', closed' := RemoveAt(open, b), closed + [open[b]];
    forall i, i' | 0 <= i < i' < |closed'|
      ensures closed'[i].pos != closed'[i'].pos
    {
      if i' < |closed| {
        assert closed'[i] == closed[i] && closed'[i'] == closed[i'];
      } else {
        assert closed'[i] == closed[i] && closed'[i'] == open[b];
      }
    }
    forall j, j' | 0 <= j < j' < |open'|
      ensures open'[j].pos != open'[j'].pos
    {
      var j0 := if j < b then j else j + 1;
      var j0' := if j' < b then j' else j' + 1;
      assert open'[j] == open[j0] && open'[j'] == open[j0'];
    }
    forall i, j | 0 <= i < |closed'| && 0 <= j < |open'|
      ensures closed'[i].pos != open'[j].pos
    {
      var j0 := if j < b then j else j + 1;
      assert open'[j] == open[j0];
      if i < |closed| {
        assert closed'[i] == closed[i];
      } else {
        assert closed'[i] == open[b];
      }
    }
  }

  /** The codes the reconstruction (main.js:176-187) collects walking from
      closed node i up to the root. */
  ghost function ChainPath(closed: seq<Node>, origin: Pos, i: int): (path: seq<int>)
    requires Linked(closed, origin) && 0 <= i < |closed|
    ensures ValidCodes(path)
    decreases i
  {
    var n := closed[i];
    assert LinkOk(closed, origin, n, i);
    if n.parent == -1 then []
    else [DirectionTo(closed[n.parent].pos, n.pos)] + ChainPath(closed, origin, n.parent)
  }

  /** Following the chain of closed node i from the start ends on node i. */
  lemma {:induction false} ChainReplay(closed: seq<Node>, origin: Pos, i: int)
    requires Linked(closed, origin) && 0 <= i < |closed|
    ensures Replay(origin, ChainPath(closed, origin, i)) == closed[i].pos
    decreases i
  {
    var n := closed[i];
    assert LinkOk(closed, origin, n, i);
    if n.parent != -1 {
      var path := ChainPath(closed, origin, i);
      ChainReplay(closed, origin, n.parent);
      assert path[1..] == ChainPath(closed, origin, n.parent);
    }
  }

  /** Every closed node carries the scores the source gives it. */
  ghost predicate ClosedOk(v: Chunks, entities: seq<Entity>, noGrief: bool, origin: Pos, target: Pos,
                           closed: seq<Node>)
    requires WellFormed(v)
  {
    forall k {:trigger NodeOk(v, entities, noGrief, origin, target, closed, closed[k], k)} | 0 <= k < |closed| ::
      NodeOk(v, entities, noGrief, origin, target, closed, closed[k], k)
  }

  /** The score facts of one closed node that is not the root. */
  lemma ClosedStep(v: Chunks, entities: seq<Entity>, noGrief: bool, origin: Pos, target: Pos,
                   closed: seq<Node>, i: int)
    requires WellFormed(v) && ClosedOk(v, entities, noGrief, origin, target, closed)
    requires 0 <= i < |closed|
    ensures closed[i].parent == -1 ==> closed[i].g == 0
    ensures closed[i].parent != -1 ==>
              && 0 <= closed[i].parent < i
              && CellWeight(v, entities, noGrief, closed[i].pos).Some?
              && closed[i].g == closed[closed[i].parent].g + CellWeight(v, entities, noGrief, closed[i].pos).value
  {
    assert NodeOk(v, entities, noGrief, origin, target, closed, closed[i], i);
  }

  /** The cost of the chain of closed node i is that node's `g`. */
  lemma {:induction false} ChainCost(v: Chunks, entities: seq<Entity>, noGrief: bool, origin: Pos, target: Pos,
                                     closed: seq<Node>, i: int)
    requires WellFormed(v) && Linked(closed, origin) && 0 <= i < |closed|
    requires ClosedOk(v, entities, noGrief, origin, target, closed)
    ensures PathCost(v, entities, noGrief, origin, ChainPath(closed, origin, i)) == Some(closed[i].g)
    decreases i
  {
    ClosedStep(v, entities, noGrief, origin, target, closed, i);
    var n := closed[i];
    if n.parent != -1 {
      var parent := n.parent;
      ChainUnfold(closed, origin, i);
      ChainCost(v, entities, noGrief, origin, target, closed, parent);
      ChainReplay(closed, origin, parent);
      CostStep(v, entities, noGrief, origin, ChainPath(closed, origin, parent), closed[parent].pos, n.pos,
               closed[parent].g);
    } else {
      assert LinkOk(closed, origin, n, i);
    }
  }

  /** One link of the chain: node i's chain is its parent's with one step
      in front. */
  lemma ChainUnfold(closed: seq<Node>, origin: Pos, i: int)
    requires Linked(closed, origin) && 0 <= i < |closed| && closed[i].parent != -1
    ensures 0 <= closed[i].parent < i
    ensures Adjacent(closed[closed[i].parent].pos, closed[i].pos)
    ensures ChainPath(closed, origin, i)
            == [DirectionTo(closed[closed[i].parent].pos, closed[i].pos)] + ChainPath(closed, origin, closed[i].parent)
  {
    assert LinkOk(closed, origin, closed[i], i);
  }

  /** One step from p to the adjacent cell q adds q's weight to the cost. */
  lemma CostStep(v: Chunks, entities: seq<Entity>, noGrief: bool, start: Pos, rest: seq<int>,
                 p: Pos, q: Pos, g: nat)
    requires WellFormed(v) && ValidCodes(rest) && Adjacent(p, q)
    requires Replay(start, rest) == p && PathCost(v, entities, noGrief, start, rest) == Some(g)
    requires CellWeight(v, entities, noGrief, q).Some?
    ensures PathCost(v, entities, noGrief, start, [DirectionTo(p, q)] + rest)
            == Some(g + CellWeight(v, entities, noGrief, q).value)
  {
    PathCostCons(v, entities, noGrief, start, DirectionTo(p, q), rest);
  }

  /** The cost of a path with one more step in front. */
  lemma PathCostCons(v: Chunks, entities: seq<Entity>, noGrief: bool, start: Pos, d: int, rest: seq<int>)
    requires WellFormed(v) && ValidCodes(rest) && 0 <= d < 4
    ensures ValidCodes([d] + rest)
    ensures var c := PathCost(v, entities, noGrief, start, rest);
            var w := CellWeight(v, entities, noGrief, Move(Replay(start, rest), d));
            PathCost(v, entities, noGrief, start, [d] + rest) == if c.None? || w.None? then None else Some(c.value + w.value)
  {
    assert ([d] + rest)[1..] == rest;
  }

  /** A path with a cost enters only cells the search did not prune; with
      `noGrief` those are walkable cells (main.js:197). */
  lemma {:induction false} CostedPathWalkable(v: Chunks, entities: seq<Entity>, start: Pos, path: seq<int>)
    requires WellFormed(v) && ValidCodes(path)
    requires PathCost(v, entities, true, start, path).Some?
    ensures forall k | 0 <= k < |path| ::
              var p := Replay(start, path[k..]); Walkable(ReadTile(v, p.x, p.y))
  {
    if |path| > 0 {
      CostedPathWalkable(v, entities, start, path[1..]);
      forall k | 0 <= k < |path|
        ensures var p := Replay(start, path[k..]); Walkable(ReadTile(v, p.x, p.y))
      {
        if k > 0 {
          assert path[k..] == path[1..][k - 1..];
        } else {
          assert path[k..] == path;
        }
      }
    }
  }

  /** Every entry of a costed path weighs at least 1, so the cost is at
      least the number of steps. */
  lemma {:induction false} CostAtLeastLength(v: Chunks, entities: seq<Entity>, noGrief: bool, start: Pos, path: seq<int>)
    requires WellFormed(v) && ValidCodes(path)
    requires PathCost(v, entities, noGrief, start, path).Some?
    ensures PathCost(v, entities, noGrief, start, path).value >= |path|
  {
    if |path| > 0 {
      CostAtLeastLength(v, entities, noGrief, start, path[1..]);
    }
  }

  /** Index b holds a node of least `f`, and no earlier node has that `f`:
      the node the scan at main.js:165-170 picks. */
  predicate FirstLeast(open: seq<Node>, b: int) {
    && 0 <= b < |open|
    && (forall j | 0 <= j < |open| :: open[b].f <= open[j].f)
    && (forall j | 0 <= j < b :: open[b].f < open[j].f)
  }

  /** The tie rule leaves no choice: one index at most is the first of
      least `f`. */
  lemma FirstLeastUnique(open: seq<Node>, b1: int, b2: int)
    requires FirstLeast(open, b1) && FirstLeast(open, b2)
    ensures b1 == b2
  {
    assert open[b1].f == open[b2].f;
  }

  /** The scan at main.js:165-170: the first node of least `f`. */
  method BestIndex(open: seq<Node>) returns (best: int)
    requires |open| > 0
    ensures FirstLeast(open, best)
  {
    best := 0;
    for i := 0 to |open|
      invariant 0 <= best < |open| && best <= i
      invariant forall j | 0 <= j < i :: open[best].f <= open[j].f
      invariant forall j | 0 <= j < best :: open[best].f < open[j].f
    {
      if open[i].f >= open[best].f {
        continue;
      }
      best := i;
    }
  }

  /** `nodes.find(n => n.x === p.x && n.y === p.y)`, as an index: the first
      node at p, or -1 when there is none. */
  method FindNode(nodes: seq<Node>, p: Pos) returns (k: int)
    ensures -1 <= k < |nodes|
    ensures k == -1 <==> forall j | 0 <= j < |nodes| :: nodes[j].pos != p
    ensures k >= 0 ==> nodes[k].pos == p && forall j | 0 <= j < k :: nodes[j].pos != p
  {
    k := 0;
    while k < |nodes|
      invariant 0 <= k <= |nodes|
      invariant forall j | 0 <= j < k :: nodes[j].pos != p
    {
      if nodes[k].pos == p {
        return;
      }
      k := k + 1;
    }
    k := -1;
  }

  /** `open.splice(index, 1)`. */
  function RemoveAt(s: seq<Node>, index: int): (r: seq<Node>)
    requires 0 <= index < |s|
    ensures |r| == |s| - 1
    ensures forall j | 0 <= j < |r| :: r[j] == if j < index then s[j] else s[j + 1]
  {
    s[..index] + s[index + 1..]
  }

  /** The neighbour offsets in the order the source visits them (main.js:190). */
  function NeighborOffset(k: int): (o: Pos)
    requires 0 <= k < 4
    ensures Abs(o.x) + Abs(o.y) == 1
  {
    if k == 0 then Pos(-1, 0)
    else if k == 1 then Pos(1, 0)
    else if k == 2 then Pos(0, -1)
    else Pos(0, 1)
  }

  /** The neighbour of p visited k-th (main.js:190-192). */
  function Neighbor(p: Pos, k: int): (q: Pos)
    requires 0 <= k < 4
    ensures Adjacent(p, q)
  {
    var o := NeighborOffset(k);
    Pos(p.x + o.x, p.y + o.y)
  }

  /** An open node reached again (main.js:206-211): a cheaper route
      replaces its `g` and `f` and re-parents it; its `h` stays. */
  function Lower(n: Node, g: int, h: int, parent: int): (m: Node)
    ensures m.pos == n.pos && m.h == n.h && m.g <= n.g
    ensures m != n <==> g < n.g
  {
    if g < n.g then n.(g := g, f := g + h, parent := parent) else n
  }

  /** Every open node at p offered the route of score g. */
  function LowerAt(open: seq<Node>, p: Pos, g: int, h: int, parent: int): (r: seq<Node>)
    ensures |r| == |open|
  {
    seq(|open|, j requires 0 <= j < |open| => if open[j].pos == p then Lower(open[j], g, h, parent) else open[j])
  }

  /** With positions distinct, lowering the node found at p is lowering
      every node at p. */
  lemma LowerOnly(open: seq<Node>, e: int, p: Pos, g: int, h: int, parent: int)
    requires 0 <= e < |open| && open[e].pos == p
    requires forall j, j' | 0 <= j < j' < |open| :: open[j].pos != open[j'].pos
    ensures open[e := Lower(open[e], g, h, parent)] == LowerAt(open, p, g, h, parent)
  {
    var r := LowerAt(open, p, g, h, parent);
    forall j | 0 <= j < |open|
      ensures open[e := Lower(open[e], g, h, parent)][j] == r[j]
    {
      if j != e {
        assert open[j].pos != p by {
          if j < e {
            assert open[j].pos != open[e].pos;
          } else {
            assert open[e].pos != open[j].pos;
          }
        }
      }
    }
  }

  /** The open list after the visit of p from the last closed node
      (main.js:191-222): unchanged if p is closed or pruned; otherwise a
      node is pushed at p when none is open there, or the open node at p is
      offered the new route. */
  ghost function RelaxSpec(v: Chunks, entities: seq<Entity>, noGrief: bool, target: Pos,
                           open: seq<Node>, closed: seq<Node>, p: Pos): (r: seq<Node>)
    requires WellFormed(v) && |closed| > 0
    ensures |r| == |open| || (|r| == |open| + 1 && r[..|open|] == open && r[|open|].pos == p)
    ensures forall j | 0 <= j < |open| :: r[j].pos == open[j].pos && r[j].g <= open[j].g
    ensures forall j | 0 <= j < |open| && open[j].pos != p :: r[j] == open[j]
  {
    if exists i | 0 <= i < |closed| :: closed[i].pos == p then open
    else
      var w := CellWeight(v, entities, noGrief, p);
      if w.None? then open
      else
        var g := closed[|closed| - 1].g + w.value;
        var h := Manhattan(p, target);
        if forall j | 0 <= j < |open| :: open[j].pos != p then open + [Node(p, g + h, g, h, |closed| - 1)]
        else LowerAt(open, p, g, h, |closed| - 1)
  }

  /** The open list after the first n neighbour visits of the last closed
      node, in the source's order. */
  ghost function RelaxAll(v: Chunks, entities: seq<Entity>, noGrief: bool, target: Pos,
                          open: seq<Node>, closed: seq<Node>, n: nat): (r: seq<Node>)
    requires WellFormed(v) && |closed| > 0 && n <= 4
    ensures |r| >= |open|
    ensures forall j | 0 <= j < |open| :: r[j].pos == open[j].pos && r[j].g <= open[j].g
    decreases n
  {
    if n == 0 then open
    else
      RelaxSpec(v, entities, noGrief, target, RelaxAll(v, entities, noGrief, target, open, closed, n - 1),
                closed, Neighbor(closed[|closed| - 1].pos, n - 1))
  }

  /** One more visit extends the fold by one relaxation. */
  lemma RelaxAllStep(v: Chunks, entities: seq<Entity>, noGrief: bool, target: Pos,
                     open: seq<Node>, closed: seq<Node>, k: nat)
    requires WellFormed(v) && |closed| > 0 && k < 4
    ensures RelaxAll(v, entities, noGrief, target, open, closed, k + 1)
            == RelaxSpec(v, entities, noGrief, target, RelaxAll(v, entities, noGrief, target, open, closed, k),
                         closed, Neighbor(closed[|closed| - 1].pos, k))
  {
  }

  /** One neighbour visit of the forEach body (main.js:191-222): skip a
      closed cell or, with `noGrief`, an unwalkable one; weigh the cell;
      lower the score of an open node at p when the new route is cheaper,
      or open a new node there. The parent is the last closed node. */
  method Relax(store: Store, entities: seq<Entity>, noGrief: bool, origin: Pos, target: Pos,
               open: seq<Node>, closed: seq<Node>, p: Pos) returns (open': seq<Node>)
    requires store.Valid() && |closed| > 0
    requires SearchOk(store.View(), entities, noGrief, origin, target, open, closed)
    requires Adjacent(closed[|closed| - 1].pos, p)
    ensures SearchOk(store.View(), entities, noGrief, origin, target, open', closed)
    ensures open' == RelaxSpec(store.View(), entities, noGrief, target, open, closed, p)
    ensures (exists i | 0 <= i < |closed| :: closed[i].pos == p) ==> open' == open
    ensures noGrief && !Walkable(store.GetTile(p.x, p.y)) ==> open' == open
    ensures |open'| == |open| || (|open'| == |open| + 1 && open'[|open|].pos == p)
    ensures forall j | 0 <= j < |open| :: open'[j].pos == open[j].pos && open'[j].g <= open[j].g
    ensures forall j | 0 <= j < |open| && open[j].pos != p :: open'[j] == open[j]
  {
    ghost var v := store.View();
    var c := FindNode(closed, p);
    if c >= 0 {
      SpecClosed(v, entities, noGrief, target, open, closed, p, c);
      return open;
    }
    var tile := store.GetTile(p.x, p.y);
    var weight := 1;
    if !Walkable(tile) {
      if noGrief {
        SpecPruned(v, entities, noGrief, target, open, closed, p);
        return open;
      } else {
        weight := 4;
      }
    }
    if EnemyNear(entities, p) {
      weight := 1000;
    }
    open' := Offer(v, entities, noGrief, origin, target, open, closed, p, weight);
  }

  /** The rest of the visit once p is known to be open to the search with
      weight `weight` (main.js:203-221): lower the open node at p when the
      new route is cheaper, or push a new node. */
  method Offer(ghost v: Chunks, entities: seq<Entity>, noGrief: bool, origin: Pos, target: Pos,
               open: seq<Node>, closed: seq<Node>, p: Pos, weight: int) returns (open': seq<Node>)
    requires WellFormed(v) && |closed| > 0
    requires SearchOk(v, entities, noGrief, origin, target, open, closed)
    requires Adjacent(closed[|closed| - 1].pos, p)
    requires forall i | 0 <= i < |closed| :: closed[i].pos != p
    requires CellWeight(v, entities, noGrief, p) == Some(weight)
    ensures SearchOk(v, entities, noGrief, origin, target, open', closed)
    ensures open' == RelaxSpec(v, entities, noGrief, target, open, closed, p)
  {
    var best := closed[|closed| - 1];
    var e := FindNode(open, p);
    var g := best.g + weight;
    var h := Abs(p.x - target.x) + Abs(p.y - target.y);
    ghost var scored := Node(p, g + h, g, h, |closed| - 1);
    ScoreStep(v, entities, noGrief, origin, target, closed, p, weight);
    SpecOffered(v, entities, noGrief, target, open, closed, p, weight);
    if e >= 0 {
      assert NodeOk(v, entities, noGrief, origin, target, closed, open[e], |closed|);
      LowerOnly(open, e, p, g, h, |closed| - 1);
      if g < open[e].g {
        var lowered := open[e].(g := g, f := g + h, parent := |closed| - 1);
        assert lowered == scored;
        ReplaceKeeps(v, entities, noGrief, origin, target, open, closed, e, lowered);
        open' := open[e := lowered];
      } else {
        open' := open;
      }
    } else {
      var newNode := Node(p, g + h, g, h, |closed| - 1);
      PushKeeps(v, entities, noGrief, origin, target, open, closed, newNode);
      open' := open + [newNode];
    }
  }

  /** A closed position leaves the open list as it is (main.js:193). */
  lemma SpecClosed(v: Chunks, entities: seq<Entity>, noGrief: bool, target: Pos,
                   open: seq<Node>, closed: seq<Node>, p: Pos, c: int)
    requires WellFormed(v) && 0 <= c < |closed| && closed[c].pos == p
    ensures RelaxSpec(v, entities, noGrief, target, open, closed, p) == open
  {
  }

  /** So does a pruned one (main.js:197). */
  lemma SpecPruned(v: Chunks, entities: seq<Entity>, noGrief: bool, target: Pos,
                   open: seq<Node>, closed: seq<Node>, p: Pos)
    requires WellFormed(v) && |closed| > 0
    requires noGrief && !Walkable(ReadTile(v, p.x, p.y))
    ensures RelaxSpec(v, entities, noGrief, target, open, closed, p) == open
  {
  }

  /** An open, unpruned position gets the new route. */
  lemma SpecOffered(v: Chunks, entities: seq<Entity>, noGrief: bool, target: Pos,
                    open: seq<Node>, closed: seq<Node>, p: Pos, weight: int)
    requires WellFormed(v) && |closed| > 0
    requires forall i | 0 <= i < |closed| :: closed[i].pos != p
    requires CellWeight(v, entities, noGrief, p) == Some(weight)
    ensures var g := closed[|closed| - 1].g + weight;
            var h := Manhattan(p, target);
            RelaxSpec(v, entities, noGrief, target, open, closed, p)
            == if forall j | 0 <= j < |open| :: open[j].pos != p then open + [Node(p, g + h, g, h, |closed| - 1)]
               else LowerAt(open, p, g, h, |closed| - 1)
  {
  }

  /** A node at p reached from the last closed node, with that node's `g`
      plus the weight of p and the Manhattan distance to the target, is
      well scored. */
  lemma ScoreStep(v: Chunks, entities: seq<Entity>, noGrief: bool, origin: Pos, target: Pos,
                  closed: seq<Node>, p: Pos, weight: int)
    requires WellFormed(v) && |closed| > 0
    requires Adjacent(closed[|closed| - 1].pos, p)
    requires CellWeight(v, entities, noGrief, p) == Some(weight)
    ensures var g := closed[|closed| - 1].g + weight;
            var h := Manhattan(p, target);
            NodeOk(v, entities, noGrief, origin, target, closed, Node(p, g + h, g, h, |closed| - 1), |closed|)
  {
  }

  /** Rescoring the open node at index e keeps the search invariant. */
  lemma ReplaceKeeps(v: Chunks, entities: seq<Entity>, noGrief: bool, origin: Pos, target: Pos,
                     open: seq<Node>, closed: seq<Node>, e: int, n: Node)
    requires WellFormed(v) && |closed| > 0 && 0 <= e < |open|
    requires SearchOk(v, entities, noGrief, origin, target, open, closed)
    requires NodeOk(v, entities, noGrief, origin, target, closed, n, |closed|)
    requires n.pos == open[e].pos && n.parent >= 0
    ensures SearchOk(v, entities, noGrief, origin, target, open[e := n], closed)
  {
    var open' := open[e := n];
    forall j | 0 <= j < |open'|
      ensures NodeOk(v, entities, noGrief, origin, target, closed, open'[j], |closed|)
    {
      if j != e {
        assert open'[j] == open[j];
        assert NodeOk(v, entities, noGrief, origin, target, closed, open[j], |closed|);
      }
    }
    assert forall j | 0 <= j < |open'| :: open'[j].pos == open[j].pos;
  }

  /** Opening a new node at a position neither open nor closed keeps the
      search invariant. */
  lemma PushKeeps(v: Chunks, entities: seq<Entity>, noGrief: bool, origin: Pos, target: Pos,
                  open: seq<Node>, closed: seq<Node>, n: Node)
    requires WellFormed(v) && |closed| > 0
    requires SearchOk(v, entities, noGrief, origin, target, open, closed)
    requires NodeOk(v, entities, noGrief, origin, target, closed, n, |closed|)
    requires n.parent >= 0
    requires forall i | 0 <= i < |closed| :: closed[i].pos != n.pos
    requires forall j | 0 <= j < |open| :: open[j].pos != n.pos
    ensures SearchOk(v, entities, noGrief, origin, target, open + [n], closed)
  {
    var open' := open + [n];
    forall j | 0 <= j < |open'|
      ensures NodeOk(v, entities, noGrief, origin, target, closed, open'[j], |closed|)
    {
      if j < |open| {
        assert open'[j] == open[j];
        assert NodeOk(v, entities, noGrief, origin, target, closed, open[j], |closed|);
      }
    }
  }

  /** The reconstruction loop (main.js:176-187). */
  method Reconstruct(closed: seq<Node>, ghost origin: Pos, i: int) returns (path: seq<int>)
    requires Linked(closed, origin) && 0 <= i < |closed|
    ensures path == ChainPath(closed, origin, i)
  {
    path := [];
    var cur := i;
    while closed[cur].parent != -1
      invariant 0 <= cur < |closed|
      invariant path + ChainPath(closed, origin, cur) == ChainPath(closed, origin, i)
      decreases cur
    {
      assert LinkOk(closed, origin, closed[cur], cur);
      var parent := closed[cur].parent;
      var dir := DirectionTo(closed[parent].pos, closed[cur].pos);
      assert ChainPath(closed, origin, cur) == [dir] + ChainPath(closed, origin, parent);
      path := path + [dir];
      cur := parent;
    }
  }

  /** What a path found by the search guarantees: codes 0..3 only; replayed
      from the origin it ends on a cell meeting the goal; it has a cost (it
      enters no pruned cell); with `noGrief` every cell it enters is
      walkable. */
  ghost predicate Leads(v: Chunks, entities: seq<Entity>, noGrief: bool, origin: Pos, goal: Goal, path: seq<int>)
    requires WellFormed(v)
  {
    && ValidCodes(path)
    && (var end := Replay(origin, path); Satisfies(goal, ReadTile(v, end.x, end.y), end))
    && PathCost(v, entities, noGrief, origin, path).Some?
    && (noGrief ==>
          forall k | 0 <= k < |path| :: var p := Replay(origin, path[k..]); Walkable(ReadTile(v, p.x, p.y)))
  }

  /** The chain of a closed node that meets the goal leads there. */
  lemma ChainLeads(v: Chunks, entities: seq<Entity>, noGrief: bool, origin: Pos, target: Pos, goal: Goal,
                   open: seq<Node>, closed: seq<Node>)
    requires WellFormed(v) && |closed| > 0
    requires Scored(v, entities, noGrief, origin, target, open, closed)
    requires var n := closed[|closed| - 1]; Satisfies(goal, ReadTile(v, n.pos.x, n.pos.y), n.pos)
    ensures Linked(closed, origin)
    ensures Leads(v, entities, noGrief, origin, goal, ChainPath(closed, origin, |closed| - 1))
  {
    var i := |closed| - 1;
    ScoredLinked(v, entities, noGrief, origin, target, closed);
    var path := ChainPath(closed, origin, i);
    ChainReplay(closed, origin, i);
    ChainCost(v, entities, noGrief, origin, target, closed, i);
    if noGrief {
      CostedPathWalkable(v, entities, origin, path);
    }
  }

  /** The neighbour visits of one expansion (main.js:190-223), in the
      source's order. */
  method Expand(store: Store, entities: seq<Entity>, noGrief: bool, origin: Pos, target: Pos,
                open: seq<Node>, closed: seq<Node>) returns (open': seq<Node>)
    requires store.Valid() && |closed| > 0
    requires SearchOk(store.View(), entities, noGrief, origin, target, open, closed)
    ensures SearchOk(store.View(), entities, noGrief, origin, target, open', closed)
    ensures |open'| >= |open|
    ensures open' == RelaxAll(store.View(), entities, noGrief, target, open, closed, 4)
  {
    open' := open;
    for k := 0 to 4
      invariant SearchOk(store.View(), entities, noGrief, origin, target, open', closed)
      invariant open' == RelaxAll(store.View(), entities, noGrief, target, open, closed, k)
    {
      open' := VisitNext(store, entities, noGrief, origin, target, open, open', closed, k);
    }
  }

  /** Visit k of the forEach (main.js:190-222): the neighbour of the last
      closed node at offset k. */
  method VisitNext(store: Store, entities: seq<Entity>, noGrief: bool, origin: Pos, target: Pos,
                   open0: seq<Node>, open: seq<Node>, closed: seq<Node>, k: nat) returns (open': seq<Node>)
    requires store.Valid() && |closed| > 0 && k < 4
    requires SearchOk(store.View(), entities, noGrief, origin, target, open, closed)
    requires open == RelaxAll(store.View(), entities, noGrief, target, open0, closed, k)
    ensures SearchOk(store.View(), entities, noGrief, origin, target, open', closed)
    ensures open' == RelaxAll(store.View(), entities, noGrief, target, open0, closed, k + 1)
  {
    RelaxAllStep(store.View(), entities, noGrief, target, open0, closed, k);
    open' := Relax(store, entities, noGrief, origin, target, open, closed, Neighbor(closed[|closed| - 1].pos, k));
  }

  /** One pass of the search loop (main.js:165-223): close the best open
      node; if it meets the goal, return the path to it, otherwise expand
      it. */
  method Iterate(store: Store, entities: seq<Entity>, origin: Pos, target: Pos, goal: Goal, noGrief: bool,
                 open: seq<Node>, closed: seq<Node>)
    returns (chosen: int, open': seq<Node>, closed': seq<Node>, found: Option<seq<int>>)
    requires store.Valid() && |open| > 0
    requires SearchOk(store.View(), entities, noGrief, origin, target, open, closed)
    ensures FirstLeast(open, chosen) && closed' == closed + [open[chosen]]
    ensures found.Some? <==> Satisfies(goal, ReadTile(store.View(), open[chosen].pos.x, open[chosen].pos.y), open[chosen].pos)
    ensures found.Some? ==>
              && Linked(closed', origin)
              && found.value == ChainPath(closed', origin, |closed'| - 1)
              && Leads(store.View(), entities, noGrief, origin, goal, found.value)
    ensures found.None? ==>
              && open' == RelaxAll(store.View(), entities, noGrief, target, RemoveAt(open, chosen), closed', 4)
              && SearchOk(store.View(), entities, noGrief, origin, target, open', closed')
  {
    ghost var v := store.View();
    chosen := BestIndex(open);
    var best := open[chosen];
    CloseBest(v, entities, noGrief, origin, target, open, closed, chosen);
    open' := RemoveAt(open, chosen);
    closed' := closed + [best];
    var tile := store.GetTile(best.pos.x, best.pos.y);
    if Satisfies(goal, tile, best.pos) {
      ChainLeads(v, entities, noGrief, origin, target, goal, open', closed');
      var path := Reconstruct(closed', origin, |closed'| - 1);
      return chosen, open', closed', Some(path);
    }
    open' := Expand(store, entities, noGrief, origin, target, open', closed');
    found := None;
  }

  /** `pathFind` (main.js:158-226) from `origin`, the local player's
      position, with heuristic target `target`: a path it finds leads from
      the origin to the goal. */
  method PathFind(store: Store, entities: seq<Entity>, origin: Pos, target: Pos, goal: Goal,
                  noGrief: bool, fuel: nat) returns (r: SearchResult)
    requires store.Valid()
    ensures r.Found? ==> Leads(store.View(), entities, noGrief, origin, goal, r.path)
  {
    var open := [Node(origin, 0, 0, 0, -1)];
    var closed: seq<Node> := [];
    var fuelLeft := fuel;
    while |open| > 0
      invariant SearchOk(store.View(), entities, noGrief, origin, target, open, closed)
      decreases fuelLeft
    {
      if fuelLeft == 0 {
        return OutOfFuel;
      }
      fuelLeft := fuelLeft - 1;
      var chosen, found;
      chosen, open, closed, found := Iterate(store, entities, origin, target, goal, noGrief, open, closed);
      if found.Some? {
        return Found(found.value);
      }
    }
    return Unreachable;
  }
}
