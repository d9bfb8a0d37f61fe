/** The planner: its obstacle map, the search over linked lists of nodes, and
    how it takes in map updates. */
module AStar {
  import opened Grid
  import opened Mapping
  import opened Search
  import opened SearchRuns

  /** The cells of the nodes of a list, in order. */
  ghost function PathOf(list: seq<Item>): seq<Cell> {
    seq(|list|, i requires 0 <= i < |list| => list[i].head.At())
  }

  lemma PathPush(list: seq<Item>, n: Node, trail: seq<Cell>, i: nat)
    requires 0 < i <= |trail| && PathOf(list) == trail[i..] && n.At() == trail[i - 1]
    ensures PathOf([Item(n, 0.0)] + list) == trail[i - 1..]
  {
    assert forall k :: 0 <= k < |list| ==> PathOf(list)[k] == ([Item(n, 0.0)] + list)[k + 1].head.At();
  }

  lemma PathEmpty()
    ensures PathOf([]) == []
  {
  }

  // ----- how lists of nodes stand for a search state

  /** The list has one node per cell, all of them among `nodes`. */
  ghost predicate Within(list: seq<Item>, nodes: set<Node>) {
    && OnePerCell(list)
    && forall c :: c in Entries(list) ==> Entries(list)[c].head in nodes && Entries(list)[c].head.At() == c
  }

  /** The node holds the score of its mark and links to the closed node that
      comes before it on the trail. */
  ghost predicate Holds(n: Node, m: Mark, closed: map<Cell, Item>)
    reads n
  {
    && n.gScore == m.g
    && |m.trail| > 0
    && if |m.trail| == 1 then n.backLink == null
       else m.trail[|m.trail| - 2] in closed && n.backLink == closed[m.trail[|m.trail| - 2]].head
  }

  ghost predicate ListHolds(list: seq<Item>, marks: map<Cell, Mark>, closed: map<Cell, Item>, nodes: set<Node>)
    reads nodes
  {
    && Within(list, nodes)
    && Entries(list).Keys == marks.Keys
    && forall c :: c in Entries(list) ==> Holds(Entries(list)[c].head, marks[c], closed)
  }

  ghost predicate Keyed(pb: Problem, list: seq<Item>, marks: map<Cell, Mark>) {
    && Sorted(list)
    && Entries(list).Keys == marks.Keys
    && forall c :: c in Entries(list) ==> Entries(list)[c].sortVal == F(pb, c, marks[c])
  }

  /** The two lists hold exactly the state `s`, in nodes of `nodes`. */
  ghost predicate Stands(pb: Problem, open: seq<Item>, closed: seq<Item>, s: State, nodes: set<Node>)
    reads nodes
  {
    && ListHolds(open, s.open, Entries(closed), nodes)
    && ListHolds(closed, s.closed, Entries(closed), nodes)
    && Keyed(pb, open, s.open)
  }

  lemma AddWithin(list: seq<Item>, node: Node, v: real, nodes: set<Node>)
    requires Within(list, nodes) && node.At() !in Entries(list)
    ensures Within(Added(list, node, v), nodes + {node})
  {
    AddedEntries(list, node, v);
  }

  lemma AddHolds(list: seq<Item>, node: Node, v: real, marks: map<Cell, Mark>, m: Mark, closed: map<Cell, Item>,
                 nodes: set<Node>)
    requires ListHolds(list, marks, closed, nodes) && node.At() !in marks && Holds(node, m, closed)
    ensures ListHolds(Added(list, node, v), marks[node.At() := m], closed, nodes + {node})
  {
    AddedEntries(list, node, v);
  }

  lemma RemoveHolds(list: seq<Item>, at: Cell, marks: map<Cell, Mark>, closed: map<Cell, Item>, nodes: set<Node>)
    requires ListHolds(list, marks, closed, nodes)
    ensures ListHolds(Removed(list, at), marks - {at}, closed, nodes)
  {
    RemovedEntries(list, at);
  }

  lemma GrowNodes(list: seq<Item>, marks: map<Cell, Mark>, closed: map<Cell, Item>, nodes: set<Node>, more: set<Node>)
    requires ListHolds(list, marks, closed, nodes) && nodes <= more
    ensures ListHolds(list, marks, closed, more)
  {
  }

  lemma GrowStands(pb: Problem, open: seq<Item>, closed: seq<Item>, s: State, nodes: set<Node>, more: set<Node>)
    requires Stands(pb, open, closed, s, nodes) && nodes <= more
    ensures Stands(pb, open, closed, s, more)
  {
  }

  lemma GrowClosed(list: seq<Item>, marks: map<Cell, Mark>, closed: map<Cell, Item>, c: Cell, it: Item,
                   nodes: set<Node>)
    requires ListHolds(list, marks, closed, nodes) && c !in closed
    ensures ListHolds(list, marks, closed[c := it], nodes)
  {
  }

  lemma RescoreHolds(list: seq<Item>, node: Node, v: real, marks: map<Cell, Mark>, m: Mark, closed: map<Cell, Item>,
                     nodes: set<Node>)
    requires ListHolds(list, marks, closed, nodes) && Holds(node, m, closed)
    ensures ListHolds(Added(Removed(list, node.At()), node, v), marks[node.At() := m], closed, nodes + {node})
  {
    RemoveHolds(list, node.At(), marks, closed, nodes);
    AddHolds(Removed(list, node.At()), node, v, marks - {node.At()}, m, closed, nodes);
    assert (marks - {node.At()})[node.At() := m] == marks[node.At() := m];
  }

  lemma RescoreKeyed(pb: Problem, list: seq<Item>, marks: map<Cell, Mark>, node: Node, m: Mark)
    requires Keyed(pb, list, marks) && OnePerCell(list)
    ensures Keyed(pb, Added(Removed(list, node.At()), node, F(pb, node.At(), m)), marks[node.At() := m])
  {
    DecreaseKey(list, node, F(pb, node.At(), m));
  }

  lemma LookupHolds(list: seq<Item>, at: Cell, marks: map<Cell, Mark>, closed: map<Cell, Item>, nodes: set<Node>)
    requires ListHolds(list, marks, closed, nodes)
    ensures Found(list, at) == null <==> at !in marks
    ensures at in marks ==> Found(list, at).gScore == marks[at].g
  {
    FoundIsEntry(list, at);
  }

  lemma OnlyOpen(pb: Problem, open: seq<Item>, closed: seq<Item>, s: State, n: Cell, nodes: set<Node>)
    requires Stands(pb, open, closed, s, nodes)
    ensures |open| == 1 && open[0].head.At() == n <==> s.open.Keys == {n}
  {
    forall i | 0 <= i < |open| ensures open[i].head.At() in s.open {
      EntriesLookup(open, i);
    }
    if |open| == 1 {
      assert open[1..] == [];
      assert Entries(open).Keys == {open[0].head.At()};
    } else if |open| > 1 {
      assert open[0].head.At() != open[1].head.At();
    } else {
      assert n !in Entries(open);
    }
  }

  ghost predicate EndsAt(trail: seq<Cell>, c: Cell) {
    trail != [] && trail[|trail| - 1] == c
  }

  /** The state in which `n` is open with the score it gets by way of `c`. */
  ghost function Improved(s: State, c: Cell, n: Cell, g: real): State
    requires c in s.closed
  {
    s.(open := s.open[n := Mark(g, s.closed[c].trail + [n])])
  }

  lemma RescoreStands(pb: Problem, open: seq<Item>, closed: seq<Item>, s: State, current: Node, n: Node, v: real,
                      nodes: set<Node>)
    returns (next: seq<Item>)
    requires Stands(pb, open, closed, s, nodes) && n.At() !in s.closed
    requires current.At() in s.closed && Entries(closed)[current.At()].head == current
    requires EndsAt(s.closed[current.At()].trail, current.At())
    requires n.backLink == current && v == n.gScore + pb.dist(n.At(), pb.goal)
    ensures next == Added(Removed(open, n.At()), n, v)
    ensures Stands(pb, next, closed, Improved(s, current.At(), n.At(), n.gScore), nodes + {n})
  {
    var m := Mark(n.gScore, s.closed[current.At()].trail + [n.At()]);
    next := Added(Removed(open, n.At()), n, v);
    assert Holds(n, m, Entries(closed));
    RescoreHolds(open, n, v, s.open, m, Entries(closed), nodes);
    RescoreKeyed(pb, open, s.open, n, m);
    GrowNodes(closed, s.closed, Entries(closed), nodes, nodes + {n});
  }

  /** The neighbours that the loops of `genNeighbors` have met before they come
      to the offset (i, j). */
  ghost function Scanned(free: set<Cell>, at: Cell, i: int, j: int): set<Cell> {
    set c | c in Neighbours(free, at) && (c.x - at.x < i || (c.x - at.x == i && c.y - at.y < j))
  }

  lemma ScanEnds(free: set<Cell>, at: Cell)
    ensures Scanned(free, at, -1, -1) == {} && Scanned(free, at, 2, -1) == Neighbours(free, at)
  {
  }

  lemma ScanRow(free: set<Cell>, at: Cell, i: int)
    ensures Scanned(free, at, i, 2) == Scanned(free, at, i + 1, -1)
  {
  }

  lemma ScanStep(free: set<Cell>, at: Cell, i: int, j: int)
    ensures var n := Cell(at.x + i, at.y + j);
            && n !in Scanned(free, at, i, j)
            && Scanned(free, at, i, j + 1) == Scanned(free, at, i, j) + if n in Neighbours(free, at) then {n} else {}
  {
  }

  class Planner {
    const obstacleMap: array2<bool>
    const dist: Distance
    const goal: Cell
    var pose: Cell
    var goalPath: ListCell
    var requestAll: bool

    ghost predicate MapSized() {
      obstacleMap.Length0 == GRID_NUM && obstacleMap.Length1 == GRID_NUM
    }

    ghost predicate Valid()
      reads this`goalPath, goalPath, goalPath.repr
    {
      && MapSized()
      && goalPath.Valid()
      && IsMetric(dist)
    }

    /** A cold start: no obstacle known, and everything is to be asked for. */
    constructor (dist: Distance, goal: Cell, pose: Cell)
      requires IsMetric(dist)
      ensures Valid() && fresh(obstacleMap) && fresh(goalPath.repr)
      ensures this.dist == dist && this.goal == goal && this.pose == pose
      ensures Known() == {} && requestAll && goalPath.items == []
    {
      this.dist, this.goal, this.pose := dist, goal, pose;
      obstacleMap := new bool[GRID_NUM, GRID_NUM]((i, j) => false);
      goalPath := new ListCell();
      requestAll := true;
    }

    /** The cells marked as obstacles. */
    ghost function Known(): set<Cell>
      requires MapSized()
      reads obstacleMap
    {
      set x, y | 0 <= x < GRID_NUM && 0 <= y < GRID_NUM && obstacleMap[x, y] :: Cell(x, y)
    }

    ghost function Free(): set<Cell>
      requires MapSized()
      reads obstacleMap
    {
      set x, y | 0 <= x < GRID_NUM && 0 <= y < GRID_NUM && !obstacleMap[x, y] :: Cell(x, y)
    }

    ghost function Task(): Problem
      requires MapSized()
      reads this`pose, obstacleMap
      ensures Task().start == pose && Task().goal == goal && Task().dist == dist && Task().free == Free()
    {
      Problem(Free(), pose, goal, dist)
    }

    predicate Blocked(c: Cell)
      requires MapSized()
      reads obstacleMap
      ensures Blocked(c) <==> c !in Free()
    {
      !InGrid(c) || obstacleMap[c.x, c.y]
    }

    /** On the 48 x 48 map and not marked. */
    ghost predicate Clear(x: int, y: int)
      requires MapSized()
      reads obstacleMap
    {
      0 <= x < 48 && 0 <= y < 48 && !obstacleMap[x, y]
    }

    /** The move from a to b by the rule, told from the map alone: to one of the
        eight cells around, which is clear, and not between two blocked cells. */
    ghost predicate Permitted(a: Cell, b: Cell)
      requires MapSized()
      reads obstacleMap
    {
      && a != b && -1 <= b.x - a.x <= 1 && -1 <= b.y - a.y <= 1
      && Clear(b.x, b.y)
      && (a.x == b.x || a.y == b.y || Clear(b.x, a.y) || Clear(a.x, b.y))
    }

    /** The moves that paths are made of are just the permitted ones. */
    lemma StepsArePermitted(a: Cell, b: Cell)
      requires MapSized()
      ensures Step(Free(), a, b) <==> Permitted(a, b)
      ensures b in Neighbours(Free(), a) <==> Permitted(a, b)
    {
      hide Free;
      FreeIsClear(b);
      FreeIsClear(Cell(b.x, a.y));
      FreeIsClear(Cell(a.x, b.y));
    }

    /** Paths of the task are just those that keep to the rule. */
    lemma PathsKeepTheRule(path: seq<Cell>, from: Cell, to: Cell)
      requires MapSized()
      ensures IsPath(Free(), path, from, to) <==>
        && path != [] && path[0] == from && path[|path| - 1] == to
        && forall k :: 0 <= k < |path| - 1 ==> Permitted(path[k], path[k + 1])
    {
      hide Free, Step, Permitted;
      forall k | 0 <= k < |path| - 1 ensures Step(Free(), path[k], path[k + 1]) <==> Permitted(path[k], path[k + 1]) {
        StepsArePermitted(path[k], path[k + 1]);
      }
    }

    lemma FreeIsClear(c: Cell)
      requires MapSized()
      ensures c in Free() <==> Clear(c.x, c.y)
    {
    }

    /** The nodes of the list lead from the pose to the goal by permitted moves. */
    ghost predicate Walkable(list: seq<Item>)
      requires MapSized()
      reads this`pose, obstacleMap
    {
      && list != [] && list[0].head.At() == pose && list[|list| - 1].head.At() == goal
      && forall k :: 0 <= k < |list| - 1 ==> Permitted(list[k].head.At(), list[k + 1].head.At())
    }

    lemma OptimalIsWalkable(list: seq<Item>)
      requires MapSized() && Optimal(Task(), PathOf(list))
      ensures Walkable(list)
    {
      hide Permitted, Free;
      PathsKeepTheRule(PathOf(list), pose, goal);
      forall k | 0 <= k < |list| - 1 ensures Permitted(list[k].head.At(), list[k + 1].head.At()) {
        assert PathOf(list)[k] == list[k].head.At() && PathOf(list)[k + 1] == list[k + 1].head.At();
      }
    }

    // ----- generating neighbours

    method MayEnter(node: Node, i: int, j: int) returns (found: bool)
      requires MapSized()
      requires -1 <= i <= 1 && -1 <= j <= 1
      ensures found <==> Cell(node.x + i, node.y + j) in Neighbours(Free(), node.At())
      ensures i == 0 && j == 0 ==> !found
      ensures (i == 0) != (j == 0) ==> (found <==> Clear(node.x + i, node.y + j))
      ensures i != 0 && j != 0 ==>
        (found <==> Clear(node.x + i, node.y + j) && (Clear(node.x + i, node.y) || Clear(node.x, node.y + j)))
    {
      var n := Cell(node.x + i, node.y + j);
      found := false;
      if j == 0 && i == 0 {
      } else if Abs(i) + Abs(j) == 2 {
        if !Blocked(n) {
          found := !Blocked(Cell(n.x, node.y)) || !Blocked(Cell(node.x, n.y));
        }
      } else {
        found := !Blocked(n);
      }
    }

    static function Abs(i: int): int {
      if i < 0 then -i else i
    }

    ghost predicate Gathered(list: ListCell, at: Cell, i: int, j: int, made: set<Node>)
      requires MapSized()
      reads obstacleMap, list, list.repr
    {
      && list.Valid() && Within(list.items, made)
      && Entries(list.items).Keys == Scanned(Free(), at, i, j)
    }

    method TryNeighbor(list: ListCell, node: Node, i: int, j: int, ghost made: set<Node>)
      returns (ghost after: set<Node>)
      requires MapSized()
      requires -1 <= i <= 1 && -1 <= j <= 1 && Gathered(list, node.At(), i, j, made)
      modifies list.repr
      ensures Gathered(list, node.At(), i, j + 1, after)
      ensures fresh(list.repr - old(list.repr)) && made <= after && fresh(after - made)
    {
      hide Added, Entries, Neighbours, Scanned;
      ScanStep(Free(), node.At(), i, j);
      after := made;
      var found := MayEnter(node, i, j);
      if found {
        var neighbour := new Node(node.x + i, node.y + j, 0.0);
        AddedEntries(list.items, neighbour, 0.0);
        AddWithin(list.items, neighbour, 0.0, made);
        list.AddNode(neighbour, 0.0);
        after := made + {neighbour};
      }
    }

    method GenNeighbors(node: Node) returns (list: ListCell, ghost made: set<Node>)
      requires MapSized()
      ensures list.Valid() && fresh(list.repr) && fresh(made) && Within(list.items, made)
      ensures Entries(list.items).Keys == Neighbours(Free(), node.At())
      ensures forall c :: c in Entries(list.items) <==> Permitted(node.At(), c)
    {
      list := new ListCell();
      made := {};
      ScanEnds(Free(), node.At());
      for i: int := -1 to 2
        invariant Gathered(list, node.At(), i, -1, made) && fresh(list.repr) && fresh(made)
      {
        for j: int := -1 to 2
          invariant Gathered(list, node.At(), i, j, made) && fresh(list.repr) && fresh(made)
        {
          made := TryNeighbor(list, node, i, j, made);
        }
        ScanRow(Free(), node.At(), i);
      }
      forall c ensures c in Neighbours(Free(), node.At()) <==> Permitted(node.At(), c) {
        StepsArePermitted(node.At(), c);
      }
    }

    // ----- considering one neighbour

    /** Re-inserts `n` under its new score. `lost` says that taking the old node
        out left no list cell at all, the one case that the C code, which goes
        on to `addNode`, does not survive. */
    static method Rescore(open: ListCell, n: Node, v: real, ghost next: seq<Item>) returns (after: ListCell, lost: bool)
      requires open.Valid() && open.tight && next == Added(Removed(open.items, n.At()), n, v)
      modifies open.repr
      ensures after.Valid() && after.tight && fresh(after.repr - old(open.repr))
      ensures after.items == next
      ensures lost <==> |old(open.items)| == 1 && old(open.items)[0].head.At() == n.At()
    {
      var rest := ListCell.RemoveNode(open, n);
      lost := rest == null;
      if rest == null {
        after := new ListCell();
      } else {
        after := rest;
      }
      after.AddNode(n, v);
    }

    method Improve(n: Node, current: Node, g: real, open: ListCell, closed: ListCell,
                   ghost pb: Problem, ghost s: State, ghost nodes: set<Node>)
      returns (after: ListCell, lost: bool)
      requires open.Valid() && open.tight && closed.Valid() && open.repr !! closed.repr
      requires pb.dist == dist && pb.goal == goal
      requires Stands(pb, open.items, closed.items, s, nodes) && n.At() !in s.closed && n !in nodes
      requires current.At() in s.closed && Entries(closed.items)[current.At()].head == current
      requires EndsAt(s.closed[current.At()].trail, current.At())
      modifies open.repr, n
      ensures after.Valid() && after.tight && fresh(after.repr - old(open.repr))
      ensures Stands(pb, after.items, closed.items, Improved(s, current.At(), n.At(), g), nodes + {n})
      ensures lost <==> s.open.Keys == {n.At()}
    {
      hide Stands, Entries, Added, Removed, Improved;
      var v := g + dist(n.At(), goal);
      n.backLink, n.gScore := current, g;
      OnlyOpen(pb, open.items, closed.items, s, n.At(), nodes);
      ghost var c, t := closed.items, Improved(s, current.At(), n.At(), g);
      ghost var next := RescoreStands(pb, open.items, c, s, current, n, v, nodes);
      assert Stands(pb, next, c, t, nodes + {n});
      after, lost := Rescore(open, n, v, next);
      assert closed.items == c;
      assert Stands(pb, next, c, t, nodes + {n});
    }

    /** One neighbour of the node closed last: the body of the inner loop. It
        loses the list exactly when it re-scores the only open node. */
    method Consider(n: Node, current: Node, open: ListCell, closed: ListCell,
                    ghost pb: Problem, ghost s: State, ghost nodes: set<Node>)
      returns (after: ListCell, lost: bool)
      requires open.Valid() && open.tight && closed.Valid() && open.repr !! closed.repr
      requires pb.dist == dist && pb.goal == goal
      requires Stands(pb, open.items, closed.items, s, nodes) && s.open.Keys !! s.closed.Keys && n !in nodes
      requires current.At() in s.closed && Entries(closed.items)[current.At()].head == current
      requires EndsAt(s.closed[current.At()].trail, current.At())
      modifies open.repr, n
      ensures after.Valid() && after.tight && fresh(after.repr - old(open.repr))
      ensures Stands(pb, after.items, closed.items, Relax(pb, s, current.At(), n.At()), nodes + {n})
      ensures lost <==> RescoresLast(pb, s, current.At(), n.At())
    {
      hide Entries, Found;
      after, lost := open, false;
      ghost var next := Relax(pb, s, current.At(), n.At());
      LookupHolds(closed.items, n.At(), s.closed, Entries(closed.items), nodes);
      LookupHolds(open.items, n.At(), s.open, Entries(closed.items), nodes);
      assert current.gScore == s.closed[current.At()].g;
      if ListCell.FindNode(closed, n) == null {
        var tentative := current.gScore + dist(n.At(), current.At());
        var known := ListCell.FindNode(open, n);
        if known == null || tentative < known.gScore {
          assert next == Improved(s, current.At(), n.At(), tentative);
          after, lost := Improve(n, current, tentative, open, closed, pb, s, nodes);
          return;
        }
      }
      assert next == s;
      GrowStands(pb, open.items, closed.items, s, nodes, nodes + {n});
    }

    // ----- expanding one node

    /** What is left to visit: `curr`, taken off the list, and the nodes still
        on it, all of them among `mine` and at the cells `todo`. */
    static ghost predicate Pending(curr: Node?, list: ListCell, mine: set<Node>, todo: set<Cell>)
      reads list, list.repr
      ensures Pending(curr, list, mine, todo) ==> list.Valid() && (curr == null ==> todo == {})
      ensures Pending(curr, list, mine, todo) && curr != null ==> curr in mine && curr.At() in todo
    {
      && list.Valid() && Within(list.items, mine - {curr})
      && (curr == null ==> todo == {})
      && (curr != null ==>
            && curr in mine && curr.At() in todo
            && Entries(list.items).Keys == todo - {curr.At()})
    }

    /** `pop` on a list of neighbours. */
    static method PopNeighbor(list: ListCell, ghost made: set<Node>) returns (node: Node?, rest: ListCell)
      requires list.Valid() && Within(list.items, made)
      ensures Pending(node, rest, made, Entries(list.items).Keys)
      ensures rest.repr < list.repr || fresh(rest.repr)
    {
      ghost var items := list.items;
      node, rest := ListCell.Pop(list);
      if node == null {
        assert rest.items == [] && Within([], made - {null});
      } else {
        assert items[1..] == Removed(items, node.At());
        RemovedEntries(items, node.At());
        EntriesLookup(items, 0);
      }
    }

    static method NextNeighbor(curr: Node, list: ListCell, ghost mine: set<Node>, ghost todo: set<Cell>)
      returns (node: Node?, rest: ListCell, ghost left: set<Node>, ghost undone: set<Cell>)
      requires Pending(curr, list, mine, todo)
      ensures left == mine - {curr} && undone == todo - {curr.At()} && undone < todo
      ensures Pending(node, rest, left, undone)
      ensures rest.repr < list.repr || fresh(rest.repr)
    {
      left, undone := mine - {curr}, todo - {curr.At()};
      node, rest := PopNeighbor(list, left);
    }

    /** The body of the outer loop once `current` is closed: every neighbour is
        generated and considered. */
    method Expand(current: Node, open: ListCell, closed: ListCell, before: bool,
                  ghost pb: Problem, ghost s: State, ghost nodes: set<Node>, ghost run: seq<Moment>)
      returns (after: ListCell, lost: bool, ghost t: State, ghost more: set<Node>, ghost longer: seq<Moment>)
      requires MapSized() && pb == Task()
      requires open.Valid() && open.tight && closed.Valid() && open.repr !! closed.repr
      requires Stands(pb, open.items, closed.items, s, nodes)
      requires current.At() in s.closed && IsHead(closed.items, current)
      requires IsMetric(dist) && Ran(pb, run, s, current.At(), Neighbours(pb.free, current.At()), before)
      modifies open.repr
      ensures after.Valid() && after.tight && fresh(after.repr - old(open.repr))
      ensures Stands(pb, after.items, closed.items, t, more) && nodes <= more && fresh(more - nodes)
      ensures t.closed == s.closed && Ran(pb, longer, t, current.At(), {}, lost)
    {
      hide Stands, Within, Inv, LastClosed, Neighbours, Entries, Ran;
      var neighbors, curr;
      ghost var mine;
      neighbors, mine := GenNeighbors(current);
      curr, neighbors := PopNeighbor(neighbors, mine);
      ghost var all := Neighbours(pb.free, current.At());
      after, lost, t, more, longer :=
        VisitAll(curr, neighbors, current, open, closed, before, pb, s, nodes, mine, all, run);
    }

    /** The inner loop. */
    method VisitAll(first: Node?, list: ListCell, current: Node, open: ListCell, closed: ListCell, before: bool,
                    ghost pb: Problem, ghost s: State, ghost nodes: set<Node>, ghost made: set<Node>,
                    ghost all: set<Cell>, ghost run: seq<Moment>)
      returns (after: ListCell, lost: bool, ghost t: State, ghost more: set<Node>, ghost longer: seq<Moment>)
      requires Pending(first, list, made, all) && made !! nodes
      requires open.Valid() && open.tight && closed.Valid() && open.repr !! closed.repr && list.repr !! open.repr
      requires pb.dist == dist && pb.goal == goal
      requires Stands(pb, open.items, closed.items, s, nodes)
      requires current.At() in s.closed && Entries(closed.items)[current.At()].head == current
      requires IsMetric(dist) && Ran(pb, run, s, current.At(), all, before)
      modifies open.repr, made
      ensures after.Valid() && after.tight && fresh(after.repr - old(open.repr))
      ensures Stands(pb, after.items, closed.items, t, more) && more <= nodes + made && nodes <= more
      ensures t.closed == s.closed && Ran(pb, longer, t, current.At(), {}, lost)
    {
      hide Stands, Within, Inv, LastClosed, Neighbours, Entries, Pending, Ran;
      after, lost, t, more, longer := open, before, s, nodes, run;
      var curr, neighbors := first, list;
      ghost var mine, todo := made, all;
      while curr != null
        invariant after.Valid() && after.tight && after.repr !! closed.repr && neighbors.repr !! after.repr
        invariant fresh(after.repr - old(open.repr)) && fresh(neighbors.repr - old(list.repr))
        invariant Pending(curr, neighbors, mine, todo) && todo <= all && mine <= made
        invariant mine !! more && nodes <= more <= nodes + made
        invariant Stands(pb, after.items, closed.items, t, more)
        invariant t.closed == s.closed && Ran(pb, longer, t, current.At(), todo, lost)
        decreases todo
      {
        after, lost, t, more, longer := Visit(curr, current, after, closed, lost, pb, t, more, todo, longer);
        curr, neighbors, mine, todo := NextNeighbor(curr, neighbors, mine, todo);
      }
    }

    /** The body of the inner loop, with what it does to the invariant. */
    method Visit(n: Node, current: Node, open: ListCell, closed: ListCell, before: bool,
                 ghost pb: Problem, ghost s: State, ghost nodes: set<Node>, ghost todo: set<Cell>,
                 ghost run: seq<Moment>)
      returns (after: ListCell, lost: bool, ghost t: State, ghost more: set<Node>, ghost longer: seq<Moment>)
      requires open.Valid() && open.tight && closed.Valid() && open.repr !! closed.repr
      requires pb.dist == dist && pb.goal == goal
      requires Stands(pb, open.items, closed.items, s, nodes) && n !in nodes
      requires current.At() in s.closed && Entries(closed.items)[current.At()].head == current
      requires IsMetric(dist) && n.At() in todo && Ran(pb, run, s, current.At(), todo, before)
      modifies open.repr, n
      ensures after.Valid() && after.tight && fresh(after.repr - old(open.repr)) && more == nodes + {n}
      ensures Stands(pb, after.items, closed.items, t, more)
      ensures Ran(pb, longer, t, current.At(), todo - {n.At()}, lost)
      ensures t.closed == s.closed
    {
      hide Stands, Inv, LastClosed, Entries, Step, Relax, ListCell.Valid, Ran, RescoresLast, Trails;
      RelaxKeepsClosed(pb, s, current.At(), n.At());
      RanKeeps(pb, run, s, current.At(), todo, before);
      TrailEnds(pb, s, current.At());
      t, more := Relax(pb, s, current.At(), n.At()), nodes + {n};
      after, lost := Consider(n, current, open, closed, pb, s, nodes);
      longer := RanOffer(pb, run, s, current.At(), n.At(), todo, before, lost);
      lost := before || lost;
    }

    // ----- the search

    /** Puts the node just popped on the closed list. */
    method CloseNode(current: Node, open: ListCell, closed: ListCell, lost: bool,
                     ghost pb: Problem, ghost s: State, ghost cur: Cell, ghost nodes: set<Node>,
                     ghost run: seq<Moment>)
      returns (ghost t: State, ghost longer: seq<Moment>)
      requires open.Valid() && open.tight && closed.Valid() && open.repr !! closed.repr
      requires current.At() != pb.goal && Popped(pb, current, open.items, closed.items, s, nodes)
      requires IsMetric(pb.dist) && Ran(pb, run, s, cur, {}, lost)
      modifies closed.repr
      ensures closed.Valid() && fresh(closed.repr - old(closed.repr))
      ensures Stands(pb, open.items, closed.items, t, nodes) && IsHead(closed.items, current)
      ensures current.At() in t.closed && current.At() !in s.closed && t.closed.Keys == s.closed.Keys + {current.At()}
      ensures Ran(pb, longer, t, current.At(), Neighbours(pb.free, current.At()), lost)
    {
      hide Inv, Stands, Popped, IsHead, LastClosed, Neighbours, Added, ListCell.Valid, Ran, IsMetric;
      RanKeeps(pb, run, s, cur, {}, lost);
      var v := dist(current.At(), goal);
      ghost var next;
      longer := CloseRan(pb, open.items, closed.items, s, cur, current, nodes, run, lost);
      next, t := CloseStep(pb, open.items, closed.items, s, cur, current, v, nodes);
      closed.AddNode(current, v);
    }

    /** `n` is the node before the last |m.trail| - i cells of the trail. */
    static ghost predicate OnTrail(n: Node?, m: Mark, i: nat, mark: Mark, closed: seq<Item>)
      reads n
      ensures OnTrail(n, m, i, mark, closed) ==> i <= |m.trail| && (n == null <==> i == 0)
    {
      && i <= |m.trail|
      && (n == null <==> i == 0)
      && (n != null ==> n.At() == m.trail[i - 1] && mark.trail == m.trail[..i] && Holds(n, mark, Entries(closed)))
    }

    static lemma StartsOnTrail(last: Node, m: Mark, pb: Problem, s: State, closed: seq<Item>)
      requires Holds(last, m, Entries(closed)) && TrailOk(pb, s.closed, last.At(), m)
      ensures OnTrail(last, m, |m.trail|, m, closed)
    {
      assert m.trail[..|m.trail|] == m.trail;
    }

    static lemma BackOnTrail(pb: Problem, closed: seq<Item>, s: State, m: Mark, i: nat, n: Node, mark: Mark,
                             nodes: set<Node>)
      returns (before: Mark)
      requires OnTrail(n, m, i, mark, closed)
      requires TrailOk(pb, s.closed, pb.goal, m) && ListHolds(closed, s.closed, Entries(closed), nodes)
      ensures i > 0 && n.At() == m.trail[i - 1] && OnTrail(n.backLink, m, i - 1, before, closed)
    {
      BackLink(pb, closed, s, pb.goal, m, i, n, mark, nodes);
      before := if i > 1 then s.closed[m.trail[i - 2]] else mark;
    }

    static method PushOnPath(path: ListCell, n: Node, ghost trail: seq<Cell>, ghost i: nat) returns (longer: ListCell)
      requires path.Valid() && 0 < i <= |trail| && PathOf(path.items) == trail[i..] && n.At() == trail[i - 1]
      ensures longer.Valid() && PathOf(longer.items) == trail[i - 1..]
    {
      PathPush(path.items, n, trail, i);
      longer := ListCell.Push(path, n);
    }

    /** Follows the back links from the goal and pushes each node on the path. */
    method ExtractPath(last: Node, ghost closed: seq<Item>, ghost pb: Problem, ghost s: State, ghost m: Mark,
                       ghost nodes: set<Node>)
      requires goalPath.Valid() && last.At() == pb.goal
      requires Holds(last, m, Entries(closed)) && TrailOk(pb, s.closed, pb.goal, m)
      requires ListHolds(closed, s.closed, Entries(closed), nodes)
      modifies this`goalPath
      ensures goalPath.Valid() && PathOf(goalPath.items) == m.trail
    {
      hide OnTrail, Holds, ListHolds, TrailOk, Entries, ListCell.Valid, PathOf;
      ghost var mark: Mark, i: nat := m, |m.trail|;
      StartsOnTrail(last, m, pb, s, closed);
      PathEmpty();
      goalPath := ListCell.EraseList(goalPath);
      var current: Node? := last;
      while current != null
        invariant goalPath.Valid() && OnTrail(current, m, i, mark, closed)
        invariant i <= |m.trail| && PathOf(goalPath.items) == m.trail[i..] && (current == null <==> i == 0)
        decreases i
      {
        mark := BackOnTrail(pb, closed, s, m, i, current, mark, nodes);
        goalPath := PushOnPath(goalPath, current, m.trail, i);
        current, i := current.backLink, i - 1;
      }
    }

    method CloseAndExpand(current: Node, open: ListCell, closed: ListCell, before: bool,
                          ghost pb: Problem, ghost s: State, ghost cur: Cell, ghost nodes: set<Node>,
                          ghost run: seq<Moment>)
      returns (after: ListCell, lost: bool, ghost t: State, ghost more: set<Node>, ghost longer: seq<Moment>)
      requires MapSized() && pb == Task()
      requires open.Valid() && open.tight && closed.Valid() && open.repr !! closed.repr
      requires current.At() != pb.goal && Popped(pb, current, open.items, closed.items, s, nodes)
      requires IsMetric(dist) && Ran(pb, run, s, cur, {}, before)
      modifies open.repr, closed.repr
      ensures after.Valid() && after.tight && fresh(after.repr - old(open.repr))
      ensures closed.Valid() && fresh(closed.repr - old(closed.repr)) && after.repr !! closed.repr
      ensures Stands(pb, after.items, closed.items, t, more)
      ensures pb.free + {pb.start} - t.closed.Keys < pb.free + {pb.start} - s.closed.Keys
      ensures Ran(pb, longer, t, current.At(), {}, lost)
    {
      hide Stands, Inv, Popped, IsHead, LastClosed, Neighbours, Task, Free, ListCell.Valid, IsMetric, Ran, Trails;
      t, longer := CloseNode(current, open, closed, before, pb, s, cur, nodes, run);
      RanKeeps(pb, longer, t, current.At(), Neighbours(pb.free, current.At()), before);
      ClosedInGrid(pb, t, current.At());
      OneFewer(pb.free + {pb.start}, s.closed.Keys, t.closed.Keys, current.At());
      after, lost, t, more, longer := Expand(current, open, closed, before, pb, t, nodes, longer);
    }

    method StartLists(ghost pb: Problem) returns (open: ListCell, closed: ListCell, ghost nodes: set<Node>)
      requires pb.start == pose && pb.goal == goal && pb.dist == dist
      ensures open.Valid() && open.tight && closed.Valid() && open.repr !! closed.repr && fresh(open.repr)
      ensures fresh(closed.repr)
      ensures Stands(pb, open.items, closed.items, Initial(pb), nodes)
    {
      hide Stands;
      closed := new ListCell();
      open := new ListCell();
      var first := new Node(pose.x, pose.y, 0.0);
      StartStands(pb, first, dist(first.At(), goal));
      open.AddNode(first, dist(first.At(), goal));
      nodes := {first};
    }

    /** Looks for a path from the pose to the goal and, when there is one, makes
        a cheapest one the goal path. What it does is a run of the search; the C
        code comes to the same end when `lost` is false, and dereferences a null
        pointer on the way when `lost` is true. */
    method Command() returns (solution: bool, lost: bool, ghost run: seq<Moment>, ghost end: Stage)
      requires Valid()
      modifies this`goalPath
      ensures Valid()
      ensures solution <==> Solvable(Task())
      ensures solution ==> Optimal(Task(), PathOf(goalPath.items)) && NoRepeats(PathOf(goalPath.items))
      ensures solution ==> Walkable(goalPath.items)
      ensures !solution ==> goalPath == old(goalPath)
      ensures Run(Task(), run, end) && Stops(Task(), end, solution)
      ensures lost <==> Loses(Task(), run)
      ensures Roomy(Task()) ==> !lost
    {
      hide Stands, Inv, Popped, Entries, Added, Holds, ListHolds, TrailOk, Solvable, Optimal, NoRepeats, IsMetric, Free,
        Task, Initial, PathOf, ListCell.Valid, Ran, Stops, Loses, Roomy, Walkable;
      ghost var pb := Task();
      RanNothing(pb);
      ghost var s, cur, nodes := Initial(pb), pb.start, {};
      var open, closed;
      open, closed, nodes := StartLists(pb);
      lost, run := false, [];
      while true
        invariant Valid() && Task() == pb && goalPath == old(goalPath)
        invariant open.Valid() && open.tight && closed.Valid() && open.repr !! closed.repr
        invariant fresh(open.repr) && fresh(closed.repr)
        invariant Stands(pb, open.items, closed.items, s, nodes)
        invariant Ran(pb, run, s, cur, {}, lost)
        decreases pb.free + {pb.start} - s.closed.Keys
      {
        ghost var items := open.items;
        var current;
        current, open := ListCell.Pop(open);
        if current != null {
          PopStands(pb, items, closed.items, s, nodes);
        }
        RanKeeps(pb, run, s, cur, {}, lost);
        if current != null && current.At() == goal {
          GoalPopped(pb, current, open.items, closed.items, s, cur, nodes);
          ExtractPath(current, closed.items, pb, s, s.open[pb.goal], nodes);
          OptimalIsWalkable(goalPath.items);
          end := Stage(s, cur, {});
          RanToTheEnd(pb, run, s, cur, lost, true);
          return true, lost, run, end;
        }
        if current == null {
          EmptyList(pb, closed.items, s, cur, nodes);
          NothingOpenIsUnsolvable(pb, s, cur);
          end := Stage(s, cur, {});
          RanToTheEnd(pb, run, s, cur, lost, false);
          return false, lost, run, end;
        }
        open, lost, s, nodes, run := CloseAndExpand(current, open, closed, lost, pb, s, cur, nodes, run);
        cur := current.At();
      }
    }

    // ----- map updates

    method MarkObstacles(obs: seq<Cell>)
      requires MapSized() && forall c :: c in obs ==> InGrid(c)
      modifies obstacleMap
      ensures Known() == old(Known()) + set c | c in obs
      ensures forall x, y :: 0 <= x < 48 && 0 <= y < 48 ==>
        (obstacleMap[x, y] <==> old(obstacleMap[x, y]) || Cell(x, y) in obs)
    {
      for index := 0 to |obs|
        invariant Known() == old(Known()) + set c | c in obs[..index]
        invariant forall x, y :: 0 <= x < 48 && 0 <= y < 48 ==>
          (obstacleMap[x, y] <==> old(obstacleMap[x, y]) || Cell(x, y) in obs[..index])
      {
        var o := obs[index];
        assert o in obs;
        ghost var before := Known();
        obstacleMap[o.x, o.y] := true;
        assert Known() == before + {o};
        assert obs[..index + 1] == obs[..index] + [o];
      }
    }

    /** Takes in one map update and says what the acknowledgement asks for. A
        new search runs exactly when the update brings obstacles. */
    method TakeUpdate(newPose: Cell, obs: seq<Cell>)
      returns (resend: bool, lost: bool, ghost run: seq<Moment>, ghost end: Stage)
      requires Valid() && forall c :: c in obs ==> InGrid(c)
      modifies this`pose, this`goalPath, this`requestAll, obstacleMap
      ensures Valid() && pose == newPose && !requestAll && resend == old(requestAll)
      ensures Known() == old(Known()) + set c | c in obs
      ensures forall x, y :: 0 <= x < 48 && 0 <= y < 48 ==>
        (obstacleMap[x, y] <==> old(obstacleMap[x, y]) || Cell(x, y) in obs)
      ensures obs == [] || !Solvable(Task()) ==> goalPath == old(goalPath)
      ensures obs != [] && Solvable(Task()) ==> Optimal(Task(), PathOf(goalPath.items)) && Walkable(goalPath.items)
      ensures obs != [] ==> Run(Task(), run, end) && (lost <==> Loses(Task(), run))
      ensures obs == [] || Roomy(Task()) ==> !lost
    {
      hide Solvable, Optimal, IsMetric, Free, PathOf, NoRepeats, ListCell.Valid, Run, Loses, Roomy, Walkable;
      pose := newPose;
      lost, run, end := false, [], Start(Task());
      MarkObstacles(obs);
      if |obs| > 0 {
        var solution;
        solution, lost, run, end := Command();
      }
      resend := requestAll;
      requestAll := false;
    }
  }

  lemma OneFewer(all: set<Cell>, before: set<Cell>, after: set<Cell>, c: Cell)
    requires c in all && c !in before && after == before + {c}
    ensures all - after < all - before
  {
    assert c in all - before && c !in all - after;
  }

  lemma OpenIsNotClosed(pb: Problem, s: State, cur: Cell, c: Cell)
    requires Inv(pb, s, cur, {}) && c in s.open
    ensures c !in s.closed
  {
  }

  /** Only the start and free cells are ever closed, so the search ends. */
  lemma ClosedInGrid(pb: Problem, s: State, cur: Cell)
    requires Inv(pb, s, cur, Neighbours(pb.free, cur))
    ensures s.closed.Keys <= pb.free + {pb.start}
  {
    forall c | c in s.closed ensures c in pb.free + {pb.start} {
      var trail := s.closed[c].trail;
      if |trail| > 1 {
        assert Step(pb.free, trail[|trail| - 2], trail[|trail| - 1]);
      }
    }
  }

  /** `current` has been popped: `rest` and the closed list hold what is left. */
  ghost predicate Popped(pb: Problem, current: Node, rest: seq<Item>, closed: seq<Item>, s: State, nodes: set<Node>)
    reads nodes
  {
    var c := current.At();
    && c in s.open && IsLeast(pb, s, c) && current in nodes
    && Holds(current, s.open[c], Entries(closed))
    && ListHolds(rest, s.open - {c}, Entries(closed), nodes)
    && Keyed(pb, rest, s.open - {c})
    && ListHolds(closed, s.closed, Entries(closed), nodes)
  }

  lemma PopStands(pb: Problem, open: seq<Item>, closed: seq<Item>, s: State, nodes: set<Node>)
    requires Stands(pb, open, closed, s, nodes) && open != []
    ensures Popped(pb, open[0].head, open[1..], closed, s, nodes)
  {
    PopIsLeast(open);
  }

  ghost predicate IsHead(list: seq<Item>, n: Node) {
    n.At() in Entries(list) && Entries(list)[n.At()].head == n
  }

  lemma CloseStands(pb: Problem, rest: seq<Item>, closed: seq<Item>, s: State, current: Node, v: real, nodes: set<Node>)
    requires Popped(pb, current, rest, closed, s, nodes) && current.At() !in s.closed
    ensures Stands(pb, rest, Added(closed, current, v), Close(s, current.At()), nodes)
    ensures IsHead(Added(closed, current, v), current)
  {
    var c := current.At();
    AddedEntries(closed, current, v);
    GrowClosed(rest, s.open - {c}, Entries(closed), c, Item(current, v), nodes);
    AddHolds(closed, current, v, s.closed, s.open[c], Entries(closed), nodes);
    var next, marks := Added(closed, current, v), s.closed[c := s.open[c]];
    GrowClosed(next, marks, Entries(closed), c, Item(current, v), nodes + {current});
    assert nodes + {current} == nodes;
  }

  lemma CloseRan(pb: Problem, rest: seq<Item>, closed: seq<Item>, s: State, cur: Cell, current: Node,
                 nodes: set<Node>, run: seq<Moment>, lost: bool)
    returns (longer: seq<Moment>)
    requires Popped(pb, current, rest, closed, s, nodes) && current.At() != pb.goal
    requires Ran(pb, run, s, cur, {}, lost)
    ensures Ran(pb, longer, Close(s, current.At()), current.At(), Neighbours(pb.free, current.At()), lost)
  {
    hide Ran, Neighbours;
    longer := RanTake(pb, run, s, cur, current.At(), lost);
  }

  /** Closing the popped node keeps both the invariant and the lists in step. */
  lemma CloseStep(pb: Problem, rest: seq<Item>, closed: seq<Item>, s: State, cur: Cell, current: Node, v: real,
                  nodes: set<Node>)
    returns (next: seq<Item>, t: State)
    requires Inv(pb, s, cur, {}) && current.At() != pb.goal
    requires Popped(pb, current, rest, closed, s, nodes)
    ensures next == Added(closed, current, v) && current.At() in s.open && t == Close(s, current.At())
    ensures current.At() in t.closed && current.At() !in s.closed && t.closed.Keys == s.closed.Keys + {current.At()}
    ensures Stands(pb, rest, next, t, nodes) && IsHead(next, current)
    ensures Inv(pb, t, current.At(), Neighbours(pb.free, current.At())) && LastClosed(pb, t, current.At())
  {
    next, t := Added(closed, current, v), Close(s, current.At());
    OpenIsNotClosed(pb, s, cur, current.At());
    CloseStands(pb, rest, closed, s, current, v, nodes);
    hide Stands, Added, Entries, ListHolds, Keyed, Holds;
    CloseInv(pb, s, cur, current.At());
  }

  /** The back link of a node on the trail is the node one step before it. */
  lemma BackLink(pb: Problem, closed: seq<Item>, s: State, c: Cell, m: Mark, i: nat, n: Node, mark: Mark,
                 nodes: set<Node>)
    requires TrailOk(pb, s.closed, c, m) && ListHolds(closed, s.closed, Entries(closed), nodes)
    requires 0 < i <= |m.trail| && mark.trail == m.trail[..i] && Holds(n, mark, Entries(closed))
    ensures n.backLink == null <==> i == 1
    ensures i > 1 ==> n.backLink.At() == m.trail[i - 2] && m.trail[i - 2] in s.closed
    ensures i > 1 ==> s.closed[m.trail[i - 2]].trail == m.trail[..i - 1]
    ensures i > 1 ==> Holds(n.backLink, s.closed[m.trail[i - 2]], Entries(closed))
  {
    if i > 1 {
      assert mark.trail[i - 2] == m.trail[i - 2];
    }
  }

  lemma GoalPopped(pb: Problem, current: Node, rest: seq<Item>, closed: seq<Item>, s: State, cur: Cell,
                   nodes: set<Node>)
    requires Inv(pb, s, cur, {}) && Popped(pb, current, rest, closed, s, nodes) && current.At() == pb.goal
    ensures pb.goal in s.open && Optimal(pb, s.open[pb.goal].trail) && NoRepeats(s.open[pb.goal].trail)
    ensures Solvable(pb) && Stops(pb, Stage(s, cur, {}), true)
    ensures Holds(current, s.open[pb.goal], Entries(closed)) && TrailOk(pb, s.closed, pb.goal, s.open[pb.goal])
    ensures ListHolds(closed, s.closed, Entries(closed), nodes)
  {
    hide ListHolds, Keyed, Holds, Entries;
    GoalPoppedIsOptimal(pb, s, cur);
    assert IsPath(pb.free, s.open[pb.goal].trail, pb.start, pb.goal);
  }

  lemma RanToTheEnd(pb: Problem, run: seq<Moment>, s: State, cur: Cell, lost: bool, solution: bool)
    requires IsMetric(pb.dist) && Ran(pb, run, s, cur, {}, lost) && Stops(pb, Stage(s, cur, {}), solution)
    ensures Run(pb, run, Stage(s, cur, {})) && (lost <==> Loses(pb, run))
    ensures Roomy(pb) ==> !lost
  {
    hide Run, Loses, Roomy, IsMetric;
    if Roomy(pb) {
      RoomyNeverLoses(pb, run, Stage(s, cur, {}));
    }
  }

  lemma EmptyList(pb: Problem, closed: seq<Item>, s: State, cur: Cell, nodes: set<Node>)
    requires Stands(pb, [], closed, s, nodes)
    ensures s.open == map[] && Stops(pb, Stage(s, cur, {}), false)
  {
  }

  lemma StartStands(pb: Problem, first: Node, v: real)
    requires first.At() == pb.start && first.gScore == 0.0 && first.backLink == null
    requires v == pb.dist(pb.start, pb.goal)
    ensures Stands(pb, Added([], first, v), [], Initial(pb), {first})
  {
    var list := Added([], first, v);
    assert list[1..] == [];
  }

  lemma TrailEnds(pb: Problem, s: State, c: Cell)
    requires Trails(pb, s) && c in s.closed
    ensures EndsAt(s.closed[c].trail, c)
  {
  }
}
