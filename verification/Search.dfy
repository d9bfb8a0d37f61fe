/** The best-first search of the planner as a transition system on maps: which
    cells are open, which are closed, and for each the score and the chain of
    back links (the trail) its node holds. */
module Search {
  import opened Grid

  /** What a node stands for: its g score and the cells from the start along
      its back links to itself. */
  datatype Mark = Mark(g: real, trail: seq<Cell>)

  datatype Problem = Problem(free: set<Cell>, start: Cell, goal: Cell, dist: Distance)

  datatype State = State(open: map<Cell, Mark>, closed: map<Cell, Mark>)

  ghost predicate Solvable(pb: Problem) {
    exists path :: IsPath(pb.free, path, pb.start, pb.goal)
  }

  ghost predicate Optimal(pb: Problem, path: seq<Cell>) {
    && IsPath(pb.free, path, pb.start, pb.goal)
    && forall other :: IsPath(pb.free, other, pb.start, pb.goal) ==> Cost(pb.dist, path) <= Cost(pb.dist, other)
  }

  /** The sort value of an open node. */
  ghost function F(pb: Problem, c: Cell, m: Mark): real {
    m.g + pb.dist(c, pb.goal)
  }

  // ----- the steps of the search

  ghost function Initial(pb: Problem): State {
    State(map[pb.start := Mark(0.0, [pb.start])], map[])
  }

  ghost function Close(s: State, c: Cell): State
    requires c in s.open
  {
    State(s.open - {c}, s.closed[c := s.open[c]])
  }

  /** Offers the closed cell `c` as predecessor of its neighbour `n`. */
  ghost function Relax(pb: Problem, s: State, c: Cell, n: Cell): State
    requires c in s.closed
  {
    var g := s.closed[c].g + pb.dist(n, c);
    if n in s.closed || (n in s.open && s.open[n].g <= g) then s
    else s.(open := s.open[n := Mark(g, s.closed[c].trail + [n])])
  }

  lemma RelaxKeepsClosed(pb: Problem, s: State, c: Cell, n: Cell)
    requires c in s.closed
    ensures Relax(pb, s, c, n).closed == s.closed
  {
  }

  /** Offering `c` as predecessor of `n` re-scores the only open cell. */
  ghost predicate RescoresLast(pb: Problem, s: State, c: Cell, n: Cell)
    requires c in s.closed
  {
    n !in s.closed && s.open.Keys == {n} && s.closed[c].g + pb.dist(n, c) < s.open[n].g
  }

  // ----- the invariant

  /** The trail of `c` is a path of cost g whose inner cells are closed, each
      holding its own piece of the trail. */
  ghost predicate TrailOk(pb: Problem, closed: map<Cell, Mark>, c: Cell, m: Mark) {
    && IsPath(pb.free, m.trail, pb.start, c)
    && m.g == Cost(pb.dist, m.trail)
    && forall i :: 0 <= i < |m.trail| - 1 ==>
         m.trail[i] in closed && closed[m.trail[i]].trail == m.trail[..i + 1]
  }

  ghost predicate Trails(pb: Problem, s: State) {
    && (forall c :: c in s.open ==> TrailOk(pb, s.closed, c, s.open[c]))
    && (forall c :: c in s.closed ==> TrailOk(pb, s.closed, c, s.closed[c]))
  }

  ghost predicate ClosedBelowOpen(pb: Problem, s: State) {
    forall c, o :: c in s.closed && o in s.open ==> F(pb, c, s.closed[c]) <= F(pb, o, s.open[o])
  }

  /** `n` has been reached at a score of at most `g`. */
  ghost predicate ReachedWithin(s: State, n: Cell, g: real) {
    || (n in s.closed && s.closed[n].g <= g)
    || (n in s.open && s.open[n].g <= g)
  }

  ghost predicate Relaxed(pb: Problem, s: State, c: Cell, n: Cell)
    requires c in s.closed
  {
    ReachedWithin(s, n, s.closed[c].g + pb.dist(n, c))
  }

  /** The neighbours of closed cells have been relaxed, except for the
      neighbours `todo` of the cell closed last, `cur`. */
  ghost predicate Settled(pb: Problem, s: State, cur: Cell, todo: set<Cell>) {
    forall c, n :: c in s.closed && Step(pb.free, c, n) && !(c == cur && n in todo) ==> Relaxed(pb, s, c, n)
  }

  ghost predicate Inv(pb: Problem, s: State, cur: Cell, todo: set<Cell>) {
    && IsMetric(pb.dist)
    && s.open.Keys !! s.closed.Keys
    && pb.goal !in s.closed
    && Trails(pb, s)
    && ClosedBelowOpen(pb, s)
    && Settled(pb, s, cur, todo)
    && ReachedWithin(s, pb.start, 0.0)
  }

  /** `cur` was closed last: no closed cell has a greater sort value. */
  ghost predicate LastClosed(pb: Problem, s: State, cur: Cell) {
    && cur in s.closed
    && forall c :: c in s.closed ==> F(pb, c, s.closed[c]) <= F(pb, cur, s.closed[cur])
  }

  ghost function Neighbours(free: set<Cell>, c: Cell): set<Cell> {
    set n | n in free && Step(free, c, n)
  }

  ghost predicate IsLeast(pb: Problem, s: State, c: Cell)
    requires c in s.open
  {
    forall o :: o in s.open ==> F(pb, c, s.open[c]) <= F(pb, o, s.open[o])
  }

  lemma InitialInv(pb: Problem)
    requires IsMetric(pb.dist)
    ensures Inv(pb, Initial(pb), pb.start, {})
  {
  }

  // --- closing the least open cell

  lemma CloseKeepsTrails(pb: Problem, s: State, c: Cell)
    requires Trails(pb, s) && c in s.open && s.open.Keys !! s.closed.Keys
    ensures Trails(pb, Close(s, c))
  {
    var t := Close(s, c);
    forall a, m: Mark | TrailOk(pb, s.closed, a, m) ensures TrailOk(pb, t.closed, a, m) {
      forall i | 0 <= i < |m.trail| - 1
        ensures m.trail[i] in t.closed && t.closed[m.trail[i]].trail == m.trail[..i + 1]
      {
        assert m.trail[i] in s.closed;
      }
    }
  }

  lemma CloseKeepsSettled(pb: Problem, s: State, cur: Cell, c: Cell)
    requires Settled(pb, s, cur, {}) && c in s.open && s.open.Keys !! s.closed.Keys
    ensures Settled(pb, Close(s, c), c, Neighbours(pb.free, c))
  {
    var t := Close(s, c);
    forall a, n | a in t.closed && Step(pb.free, a, n) && !(a == c && n in Neighbours(pb.free, c))
      ensures Relaxed(pb, t, a, n)
    {
      assert Relaxed(pb, s, a, n);
    }
  }

  lemma CloseInv(pb: Problem, s: State, cur: Cell, c: Cell)
    requires Inv(pb, s, cur, {})
    requires c in s.open && c != pb.goal && IsLeast(pb, s, c)
    ensures Inv(pb, Close(s, c), c, Neighbours(pb.free, c))
    ensures LastClosed(pb, Close(s, c), c)
  {
    CloseKeepsTrails(pb, s, c);
    CloseKeepsSettled(pb, s, cur, c);
  }

  // --- relaxing one neighbour of the cell closed last

  lemma ExtendTrail(pb: Problem, s: State, c: Cell, n: Cell)
    requires c in s.closed && TrailOk(pb, s.closed, c, s.closed[c]) && Step(pb.free, c, n)
    ensures TrailOk(pb, s.closed, n, Mark(s.closed[c].g + pb.dist(n, c), s.closed[c].trail + [n]))
  {
    var init := s.closed[c].trail;
    var trail := init + [n];
    assert trail[..|trail| - 1] == init;
    forall i | 0 <= i < |trail| - 1
      ensures trail[i] in s.closed && s.closed[trail[i]].trail == trail[..i + 1]
    {
      if i == |init| - 1 {
        assert trail[..i + 1] == init;
      } else {
        assert trail[..i + 1] == init[..i + 1];
      }
    }
  }

  /** A neighbour that was closed earlier already has a score that a step from
      `cur` cannot better: nothing is ever reopened. */
  lemma ClosedIsSettled(pb: Problem, s: State, cur: Cell, n: Cell)
    requires IsMetric(pb.dist) && LastClosed(pb, s, cur) && n in s.closed
    ensures s.closed[n].g <= s.closed[cur].g + pb.dist(n, cur)
  {
    assert Triangle(pb.dist, cur, n, pb.goal);
  }

  lemma RelaxKeepsSettled(pb: Problem, s: State, cur: Cell, todo: set<Cell>, n: Cell)
    requires IsMetric(pb.dist) && Settled(pb, s, cur, todo) && LastClosed(pb, s, cur)
    ensures Settled(pb, Relax(pb, s, cur, n), cur, todo - {n})
  {
    hide IsMetric, Step;
    if n in s.closed {
      ClosedIsSettled(pb, s, cur, n);
    }
    forall a, b | a in s.closed && Step(pb.free, a, b) && !(a == cur && b in todo - {n})
      ensures Relaxed(pb, Relax(pb, s, cur, n), a, b)
    {
      if !(a == cur && b == n) {
        assert Relaxed(pb, s, a, b);
      }
    }
  }

  lemma RelaxKeepsOrder(pb: Problem, s: State, cur: Cell, n: Cell)
    requires ClosedBelowOpen(pb, s) && LastClosed(pb, s, cur)
    requires pb.dist(cur, pb.goal) <= pb.dist(n, cur) + pb.dist(n, pb.goal)
    ensures ClosedBelowOpen(pb, Relax(pb, s, cur, n))
  {
    var t := Relax(pb, s, cur, n);
    forall c, o | c in t.closed && o in t.open
      ensures F(pb, c, t.closed[c]) <= F(pb, o, t.open[o])
    {
      assert F(pb, c, t.closed[c]) <= F(pb, cur, t.closed[cur]);
    }
  }

  lemma RelaxKeepsTrails(pb: Problem, s: State, cur: Cell, n: Cell)
    requires Trails(pb, s) && cur in s.closed && Step(pb.free, cur, n)
    ensures Trails(pb, Relax(pb, s, cur, n))
  {
    var t := Relax(pb, s, cur, n);
    forall c | c in t.open ensures TrailOk(pb, t.closed, c, t.open[c]) {
      if c == n {
        ExtendTrail(pb, s, cur, n);
      }
    }
  }

  lemma RelaxInv(pb: Problem, s: State, cur: Cell, todo: set<Cell>, n: Cell)
    requires Inv(pb, s, cur, todo) && LastClosed(pb, s, cur)
    requires Step(pb.free, cur, n)
    ensures Inv(pb, Relax(pb, s, cur, n), cur, todo - {n})
    ensures LastClosed(pb, Relax(pb, s, cur, n), cur)
  {
    RelaxKeepsTrails(pb, s, cur, n);
    RelaxKeepsSettled(pb, s, cur, todo, n);
    assert Triangle(pb.dist, cur, n, pb.goal);
    RelaxKeepsOrder(pb, s, cur, n);
  }

  // ----- what the invariant gives when the search stops

  /** Along any path from the start, either some cell of it is open and was
      reached no dearer than along the path, or its end is closed and was. */
  lemma {:induction false} Frontier(pb: Problem, s: State, cur: Cell, path: seq<Cell>, to: Cell) returns (k: nat)
    requires Inv(pb, s, cur, {})
    requires IsPath(pb.free, path, pb.start, to)
    ensures k < |path|
    ensures
      || (path[k] in s.open && s.open[path[k]].g <= Cost(pb.dist, path[..k + 1]))
      || (k == |path| - 1 && to in s.closed && s.closed[to].g <= Cost(pb.dist, path))
  {
    if |path| == 1 {
      k := 0;
      assert path[..1] == path;
    } else {
      var init := path[..|path| - 1];
      var last := path[|path| - 2];
      k := Frontier(pb, s, cur, init, last);
      assert init[..k + 1] == path[..k + 1];
      if !(path[k] in s.open && s.open[path[k]].g <= Cost(pb.dist, path[..k + 1])) {
        k := |path| - 1;
        assert path[..k + 1] == path;
        assert Relaxed(pb, s, last, to);
      }
    }
  }

  /** When the goal is the least open cell its trail costs no more than any
      path from start to goal. */
  lemma GoalPoppedIsOptimal(pb: Problem, s: State, cur: Cell)
    requires Inv(pb, s, cur, {})
    requires pb.goal in s.open
    requires IsLeast(pb, s, pb.goal)
    ensures Optimal(pb, s.open[pb.goal].trail)
    ensures NoRepeats(s.open[pb.goal].trail)
  {
    forall path | IsPath(pb.free, path, pb.start, pb.goal)
      ensures s.open[pb.goal].g <= Cost(pb.dist, path)
    {
      var k := Frontier(pb, s, cur, path, pb.goal);
      var o := path[k];
      CostSplits(pb.dist, path, k);
      EstimateBoundsPath(pb.free, pb.dist, path[k..], o, pb.goal);
      assert F(pb, pb.goal, s.open[pb.goal]) <= F(pb, o, s.open[o]);
    }
    TrailHasNoRepeats(pb, s, cur, pb.goal);
  }

  /** When nothing is open any more, no path leads to the goal. */
  lemma NothingOpenIsUnsolvable(pb: Problem, s: State, cur: Cell)
    requires Inv(pb, s, cur, {})
    requires s.open == map[]
    ensures !Solvable(pb)
  {
    forall path | IsPath(pb.free, path, pb.start, pb.goal) ensures false {
      var k := Frontier(pb, s, cur, path, pb.goal);
      assert false;
    }
  }

  /** Following back links never comes round to the same cell. */
  lemma TrailHasNoRepeats(pb: Problem, s: State, cur: Cell, c: Cell)
    requires Inv(pb, s, cur, {})
    requires c in s.open
    ensures NoRepeats(s.open[c].trail)
  {
    var trail := s.open[c].trail;
    forall i, j | 0 <= i < j < |trail| ensures trail[i] != trail[j] {
      assert trail[i] in s.closed && s.closed[trail[i]].trail == trail[..i + 1];
      if j < |trail| - 1 {
        assert s.closed[trail[j]].trail == trail[..j + 1];
        assert |trail[..i + 1]| < |trail[..j + 1]|;
      }
    }
  }
}
