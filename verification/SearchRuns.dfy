/** The runs of the search: which cells it closes and which neighbours it
    considers, in what order, and the runs on which the code loses its open
    list. */
module SearchRuns {
  import opened Grid
  import opened Search

  /** The search with the cell closed last and its neighbours still to consider. */
  datatype Stage = Stage(s: State, cur: Cell, todo: set<Cell>)

  /** Closing the open cell c, or considering the neighbour n of the cell c. */
  datatype Move = Take(c: Cell) | Offer(c: Cell, n: Cell)

  datatype Moment = Moment(before: Stage, move: Move)

  ghost function Start(pb: Problem): Stage {
    Stage(Initial(pb), pb.start, {})
  }

  /** A least open cell is closed, not the goal, and only when all neighbours of
      the one before have been considered. */
  ghost predicate Allowed(pb: Problem, x: Stage, m: Move) {
    match m
    case Take(c) => x.todo == {} && c != pb.goal && c in x.s.open && IsLeast(pb, x.s, c)
    case Offer(c, n) => c == x.cur && c in x.s.closed && n in x.todo
  }

  ghost function Next(pb: Problem, x: Stage, m: Move): Stage
    requires Allowed(pb, x, m)
  {
    match m
    case Take(c) => Stage(Close(x.s, c), c, Neighbours(pb.free, c))
    case Offer(c, n) => Stage(Relax(pb, x.s, c, n), c, x.todo - {n})
  }

  /** The moments of a run from the start to the stage `end`. */
  ghost predicate Run(pb: Problem, run: seq<Moment>, end: Stage) {
    if run == [] then end == Start(pb)
    else
      var last := run[|run| - 1];
      && Run(pb, run[..|run| - 1], last.before)
      && Allowed(pb, last.before, last.move)
      && end == Next(pb, last.before, last.move)
  }

  /** The run stops: the goal is a least open cell, or nothing is open. */
  ghost predicate Stops(pb: Problem, x: Stage, solution: bool) {
    && x.todo == {}
    && if solution then pb.goal in x.s.open && IsLeast(pb, x.s, pb.goal) else x.s.open == map[]
  }

  /** The move re-scores the only open cell. */
  ghost predicate LosesAt(pb: Problem, now: Moment) {
    now.move.Offer? && now.move.c in now.before.s.closed && RescoresLast(pb, now.before.s, now.move.c, now.move.n)
  }

  ghost predicate Loses(pb: Problem, run: seq<Moment>) {
    exists i :: 0 <= i < |run| && LosesAt(pb, run[i])
  }

  lemma OneMoreMove(pb: Problem, run: seq<Moment>, x: Stage, m: Move) returns (longer: seq<Moment>)
    requires Run(pb, run, x) && Allowed(pb, x, m)
    ensures longer == run + [Moment(x, m)] && Run(pb, longer, Next(pb, x, m))
    ensures Loses(pb, longer) <==> Loses(pb, run) || LosesAt(pb, Moment(x, m))
  {
    longer := run + [Moment(x, m)];
    assert longer[..|longer| - 1] == run;
    hide Run, LosesAt;
    if Loses(pb, run) {
      var i :| 0 <= i < |run| && LosesAt(pb, run[i]);
      assert longer[i] == run[i];
    }
    if LosesAt(pb, Moment(x, m)) {
      assert longer[|run|] == Moment(x, m);
    }
  }

  lemma OneMoreOffer(pb: Problem, run: seq<Moment>, s: State, c: Cell, n: Cell, todo: set<Cell>, rest: set<Cell>)
    returns (longer: seq<Moment>)
    requires Run(pb, run, Stage(s, c, todo)) && c in s.closed && n in todo && rest == todo - {n}
    ensures Run(pb, longer, Stage(Relax(pb, s, c, n), c, rest))
    ensures Relax(pb, s, c, n).closed == s.closed
    ensures Loses(pb, longer) <==> Loses(pb, run) || RescoresLast(pb, s, c, n)
  {
    hide Loses, RescoresLast, Run;
    longer := OneMoreMove(pb, run, Stage(s, c, todo), Offer(c, n));
  }

  lemma OneMoreTake(pb: Problem, run: seq<Moment>, s: State, cur: Cell, c: Cell) returns (longer: seq<Moment>)
    requires Run(pb, run, Stage(s, cur, {})) && c in s.open && c != pb.goal && IsLeast(pb, s, c)
    ensures Run(pb, longer, Stage(Close(s, c), c, Neighbours(pb.free, c)))
    ensures Loses(pb, longer) <==> Loses(pb, run)
  {
    hide Loses, Run, IsLeast, Neighbours;
    longer := OneMoreMove(pb, run, Stage(s, cur, {}), Take(c));
  }

  /** A run has led to the stage, and `lost` says whether the list was lost on
      the way. */
  ghost predicate Ran(pb: Problem, run: seq<Moment>, s: State, cur: Cell, todo: set<Cell>, lost: bool) {
    Run(pb, run, Stage(s, cur, todo)) && (lost <==> Loses(pb, run))
  }

  lemma RanNothing(pb: Problem)
    ensures Ran(pb, [], Initial(pb), pb.start, {}, false)
  {
  }

  lemma RanOffer(pb: Problem, run: seq<Moment>, s: State, c: Cell, n: Cell, todo: set<Cell>, before: bool, now: bool)
    returns (longer: seq<Moment>)
    requires Ran(pb, run, s, c, todo, before) && c in s.closed && n in todo
    requires now <==> RescoresLast(pb, s, c, n)
    ensures Ran(pb, longer, Relax(pb, s, c, n), c, todo - {n}, before || now)
  {
    hide Run, Loses, RescoresLast, Relax;
    longer := OneMoreOffer(pb, run, s, c, n, todo, todo - {n});
  }

  lemma RanTake(pb: Problem, run: seq<Moment>, s: State, cur: Cell, c: Cell, lost: bool) returns (longer: seq<Moment>)
    requires Ran(pb, run, s, cur, {}, lost) && c in s.open && c != pb.goal && IsLeast(pb, s, c)
    ensures Ran(pb, longer, Close(s, c), c, Neighbours(pb.free, c), lost)
  {
    hide Run, Loses, IsLeast, Neighbours;
    longer := OneMoreTake(pb, run, s, cur, c);
  }

  // ----- what every run keeps

  /** No closed cell has a sort value above the cost of a path to the goal. */
  ghost predicate NoneDear(pb: Problem, s: State) {
    forall c, path :: c in s.closed && IsPath(pb.free, path, pb.start, pb.goal) ==>
      F(pb, c, s.closed[c]) <= Cost(pb.dist, path)
  }

  /** The start is closed first. */
  ghost predicate StartFirst(pb: Problem, x: Stage) {
    || (x.s.open.Keys == {pb.start} && x.s.closed == map[] && x.todo == {})
    || (pb.start in x.s.closed && LastClosed(pb, x.s, x.cur) && (x.cur == pb.start ==> x.s.closed.Keys == {pb.start}))
  }

  ghost predicate Kept(pb: Problem, x: Stage) {
    && Inv(pb, x.s, x.cur, x.todo)
    && x.todo <= Neighbours(pb.free, x.cur)
    && NoneDear(pb, x.s)
    && StartFirst(pb, x)
  }

  lemma LeastIsNotDear(pb: Problem, x: Stage, c: Cell)
    requires Inv(pb, x.s, x.cur, {}) && c in x.s.open && IsLeast(pb, x.s, c) && c != pb.goal
    requires NoneDear(pb, x.s)
    ensures NoneDear(pb, Close(x.s, c))
  {
    forall path | IsPath(pb.free, path, pb.start, pb.goal) ensures F(pb, c, x.s.open[c]) <= Cost(pb.dist, path) {
      var k := Frontier(pb, x.s, x.cur, path, pb.goal);
      CostSplits(pb.dist, path, k);
      EstimateBoundsPath(pb.free, pb.dist, path[k..], path[k], pb.goal);
    }
  }

  lemma TakeKeeps(pb: Problem, x: Stage, c: Cell)
    requires Kept(pb, x) && Allowed(pb, x, Take(c))
    ensures Kept(pb, Next(pb, x, Take(c)))
  {
    CloseInv(pb, x.s, x.cur, c);
    LeastIsNotDear(pb, x, c);
  }

  lemma OfferKeeps(pb: Problem, x: Stage, c: Cell, n: Cell)
    requires Kept(pb, x) && Allowed(pb, x, Offer(c, n))
    ensures Kept(pb, Next(pb, x, Offer(c, n)))
  {
    RelaxInv(pb, x.s, c, x.todo, n);
  }

  lemma {:induction false} RunKeeps(pb: Problem, run: seq<Moment>, x: Stage)
    requires IsMetric(pb.dist) && Run(pb, run, x)
    ensures Kept(pb, x)
  {
    hide Kept, Allowed, Next;
    if run == [] {
      StartKept(pb);
    } else {
      var last := run[|run| - 1];
      RunKeeps(pb, run[..|run| - 1], last.before);
      match last.move
      case Take(c) => TakeKeeps(pb, last.before, c);
      case Offer(c, n) => OfferKeeps(pb, last.before, c, n);
    }
  }

  lemma StartKept(pb: Problem)
    requires IsMetric(pb.dist)
    ensures Kept(pb, Start(pb))
  {
    InitialInv(pb);
  }

  lemma RanKeeps(pb: Problem, run: seq<Moment>, s: State, cur: Cell, todo: set<Cell>, lost: bool)
    requires IsMetric(pb.dist) && Ran(pb, run, s, cur, todo, lost)
    ensures Inv(pb, s, cur, todo) && Trails(pb, s) && s.open.Keys !! s.closed.Keys
  {
    hide Run, Loses, IsMetric, NoneDear, StartFirst, Trails, ClosedBelowOpen, Settled;
    RunKeeps(pb, run, Stage(s, cur, todo));
  }

  // ----- maps on which the list is never lost

  /** So far from start and goal that a path to the goal is shorter. */
  ghost predicate TooFar(pb: Problem, t: Cell) {
    exists way :: IsPath(pb.free, way, pb.start, pb.goal)
                  && Cost(pb.dist, way) < pb.dist(pb.start, t) + pb.dist(t, pb.goal)
  }

  ghost predicate Avoids(pb: Problem, path: seq<Cell>, to: Cell, a: Cell, b: Cell) {
    IsPath(pb.free, path, pb.start, to) && a !in path && b !in path && (to == pb.goal || TooFar(pb, to))
  }

  /** No two neighbouring cells part the start from the goal and from all cells
      that are too far for the search to close. */
  ghost predicate Roomy(pb: Problem) {
    forall a, b :: a != pb.start && b != pb.start && Step(pb.free, a, b) ==>
      exists path, to :: Avoids(pb, path, to, a, b)
  }

  lemma {:induction false} Crossing(path: seq<Cell>, inside: set<Cell>) returns (i: nat)
    requires path != [] && path[0] in inside && path[|path| - 1] !in inside
    ensures i + 1 < |path| && path[i] in inside && path[i + 1] !in inside
  {
    if path[|path| - 2] in inside {
      i := |path| - 2;
    } else {
      i := Crossing(path[..|path| - 1], inside);
    }
  }

  lemma TooFarIsOpen(pb: Problem, x: Stage, t: Cell)
    requires Kept(pb, x) && TooFar(pb, t)
    ensures t !in x.s.closed
  {
    if t in x.s.closed {
      var way :| IsPath(pb.free, way, pb.start, pb.goal)
                 && Cost(pb.dist, way) < pb.dist(pb.start, t) + pb.dist(t, pb.goal);
      assert TrailOk(pb, x.s.closed, t, x.s.closed[t]);
      EstimateBoundsPath(pb.free, pb.dist, x.s.closed[t].trail, pb.start, t);
    }
  }

  lemma OneStepTrail(free: set<Cell>, trail: seq<Cell>, start: Cell, n: Cell)
    requires IsPath(free, trail, start, n) && n != start
    requires forall i :: 0 <= i < |trail| - 1 ==> trail[i] == start
    ensures trail == [start, n]
  {
    forall i | 0 <= i < |trail| - 1 ensures trail[i] != trail[i + 1] {
      assert Step(free, trail[i], trail[i + 1]);
    }
    var second := if |trail| > 1 then trail[1] else n;
    assert second == n;
  }

  /** From the start itself, no neighbour gets a better score. */
  lemma StartScoresOnce(pb: Problem, x: Stage, n: Cell)
    requires Kept(pb, x) && pb.start in x.s.closed && x.cur == pb.start && n in x.s.open
    ensures x.s.open[n].g <= x.s.closed[pb.start].g + pb.dist(n, pb.start)
  {
    var g, trail := x.s.closed[pb.start].g, x.s.open[n].trail;
    assert TrailOk(pb, x.s.closed, n, x.s.open[n]);
    assert TrailOk(pb, x.s.closed, pb.start, x.s.closed[pb.start]);
    hide Settled, ClosedBelowOpen, NoneDear, LastClosed, Trails;
    OneStepTrail(pb.free, trail, pb.start, n);
    assert trail[..1] == [pb.start];
    EstimateBoundsPath(pb.free, pb.dist, x.s.closed[pb.start].trail, pb.start, pb.start);
  }

  /** The search crosses into a cell that is open and is neither of the two. */
  lemma OtherwiseOpen(pb: Problem, x: Stage, n: Cell, path: seq<Cell>, to: Cell)
    requires Kept(pb, x) && pb.start in x.s.closed && Avoids(pb, path, to, x.cur, n)
    ensures x.s.open.Keys != {n}
  {
    if to != pb.goal {
      TooFarIsOpen(pb, x, to);
    }
    var i := Crossing(path, x.s.closed.Keys);
    assert Step(pb.free, path[i], path[i + 1]);
    assert path[i] in path && path[i + 1] in path;
    assert Relaxed(pb, x.s, path[i], path[i + 1]);
    assert path[i + 1] in x.s.open;
  }

  lemma RoomyKeepsTheList(pb: Problem, x: Stage, c: Cell, n: Cell)
    requires Kept(pb, x) && Roomy(pb) && Allowed(pb, x, Offer(c, n))
    ensures !LosesAt(pb, Moment(x, Offer(c, n)))
  {
    if RescoresLast(pb, x.s, c, n) {
      if c == pb.start {
        StartScoresOnce(pb, x, n);
      } else {
        assert Step(pb.free, c, n) && n != pb.start;
        var path, to :| Avoids(pb, path, to, c, n);
        OtherwiseOpen(pb, x, n, path, to);
      }
    }
  }

  /** On a roomy map no run of the search ever re-scores the only open cell. */
  lemma {:induction false} RoomyNeverLoses(pb: Problem, run: seq<Moment>, x: Stage)
    requires IsMetric(pb.dist) && Roomy(pb) && Run(pb, run, x)
    ensures !Loses(pb, run)
  {
    hide Kept, LosesAt, Roomy, IsMetric, Next;
    if run != [] {
      var last := run[|run| - 1];
      RoomyNeverLoses(pb, run[..|run| - 1], last.before);
      RunKeeps(pb, run[..|run| - 1], last.before);
      match last.move {
        case Take(c) => TakeNeverLoses(pb, last);
        case Offer(c, n) => RoomyKeepsTheList(pb, last.before, c, n);
      }
      forall i | 0 <= i < |run| ensures !LosesAt(pb, run[i]) {
        if i < |run| - 1 {
          assert run[..|run| - 1][i] == run[i];
        }
      }
    }
  }

  lemma TakeNeverLoses(pb: Problem, now: Moment)
    requires now.move.Take?
    ensures !LosesAt(pb, now)
  {
  }

  /** There are roomy maps: when the start is next to the goal and, away from the
      goal, next to some other cell that is a detour, then whatever else is free. */
  lemma RoomyNextToTheGoal(pb: Problem, t: Cell)
    requires Step(pb.free, pb.start, pb.goal) && Step(pb.free, pb.start, t) && t != pb.goal
    requires !Step(pb.free, t, pb.goal) && !Step(pb.free, pb.goal, t)
    requires pb.dist(pb.goal, pb.start) < pb.dist(pb.start, t) + pb.dist(t, pb.goal)
    ensures Roomy(pb)
  {
    var way, aside := [pb.start, pb.goal], [pb.start, t];
    hide Step;
    assert way[..1] == [pb.start] && Cost(pb.dist, way) == Cost(pb.dist, [pb.start]) + pb.dist(pb.goal, pb.start);
    assert IsPath(pb.free, way, pb.start, pb.goal) && IsPath(pb.free, aside, pb.start, t);
    assert TooFar(pb, t);
    forall a, b | a != pb.start && b != pb.start && Step(pb.free, a, b)
      ensures exists path, to :: Avoids(pb, path, to, a, b)
    {
      if a == pb.goal || b == pb.goal {
        assert Avoids(pb, aside, t, a, b);
      } else {
        assert Avoids(pb, way, pb.goal, a, b);
      }
    }
  }

  /** When a run stops, its outcome is right. */
  lemma StoppedRunIsRight(pb: Problem, run: seq<Moment>, x: Stage, solution: bool)
    requires IsMetric(pb.dist) && Run(pb, run, x) && Stops(pb, x, solution)
    ensures solution <==> Solvable(pb)
    ensures solution ==> Optimal(pb, x.s.open[pb.goal].trail) && NoRepeats(x.s.open[pb.goal].trail)
  {
    RunKeeps(pb, run, x);
    if solution {
      GoalPoppedIsOptimal(pb, x.s, x.cur);
    } else {
      NothingOpenIsUnsolvable(pb, x.s, x.cur);
    }
  }
}
