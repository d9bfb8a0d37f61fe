/** The one input family the search code does not survive. */
module LostList {
  import opened Grid
  import opened Search
  import opened SearchRuns

  lemma Root(d: Distance, a: Cell, b: Cell, r: real)
    requires IsStraightLine(d) && 0.0 <= r && r * r == SquaredLength(a, b) as real
    ensures d(a, b) == r
  {
    assert 0.0 <= d(a, b) && d(a, b) * d(a, b) == r * r;
    SquaresOrder(d(a, b), r);
    SquaresOrder(r, d(a, b));
  }

  lemma SameRoot(d: Distance, a: Cell, b: Cell, a': Cell, b': Cell)
    requires IsStraightLine(d) && SquaredLength(a, b) == SquaredLength(a', b')
    ensures d(a, b) == d(a', b')
  {
    SquaresOrder(d(a, b), d(a', b'));
    SquaresOrder(d(a', b'), d(a, b));
  }

  lemma RootBetween(d: Distance, a: Cell, b: Cell, low: real, high: real)
    requires IsStraightLine(d) && 0.0 <= low && low * low < SquaredLength(a, b) as real < high * high && low < high
    ensures low < d(a, b) < high
  {
    SquaresStrict(low, d(a, b));
    SquaresStrict(d(a, b), high);
  }

  lemma SquaresStrict(p: real, q: real)
    requires 0.0 <= q && p * p < q * q
    ensures p < q
  {
    SquaresOrder(p, q);
  }

  const START := Cell(44, 35)
  const LOW := Cell(45, 35)
  const DIAGONAL := Cell(45, 36)
  const END := Cell(46, 35)

  /** The one goal of the planner: 7.0, 7.0 on the grid. */
  const GOAL := Cell(45, 45)

  /** The cells of a way from END to the goal. */
  const WAY := (set y | 35 <= y < 46 :: Cell(47, y)) + {Cell(46, 45), GOAL}

  const FREE := {START, LOW, DIAGONAL, END} + WAY

  /** Scores along the two ways round in `LastOpenNodeIsRescored`. */
  ghost predicate Scores(d: Distance) {
    && d(LOW, START) == 1.0 && d(END, LOW) == 1.0 && d(LOW, DIAGONAL) == 1.0
    && d(DIAGONAL, START) == d(END, DIAGONAL) && 1.4 < d(DIAGONAL, START) < 1.5
    && d(LOW, GOAL) == 10.0 && d(DIAGONAL, GOAL) == 9.0 && d(END, GOAL) > 10.0
  }

  lemma DetourScores(d: Distance)
    requires IsStraightLine(d)
    ensures Scores(d)
  {
    hide IsStraightLine;
    Root(d, LOW, START, 1.0);
    Root(d, END, LOW, 1.0);
    Root(d, LOW, GOAL, 10.0);
    Root(d, DIAGONAL, GOAL, 9.0);
    Root(d, LOW, DIAGONAL, 1.0);
    SameRoot(d, DIAGONAL, START, END, DIAGONAL);
    RootBetween(d, DIAGONAL, START, 1.4, 1.5);
    RootBetween(d, END, GOAL, 10.0, 11.0);
  }

  lemma DetourNeighbours()
    ensures Neighbours(FREE, START) == {LOW, DIAGONAL}
    ensures Neighbours(FREE, DIAGONAL) == {START, LOW, END}
    ensures Neighbours(FREE, LOW) == {START, DIAGONAL, END}
  {
  }

  lemma GoalIsReached()
    ensures exists path :: IsPath(FREE, path, START, GOAL)
  {
    var up := seq(11, i => Cell(47, 35 + i));
    var path := [START, LOW, END] + up + [Cell(46, 45), GOAL];
    assert forall i :: 3 <= i < 14 ==> path[i] == Cell(47, 32 + i);
    forall i | 0 <= i < |path| - 1 ensures Step(FREE, path[i], path[i + 1]) {
      if 3 <= i < 13 {
        assert path[i + 1] == Cell(47, 33 + i);
      }
    }
    assert IsPath(FREE, path, START, GOAL);
  }

  ghost function Detour(d: Distance): Problem {
    Problem(FREE, START, GOAL, d)
  }

  ghost function AfterStart(d: Distance): State {
    var pb := Detour(d);
    Relax(pb, Relax(pb, Close(Initial(pb), START), START, LOW), START, DIAGONAL)
  }

  lemma DiagonalIsNext(d: Distance)
    requires Scores(d)
    ensures AfterStart(d).closed.Keys == {START} && AfterStart(d).open.Keys == {LOW, DIAGONAL}
    ensures AfterStart(d).open[LOW].g == 1.0 && AfterStart(d).open[DIAGONAL].g == d(DIAGONAL, START)
    ensures IsLeast(Detour(d), AfterStart(d), DIAGONAL)
  {
    var pb := Detour(d);
    var s := Close(Initial(pb), START);
    assert s.open.Keys == {} && s.closed.Keys == {START} && s.closed[START].g == 0.0;
    var t := Relax(pb, s, START, LOW);
    assert t.closed == s.closed && t.open.Keys == {LOW} && t.open[LOW].g == 1.0;
  }

  ghost function AfterDiagonal(d: Distance): (s: State)
    requires DIAGONAL in AfterStart(d).open
  {
    var pb := Detour(d);
    Relax(pb, Relax(pb, Relax(pb, Close(AfterStart(d), DIAGONAL), DIAGONAL, START), DIAGONAL, LOW), DIAGONAL, END)
  }

  lemma LowIsNext(d: Distance)
    requires Scores(d) && DIAGONAL in AfterStart(d).open
    ensures var s := AfterDiagonal(d);
      && s.open.Keys == {LOW, END} && s.open[LOW].g == 1.0 && s.open[END].g == 2.0 * d(DIAGONAL, START)
      && s.closed.Keys == {START, DIAGONAL} && IsLeast(Detour(d), s, LOW)
  {
    var pb := Detour(d);
    DiagonalIsNext(d);
    hide AfterStart;
    var s := Close(AfterStart(d), DIAGONAL);
    assert s.open.Keys == {LOW} && s.open[LOW].g == 1.0 && s.closed.Keys == {START, DIAGONAL};
    assert Relax(pb, s, DIAGONAL, START) == s;
    assert Relax(pb, s, DIAGONAL, LOW) == s;
  }

  lemma EndIsLast(d: Distance)
    requires Scores(d) && DIAGONAL in AfterStart(d).open && LOW in AfterDiagonal(d).open
    ensures var s := Close(AfterDiagonal(d), LOW);
      && Relax(Detour(d), Relax(Detour(d), s, LOW, START), LOW, DIAGONAL) == s
      && RescoresLast(Detour(d), s, LOW, END)
  {
    DiagonalIsNext(d);
    LowIsNext(d);
    hide AfterStart, AfterDiagonal;
  }

  lemma Apart()
    ensures {LOW, DIAGONAL} - {LOW} == {DIAGONAL} && {START, LOW, END} - {START} == {LOW, END}
    ensures {LOW, END} - {LOW} == {END} && {START, DIAGONAL, END} - {START} == {DIAGONAL, END}
    ensures {DIAGONAL, END} - {DIAGONAL} == {END}
    ensures forall c: Cell :: {c} - {c} == {}
  {
  }

  lemma FirstMoves(d: Distance) returns (run: seq<Moment>)
    requires Scores(d)
    ensures Run(Detour(d), run, Stage(AfterStart(d), START, {}))
  {
    DetourNeighbours();
    Apart();
    hide Neighbours, Relax, Run, Scores;
    var pb := Detour(d);
    StartIsRun(pb);
    run := OneMoreTake(pb, [], Initial(pb), START, START);
    var s := Close(Initial(pb), START);
    run := OneMoreOffer(pb, run, s, START, LOW, {LOW, DIAGONAL}, {DIAGONAL});
    run := OneMoreOffer(pb, run, Relax(pb, s, START, LOW), START, DIAGONAL, {DIAGONAL}, {});
  }

  lemma MoreMoves(d: Distance, first: seq<Moment>) returns (run: seq<Moment>)
    requires Scores(d) && Run(Detour(d), first, Stage(AfterStart(d), START, {})) && DIAGONAL in AfterStart(d).open
    ensures Run(Detour(d), run, Stage(AfterDiagonal(d), DIAGONAL, {}))
  {
    DetourNeighbours();
    Apart();
    DiagonalIsNext(d);
    hide Neighbours, Relax, Run, IsLeast, AfterStart, Scores;
    var pb, s := Detour(d), Close(AfterStart(d), DIAGONAL);
    run := OneMoreTake(pb, first, AfterStart(d), START, DIAGONAL);
    run := OneMoreOffer(pb, run, s, DIAGONAL, START, {START, LOW, END}, {LOW, END});
    var t := Relax(pb, s, DIAGONAL, START);
    run := OneMoreOffer(pb, run, t, DIAGONAL, LOW, {LOW, END}, {END});
    run := OneMoreOffer(pb, run, Relax(pb, t, DIAGONAL, LOW), DIAGONAL, END, {END}, {});
  }

  lemma LastMoves(d: Distance, first: seq<Moment>) returns (run: seq<Moment>, end: Stage)
    requires Scores(d) && DIAGONAL in AfterStart(d).open
    requires Run(Detour(d), first, Stage(AfterDiagonal(d), DIAGONAL, {}))
    ensures Run(Detour(d), run, end) && Loses(Detour(d), run)
  {
    DetourNeighbours();
    Apart();
    LowIsNext(d);
    EndIsLast(d);
    hide Neighbours, Relax, Run, IsLeast, AfterStart, AfterDiagonal, RescoresLast, Scores, Loses;
    var pb, s := Detour(d), Close(AfterDiagonal(d), LOW);
    run := OneMoreTake(pb, first, AfterDiagonal(d), DIAGONAL, LOW);
    run := OneMoreOffer(pb, run, s, LOW, START, {START, DIAGONAL, END}, {DIAGONAL, END});
    run := OneMoreOffer(pb, run, Relax(pb, s, LOW, START), LOW, DIAGONAL, {DIAGONAL, END}, {END});
    run := OneMoreOffer(pb, run, s, LOW, END, {END}, {});
    end := Stage(Relax(pb, s, LOW, END), LOW, {});
  }

  /** A run of the search, in the order in which the code considers neighbours,
      on which the only open node gets a better score although a path to the
      planner's goal exists: it closes START, DIAGONAL and LOW, when END alone is
      open, and re-scores END by way of LOW. There `removeNode` leaves no list
      cell, and the `addNode` that follows dereferences a null pointer. */
  lemma LastOpenNodeIsRescored(d: Distance) returns (pb: Problem, run: seq<Moment>, end: Stage)
    requires IsStraightLine(d)
    ensures pb == Problem(FREE, START, GOAL, d) && (forall c :: c in FREE ==> InGrid(c))
    ensures Solvable(pb)
    ensures Run(pb, run, end) && Loses(pb, run)
  {
    GoalIsReached();
    hide Scores, IsStraightLine, Run, Loses;
    DetourScores(d);
    DiagonalIsNext(d);
    pb := Detour(d);
    run := FirstMoves(d);
    run := MoreMoves(d, run);
    run, end := LastMoves(d, run);
  }

  lemma StartIsRun(pb: Problem)
    ensures Run(pb, [], Start(pb))
  {
  }
}
