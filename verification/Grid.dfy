/** Grid cells, the moves of the planner and the distances it sums.

    Cells off the 48 x 48 map are obstacles: a move enters a cell of `free`,
    and `free` never holds a cell outside the map. */
module Grid {

  const GRID_NUM := 48

  /** The most obstacles an update has room for. */
  const MAX_OBSTACLES := 2042

  datatype Cell = Cell(x: int, y: int)

  type Distance = (Cell, Cell) -> real

  predicate InGrid(c: Cell) {
    0 <= c.x < GRID_NUM && 0 <= c.y < GRID_NUM
  }

  /** One move: to one of the eight cells around `a`, which must be free; a
      diagonal move also needs one of the two cells beside it to be free. */
  predicate Step(free: set<Cell>, a: Cell, b: Cell) {
    && a != b
    && -1 <= b.x - a.x <= 1
    && -1 <= b.y - a.y <= 1
    && b in free
    && (a.x != b.x && a.y != b.y ==> Cell(b.x, a.y) in free || Cell(a.x, b.y) in free)
  }

  ghost predicate IsPath(free: set<Cell>, path: seq<Cell>, from: Cell, to: Cell) {
    && |path| > 0
    && path[0] == from
    && path[|path| - 1] == to
    && forall i :: 0 <= i < |path| - 1 ==> Step(free, path[i], path[i + 1])
  }

  ghost predicate NoRepeats(path: seq<Cell>) {
    forall i, j :: 0 <= i < j < |path| ==> path[i] != path[j]
  }

  /** The sum of the distances of the moves of a path. */
  ghost function Cost(d: Distance, path: seq<Cell>): (cost: real)
    ensures |path| == 2 ==> cost == d(path[1], path[0])
  {
    if |path| <= 1 then 0.0
    else Cost(d, path[..|path| - 1]) + d(path[|path| - 1], path[|path| - 2])
  }

  ghost predicate Triangle(d: Distance, a: Cell, b: Cell, c: Cell) {
    d(a, c) <= d(a, b) + d(b, c)
  }

  ghost predicate IsMetric(d: Distance) {
    && (forall a :: d(a, a) == 0.0)
    && (forall a, b :: d(a, b) == d(b, a))
    && (forall a, b, c :: Triangle(d, a, b, c))
  }

  ghost function SquaredLength(a: Cell, b: Cell): int {
    (a.x - b.x) * (a.x - b.x) + (a.y - b.y) * (a.y - b.y)
  }

  /** What `estDistance` computes when its square root is exact. */
  ghost predicate IsStraightLine(d: Distance) {
    forall a, b :: 0.0 <= d(a, b) && d(a, b) * d(a, b) == SquaredLength(a, b) as real
  }

  lemma SquaresGrow(p: real, q: real)
    requires 0.0 <= p < q
    ensures p * p < q * q
  {
    var diff, sum := q - p, q + p;
    assert diff * sum > 0.0;
    assert diff * sum == q * q - p * p;
  }

  lemma SquaresOrder(p: real, q: real)
    requires 0.0 <= q && p * p <= q * q
    ensures p <= q
  {
    if q < p {
      SquaresGrow(q, p);
    }
  }

  lemma CauchySchwarz(ux: real, uy: real, vx: real, vy: real, p: real, q: real)
    requires 0.0 <= p && 0.0 <= q
    requires p * p == ux * ux + uy * uy
    requires q * q == vx * vx + vy * vy
    ensures ux * vx + uy * vy <= p * q
  {
    var dot, cross := ux * vx + uy * vy, ux * vy - uy * vx;
    var pq := p * q;
    calc {
      pq * pq;
      (p * p) * (q * q);
      (ux * ux + uy * uy) * (vx * vx + vy * vy);
      dot * dot + cross * cross;
    }
    assert cross * cross >= 0.0;
    SquaresOrder(dot, pq);
  }

  lemma SquareOfSum(p: real, q: real)
    ensures (p + q) * (p + q) == p * p + 2.0 * (p * q) + q * q
  {
  }

  lemma RootOfSum(p: real, q: real, r: real, dot: real)
    requires 0.0 <= p + q && dot <= p * q && r * r == p * p + 2.0 * dot + q * q
    ensures r <= p + q
  {
    SquareOfSum(p, q);
    SquaresOrder(r, p + q);
  }

  lemma StraightLineTriangle(d: Distance, a: Cell, b: Cell, c: Cell)
    requires IsStraightLine(d)
    ensures Triangle(d, a, b, c)
  {
    var ux, uy := (a.x - b.x) as real, (a.y - b.y) as real;
    var vx, vy := (b.x - c.x) as real, (b.y - c.y) as real;
    AsReals(a, b);
    AsReals(b, c);
    AsReals(a, c);
    assert (a.x - c.x) as real == ux + vx && (a.y - c.y) as real == uy + vy;
    SquareOfSum(ux, vx);
    SquareOfSum(uy, vy);
    CauchySchwarz(ux, uy, vx, vy, d(a, b), d(b, c));
    RootOfSum(d(a, b), d(b, c), d(a, c), ux * vx + uy * vy);
  }

  lemma AsReals(a: Cell, b: Cell)
    ensures SquaredLength(a, b) as real
         == (a.x - b.x) as real * (a.x - b.x) as real + (a.y - b.y) as real * (a.y - b.y) as real
  {
  }

  /** The straight-line distance meets the hypothesis under which the search
      is proved: it is a metric. */
  lemma StraightLineIsMetric(d: Distance)
    requires IsStraightLine(d)
    ensures IsMetric(d)
  {
    forall a ensures d(a, a) == 0.0 {
      assert SquaredLength(a, a) == 0;
      SquaresOrder(d(a, a), 0.0);
    }
    forall a, b ensures d(a, b) == d(b, a) {
      assert SquaredLength(a, b) == SquaredLength(b, a);
      SquaresOrder(d(a, b), d(b, a));
      SquaresOrder(d(b, a), d(a, b));
    }
    forall a, b, c ensures Triangle(d, a, b, c) {
      StraightLineTriangle(d, a, b, c);
    }
  }

  /** A straight estimate never exceeds the cost of a path. */
  lemma {:induction false} EstimateBoundsPath(free: set<Cell>, d: Distance, path: seq<Cell>, from: Cell, to: Cell)
    requires IsMetric(d) && IsPath(free, path, from, to)
    ensures d(from, to) <= Cost(d, path)
  {
    if |path| == 1 {
    } else {
      var init := path[..|path| - 1];
      var mid := path[|path| - 2];
      EstimateBoundsPath(free, d, init, from, mid);
      assert Triangle(d, from, mid, to);
    }
  }

  /** The cost of a path is the cost of its start plus that of its rest. */
  lemma {:induction false} CostSplits(d: Distance, path: seq<Cell>, k: nat)
    requires k < |path|
    ensures Cost(d, path) == Cost(d, path[..k + 1]) + Cost(d, path[k..])
  {
    if k == |path| - 1 {
      assert path[..k + 1] == path;
    } else {
      var init := path[..|path| - 1];
      CostSplits(d, init, k);
      assert init[..k + 1] == path[..k + 1];
      assert path[k..][..|path| - k - 1] == init[k..];
    }
  }
}
