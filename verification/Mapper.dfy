/** The mapper: sightings counted in place and the update message filled. */
module Mapper {
  import opened Grid
  import S = MapSpec

  /** The last step of `gridify`: the far edge belongs to the last cell. */
  function Edge(v: int): (r: int)
    ensures r != GRID_NUM
    ensures 0 <= r <= GRID_NUM <==> 0 <= v <= GRID_NUM
  {
    if v == GRID_NUM then v - 1 else v
  }

  function Gridified(cells: seq<Cell>): (r: seq<Cell>)
    ensures |r| == |cells|
  {
    seq(|cells|, i requires 0 <= i < |cells| => Cell(Edge(cells[i].x), Edge(cells[i].y)))
  }

  /** How many of the cells count for the cell (x, y): those that are this cell,
      and for the last row and column those on the far edge too. */
  ghost function Hits(cells: seq<Cell>, x: int, y: int): nat {
    var all := multiset(cells);
    all[Cell(x, y)]
    + (if x == 47 then all[Cell(48, y)] else 0)
    + (if y == 47 then all[Cell(x, 48)] else 0)
    + (if x == 47 && y == 47 then all[Cell(48, 48)] else 0)
  }

  lemma {:induction false} HitsAreCounted(cells: seq<Cell>, x: int, y: int)
    requires 0 <= x < 48 && 0 <= y < 48
    ensures multiset(Gridified(cells))[Cell(x, y)] == Hits(cells, x, y)
  {
    if cells != [] {
      var init, last := cells[..|cells| - 1], cells[|cells| - 1];
      var here := Cell(Edge(last.x), Edge(last.y));
      HitsAreCounted(init, x, y);
      assert cells == init + [last];
      assert Gridified(cells) == Gridified(init) + [here];
      hide Gridified;
      OneMore(Gridified(init), here, Cell(x, y));
      OneMore(init, last, Cell(x, y));
      OneMore(init, last, Cell(48, y));
      OneMore(init, last, Cell(x, 48));
      OneMore(init, last, Cell(48, 48));
    }
  }

  lemma OneMore(cells: seq<Cell>, last: Cell, c: Cell)
    ensures multiset(cells + [last])[c] == multiset(cells)[c] + if last == c then 1 else 0
  {
  }

  lemma OnTheMap(cells: seq<Cell>)
    requires forall c :: c in cells ==> InGrid(c)
    ensures Gridified(cells) == cells
  {
    forall i | 0 <= i < |cells| ensures Gridified(cells)[i] == cells[i] {
      assert InGrid(cells[i]) by { assert cells[i] in cells; }
    }
  }

  /** What a scan makes of one cell of the map. */
  lemma ScanHits(counts: S.Counts, cells: seq<Cell>, x: int, y: int)
    requires 0 <= x < 48 && 0 <= y < 48 && S.ValidCounts(counts)
    ensures Cell(x, y) in counts && Cell(x, y) in S.Scanned(counts, Gridified(cells))
    ensures S.Scanned(counts, Gridified(cells))[Cell(x, y)] == S.AtMostThree(counts[Cell(x, y)] + Hits(cells, x, y))
  {
    S.ScanCounts(counts, Gridified(cells), Cell(x, y));
    HitsAreCounted(cells, x, y);
  }

  class MapBuilder {
    const obstacleMap: array2<nat>
    const obsX: array<int>
    const obsY: array<int>
    var obsCount: nat
    var resendingAll: bool
    ghost var counts: S.Counts

    ghost predicate Valid()
      reads this, obstacleMap
    {
      && obstacleMap.Length0 == GRID_NUM && obstacleMap.Length1 == GRID_NUM
      && obsX.Length == MAX_OBSTACLES && obsY.Length == MAX_OBSTACLES && obsX != obsY
      && obsCount <= MAX_OBSTACLES
      && S.ValidCounts(counts)
      && forall x, y :: 0 <= x < GRID_NUM && 0 <= y < GRID_NUM ==> obstacleMap[x, y] == counts[Cell(x, y)]
    }

    /** The obstacles in the message. */
    ghost function Sent(): (m: seq<Cell>)
      requires Valid()
      reads this, obstacleMap, obsX, obsY
      ensures |m| == obsCount
    {
      var n := obsCount;
      seq(n, i requires 0 <= i < n <= obsX.Length == obsY.Length reads obsX, obsY => Cell(obsX[i], obsY[i]))
    }

    constructor ()
      ensures Valid() && !resendingAll && counts == S.Initial().counts && Sent() == []
      ensures fresh(obstacleMap) && fresh(obsX) && fresh(obsY)
    {
      obstacleMap := new nat[GRID_NUM, GRID_NUM]((i, j) => 0);
      obsX := new int[MAX_OBSTACLES](i => 0);
      obsY := new int[MAX_OBSTACLES](i => 0);
      obsCount, resendingAll := 0, false;
      counts := S.Initial().counts;
    }

    /** Puts one more obstacle into the message. */
    method Append(c: Cell)
      requires Valid() && obsCount < MAX_OBSTACLES
      modifies this`obsCount, obsX, obsY
      ensures Valid() && Sent() == old(Sent()) + [c]
      ensures obsCount == old(obsCount) + 1 && obsX[old(obsCount)] == c.x && obsY[old(obsCount)] == c.y
    {
      obsX[obsCount] := c.x;
      obsY[obsCount] := c.y;
      obsCount := obsCount + 1;
    }

    /** Counts one sighting; true when the map changed. */
    method AddObstacle(obs: Cell) returns (changed: bool)
      requires Valid() && obs.x != GRID_NUM && obs.y != GRID_NUM && obsCount < MAX_OBSTACLES
      modifies this`obsCount, this`counts, obstacleMap, obsX, obsY
      ensures Valid() && counts == S.Sighted(old(counts), obs)
      ensures Sent() == old(Sent()) + S.News(old(counts), obs)
      ensures changed <==> counts != old(counts)
    {
      if obs.x < 0 || obs.x > GRID_NUM || obs.y < 0 || obs.y > GRID_NUM {
        return false;
      }
      if obstacleMap[obs.x, obs.y] > S.OBS_THRES {
        return false;
      } else {
        obstacleMap[obs.x, obs.y] := obstacleMap[obs.x, obs.y] + 1;
        counts := counts[obs := counts[obs] + 1];
        if obstacleMap[obs.x, obs.y] > S.OBS_THRES {
          Append(obs);
        }
        return true;
      }
    }

    /** Counts the sightings of one scan, and fills the message with what they
        confirm and, when asked to resend, with all obstacles. */
    method UpdateMap(cells: seq<Cell>)
      requires Valid() && |cells| <= MAX_OBSTACLES
      requires S.Fits(counts, Gridified(cells), resendingAll)
      modifies this`obsCount, this`counts, this`resendingAll, obstacleMap, obsX, obsY
      ensures Valid() && !resendingAll
      ensures counts == S.Scanned(old(counts), Gridified(cells))
      ensures Sent() == S.Message(old(counts), Gridified(cells), old(resendingAll))
      ensures (forall c :: c in cells ==> InGrid(c)) ==>
        counts == S.Scanned(old(counts), cells) && Sent() == S.Message(old(counts), cells, old(resendingAll))
      ensures forall x, y :: 0 <= x < 48 && 0 <= y < 48 ==>
        obstacleMap[x, y] == S.AtMostThree(old(obstacleMap[x, y]) + Hits(cells, x, y))
    {
      hide S.ValidCounts, S.Scanned, S.AllNews, S.Listing, S.Sighted, S.News, S.Confirmed;
      ghost var grid := Gridified(cells);
      NothingScanned(counts);
      assert grid[..0] == [];
      obsCount := 0;
      for i := 0 to |cells|
        invariant Valid() && obsCount <= i && resendingAll == old(resendingAll)
        invariant counts == S.Scanned(old(counts), grid[..i]) && Sent() == S.AllNews(old(counts), grid[..i])
      {
        ScanMore(old(counts), grid, i);
        var _ := AddObstacle(Cell(Edge(cells[i].x), Edge(cells[i].y)));
      }
      assert grid[..|cells|] == grid;
      if resendingAll {
        resendingAll := false;
        ListAll();
      }
      if forall c :: c in cells ==> InGrid(c) {
        OnTheMap(cells);
      }
      forall x, y | 0 <= x < 48 && 0 <= y < 48
        ensures obstacleMap[x, y] == S.AtMostThree(old(obstacleMap[x, y]) + Hits(cells, x, y))
      {
        ScanHits(old(counts), cells, x, y);
      }
    }

    /** What is written to the planner. */
    method Message() returns (m: seq<Cell>)
      requires Valid()
      ensures m == Sent()
    {
      m := [];
      for i := 0 to obsCount
        invariant m == Sent()[..i]
      {
        m := m + [Cell(obsX[i], obsY[i])];
      }
    }

    /** Adds all obstacles of the map to the message. */
    method ListAll()
      requires Valid() && obsCount + |S.Confirmed(counts)| <= MAX_OBSTACLES
      modifies this`obsCount, obsX, obsY
      ensures Valid() && Sent() == old(Sent()) + S.Listing(counts, GRID_NUM * GRID_NUM)
    {
      hide S.ValidCounts, S.Listing, S.Confirmed;
      ListedIsConfirmed(counts);
      NothingListed(counts);
      for i := 0 to GRID_NUM
        invariant Valid() && Sent() == old(Sent()) + S.Listing(counts, i * GRID_NUM)
      {
        for j := 0 to GRID_NUM
          invariant Valid() && Sent() == old(Sent()) + S.Listing(counts, i * GRID_NUM + j)
        {
          ListingGrows(counts, i * GRID_NUM + j + 1, GRID_NUM * GRID_NUM);
          ListMore(counts, i, j);
          if obstacleMap[i, j] > S.OBS_THRES {
            Append(Cell(i, j));
          }
        }
      }
    }

    method TakeAck(resendRequest: bool)
      requires Valid()
      modifies this`resendingAll
      ensures Valid() && resendingAll == (old(resendingAll) || resendRequest) && Sent() == old(Sent())
    {
      if resendRequest {
        resendingAll := true;
      }
    }
  }

  lemma NothingScanned(counts: S.Counts)
    ensures S.Scanned(counts, []) == counts && S.AllNews(counts, []) == []
  {
  }

  lemma ScanMore(counts: S.Counts, cells: seq<Cell>, i: nat)
    requires i < |cells|
    ensures S.Scanned(counts, cells[..i + 1]) == S.Sighted(S.Scanned(counts, cells[..i]), cells[i])
    ensures S.AllNews(counts, cells[..i + 1]) ==
            S.AllNews(counts, cells[..i]) + S.News(S.Scanned(counts, cells[..i]), cells[i])
  {
    assert cells[..i + 1][..i] == cells[..i];
  }

  lemma ListedIsConfirmed(counts: S.Counts)
    requires S.ValidCounts(counts)
    ensures |S.Listing(counts, GRID_NUM * GRID_NUM)| == |S.Confirmed(counts)|
  {
    S.ListingLength(counts, GRID_NUM * GRID_NUM);
    S.ListingMembers(counts, GRID_NUM * GRID_NUM);
    assert S.Members(S.Listing(counts, GRID_NUM * GRID_NUM)) == S.Confirmed(counts);
  }

  lemma NothingListed(counts: S.Counts)
    ensures S.Listing(counts, 0) == []
  {
  }

  lemma ListMore(counts: S.Counts, i: nat, j: nat)
    requires i < GRID_NUM && j < GRID_NUM && S.ValidCounts(counts)
    ensures Cell(i, j) in counts
    ensures S.Listing(counts, i * GRID_NUM + j + 1) ==
            S.Listing(counts, i * GRID_NUM + j) + if counts[Cell(i, j)] > S.OBS_THRES then [Cell(i, j)] else []
  {
    hide S.Listing;
    S.Position(Cell(i, j), i * GRID_NUM + j);
    ListOne(counts, i * GRID_NUM + j, Cell(i, j));
  }

  lemma ListOne(counts: S.Counts, k: nat, c: Cell)
    requires c == Cell(k / GRID_NUM, k % GRID_NUM)
    ensures S.Listing(counts, k + 1) ==
            S.Listing(counts, k) + if c in counts && counts[c] > S.OBS_THRES then [c] else []
  {
  }

  lemma {:induction false} ListingGrows(counts: S.Counts, k: nat, n: nat)
    requires k <= n
    ensures |S.Listing(counts, k)| <= |S.Listing(counts, n)|
    decreases n - k
  {
    if k < n {
      ListingGrows(counts, k + 1, n);
    }
  }
}
