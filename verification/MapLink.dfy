/** Mapper and planner with the pipes between them: what the two programs do is
    the protocol. */
module MapLink {
  import opened AStar
  import opened Grid
  import opened Mapper
  import S = MapSpec

  /** `updates` and `acks` are under way; an update is a pose and obstacles. */
  class Link {
    const dist: Distance
    const goal: Cell
    const mapper: MapBuilder
    var planner: Planner
    var updates: seq<(Cell, seq<Cell>)>
    var acks: seq<bool>
    ghost var history: set<seq<Cell>>

    static function Obstacles(updates: seq<(Cell, seq<Cell>)>): seq<seq<Cell>> {
      seq(|updates|, i requires 0 <= i < |updates| => updates[i].1)
    }

    /** What the protocol makes of the two objects and the pipes. */
    ghost function State(): S.State
      requires planner.MapSized()
      reads this, mapper, planner, planner.obstacleMap
    {
      S.State(mapper.counts, mapper.resendingAll, Obstacles(updates),
              planner.Known(), planner.requestAll, acks, history)
    }

    ghost predicate Valid()
      reads this, mapper, mapper.obstacleMap, planner, planner.obstacleMap, planner.goalPath, planner.goalPath.repr
    {
      && mapper.Valid() && planner.Valid()
      && planner.dist == dist && planner.goal == goal
      && (mapper.obstacleMap as object) != planner.obstacleMap
      && S.Inv(State())
    }

    constructor (dist: Distance, goal: Cell, pose: Cell)
      requires IsMetric(dist)
      ensures Valid() && State() == S.Initial()
    {
      this.dist, this.goal := dist, goal;
      mapper := new MapBuilder();
      planner := new Planner(dist, goal, pose);
      updates, acks, history := [], [], {};
      new;
      S.InitialInv();
      assert State() == S.Initial();
    }

    /** The mapper takes in a scan and sends an update. */
    method Scan(pose: Cell, cells: seq<Cell>)
      requires Valid() && |cells| <= MAX_OBSTACLES && S.Enabled(State(), S.Scan(Gridified(cells)))
      modifies this`updates, this`history, mapper, mapper.obstacleMap, mapper.obsX, mapper.obsY
      ensures Valid() && planner == old(planner)
      ensures State() == S.Step(old(State()), S.Scan(Gridified(cells)))
    {
      hide S.Fits, S.Inv, S.Message, S.Scanned, S.Members, S.ValidCounts, Hits, Planner.Known, IsMetric, InGrid;
      S.StepKeepsInv(State(), S.Scan(Gridified(cells)));
      ghost var was := State();
      mapper.UpdateMap(cells);
      var message := mapper.Message();
      updates := updates + [(pose, message)];
      history := history + {message};
      assert Obstacles(updates) == was.updates + [message];
    }

    /** The planner reads the next update and acknowledges it. */
    method TakeUpdate()
      requires Valid() && updates != []
      modifies this`updates, this`acks, planner, planner.obstacleMap
      ensures Valid() && planner == old(planner)
      ensures State() == S.Step(old(State()), S.TakeUpdate)
    {
      hide S.Inv;
      S.StepKeepsInv(State(), S.TakeUpdate);
      ghost var was := State();
      NextIsOnTheMap(was);
      assert was.updates[0] == updates[0].1;
      var resend, lost;
      ghost var run, end;
      resend, lost, run, end := planner.TakeUpdate(updates[0].0, updates[0].1);
      updates, acks := updates[1..], acks + [resend];
      assert Obstacles(updates) == was.updates[1..];
    }

    /** The mapper reads the next acknowledgement. */
    method TakeAck()
      requires Valid() && acks != []
      modifies this`acks, mapper`resendingAll
      ensures Valid() && planner == old(planner)
      ensures State() == S.Step(old(State()), S.TakeAck)
    {
      hide S.Inv;
      S.StepKeepsInv(State(), S.TakeAck);
      mapper.TakeAck(acks[0]);
      acks := acks[1..];
    }

    /** The planner is started afresh. */
    method Restart(pose: Cell, lostUpdates: nat, lostAcks: nat, again: seq<(Cell, seq<Cell>)>)
      requires Valid() && S.Enabled(State(), S.Restart(lostUpdates, lostAcks, Obstacles(again)))
      modifies this`planner, this`updates, this`acks
      ensures Valid() && fresh(planner)
      ensures State() == S.Step(old(State()), S.Restart(lostUpdates, lostAcks, Obstacles(again)))
    {
      hide S.Inv;
      S.StepKeepsInv(State(), S.Restart(lostUpdates, lostAcks, Obstacles(again)));
      ghost var was := State();
      planner := new Planner(dist, goal, pose);
      updates, acks := again + updates[lostUpdates..], acks[..|acks| - lostAcks];
      assert Obstacles(updates) == Obstacles(again) + was.updates[lostUpdates..];
    }
  }

  /** No update under way names a cell off the map. */
  lemma NextIsOnTheMap(s: S.State)
    requires S.Inv(s) && s.updates != []
    ensures forall c :: c in s.updates[0] ==> InGrid(c)
  {
    forall c | c in s.updates[0] ensures InGrid(c) {
      assert c in S.Members(s.updates[0]);
    }
  }
}
