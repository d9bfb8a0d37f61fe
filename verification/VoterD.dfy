/** VoterD itself: the voter's globals, updated by the operations of its main
    loop, each of which does what the state machine says. */
module VoterD {
  import opened VoteBuff
  import S = VoterDSpec
  import opened Replicas

  /** `pending` is the input written to each replica's pipes that it has not
      read, and `extOut` what has been written on each external output pipe. */
  class Voter {
    const cfg: S.Config
    const group: ReplicaGroup
    var pending: seq<seq<seq<byte>>>
    var extOut: seq<seq<byte>>
    var timerStarted: bool
    var currentTimer: nat

    ghost function State(): S.State
      reads this, group
    {
      S.State(group.buffs, group.priorities, pending, extOut, timerStarted, currentTimer)
    }

    ghost predicate Valid()
      reads this, group, group.footprint
    {
      && group.cfg == cfg && this !in group.footprint
      && group.Valid()
      && S.ValidState(cfg, State())
    }

    constructor (cfg: S.Config)
      requires S.ValidConfig(cfg)
      ensures Valid() && fresh(group) && fresh(group.footprint) && State() == S.Initial(cfg)
      ensures !timerStarted && forall r :: 0 <= r < cfg.reps ==> group.priorities[r] == cfg.priority
      ensures forall r, p :: 0 <= r < cfg.reps && 0 <= p < |cfg.isOut| ==>
        group.buffs[r][p] == S.Buff(0, []) && pending[r][p] == [] && extOut[p] == []
    {
      this.cfg := cfg;
      group := new ReplicaGroup(cfg);
      pending := seq(cfg.reps, r => seq(|cfg.isOut|, p => []));
      extOut := seq(|cfg.isOut|, p => []);
      timerStarted, currentTimer := false, 0;
    }

    /** One replica's part in a send: the chosen one writes, the others drop. */
    method SendOne(i: nat, p: nat, r: nat, n: nat)
      requires Valid() && i < cfg.reps && p < |cfg.isOut| && n <= |group.buffs[i][p].contents|
      modifies this`extOut, group`buffs, group.footprint
      ensures Valid() && group.priorities == old(group.priorities)
      ensures group.buffs == old(group.buffs)[i := old(group.buffs)[i][p := S.Drop(old(group.buffs)[i][p], n)]]
      ensures extOut == if i == r
                        then old(extOut)[p := old(extOut)[p] + old(group.buffs)[i][p].contents[..n]]
                        else old(extOut)
    {
      hide ReplicaGroup.Valid;
      if r == i {
        var written := group.BuffToPipe(i, p, n);
        extOut := extOut[p := extOut[p] + written];
      } else {
        group.FakeToPipe(i, p, n);
      }
    }

    method SendAll(p: nat, r: nat, n: nat)
      requires Valid() && p < |cfg.isOut| && r < cfg.reps
      requires forall i :: 0 <= i < cfg.reps ==> n <= |group.buffs[i][p].contents|
      modifies this`extOut, group`buffs, group.footprint
      ensures Valid() && group.priorities == old(group.priorities)
      ensures |group.buffs| == cfg.reps
      ensures forall i :: 0 <= i < cfg.reps ==>
          group.buffs[i] == old(group.buffs)[i][p := S.Drop(old(group.buffs)[i][p], n)]
      ensures extOut == old(extOut)[p := old(extOut)[p] + old(group.buffs)[r][p].contents[..n]]
    {
      hide ReplicaGroup.Valid, S.ValidBuff, S.ValidConfig;
      for i := 0 to cfg.reps
        invariant Valid() && group.priorities == old(group.priorities)
        invariant forall j :: 0 <= j < i ==>
            group.buffs[j] == old(group.buffs)[j][p := S.Drop(old(group.buffs)[j][p], n)]
        invariant forall j :: i <= j < cfg.reps ==> group.buffs[j] == old(group.buffs)[j]
        invariant extOut == if i <= r then old(extOut)
                            else old(extOut)[p := old(extOut)[p] + old(group.buffs)[r][p].contents[..n]]
      {
        SendOne(i, p, r, n);
      }
    }

    method SendPipe(p: nat, r: nat)
      requires Valid() && p < |cfg.isOut| && r < cfg.reps
      modifies this`extOut, this`timerStarted, group`buffs, group.footprint
      ensures Valid() && State() == S.SendPipe(cfg, old(State()), p, r)
    {
      hide ReplicaGroup.Valid, S.ValidBuff, S.Drop;
      var bytesAvail := group.BytesReady(p);
      if bytesAvail == 0 {
        return;
      }
      if p == cfg.timerStop[0] || p == cfg.timerStop[1] {
        timerStarted := false;
      }
      SendAll(p, r, bytesAvail);
      assert group.buffs == S.SendPipe(cfg, old(State()), p, r).buffs;
    }

    // ----- restarting

    /** Reads what a replica has not read of its input, up to a buffer a pipe. */
    method StealPipes(r: nat) returns (buffer: seq<seq<byte>>)
      requires Valid() && r < cfg.reps
      modifies this`pending
      ensures Valid() && buffer == S.Stolen(cfg, old(pending)[r])
      ensures pending == old(pending)[r := S.Without(old(pending)[r], buffer)]
    {
      hide ReplicaGroup.Valid, S.ValidBuff;
      buffer := [];
      var left := [];
      for p := 0 to |cfg.isOut|
        invariant |buffer| == |left| == p
        invariant forall q :: 0 <= q < p ==>
            buffer[q] == S.Stolen(cfg, pending[r])[q] && left[q] == pending[r][q][|buffer[q]|..]
      {
        var n := if cfg.isOut[p] then 0
                 else if |pending[r][p]| <= MAX_VOTE_PIPE_BUFF then |pending[r][p]|
                 else MAX_VOTE_PIPE_BUFF;
        assert pending[r][p][..|pending[r][p]|] == pending[r][p];
        buffer, left := buffer + [pending[r][p][..n]], left + [pending[r][p][n..]];
      }
      assert left == S.Without(pending[r], buffer);
      pending := pending[r := left];
    }

    /** Writes the stolen input to a replica. */
    method ReturnPipes(r: nat, buffer: seq<seq<byte>>)
      requires Valid() && r < cfg.reps && |buffer| == |cfg.isOut|
      modifies this`pending
      ensures Valid() && pending == old(pending)[r := S.Returned(old(pending)[r], buffer)]
    {
      hide ReplicaGroup.Valid, S.ValidBuff;
      var given := [];
      for p := 0 to |cfg.isOut|
        invariant |given| == p
        invariant forall q :: 0 <= q < p ==> given[q] == pending[r][q] + buffer[q]
      {
        given := given + [if |buffer[p]| > 0 then pending[r][p] + buffer[p] else pending[r][p]];
      }
      assert given == S.Returned(pending[r], buffer);
      pending := pending[r := given];
    }

    method RestartReplica(restarter: nat, restartee: nat)
      requires Valid() && restarter < cfg.reps && restartee < cfg.reps
      modifies this`pending, group`buffs, group`priorities, group.footprint
      ensures Valid() && State() == S.RestartReplica(cfg, old(State()), restarter, restartee)
    {
      hide ReplicaGroup.Valid, S.Balanced;
      group.RestartReplica(restarter, restartee);
      pending := pending[restartee := seq(|cfg.isOut|, p => [])];
    }

    method CopyAndSend(restarter: nat, restartee: nat, p: nat)
      requires Valid() && restarter < cfg.reps && restartee < cfg.reps && restarter != restartee && p < |cfg.isOut|
      modifies this`extOut, this`timerStarted, group`buffs, group.footprint
      ensures Valid() && State() == S.CopyAndSend(cfg, old(State()), restarter, restartee, p)
    {
      hide ReplicaGroup.Valid, S.SendPipe;
      group.CopyPipe(restartee, restarter, p);
      SendPipe(p, restarter);
    }

    method RestartPrep(restartee: nat, restarter: nat)
      requires Valid() && restarter < cfg.reps && restartee < cfg.reps && restarter != restartee
      modifies this`extOut, this`timerStarted, this`pending, group`buffs, group`priorities, group.footprint
      ensures Valid() && State() == S.RestartPrep(cfg, old(State()), restartee, restarter)
    {
      hide ReplicaGroup.Valid, S.RestartReplica, S.CopyAndSend, S.Without, S.Returned, S.ValidBuff;
      var buffer := StealPipes(restarter);
      timerStarted := false;
      RestartReplica(restarter, restartee);
      ghost var s2 := State();
      for i := 0 to |cfg.isOut|
        invariant Valid() && State() == S.CopyPipes(cfg, s2, restarter, restartee, i)
      {
        if cfg.isOut[i] {
          CopyAndSend(restarter, restartee, i);
        }
      }
      ReturnPipes(restartee, buffer);
      ReturnPipes(restarter, buffer);
    }

    /** The watchdog went off: the replica most behind on the pipe that is waited
        for is restarted. */
    method VoterRestartHandler()
      requires Valid() && cfg.reps >= 2
      modifies this`extOut, this`timerStarted, this`pending, group`buffs, group`priorities, group.footprint
      ensures Valid() && State() == S.RestartBehind(cfg, old(State()))
    {
      hide ReplicaGroup.AllHold, S.RestartPrep, S.BehindRep;
      var restartee := group.BehindRep(cfg.timerStop[currentTimer]);
      var restarter := (restartee + (cfg.reps - 1)) % cfg.reps;
      RestartPrep(restartee, restarter);
    }

    // ----- voting

    method CheckSDC(p: nat)
      requires Valid() && p < |cfg.isOut|
      modifies this`extOut, this`timerStarted, this`pending, group`buffs, group`priorities, group.footprint
      ensures Valid() && State() == S.CheckSDC(cfg, old(State()), p)
    {
      hide ReplicaGroup.Valid, S.RestartPrep, S.SendPipe, S.Matches, S.ValidBuff;
      var bytesAvail := group.BytesReady(p);
      if bytesAvail == 0 {
        return;
      }
      if cfg.reps == 3 {
        for r := 0 to cfg.reps
          invariant Valid() && State() == old(State())
          invariant S.VerdictOn(cfg, State(), p) == S.Vote(cfg, State(), p, bytesAvail, r)
        {
          var second := group.CompareReps(r, (r + 1) % cfg.reps, p, bytesAvail);
          if second == 0 {
            var third := group.CompareReps(r, (r + 2) % cfg.reps, p, bytesAvail);
            if third != 0 {
              RestartPrep((r + 2) % cfg.reps, r);
            } else {
              SendPipe(p, r);
            }
            return;
          }
        }
      } else {
        SendPipe(p, 0);
      }
    }

    // ----- what arrives

    method ProcessFromRep(r: nat, p: nat, data: seq<byte>)
      requires Valid() && r < cfg.reps && p < |cfg.isOut| && |data| <= MAX_VOTE_PIPE_BUFF
      modifies this, group`buffs, group`priorities, group.footprint
      ensures Valid() && State() == S.ProcessFromRep(cfg, old(State()), r, p, data)
    {
      hide ReplicaGroup.Valid, S.CheckSDC, S.Balanced;
      if !timerStarted {
        if p == cfg.timerStop[0] {
          currentTimer, timerStarted := 0, true;
        } else if p == cfg.timerStop[1] {
          currentTimer, timerStarted := 1, true;
        }
      }
      var retval := group.PipeToBuff(r, p, data);
      if retval == 0 {
        group.BalanceReps();
        CheckSDC(p);
      }
    }

    method ProcessData(p: nat, data: seq<byte>)
      requires Valid() && p < |cfg.isOut|
      modifies this, group`priorities, group.footprint
      ensures Valid() && State() == S.ProcessData(cfg, old(State()), p, data)
      ensures forall r, q :: 0 <= r < cfg.reps && 0 <= q < |cfg.isOut| ==>
        pending[r][q] == old(pending)[r][q] + if q == p then data else []
    {
      hide ReplicaGroup.Valid, S.Balanced, S.ValidBuff;
      if !timerStarted {
        if p == cfg.timerStart[0] {
          currentTimer, timerStarted := 0, true;
        } else if p == cfg.timerStart[1] {
          currentTimer, timerStarted := 1, true;
        }
      }
      group.BalanceReps();
      ghost var s := State();
      for r := 0 to cfg.reps
        invariant Valid() && |pending| == cfg.reps && State() == s.(pending := pending)
        invariant forall i :: 0 <= i < r ==> pending[i] == s.pending[i][p := s.pending[i][p] + data]
        invariant forall i :: r <= i < cfg.reps ==> pending[i] == s.pending[i]
      {
        pending := pending[r := pending[r][p := pending[r][p] + data]];
      }
    }

    method CheckSync() returns (nsync: bool)
      requires Valid()
      ensures nsync <==> S.InSync(cfg, State())
      ensures nsync <==> forall p, q, r :: 0 <= p < |cfg.isOut| && 0 <= q < cfg.reps && 0 <= r < cfg.reps ==>
        |group.buffs[q][p].contents| == |group.buffs[r][p].contents|
    {
      hide ReplicaGroup.AllHold, S.ValidBuff;
      nsync := true;
      for p := 0 to |cfg.isOut|
        invariant nsync <==> forall q, r :: 0 <= q < p && 1 <= r < cfg.reps ==>
            |group.buffs[r][q].contents| == |group.buffs[0][q].contents|
      {
        var votes := group.BuffCount(0, p);
        for r := 1 to cfg.reps
          invariant nsync <==>
            && (forall q, i :: 0 <= q < p && 1 <= i < cfg.reps ==>
                |group.buffs[i][q].contents| == |group.buffs[0][q].contents|)
            && (forall i :: 1 <= i < r ==> |group.buffs[i][p].contents| == votes)
        {
          var count := group.BuffCount(r, p);
          if votes != count {
            nsync := false;
          }
        }
      }
    }

    /** One pass of the main loop. The watchdog is looked at first; then input is
        taken from one external pipe, but only when the timer is not running and
        the replicas are in step; then whatever the replicas have written. The
        pass is a sequence of enabled events; `mid` is the state after the
        watchdog has been seen to. */
    method DoOneUpdate(timeUp: bool, input: seq<S.Event>, outputs: seq<S.Event>)
      returns (ghost events: seq<S.Event>, ghost mid: S.State)
      requires Valid() && (timeUp ==> cfg.reps >= 2) && ValidReads(input, outputs)
      modifies this, group`buffs, group`priorities, group.footprint
      ensures Valid() && S.Reaches(cfg, old(State()), events, State())
      ensures events == S.Pass(cfg, old(State()), timeUp, input, outputs)
      ensures S.Timeout in events <==> timeUp && old(timerStarted)
      ensures timeUp && old(timerStarted) ==> events[0] == S.Timeout && RestartedMostBehind(old(State()), mid)
      ensures !(timeUp && old(timerStarted)) ==> mid == old(State())
      ensures S.ValidState(cfg, mid)
      ensures events == (if timeUp && old(timerStarted) then [S.Timeout] else [])
                        + (if InputIsDue(mid) then input else []) + outputs
      ensures S.Reaches(cfg, mid, (if InputIsDue(mid) then input else []) + outputs, State())
    {
      hide ReplicaGroup.Valid, S.RestartPrep, S.InSync, S.ValidBuff, S.ValidConfig, ValidReads, InputIsDue, S.Step;
      events, mid := [], State();
      ghost var late := timerStarted && timeUp;
      if timerStarted && timeUp {
        VoterRestartHandler();
        WatchdogRestarts(mid);
        mid := State();
        events := [S.Timeout];
      }
      ghost var rest := TakeTurns(input, outputs);
      events := events + rest;
      DueIsInSync(mid);
      OnlyOneTimeout(input, outputs);
      if late {
        TimeoutFirst(old(State()), mid, rest);
      } else {
        assert [] + rest == rest;
      }
    }

    /** What is read in a pass: at most one external read, and replica output. */
    ghost predicate ValidReads(input: seq<S.Event>, outputs: seq<S.Event>) {
      && |input| <= 1
      && (forall e :: e in input ==> e.Input? && e.pipe < |cfg.isOut| && !cfg.isOut[e.pipe] && e.data != [])
      && (forall e :: e in outputs ==>
            && e.Output? && e.rep < cfg.reps && e.pipe < |cfg.isOut| && cfg.isOut[e.pipe]
            && |e.data| <= MAX_VOTE_PIPE_BUFF)
    }

    /** Input is read when no timer runs and all replicas hold equally much. */
    ghost predicate InputIsDue(s: S.State)
      requires S.ValidState(cfg, s)
    {
      && !s.timerStarted
      && forall p, q, r :: 0 <= p < |cfg.isOut| && 0 <= q < cfg.reps && 0 <= r < cfg.reps ==>
           |s.buffs[q][p].contents| == |s.buffs[r][p].contents|
    }

    /** Replica b has fewer bytes on pipe p than any other or, of those with as
        few, a higher priority or, of those with the same, the lower number. */
    ghost predicate FarthestBehind(s: S.State, p: nat, b: nat)
      requires S.ValidState(cfg, s) && p < |cfg.isOut| && b < cfg.reps
    {
      forall r :: 0 <= r < cfg.reps && r != b ==>
        var mine, other := |s.buffs[b][p].contents|, |s.buffs[r][p].contents|;
        || mine < other
        || (mine == other && s.priorities[b] > s.priorities[r])
        || (mine == other && s.priorities[b] == s.priorities[r] && b < r)
    }

    /** The replica farthest behind on the pipe that is waited for has been
        restarted from the one before it. */
    ghost predicate RestartedMostBehind(s: S.State, t: S.State)
      requires S.ValidState(cfg, s) && cfg.reps >= 2
    {
      exists b :: 0 <= b < cfg.reps && FarthestBehind(s, cfg.timerStop[s.currentTimer], b)
        && t == S.RestartPrep(cfg, s, b, if b == 0 then cfg.reps - 1 else b - 1)
    }

    lemma WatchdogRestarts(s: S.State)
      requires S.ValidState(cfg, s) && cfg.reps >= 2
      ensures RestartedMostBehind(s, S.RestartBehind(cfg, s))
    {
      hide S.RestartPrep;
      var stop := cfg.timerStop[s.currentTimer];
      var b := S.BehindRep(s.buffs, s.priorities, stop, cfg.reps);
      S.BehindRepIsFirst(s.buffs, s.priorities, stop, cfg.reps);
      assert FarthestBehind(s, stop, b);
      if b > 0 {
        assert (b + (cfg.reps - 1)) % cfg.reps == (b - 1 + cfg.reps) % cfg.reps == b - 1;
      }
    }

    lemma DueIsInSync(s: S.State)
      requires S.ValidState(cfg, s)
      ensures InputIsDue(s) <==> !s.timerStarted && S.InSync(cfg, s)
    {
      if !s.timerStarted && S.InSync(cfg, s) {
        forall p, r | 0 <= p < |cfg.isOut| && 0 <= r < cfg.reps
          ensures |s.buffs[r][p].contents| == |s.buffs[0][p].contents|
        {
          assert r == 0 || r >= 1;
        }
      }
      if InputIsDue(s) {
        forall p, r | 0 <= p < |cfg.isOut| && 1 <= r < cfg.reps
          ensures |s.buffs[r][p].contents| == |s.buffs[0][p].contents|
        {
          assert 0 < cfg.reps;
        }
      }
    }

    lemma TimeoutFirst(s: S.State, t: S.State, rest: seq<S.Event>)
      requires S.ValidState(cfg, s) && cfg.reps >= 2 && s.timerStarted && t == S.RestartBehind(cfg, s)
      ensures S.Enabled(cfg, s, S.Timeout)
      ensures forall u :: S.Reaches(cfg, t, rest, u) ==> S.Reaches(cfg, s, [S.Timeout] + rest, u)
    {
      hide S.RestartBehind;
      assert ([S.Timeout] + rest)[1..] == rest;
    }

    lemma OnlyOneTimeout(input: seq<S.Event>, outputs: seq<S.Event>)
      requires ValidReads(input, outputs)
      ensures S.Timeout !in input && S.Timeout !in outputs
    {
    }

    /** What a pass does after the watchdog has been seen to. */
    method TakeTurns(input: seq<S.Event>, outputs: seq<S.Event>) returns (ghost events: seq<S.Event>)
      requires Valid() && ValidReads(input, outputs)
      modifies this, group`buffs, group`priorities, group.footprint
      ensures Valid() && S.Reaches(cfg, old(State()), events, State())
      ensures events == (if InputIsDue(old(State())) then input else []) + outputs
    {
      hide ReplicaGroup.Valid, S.ProcessFromRep, S.ProcessData, S.InSync, S.ValidBuff, S.ValidConfig, S.Reaches,
        InputIsDue;
      events := [];
      ghost var s := State();
      NoEvents(s);
      DueIsInSync(s);
      var checkInputs := CheckSync();
      if checkInputs && !timerStarted && |input| == 1 {
        assert input[0] in input;
        S.ReachesOneMore(cfg, s, events, State(), input[0]);
        events := events + [input[0]];
        ProcessData(input[0].pipe, input[0].data);
      }
      ghost var first := events;
      for i := 0 to |outputs|
        invariant Valid() && S.Reaches(cfg, s, events, State()) && events == first + outputs[..i]
      {
        assert outputs[i] in outputs;
        S.ReachesOneMore(cfg, s, events, State(), outputs[i]);
        events := events + [outputs[i]];
        assert outputs[..i + 1] == outputs[..i] + [outputs[i]];
        ProcessFromRep(outputs[i].rep, outputs[i].pipe, outputs[i].data);
      }
      assert outputs[..|outputs|] == outputs;
    }

    lemma NoEvents(s: S.State)
      requires S.ValidState(cfg, s)
      ensures S.Reaches(cfg, s, [], s)
    {
    }
  }
}
