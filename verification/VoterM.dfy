/** VoterM itself: the buffers it reads its replicas' answers into and the
    operations of a round on them. */
module VoterM {
  import opened VoteBuff
  import S = VoterMSpec
  import M = VoterMMasking

  class ReplicaR {
    const buffCounts: array<nat>
    const buffers: seq<array<byte>>

    constructor (buffCounts: array<nat>, buffers: seq<array<byte>>)
      ensures this.buffCounts == buffCounts && this.buffers == buffers
    {
      this.buffCounts, this.buffers := buffCounts, buffers;
    }
  }

  /** `outs` is what the buffers hold, for the proofs; `place` says whose an
      array is. `extOut` is what has been written on each external pipe, and
      `sent` the answers that it is made of, one a round. */
  class Voter {
    const cfg: M.Config
    const replicas: seq<ReplicaR>
    ghost const place: map<object, (nat, nat)>
    ghost const footprint: set<object>
    ghost var outs: seq<S.Outputs>
    var faultIndex: nat
    var timeoutOccurred: bool
    var activePipe: nat
    var extOut: seq<seq<byte>>
    ghost var sent: seq<S.Outputs>

    ghost predicate Wired() {
      && M.ValidConfig(cfg) && |replicas| == cfg.reps
      && this !in footprint
      && forall r :: 0 <= r < cfg.reps ==>
           && replicas[r].buffCounts.Length == cfg.pipes && |replicas[r].buffers| == cfg.pipes
           && replicas[r].buffCounts in footprint
           && replicas[r].buffCounts in place && place[replicas[r].buffCounts] == (r, cfg.pipes)
           && forall p :: 0 <= p < cfg.pipes ==> Placed(replicas[r].buffers[p], r, p)
    }

    ghost predicate Placed(buffer: array<byte>, r: nat, p: nat) {
      buffer.Length == MAX_VOTE_PIPE_BUFF && buffer in footprint && buffer in place && place[buffer] == (r, p)
    }

    ghost predicate HoldsAt(r: nat, p: nat, data: seq<byte>)
      requires Wired() && r < cfg.reps && p < cfg.pipes
      reads footprint
    {
      assert Placed(replicas[r].buffers[p], r, p);
      && replicas[r].buffCounts[p] == |data| <= MAX_VOTE_PIPE_BUFF
      && replicas[r].buffers[p][..|data|] == data
    }

    ghost predicate AllHold(outs: seq<S.Outputs>)
      requires Wired()
      reads footprint
      ensures AllHold(outs) ==> S.Shaped(outs, cfg.reps, cfg.pipes)
    {
      && S.Shaped(outs, cfg.reps, cfg.pipes)
      && forall r, p :: 0 <= r < cfg.reps && 0 <= p < cfg.pipes ==> HoldsAt(r, p, outs[r][p])
    }

    ghost predicate Valid()
      reads this, footprint
    {
      Wired() && AllHold(outs) && |extOut| == cfg.pipes
    }

    /** The external pipes carry the answers sent, one after the other. */
    ghost predicate Accounted()
      reads this`extOut, this`sent
    {
      && |extOut| == cfg.pipes
      && (forall i :: 0 <= i < |sent| ==> |sent[i]| == cfg.pipes)
      && forall p :: 0 <= p < cfg.pipes ==> extOut[p] == S.Joined(sent, p)
    }

    // ----- setting up

    static ghost predicate Started(rep: ReplicaR, pipes: nat, place: map<object, (nat, nat)>, r: nat)
      reads rep.buffCounts
    {
      && rep.buffCounts.Length == pipes && |rep.buffers| == pipes
      && rep.buffCounts in place && place[rep.buffCounts] == (r, pipes)
      && forall p :: 0 <= p < pipes ==>
           && rep.buffCounts[p] == 0
           && rep.buffers[p].Length == MAX_VOTE_PIPE_BUFF && rep.buffers[p] in place && place[rep.buffers[p]] == (r, p)
    }

    static method MakeBuffers(r: nat, pipes: nat)
      returns (buffers: seq<array<byte>>, ghost place: map<object, (nat, nat)>)
      ensures |buffers| == pipes && fresh(place.Keys)
      ensures forall p :: 0 <= p < pipes ==>
        buffers[p].Length == MAX_VOTE_PIPE_BUFF && buffers[p] in place && place[buffers[p]] == (r, p)
    {
      buffers, place := [], map[];
      for p := 0 to pipes
        invariant |buffers| == p && fresh(place.Keys)
        invariant forall q :: 0 <= q < p ==>
          buffers[q].Length == MAX_VOTE_PIPE_BUFF && buffers[q] in place && place[buffers[q]] == (r, q)
      {
        var buffer := new byte[MAX_VOTE_PIPE_BUFF](i => 0);
        buffers, place := buffers + [buffer], place[buffer := (r, p)];
      }
    }

    static method MakeReplicas(reps: nat, pipes: nat)
      returns (replicas: seq<ReplicaR>, ghost place: map<object, (nat, nat)>)
      ensures |replicas| == reps && fresh(place.Keys)
      ensures forall r :: 0 <= r < reps ==> Started(replicas[r], pipes, place, r)
    {
      replicas, place := [], map[];
      for r := 0 to reps
        invariant |replicas| == r && fresh(place.Keys)
        invariant forall i :: 0 <= i < r ==> Started(replicas[i], pipes, place, i)
      {
        var buffers;
        ghost var more;
        buffers, more := MakeBuffers(r, pipes);
        var counts := new nat[pipes](i => 0);
        var rep := new ReplicaR(counts, buffers);
        place := place + more[counts := (r, pipes)];
        replicas := replicas + [rep];
      }
    }

    constructor (cfg: M.Config)
      requires M.ValidConfig(cfg)
      ensures Valid() && fresh(footprint) && this.cfg == cfg && outs == M.Blank(cfg.reps, cfg.pipes)
      ensures sent == [] && Accounted()
    {
      var reps;
      ghost var where;
      reps, where := MakeReplicas(cfg.reps, cfg.pipes);
      this.cfg, replicas, place, footprint := cfg, reps, where, where.Keys;
      outs := M.Blank(cfg.reps, cfg.pipes);
      extOut, sent := seq(cfg.pipes, p => []), [];
      faultIndex, timeoutOccurred, activePipe := 0, false, 0;
      new;
      assert forall r :: 0 <= r < cfg.reps ==> Started(replicas[r], cfg.pipes, place, r);
    }

    // ----- collecting

    method CheckWaitOnInput() returns (waiting: bool)
      ensures waiting <==> M.Waits(cfg, activePipe)
      ensures waiting <==> activePipe in cfg.timerStart
    {
      waiting := false;
      for p := 0 to |cfg.timerStart|
        invariant waiting <==> activePipe in cfg.timerStart[..p]
      {
        if activePipe == cfg.timerStart[p] {
          waiting := true;
        }
      }
    }

    /** One read from a replica's pipe, over what the buffer held. */
    method ReadPipe(r: nat, p: nat, data: seq<byte>)
      requires Valid() && r < cfg.reps && p < cfg.pipes && |data| <= MAX_VOTE_PIPE_BUFF
      modifies this`outs, footprint
      ensures Valid() && outs == old(outs)[r := old(outs)[r][p := data]]
    {
      assert HoldsAt(r, p, outs[r][p]) && Placed(replicas[r].buffers[p], r, p);
      Memcpy(replicas[r].buffers[p], 0, data);
      replicas[r].buffCounts[p] := |data|;
      assert HoldsAt(r, p, data);
      outs := outs[r := outs[r][p := data]];
    }

    lemma OneMore(outs: seq<S.Outputs>, got: seq<S.Arrival>, a: S.Arrival, stop: nat)
      requires S.Shaped(outs, cfg.reps, cfg.pipes) && S.ValidArrival(a, cfg.reps, cfg.pipes)
      requires forall b :: b in got ==> S.ValidArrival(b, cfg.reps, cfg.pipes)
      ensures forall b :: b in got + [a] ==> S.ValidArrival(b, cfg.reps, cfg.pipes)
      ensures var before := S.Applied(outs, got, cfg.reps, cfg.pipes);
        S.Applied(outs, got + [a], cfg.reps, cfg.pipes) == before[a.rep := before[a.rep][a.pipe := a.data]]
      ensures S.TimedCount(got + [a], stop) == S.TimedCount(got, stop) + if a.pipe == stop then 1 else 0
    {
      assert (got + [a])[..|got|] == got;
    }

    /** Reads one pass of ready pipes. */
    method ReadPass(pass: seq<S.Arrival>, stop: nat, expected: nat, doneBefore: nat, ghost start: seq<S.Outputs>,
                    ghost got: seq<S.Arrival>)
      returns (repDone: nat, done: bool)
      requires Valid() && S.Shaped(start, cfg.reps, cfg.pipes) && doneBefore < expected
      requires forall j :: 0 <= j < |pass| ==> S.ValidArrival(pass[j], cfg.reps, cfg.pipes)
      requires forall a :: a in got ==> S.ValidArrival(a, cfg.reps, cfg.pipes)
      requires outs == S.Applied(start, got, cfg.reps, cfg.pipes) && doneBefore == S.TimedCount(got, stop)
      modifies this`outs, footprint
      ensures Valid() && forall a :: a in got + pass ==> S.ValidArrival(a, cfg.reps, cfg.pipes)
      ensures outs == S.Applied(start, got + pass, cfg.reps, cfg.pipes)
      ensures repDone == S.TimedCount(got + pass, stop) && (done <==> repDone >= expected)
    {
      hide AllHold, S.Applied, S.TimedCount, S.Shaped;
      repDone, done := doneBefore, false;
      assert got + pass[..0] == got;
      for j := 0 to |pass|
        invariant Valid() && forall a :: a in got + pass[..j] ==> S.ValidArrival(a, cfg.reps, cfg.pipes)
        invariant outs == S.Applied(start, got + pass[..j], cfg.reps, cfg.pipes)
        invariant repDone == S.TimedCount(got + pass[..j], stop) && (done <==> repDone >= expected)
      {
        OneMore(start, got + pass[..j], pass[j], stop);
        assert got + pass[..j] + [pass[j]] == got + pass[..j + 1];
        ReadPipe(pass[j].rep, pass[j].pipe, pass[j].data);
        if pass[j].pipe == stop {
          repDone := repDone + 1;
          if repDone == expected {
            done := true;
          }
        }
      }
      assert pass[..|pass|] == pass;
    }

    /** Collects until the expected number of replicas has answered or, when a
        timer is set, after the last pass, the deadline has gone by. */
    method CollectFromReps(setTimer: bool, passes: seq<seq<S.Arrival>>, expected: nat) returns (repDone: nat)
      requires Valid() && S.ValidPasses(passes, cfg.reps, cfg.pipes) && activePipe < |cfg.timerStop| && expected > 0
      requires !setTimer ==>
        var stop := cfg.timerStop[activePipe]; S.TimedCount(S.Consumed(passes, stop, expected, []), stop) >= expected
      modifies this`outs, this`timeoutOccurred, footprint
      ensures Valid()
      ensures var stop := cfg.timerStop[activePipe];
        var got := S.Collected(passes, stop, expected, cfg.reps, cfg.pipes);
        && outs == S.Applied(old(outs), got, cfg.reps, cfg.pipes)
        && repDone == S.TimedCount(got, stop) && (timeoutOccurred <==> repDone < expected)
    {
      hide AllHold, S.Applied, S.TimedCount;
      var stop := cfg.timerStop[activePipe];
      timeoutOccurred := false;
      repDone := 0;
      var done, i := false, 0;
      ghost var got := [];
      NothingRead(outs, stop);
      S.ConsumedValid(passes, stop, expected, [], cfg.reps, cfg.pipes);
      while !done
        invariant Valid() && i <= |passes| && (forall a :: a in got ==> S.ValidArrival(a, cfg.reps, cfg.pipes))
        invariant outs == S.Applied(old(outs), got, cfg.reps, cfg.pipes)
        invariant repDone == S.TimedCount(got, stop) && (done <==> repDone >= expected) && !timeoutOccurred
        invariant S.Consumed(passes, stop, expected, []) == S.Consumed(passes[i..], stop, expected, got)
        decreases |passes| - i, !done
      {
        if setTimer && i == |passes| {
          timeoutOccurred := true;
          break;
        }
        repDone, done := ReadPass(passes[i], stop, expected, repDone, old(outs), got);
        got, i := got + passes[i], i + 1;
      }
    }

    lemma NothingRead(outs: seq<S.Outputs>, stop: nat)
      requires S.Shaped(outs, cfg.reps, cfg.pipes)
      ensures S.Applied(outs, [], cfg.reps, cfg.pipes) == outs && S.TimedCount([], stop) == 0
    {
    }

    // ----- deciding

    method FindFaultReplica()
      requires Valid()
      modifies this`faultIndex
      ensures Valid() && faultIndex == S.Blamed(outs, cfg.pipes)
    {
      var lowestScore := cfg.pipes;
      faultIndex := 0;
      for r := 0 to cfg.reps
        invariant Valid() && (faultIndex, lowestScore) == S.FindFault(outs, cfg.pipes, r)
      {
        var repScore := 0;
        for p := 0 to cfg.pipes
          invariant repScore == S.Score(outs[r], p)
        {
          assert HoldsAt(r, p, outs[r][p]);
          if replicas[r].buffCounts[p] > 0 {
            repScore := repScore + 1;
          }
        }
        if repScore < lowestScore {
          faultIndex, lowestScore := r, repScore;
        }
      }
    }

    /** `memcmp` of what two replicas wrote on a pipe, equally many bytes. */
    method CompareContents(a: nat, b: nat, p: nat) returns (r: int)
      requires Valid() && a < cfg.reps && b < cfg.reps && p < cfg.pipes && |outs[a][p]| == |outs[b][p]|
      ensures r == 0 <==> outs[a][p] == outs[b][p]
    {
      assert HoldsAt(a, p, outs[a][p]) && HoldsAt(b, p, outs[b][p]);
      var n := replicas[a].buffCounts[p];
      r := Memcmp(replicas[a].buffers[p][..n], replicas[b].buffers[p][..n]);
    }

    method CountOf(r: nat, p: nat) returns (n: nat)
      requires Valid() && r < cfg.reps && p < cfg.pipes
      ensures n == |outs[r][p]|
    {
      assert HoldsAt(r, p, outs[r][p]);
      n := replicas[r].buffCounts[p];
    }

    method CheckCounts3() returns (fault: bool)
      requires Valid() && cfg.reps == 3
      modifies this`faultIndex
      ensures Valid()
      ensures S.Verdict(fault, faultIndex) == S.CheckCounts3(outs, cfg.pipes, S.Verdict(false, old(faultIndex)))
    {
      hide AllHold;
      fault := false;
      for p := 0 to cfg.pipes
        invariant Valid() && S.Verdict(fault, faultIndex) == S.CheckCounts3(outs, p, S.Verdict(false, old(faultIndex)))
      {
        var a := CountOf(0, p);
        var b := CountOf(1, p);
        var c := CountOf(2, p);
        if a != b {
          fault := true;
          if a != c {
            faultIndex := 0;
          } else {
            faultIndex := 1;
          }
        } else if a != c {
          fault, faultIndex := true, 2;
        }
      }
    }

    method CheckContents3() returns (fault: bool)
      requires Valid() && cfg.reps == 3
      requires forall p :: 0 <= p < cfg.pipes ==> |outs[0][p]| == |outs[1][p]| == |outs[2][p]|
      modifies this`faultIndex
      ensures Valid()
      ensures S.Verdict(fault, faultIndex) == S.CheckContents3(outs, cfg.pipes, S.Verdict(false, old(faultIndex)))
    {
      hide AllHold;
      fault := false;
      for p := 0 to cfg.pipes
        invariant Valid()
        invariant S.Verdict(fault, faultIndex) == S.CheckContents3(outs, p, S.Verdict(false, old(faultIndex)))
      {
        var second := CompareContents(0, 1, p);
        var third := CompareContents(0, 2, p);
        if second != 0 {
          fault := true;
          if third != 0 {
            faultIndex := 0;
          } else {
            faultIndex := 1;
          }
        } else if third != 0 {
          fault, faultIndex := true, 2;
        }
      }
    }

    method Check2() returns (fault: bool)
      requires Valid() && cfg.reps == 2
      modifies this`faultIndex
      ensures Valid() && S.Verdict(fault, faultIndex) == S.Check2(outs, cfg.pipes, S.Verdict(false, old(faultIndex)))
    {
      hide AllHold;
      fault := false;
      for p := 0 to cfg.pipes
        invariant Valid() && S.Verdict(fault, faultIndex) == S.Check2(outs, p, S.Verdict(false, old(faultIndex)))
      {
        var a := CountOf(0, p);
        var b := CountOf(1, p);
        if a != b {
          fault := true;
          if a < b {
            faultIndex := 0;
          } else {
            faultIndex := 1;
          }
        } else {
          var differ := CompareContents(0, 1, p);
          if differ != 0 {
            fault, faultIndex := true, 0;
          }
        }
      }
    }

    method CheckSDC() returns (fault: bool)
      requires Valid()
      modifies this`faultIndex
      ensures Valid() && S.Verdict(fault, faultIndex) == S.CheckSDC(outs, cfg.reps, cfg.pipes, old(faultIndex))
    {
      hide AllHold, S.Check2, S.CheckCounts3, S.CheckContents3;
      fault := false;
      if cfg.reps == 2 {
        fault := Check2();
      } else if cfg.reps == 3 {
        S.CountsFault(outs, cfg.pipes, S.Verdict(false, faultIndex));
        fault := CheckCounts3();
        if !fault {
          fault := CheckContents3();
        }
      }
    }

    // ----- sending

    method Clear(r: nat, p: nat)
      requires Valid() && r < cfg.reps && p < cfg.pipes
      modifies this`outs, footprint
      ensures Valid() && outs == old(outs)[r := old(outs)[r][p := []]]
    {
      assert HoldsAt(r, p, outs[r][p]) && Placed(replicas[r].buffers[p], r, p);
      replicas[r].buffCounts[p] := 0;
      assert HoldsAt(r, p, []);
      outs := outs[r := outs[r][p := []]];
    }

    method ClearReplica(r: nat)
      requires Valid() && r < cfg.reps
      modifies this`outs, footprint
      ensures Valid() && outs == old(outs)[r := M.Blank(cfg.reps, cfg.pipes)[r]]
    {
      hide AllHold;
      ghost var blank := M.Blank(cfg.reps, cfg.pipes)[r];
      assert blank[..0] + outs[r][0..] == outs[r] && outs[r := outs[r]] == outs;
      for p := 0 to cfg.pipes
        invariant Valid() && outs == old(outs)[r := blank[..p] + old(outs)[r][p..]]
      {
        assert (blank[..p] + old(outs)[r][p..])[p := []] == blank[..p + 1] + old(outs)[r][p + 1..];
        Clear(r, p);
      }
      assert blank[..cfg.pipes] + old(outs)[r][cfg.pipes..] == blank;
    }

    method WritePipe(r: nat, p: nat)
      requires Valid() && r < cfg.reps && p < cfg.pipes
      modifies this`extOut
      ensures Valid() && extOut == old(extOut)[p := old(extOut)[p] + outs[r][p]]
    {
      assert HoldsAt(r, p, outs[r][p]);
      if replicas[r].buffCounts[p] != 0 {
        extOut := extOut[p := extOut[p] + replicas[r].buffers[p][..replicas[r].buffCounts[p]]];
      } else {
        assert extOut[p] + outs[r][p] == extOut[p];
      }
    }

    /** Writes out what one replica answered and forgets what all did. */
    method SendData(r: nat)
      requires Valid() && r < cfg.reps
      modifies this`outs, this`extOut, footprint
      ensures Valid() && outs == M.Blank(cfg.reps, cfg.pipes)
      ensures forall p :: 0 <= p < cfg.pipes ==> extOut[p] == old(extOut)[p] + old(outs)[r][p]
    {
      hide AllHold;
      for p := 0 to cfg.pipes
        invariant Valid() && outs == old(outs)
        invariant forall q :: 0 <= q < p ==> extOut[q] == old(extOut)[q] + old(outs)[r][q]
        invariant forall q :: p <= q < cfg.pipes ==> extOut[q] == old(extOut)[q]
      {
        WritePipe(r, p);
      }
      ghost var sent := extOut;
      for i := 0 to cfg.reps
        invariant Valid() && extOut == sent
        invariant forall j :: 0 <= j < i ==> outs[j] == M.Blank(cfg.reps, cfg.pipes)[j]
      {
        ClearReplica(i);
      }
      assert outs == M.Blank(cfg.reps, cfg.pipes);
    }

    // ----- a round

    /** What the main loop does with one input: nothing more when it is not
        answered; else it collects the answers, votes or, at a timeout, finds the
        silent replica, and sends what the chosen replica answered. A single
        replica that is silent is started afresh, gets the input again and is
        waited for. */
    method DoRound(passes: seq<seq<S.Arrival>>, again: seq<seq<S.Arrival>>) returns (fault: bool)
      requires Valid() && Accounted() && outs == M.Blank(cfg.reps, cfg.pipes)
      requires M.ValidReads(cfg, activePipe, passes, again)
      modifies this`outs, this`faultIndex, this`timeoutOccurred, this`extOut, this`sent, footprint
      ensures Valid() && Accounted() && outs == M.Blank(cfg.reps, cfg.pipes)
      ensures !M.Waits(cfg, activePipe) ==>
        !fault && extOut == old(extOut) && sent == old(sent) && faultIndex == old(faultIndex)
      ensures M.Waits(cfg, activePipe) ==>
        var o := M.Finish(cfg, activePipe, passes, again, old(faultIndex));
        fault == o.decision.fault && faultIndex == o.decision.index && sent == old(sent) + [o.answer]
      ensures activePipe !in cfg.timerStart ==> sent == old(sent)
      ensures activePipe in cfg.timerStart ==> |sent| == |old(sent)| + 1
      ensures activePipe in cfg.timerStart && cfg.reps == 1 && M.Silent(passes, cfg.timerStop[activePipe]) ==>
        && sent[|old(sent)|][cfg.timerStop[activePipe]] != []
        && exists k: nat :: M.AnswersIn(again, cfg.timerStop[activePipe], k)
             && forall p :: 0 <= p < cfg.pipes ==> sent[|old(sent)|][p] == M.Latest(passes, again[..k], p)
    {
      fault := false;
      if cfg.reps == 1 && M.Waits(cfg, activePipe) && M.Silent(passes, cfg.timerStop[activePipe]) {
        ghost var k := M.FreshAnswer(cfg, activePipe, passes, again, faultIndex);
      }
      var waiting := CheckWaitOnInput();
      if waiting {
        fault := Answer(passes, again);
      }
    }

    /** A round that is answered. */
    method Answer(passes: seq<seq<S.Arrival>>, again: seq<seq<S.Arrival>>) returns (fault: bool)
      requires Valid() && Accounted() && outs == M.Blank(cfg.reps, cfg.pipes)
      requires M.Waits(cfg, activePipe) && M.ValidReads(cfg, activePipe, passes, again)
      modifies this`outs, this`faultIndex, this`timeoutOccurred, this`extOut, this`sent, footprint
      ensures Valid() && Accounted() && outs == M.Blank(cfg.reps, cfg.pipes)
      ensures var o := M.Finish(cfg, activePipe, passes, again, old(faultIndex));
        fault == o.decision.fault && faultIndex == o.decision.index && sent == old(sent) + [o.answer]
    {
      hide AllHold, Accounted, S.Applied, S.Consumed, S.TimedCount, S.CheckSDC, M.Blank, S.ValidPasses, S.FindFault;
      var repsDone := CollectFromReps(true, passes, cfg.reps);
      if !timeoutOccurred {
        fault := CheckSDC();
        if fault {
          SendAnswer(S.Sender(faultIndex, cfg.reps));
        } else {
          SendAnswer(0);
        }
      } else {
        FindFaultReplica();
        fault := true;
        if cfg.reps == 1 {
          var _ := CollectFromReps(false, again, 1);
        }
        SendAnswer(S.Sender(faultIndex, cfg.reps));
      }
    }

    method SendAnswer(r: nat)
      requires Valid() && Accounted() && r < cfg.reps
      modifies this`outs, this`extOut, this`sent, footprint
      ensures Valid() && Accounted() && outs == M.Blank(cfg.reps, cfg.pipes)
      ensures sent == old(sent) + [old(outs)[r]]
    {
      hide AllHold, M.Blank;
      ghost var answer := outs[r];
      SendData(r);
      sent := sent + [answer];
      assert sent[..|sent| - 1] == old(sent);
    }

    /** The main loop over any rounds: it makes a run of VoterM, and what is on
        the external pipes is what that run sends. */
    method Serve<T(!new)>(rounds: seq<M.Round<T>>, ghost start: T) returns (ghost voters: seq<M.Voter<T>>)
      requires Valid() && Accounted() && outs == M.Blank(cfg.reps, cfg.pipes) && sent == []
      requires forall i :: 0 <= i < |rounds| ==> M.ValidRound(cfg, rounds[i])
      modifies this`outs, this`faultIndex, this`timeoutOccurred, this`activePipe, this`extOut, this`sent, footprint
      ensures Valid() && Accounted() && outs == M.Blank(cfg.reps, cfg.pipes)
      ensures M.Run(cfg, start, voters, rounds) && voters[|rounds|].sent == sent
    {
      hide AllHold, Accounted, M.Blank, M.Finish, S.ValidPasses, S.TimedLast;
      voters := [M.Voter(seq(cfg.reps, r => start), faultIndex, [])];
      for k := 0 to |rounds|
        invariant Valid() && Accounted() && outs == M.Blank(cfg.reps, cfg.pipes)
        invariant |voters| == k + 1 && voters[k].sent == sent && voters[k].index == faultIndex
        invariant |voters[0].states| == cfg.reps && voters[0].sent == []
        invariant forall r :: 0 <= r < cfg.reps ==> voters[0].states[r] == start
        invariant forall i :: 0 <= i < k ==> voters[i + 1] == M.Step(cfg, voters[i], rounds[i])
      {
        activePipe := rounds[k].pipe;
        voters := voters + [M.Step(cfg, voters[k], rounds[k])];
        var _ := DoRound(rounds[k].passes, rounds[k].again);
      }
    }
  }
}
