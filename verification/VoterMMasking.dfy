/** Fault masking by VoterM: rounds of input, collection, vote, restart and send
    over deterministic controllers, any number of output pipes and any number of
    rounds. */
module VoterMMasking {
  import opened VoteBuff
  import opened VoterMSpec

  /** What a controller makes of one input: its outputs and its next state. */
  datatype Response<S> = Response(outs: Outputs, next: S)

  type Controller<!S> = (S, nat, seq<byte>) -> Response<S>

  /** `timerStart` numbers the input pipes that are answered, `timerStop` gives,
      by input pipe, the output pipe of the answer. */
  datatype Config = Config(reps: nat, pipes: nat, timerStart: seq<nat>, timerStop: seq<nat>)

  predicate ValidConfig(cfg: Config) {
    && 1 <= cfg.reps <= 3
    && (forall k :: 0 <= k < |cfg.timerStop| ==> cfg.timerStop[k] < cfg.pipes)
    && forall k :: 0 <= k < |cfg.timerStart| ==> cfg.timerStart[k] < |cfg.timerStop|
  }

  /** `checkWaitOnInput`. */
  predicate Waits(cfg: Config, pipe: nat) {
    pipe in cfg.timerStart
  }

  /** The replicas' states, the fault index and, by round, what was sent on. */
  datatype Voter<S> = Voter(states: seq<S>, index: nat, sent: seq<Outputs>)

  /** One round: the input, what the replicas write until the deadline, in the
      order read, what a single replica writes when it has been started afresh,
      and the states their work leaves the replicas in. */
  datatype Round<S> =
    Round(pipe: nat, msg: seq<byte>, passes: seq<seq<Arrival>>, again: seq<seq<Arrival>>, next: seq<S>)

  /** What the round reads is well formed, and a single replica that is started
      afresh, which is waited for without a deadline, answers. */
  ghost predicate ValidReads(cfg: Config, pipe: nat, passes: seq<seq<Arrival>>, again: seq<seq<Arrival>>) {
    && ValidPasses(passes, cfg.reps, cfg.pipes) && ValidPasses(again, cfg.reps, cfg.pipes)
    && (Waits(cfg, pipe) ==>
          && pipe < |cfg.timerStop|
          && var stop := cfg.timerStop[pipe];
             cfg.reps == 1 && TimedCount(Consumed(passes, stop, 1, []), stop) < 1 ==>
               TimedCount(Consumed(again, stop, 1, []), stop) >= 1)
  }

  ghost predicate ValidRound<S>(cfg: Config, round: Round<S>) {
    && ValidConfig(cfg) && |round.next| == cfg.reps
    && ValidReads(cfg, round.pipe, round.passes, round.again)
    && (Waits(cfg, round.pipe) ==> TimedLast(Flatten(round.passes), cfg.timerStop[round.pipe]))
  }

  function Blank(reps: nat, pipes: nat): (outs: seq<Outputs>)
    ensures Shaped(outs, reps, pipes)
  {
    seq(reps, r => seq(pipes, p => []))
  }

  // ----- the decision of a round

  datatype Decision = Decision(fault: bool, index: nat, sender: nat)

  function Decide(outs: seq<Outputs>, reps: nat, pipes: nat, timeout: bool, index: nat): (d: Decision)
    requires reps >= 1 && Shaped(outs, reps, pipes)
    ensures d.sender < reps && (d.fault ==> d.index < reps)
  {
    if timeout then
      Decision(true, Blamed(outs, pipes), Sender(Blamed(outs, pipes), reps))
    else
      var v := CheckSDC(outs, reps, pipes, index);
      if v.fault then Decision(true, v.index, Sender(v.index, reps)) else Decision(false, v.index, 0)
  }

  /** How a round ends: its decision and the answer that is sent. */
  datatype Outcome = Outcome(decision: Decision, answer: Outputs)

  ghost function Finish(cfg: Config, pipe: nat, passes: seq<seq<Arrival>>, again: seq<seq<Arrival>>,
                        index: nat): (o: Outcome)
    requires ValidConfig(cfg) && Waits(cfg, pipe) && ValidReads(cfg, pipe, passes, again)
    ensures o.decision.sender < cfg.reps && (o.decision.fault ==> o.decision.index < cfg.reps)
    ensures |o.answer| == cfg.pipes
  {
    var stop := cfg.timerStop[pipe];
    var got := Collected(passes, stop, cfg.reps, cfg.reps, cfg.pipes);
    var timeout := TimedCount(got, stop) < cfg.reps;
    var outs := Applied(Blank(cfg.reps, cfg.pipes), got, cfg.reps, cfg.pipes);
    var d := Decide(outs, cfg.reps, cfg.pipes, timeout, index);
    var last := if timeout && cfg.reps == 1
      then Applied(outs, Collected(again, stop, 1, cfg.reps, cfg.pipes), cfg.reps, cfg.pipes) else outs;
    Outcome(d, last[d.sender])
  }

  // ----- a single replica

  /** The first k passes are the first with something on pipe `stop`. */
  ghost predicate AnswersIn(passes: seq<seq<Arrival>>, stop: nat, k: nat) {
    && 0 < k <= |passes|
    && (forall i, a :: 0 <= i < k - 1 && a in passes[i] ==> a.pipe != stop)
    && exists a :: a in passes[k - 1] && a.pipe == stop
  }

  ghost predicate Silent(passes: seq<seq<Arrival>>, stop: nat) {
    forall i, a :: 0 <= i < |passes| && a in passes[i] ==> a.pipe != stop
  }

  lemma {:induction false} TimedIn(arrivals: seq<Arrival>, stop: nat)
    ensures TimedCount(arrivals, stop) > 0 <==> exists a :: a in arrivals && a.pipe == stop
  {
    if arrivals != [] {
      var init, last := arrivals[..|arrivals| - 1], arrivals[|arrivals| - 1];
      assert arrivals == init + [last];
      TimedIn(init, stop);
      if last.pipe == stop {
        assert last in arrivals;
      }
    }
  }

  lemma {:induction false} InFlatten(passes: seq<seq<Arrival>>, a: Arrival)
    ensures a in Flatten(passes) <==> exists i :: 0 <= i < |passes| && a in passes[i]
  {
    if passes != [] {
      InFlatten(passes[1..], a);
      if a in Flatten(passes[1..]) {
        var i :| 0 <= i < |passes[1..]| && a in passes[1..][i];
        assert a in passes[i + 1];
      }
    }
  }

  lemma SilentCount(passes: seq<seq<Arrival>>, stop: nat)
    ensures Silent(passes, stop) <==> TimedCount(Flatten(passes), stop) == 0
  {
    TimedIn(Flatten(passes), stop);
    forall a ensures a in Flatten(passes) <==> exists i :: 0 <= i < |passes| && a in passes[i] {
      InFlatten(passes, a);
    }
  }

  lemma CollectsTheAnswer(passes: seq<seq<Arrival>>, stop: nat, reps: nat, pipes: nat) returns (k: nat)
    requires ValidPasses(passes, reps, pipes) && TimedCount(Consumed(passes, stop, 1, []), stop) >= 1
    ensures AnswersIn(passes, stop, k) && Collected(passes, stop, 1, reps, pipes) == Flatten(passes[..k])
  {
    assert passes[..0] == [] && passes[0..] == passes;
    k := ConsumedStops(passes, stop, 1, 0);
    assert k > 0;
    SilentCount(passes[..k], stop);
    SilentCount(passes[..k - 1], stop);
    assert passes[..k - 1] + [passes[k - 1]] == passes[..k];
    assert forall i :: 0 <= i < k - 1 ==> passes[..k - 1][i] == passes[i];
    assert forall i :: 0 <= i < k ==> passes[..k][i] == passes[i];
  }

  lemma SilentIsConsumed(passes: seq<seq<Arrival>>, stop: nat)
    requires Silent(passes, stop)
    ensures Consumed(passes, stop, 1, []) == Flatten(passes)
    ensures TimedCount(Consumed(passes, stop, 1, []), stop) == 0
  {
    SilentCount(passes, stop);
    assert [] + Flatten(passes) == Flatten(passes);
    var rest := ConsumedIsPrefix(passes, stop, 1, []);
    var got := Consumed(passes, stop, 1, []);
    assert forall a :: a in got ==> a in got + rest;
    TimedIn(got, stop);
    TimedIn(Flatten(passes), stop);
  }

  /** A single replica that is silent until the deadline is started afresh. What
      is sent is what the fresh one writes, up to its answer, which is there; on
      pipes where it writes nothing it is what the first one had written. */
  lemma FreshAnswer(cfg: Config, pipe: nat, passes: seq<seq<Arrival>>, again: seq<seq<Arrival>>, index: nat)
    returns (k: nat)
    requires ValidConfig(cfg) && cfg.reps == 1 && Waits(cfg, pipe) && ValidReads(cfg, pipe, passes, again)
    requires Silent(passes, cfg.timerStop[pipe])
    ensures AnswersIn(again, cfg.timerStop[pipe], k)
    ensures var answer := Finish(cfg, pipe, passes, again, index).answer;
      && answer[cfg.timerStop[pipe]] != []
      && forall p :: 0 <= p < cfg.pipes ==> answer[p] == Latest(passes, again[..k], p)
  {
    var stop, blank := cfg.timerStop[pipe], Blank(1, cfg.pipes);
    SilentIsConsumed(passes, stop);
    k := CollectsTheAnswer(again, stop, 1, cfg.pipes);
    var first, second := Collected(passes, stop, 1, 1, cfg.pipes), Collected(again, stop, 1, 1, cfg.pipes);
    var outs := Applied(blank, first, 1, cfg.pipes);
    forall p | 0 <= p < cfg.pipes ensures Applied(outs, second, 1, cfg.pipes)[0][p] == Latest(passes, again[..k], p) {
      OneReplica(first, cfg.pipes, p);
      OneReplica(second, cfg.pipes, p);
      LastReadCounts(blank, first, 1, cfg.pipes, 0, p);
      LastReadCounts(outs, second, 1, cfg.pipes, 0, p);
    }
    TimedIn(second, stop);
    OneReplica(second, cfg.pipes, stop);
    LastReadCounts(outs, second, 1, cfg.pipes, 0, stop);
  }

  lemma OneReplica(arrivals: seq<Arrival>, pipes: nat, p: nat)
    requires forall a :: a in arrivals ==> ValidArrival(a, 1, pipes)
    ensures forall a :: a in arrivals ==> a.rep == 0
  {
  }

  /** What a single replica wrote last on pipe p, afresh if it wrote there then. */
  function Latest(passes: seq<seq<Arrival>>, again: seq<seq<Arrival>>, p: nat): seq<byte> {
    if LastOn(Flatten(again), 0, p) != [] then LastOn(Flatten(again), 0, p) else LastOn(Flatten(passes), 0, p)
  }

  /** All that the replicas write in a round, by replica. */
  ghost function Written<S>(cfg: Config, round: Round<S>): (outs: seq<Outputs>)
    requires ValidRound(cfg, round)
    ensures Shaped(outs, cfg.reps, cfg.pipes)
  {
    FlattenValid(round.passes, cfg.reps, cfg.pipes);
    Applied(Blank(cfg.reps, cfg.pipes), Flatten(round.passes), cfg.reps, cfg.pipes)
  }

  ghost function Got<S>(cfg: Config, round: Round<S>): seq<Arrival>
    requires ValidRound(cfg, round) && Waits(cfg, round.pipe)
  {
    Collected(round.passes, cfg.timerStop[round.pipe], cfg.reps, cfg.reps, cfg.pipes)
  }

  lemma GotIsAll<S>(cfg: Config, round: Round<S>)
    requires ValidRound(cfg, round) && Waits(cfg, round.pipe)
    ensures Got(cfg, round) == Flatten(round.passes)
  {
    FlattenValid(round.passes, cfg.reps, cfg.pipes);
    var stop := cfg.timerStop[round.pipe];
    var rest := ConsumedIsPrefix(round.passes, stop, cfg.reps, []);
    assert [] + Flatten(round.passes) == Flatten(round.passes);
    if TimedCount(Got(cfg, round), stop) >= cfg.reps {
      CollectedIsComplete(round.passes, stop, cfg.reps, cfg.pipes);
    }
  }

  lemma {:induction false} WrittenTimed(outs: seq<Outputs>, arrivals: seq<Arrival>, reps: nat, pipes: nat, stop: nat,
                                        r: nat)
    requires Shaped(outs, reps, pipes) && stop < pipes && r < reps && outs[r][stop] == []
    requires forall a :: a in arrivals ==> ValidArrival(a, reps, pipes)
    ensures Applied(outs, arrivals, reps, pipes)[r][stop] != [] <==> r in TimedReps(arrivals, stop)
  {
    if arrivals != [] {
      var init, last := arrivals[..|arrivals| - 1], arrivals[|arrivals| - 1];
      assert ValidArrival(last, reps, pipes) by { assert last in arrivals; }
      WrittenTimed(outs, init, reps, pipes, stop, r);
      if last.pipe == stop {
        assert TimedReps(arrivals, stop) == TimedReps(init, stop) + {last.rep};
      } else {
        assert TimedReps(arrivals, stop) == TimedReps(init, stop);
      }
    }
  }

  /** A timeout occurs exactly when some replica has not written the answer. */
  lemma TimeoutMeansSilent<S>(cfg: Config, round: Round<S>)
    requires ValidRound(cfg, round) && Waits(cfg, round.pipe)
    ensures var stop := cfg.timerStop[round.pipe];
      TimedCount(Flatten(round.passes), stop) < cfg.reps <==>
          exists r :: 0 <= r < cfg.reps && Written(cfg, round)[r][stop] == []
  {
    hide Applied, Flatten, TimedLast, TimedCount;
    var stop, all := cfg.timerStop[round.pipe], Flatten(round.passes);
    FlattenValid(round.passes, cfg.reps, cfg.pipes);
    TimedRepsCount(all, stop);
    TimedRepsAreReps(all, all, [], stop, cfg.reps, cfg.pipes);
    forall r | 0 <= r < cfg.reps ensures Written(cfg, round)[r][stop] != [] <==> r in TimedReps(all, stop) {
      WrittenTimed(Blank(cfg.reps, cfg.pipes), all, cfg.reps, cfg.pipes, stop, r);
    }
    if TimedCount(all, stop) >= cfg.reps {
      AllReps(TimedReps(all, stop), cfg.reps);
    } else if forall r :: 0 <= r < cfg.reps ==> r in TimedReps(all, stop) {
      Everyone(TimedReps(all, stop), cfg.reps);
    }
  }

  lemma {:induction false} Everyone(s: set<nat>, n: nat)
    requires forall r :: 0 <= r < n ==> r in s
    ensures |s| >= n
  {
    if n > 0 {
      Everyone(s - {n - 1}, n - 1);
    }
  }

  // ----- one round

  ghost function Step<S>(cfg: Config, v: Voter<S>, round: Round<S>): (w: Voter<S>)
    requires ValidRound(cfg, round)
  {
    if !Waits(cfg, round.pipe) then v.(states := round.next)
    else
      var o := Finish(cfg, round.pipe, round.passes, round.again, v.index);
      var d := o.decision;
      v.(states := if d.fault then round.next[d.index := round.next[d.sender]] else round.next,
         index := d.index,
         sent := v.sent + [o.answer])
  }

  /** Replica r does in a round what its controller does. */
  ghost predicate Faithful<S(!new)>(cfg: Config, ctl: Controller<S>, v: Voter<S>, round: Round<S>, r: nat)
    requires ValidRound(cfg, round) && |v.states| == cfg.reps && r < cfg.reps
  {
    var response := ctl(v.states[r], round.pipe, round.msg);
    round.next[r] == response.next && (Waits(cfg, round.pipe) ==> Written(cfg, round)[r] == response.outs)
  }

  /** How a replica may answer in a round in which `gold` is the right answer:
      rightly; silently, that is without the answer that is waited for and on
      fewer pipes; and, of three replicas, in any way with an answer. */
  ghost predicate Maskable(reps: nat, out: Outputs, gold: Outputs, stop: nat)
    requires stop < |out| == |gold|
  {
    || out == gold
    || (reps >= 2 && out[stop] == [] && Score(out, |out|) < Score(gold, |out|))
    || (reps == 3 && out[stop] != [])
  }

  /** What the fault model grants of a round: all replicas but at most one, `odd`,
      are faithful, and the odd one answers in a way that can be masked. */
  ghost predicate OneOdd<S(!new)>(cfg: Config, ctl: Controller<S>, v: Voter<S>, round: Round<S>, gold: S, odd: nat) {
    && ValidRound(cfg, round) && |v.states| == cfg.reps
    && (forall r :: 0 <= r < cfg.reps && r != odd ==> Faithful(cfg, ctl, v, round, r))
    && (Waits(cfg, round.pipe) ==>
          var stop, outs := cfg.timerStop[round.pipe], ctl(gold, round.pipe, round.msg).outs;
          && |outs| == cfg.pipes && outs[stop] != []
          && (odd < cfg.reps ==> Maskable(cfg.reps, Written(cfg, round)[odd], outs, stop)))
  }

  /** The round is one of the fault model and all replicas but the odd one start
      it in the fault-free state `gold`. */
  ghost predicate Tolerable<S(!new)>(cfg: Config, ctl: Controller<S>, v: Voter<S>, round: Round<S>, gold: S, odd: nat) {
    && OneOdd(cfg, ctl, v, round, gold, odd)
    && forall r :: 0 <= r < cfg.reps && r != odd ==> v.states[r] == gold
  }

  /** A replica that is stopped before its answer can be masked, if what it wrote
      before it wrote on pipes on which the right answer says something too. */
  lemma StoppedIsMaskable(reps: nat, out: Outputs, gold: Outputs, stop: nat)
    requires reps >= 2 && stop < |out| == |gold| && out[stop] == [] && gold[stop] != []
    requires forall p :: 0 <= p < |out| && out[p] != [] ==> gold[p] != []
    ensures Maskable(reps, out, gold, stop)
  {
    FewerPipes(out, gold, stop, |out|);
  }

  /** A fault is repaired from, and the answer sent by, the replica before the one
      that is named; without a fault the first one's is sent. */
  lemma OneBeforeSends(outs: seq<Outputs>, reps: nat, pipes: nat, timeout: bool, index: nat)
    requires 1 <= reps <= 3 && Shaped(outs, reps, pipes)
    ensures var d := Decide(outs, reps, pipes, timeout, index);
      && (timeout ==> d.fault && d.index == Blamed(outs, pipes))
      && (!timeout ==> Verdict(d.fault, d.index) == CheckSDC(outs, reps, pipes, index))
      && d.sender == if !d.fault then 0 else if d.index == 0 then reps - 1 else d.index - 1
  {
    FindFaultIsLowest(outs, pipes, reps);
  }

  /** A timeout blames the silent replica, and a vote the wrong one. */
  lemma OddIsFound(outs: seq<Outputs>, reps: nat, pipes: nat, gold: Outputs, stop: nat, odd: nat, index: nat)
    requires 2 <= reps <= 3 && Shaped(outs, reps, pipes) && odd < reps && stop < pipes == |gold|
    requires forall r :: 0 <= r < reps && r != odd ==> outs[r] == gold
    requires gold[stop] != [] && outs[odd] != gold && Maskable(reps, outs[odd], gold, stop)
    ensures var d := Decide(outs, reps, pipes, exists r :: 0 <= r < reps && outs[r][stop] == [], index);
            d.fault && d.index == odd && d.sender < reps && d.sender != odd
  {
    var other := Sender(odd, reps);
    assert outs[other] == gold;
    if outs[odd][stop] == [] {
      BlameIsExact(outs, pipes, odd, other);
    } else {
      assert !exists r :: 0 <= r < reps && outs[r][stop] == [];
      VerdictOfThree(outs, pipes, index);
      var third := 3 - odd - other;
      assert {odd, other, third} == {0, 1, 2};
    }
  }

  /** The damage of a wrong blame, exactly: at a timeout the odd answer is sent
      when the odd replica, `a`, wrote on more pipes than the others and is the
      first, or on no fewer and is the last. */
  lemma WrongAnswerIsSent(outs: seq<Outputs>, pipes: nat, a: nat, b: nat, index: nat)
    requires 2 <= |outs| <= 3 && Shaped(outs, |outs|, pipes) && a < |outs| && b < |outs| && a != b
    requires forall r :: 0 <= r < |outs| && r != a ==> outs[r] == outs[b]
    ensures var d := Decide(outs, |outs|, pipes, true, index);
      var mine, theirs := Score(outs[a], pipes), Score(outs[b], pipes);
      outs[d.sender] != outs[b] <==>
        outs[a] != outs[b] && ((a == 0 && mine > theirs) || (a == |outs| - 1 && mine >= theirs))
  {
    BlameIsExact(outs, pipes, a, b);
    FindFaultIsLowest(outs, pipes, |outs|);
    assert Score(outs[0], pipes) == if a == 0 then Score(outs[a], pipes) else Score(outs[b], pipes);
  }

  /** It happens: of three replicas that should write 1 on pipe 0, the last
      writes 7 on pipe 1 instead. At the timeout the first, a healthy one, is
      killed and cloned from the last, whose answer is sent. */
  lemma HealthyIsKilled(outs: seq<Outputs>, index: nat)
    requires outs == [[[1], []], [[1], []], [[], [7]]]
    ensures Decide(outs, 3, 2, true, index) == Decision(true, 0, 2)
  {
    assert forall r :: 0 <= r < 3 ==> Score(outs[r], 1) == |outs[r][0]| && Score(outs[r], 2) == 1;
    assert FindFault(outs, 2, 0) == (0, 2);
    assert FindFault(outs, 2, 1) == (0, 1);
    assert FindFault(outs, 2, 2) == (0, 1);
    assert FindFault(outs, 2, 3) == (0, 1);
  }

  lemma AllAgree(outs: seq<Outputs>, reps: nat, pipes: nat, gold: Outputs, stop: nat, index: nat)
    requires 1 <= reps <= 3 && Shaped(outs, reps, pipes) && stop < pipes == |gold| && gold[stop] != []
    requires forall r :: 0 <= r < reps ==> outs[r] == gold
    ensures Decide(outs, reps, pipes, exists r :: 0 <= r < reps && outs[r][stop] == [], index) ==
        Decision(false, index, 0)
  {
    assert !exists r :: 0 <= r < reps && outs[r][stop] == [];
    if reps == 3 {
      VerdictOfThree(outs, pipes, index);
    } else if reps == 2 {
      VerdictOfTwo(outs, pipes, index);
    }
  }

  /** One round masks its fault: what is sent is the fault-free answer, on every
      output pipe; all replicas but the odd one end in the fault-free state, and
      so does the odd one if its answer was not the right one. */
  lemma RoundIsMasked<S(!new)>(cfg: Config, ctl: Controller<S>, v: Voter<S>, round: Round<S>, gold: S, odd: nat)
    requires Tolerable(cfg, ctl, v, round, gold, odd)
    ensures var w, response := Step(cfg, v, round), ctl(gold, round.pipe, round.msg);
      && |w.states| == cfg.reps
      && w.sent == (if Waits(cfg, round.pipe) then v.sent + [response.outs] else v.sent)
      && (forall r :: 0 <= r < cfg.reps && r != odd ==> w.states[r] == response.next)
      && (Waits(cfg, round.pipe) && odd < cfg.reps && Written(cfg, round)[odd] != response.outs ==>
          w.states[odd] == response.next)
  {
    forall r | 0 <= r < cfg.reps && r != odd
      ensures round.next[r] == ctl(gold, round.pipe, round.msg).next
      ensures Waits(cfg, round.pipe) ==> Written(cfg, round)[r] == ctl(gold, round.pipe, round.msg).outs
    {
      assert v.states[r] == gold && Faithful(cfg, ctl, v, round, r);
    }
    if Waits(cfg, round.pipe) {
      var stop, outs, gold' := cfg.timerStop[round.pipe], Written(cfg, round), ctl(gold, round.pipe, round.msg).outs;
      hide Applied, Flatten, Consumed, TimedCount, CheckSDC, Maskable;
      GotIsAll(cfg, round);
      TimeoutMeansSilent(cfg, round);
      if odd < cfg.reps && outs[odd] != gold' {
        AnotherReplica(cfg.reps, outs[odd], gold', stop);
        OddIsFound(outs, cfg.reps, cfg.pipes, gold', stop, odd, v.index);
      } else {
        AllAgree(outs, cfg.reps, cfg.pipes, gold', stop, v.index);
      }
    }
  }

  lemma AnotherReplica(reps: nat, out: Outputs, gold: Outputs, stop: nat)
    requires stop < |out| == |gold| && out != gold && Maskable(reps, out, gold, stop)
    ensures reps >= 2
  {
  }

  /** The cold restart masks too: when a single replica writes nothing until the
      deadline and, started afresh, the fault-free answer, that is what is sent. */
  lemma FreshStartIsMasked<S(!new)>(cfg: Config, ctl: Controller<S>, v: Voter<S>, round: Round<S>, gold: S)
    requires ValidRound(cfg, round) && cfg.reps == 1 && Waits(cfg, round.pipe)
    requires forall i :: 0 <= i < |round.passes| ==> round.passes[i] == []
    requires TimedLast(Flatten(round.again), cfg.timerStop[round.pipe])
    requires var response := ctl(gold, round.pipe, round.msg);
      && |response.outs| == cfg.pipes && response.outs[cfg.timerStop[round.pipe]] != []
      && (forall p :: 0 <= p < cfg.pipes ==> LastOn(Flatten(round.again), 0, p) == response.outs[p])
      && round.next == [response.next]
    ensures var w, response := Step(cfg, v, round), ctl(gold, round.pipe, round.msg);
            w.sent == v.sent + [response.outs] && w.states == [response.next]
  {
    var stop, outs := cfg.timerStop[round.pipe], ctl(gold, round.pipe, round.msg).outs;
    var k := FreshAnswer(cfg, round.pipe, round.passes, round.again, v.index);
    var o := Finish(cfg, round.pipe, round.passes, round.again, v.index);
    NothingFlat(round.passes);
    SilentIsConsumed(round.passes, stop);
    FlattenValid(round.again, 1, cfg.pipes);
    var j := CollectsTheAnswer(round.again, stop, 1, cfg.pipes);
    SameAnswer(round.again, stop, j, k);
    CollectedIsComplete(round.again, stop, 1, cfg.pipes);
    assert o.answer == outs;
  }

  lemma SameAnswer(passes: seq<seq<Arrival>>, stop: nat, j: nat, k: nat)
    requires AnswersIn(passes, stop, j) && AnswersIn(passes, stop, k)
    ensures j == k
  {
  }

  lemma {:induction false} NothingFlat(passes: seq<seq<Arrival>>)
    requires forall i :: 0 <= i < |passes| ==> passes[i] == []
    ensures Flatten(passes) == []
  {
    if passes != [] {
      NothingFlat(passes[1..]);
    }
  }

  // ----- all rounds

  /** The fault-free run: its state after k rounds and its answers. */
  ghost function GoldenState<S(!new)>(ctl: Controller<S>, start: S, rounds: seq<Round<S>>, k: nat): S
    requires k <= |rounds|
  {
    if k == 0 then start
    else ctl(GoldenState(ctl, start, rounds, k - 1), rounds[k - 1].pipe, rounds[k - 1].msg).next
  }

  ghost function GoldenSent<S(!new)>(cfg: Config, ctl: Controller<S>, start: S, rounds: seq<Round<S>>,
                              k: nat): seq<Outputs>
    requires k <= |rounds|
  {
    if k == 0 then []
    else
      var before := GoldenSent(cfg, ctl, start, rounds, k - 1);
      if Waits(cfg, rounds[k - 1].pipe)
      then before + [ctl(GoldenState(ctl, start, rounds, k - 1), rounds[k - 1].pipe, rounds[k - 1].msg).outs]
      else before
  }

  lemma GoldenStep<S(!new)>(cfg: Config, ctl: Controller<S>, start: S, rounds: seq<Round<S>>, k: nat)
    requires k <= |rounds|
    ensures GoldenState(ctl, start, rounds, 0) == start && GoldenSent(cfg, ctl, start, rounds, 0) == []
    ensures k > 0 ==>
      var gold, round := GoldenState(ctl, start, rounds, k - 1), rounds[k - 1];
      var before := GoldenSent(cfg, ctl, start, rounds, k - 1);
      && GoldenState(ctl, start, rounds, k) == ctl(gold, round.pipe, round.msg).next
      && GoldenSent(cfg, ctl, start, rounds, k)
         == (if Waits(cfg, round.pipe) then before + [ctl(gold, round.pipe, round.msg).outs] else before)
  {
  }

  ghost predicate Run<S(!new)>(cfg: Config, start: S, voters: seq<Voter<S>>, rounds: seq<Round<S>>) {
    && |voters| == |rounds| + 1
    && |voters[0].states| == cfg.reps && voters[0].sent == []
    && (forall r :: 0 <= r < cfg.reps ==> voters[0].states[r] == start)
    && forall k :: 0 <= k < |rounds| ==> ValidRound(cfg, rounds[k]) && voters[k + 1] == Step(cfg, voters[k], rounds[k])
  }

  /** No replica is struck before the one struck earlier is in the fault-free
      state again; a run of rounds with the same odd replica may leave it wrong. */
  ghost predicate RepairedFirst<S(!new)>(cfg: Config, ctl: Controller<S>, start: S, voters: seq<Voter<S>>,
                                         rounds: seq<Round<S>>, odd: seq<nat>)
    requires |odd| == |rounds| && |voters| == |rounds| + 1
  {
    forall i :: 0 < i < |rounds| && odd[i - 1] < |voters[i].states| && odd[i] != odd[i - 1] ==>
      voters[i].states[odd[i - 1]] == GoldenState(ctl, start, rounds, i)
  }

  /** Masking over any number of rounds: at most one replica is odd in each, and
      the next is not struck before it is repaired. Then every round sends the
      fault-free answer on every pipe, and all replicas but the odd one of the
      round before start it in the fault-free state. */
  lemma {:induction false} FaultsAreMasked<S(!new)>(cfg: Config, ctl: Controller<S>, start: S, voters: seq<Voter<S>>,
                                                    rounds: seq<Round<S>>, odd: seq<nat>, k: nat)
    requires Run(cfg, start, voters, rounds) && |odd| == |rounds| && k <= |rounds|
    requires forall i :: 0 <= i < |rounds| ==>
      OneOdd(cfg, ctl, voters[i], rounds[i], GoldenState(ctl, start, rounds, i), odd[i])
    requires RepairedFirst(cfg, ctl, start, voters, rounds, odd)
    ensures voters[k].sent == GoldenSent(cfg, ctl, start, rounds, k)
    ensures |voters[k].states| == cfg.reps
    ensures forall r :: 0 <= r < cfg.reps && (k > 0 ==> r != odd[k - 1]) ==>
      voters[k].states[r] == GoldenState(ctl, start, rounds, k)
  {
    hide OneOdd, Step, ValidRound, Waits, GoldenState, GoldenSent, Faithful;
    GoldenStep(cfg, ctl, start, rounds, k);
    if k > 0 {
      var gold := GoldenState(ctl, start, rounds, k - 1);
      FaultsAreMasked(cfg, ctl, start, voters, rounds, odd, k - 1);
      assert Tolerable(cfg, ctl, voters[k - 1], rounds[k - 1], gold, odd[k - 1]);
      RoundIsMasked(cfg, ctl, voters[k - 1], rounds[k - 1], gold, odd[k - 1]);
    }
  }

  /** When faults show at once, nothing is asked of the replicas' states: all are
      equal, in the fault-free state, at the start of every round. */
  ghost predicate ShowsAtOnce<S(!new)>(cfg: Config, ctl: Controller<S>, v: Voter<S>, round: Round<S>, gold: S, odd: nat)
    requires ValidRound(cfg, round) && |v.states| == cfg.reps
  {
    && (forall r :: 0 <= r < cfg.reps && r != odd ==> Faithful(cfg, ctl, v, round, r))
    && (odd < cfg.reps && !Faithful(cfg, ctl, v, round, odd) ==>
          Waits(cfg, round.pipe) && Written(cfg, round)[odd] != ctl(gold, round.pipe, round.msg).outs)
    && (Waits(cfg, round.pipe) ==>
          var stop, outs := cfg.timerStop[round.pipe], ctl(gold, round.pipe, round.msg).outs;
          && |outs| == cfg.pipes && outs[stop] != []
          && (odd < cfg.reps ==> Maskable(cfg.reps, Written(cfg, round)[odd], outs, stop)))
  }

  ghost predicate AllIn<S(!new)>(v: Voter<S>, reps: nat, s: S) {
    |v.states| == reps && forall r :: 0 <= r < reps ==> v.states[r] == s
  }

  lemma ShownFaultIsRepaired<S(!new)>(cfg: Config, ctl: Controller<S>, v: Voter<S>, round: Round<S>, gold: S, odd: nat)
    requires ValidRound(cfg, round) && AllIn(v, cfg.reps, gold) && ShowsAtOnce(cfg, ctl, v, round, gold, odd)
    ensures AllIn(Step(cfg, v, round), cfg.reps, ctl(gold, round.pipe, round.msg).next)
    ensures Tolerable(cfg, ctl, v, round, gold, odd)
  {
    hide Written, Maskable, Decide;
    RoundIsMasked(cfg, ctl, v, round, gold, odd);
    if odd < cfg.reps && Faithful(cfg, ctl, v, round, odd) {
      RoundIsMasked(cfg, ctl, v, round, gold, cfg.reps);
    }
  }

  lemma {:induction false} ReplicasStayEqual<S(!new)>(cfg: Config, ctl: Controller<S>, start: S, voters: seq<Voter<S>>,
                                               rounds: seq<Round<S>>, odd: seq<nat>, k: nat)
    requires Run(cfg, start, voters, rounds) && |odd| == |rounds| && k <= |rounds|
    requires forall i :: 0 <= i < |rounds| ==>
      && |voters[i].states| == cfg.reps
      && ShowsAtOnce(cfg, ctl, voters[i], rounds[i], GoldenState(ctl, start, rounds, i), odd[i])
    ensures AllIn(voters[k], cfg.reps, GoldenState(ctl, start, rounds, k))
    ensures voters[k].sent == GoldenSent(cfg, ctl, start, rounds, k)
  {
    hide ShowsAtOnce, Step, Tolerable, ValidRound, Waits, GoldenState, GoldenSent;
    GoldenStep(cfg, ctl, start, rounds, k);
    if k > 0 {
      var gold := GoldenState(ctl, start, rounds, k - 1);
      ReplicasStayEqual(cfg, ctl, start, voters, rounds, odd, k - 1);
      ShownFaultIsRepaired(cfg, ctl, voters[k - 1], rounds[k - 1], gold, odd[k - 1]);
      RoundIsMasked(cfg, ctl, voters[k - 1], rounds[k - 1], gold, odd[k - 1]);
    }
  }
}
