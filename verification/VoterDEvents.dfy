/** What each event does to the watchdog, to the input of the replicas and to
    their priorities, told from the state before it. */
module VoterDEvents {
  import opened VoteBuff
  import opened VoterDAlignment
  import opened VoterDSpec

  // ----- the watchdog

  /** The watchdog runs after a read on pipe p of the given pair of pipes if it
      ran before or p is one of them; then it has the number of p, unless it ran
      before. */
  ghost predicate Started(s: State, t: State, p: nat, first: nat, second: nat) {
    && (t.timerStarted <==> s.timerStarted || p == first || p == second)
    && t.currentTimer == if s.timerStarted then s.currentTimer
                         else if p == first then 0
                         else if p == second then 1
                         else s.currentTimer
  }

  lemma SendWatch(cfg: Config, s: State, p: nat, r: nat)
    requires ValidState(cfg, s) && p < |cfg.isOut| && r < cfg.reps
    ensures var t := SendPipe(cfg, s, p, r);
      && (t.timerStarted <==>
            && s.timerStarted
            && ((p != cfg.timerStop[0] && p != cfg.timerStop[1]) || BytesReady(s.buffs, p, cfg.reps) == 0))
      && t.currentTimer == s.currentTimer && t.priorities == s.priorities && t.pending == s.pending
  {
  }

  lemma {:induction false} CopyWatch(cfg: Config, s: State, restarter: nat, restartee: nat, k: nat)
    requires ValidState(cfg, s) && restarter < cfg.reps && restartee < cfg.reps && k <= |cfg.isOut| && !s.timerStarted
    ensures var t := CopyPipes(cfg, s, restarter, restartee, k);
            !t.timerStarted && t.currentTimer == s.currentTimer && t.priorities == s.priorities
  {
    hide SendPipe, ValidBuff;
    if k > 0 {
      CopyWatch(cfg, s, restarter, restartee, k - 1);
      if cfg.isOut[k - 1] {
        var t := CopyPipes(cfg, s, restarter, restartee, k - 1);
        SendWatch(cfg, Copied(cfg, t, restarter, restartee, k - 1), k - 1, restarter);
      }
    }
  }

  /** A restart stops the watchdog, and priorities go by the restartee's empty
      pipes, before the restarter's are copied to it. */
  lemma RestartWatch(cfg: Config, s: State, restartee: nat, restarter: nat)
    requires ValidState(cfg, s) && restarter < cfg.reps && restartee < cfg.reps && restarter != restartee
    ensures var t := RestartPrep(cfg, s, restartee, restarter);
      && !t.timerStarted && t.currentTimer == s.currentTimer
      && forall i :: 0 <= i < cfg.reps ==>
           (t.priorities[i] == cfg.priority + 2 <==> MostBehind(cfg, Emptied(cfg, s.buffs, restartee), i))
  {
    hide CopyPipes, Returned, Without, ValidBuff, Balanced, MostBehind;
    var stolen := Stolen(cfg, s.pending[restarter]);
    var s1 := s.(pending := s.pending[restarter := Without(s.pending[restarter], stolen)], timerStarted := false);
    var s2 := RestartReplica(cfg, s1, restarter, restartee);
    CopyWatch(cfg, s2, restarter, restartee, |cfg.isOut|);
    var priorities := seq(cfg.reps, i => if i == restarter && i != restartee then cfg.priority + 2 else cfg.priority);
    forall i | 0 <= i < cfg.reps
      ensures s2.priorities[i] == cfg.priority + 2 <==> MostBehind(cfg, Emptied(cfg, s.buffs, restartee), i)
    {
      TopPriorityIsMostBehind(cfg, s2.buffs, priorities, i);
    }
  }

  ghost function Emptied(cfg: Config, buffs: seq<seq<Buff>>, r: nat): (after: seq<seq<Buff>>)
    requires Shaped(cfg, buffs) && r < cfg.reps
    ensures Shaped(cfg, after)
  {
    buffs[r := seq(|cfg.isOut|, p => Buff(0, []))]
  }

  /** The vote of one replica or two is for the first. */
  lemma FewSendTheFirst(cfg: Config, s: State, p: nat)
    requires ValidState(cfg, s) && cfg.reps < 3 && p < |cfg.isOut|
    ensures VerdictOn(cfg, s, p) ==
      if forall r :: 0 <= r < cfg.reps ==> s.buffs[r][p].contents != [] then Send(0) else Nothing
  {
    forall r | 0 <= r < cfg.reps ensures |s.buffs[r][p].contents| < MAX_VOTE_PIPE_BUFF {
      assert ValidBuff(s.buffs[r][p]);
    }
    assert |s.buffs[0][p].contents| < MAX_VOTE_PIPE_BUFF;
  }

  // ----- output

  /** What a read from replica r leaves before the vote on it. */
  ghost function Read(cfg: Config, s: State, r: nat, p: nat, data: seq<byte>): State
    requires ValidState(cfg, s) && r < cfg.reps && p < |cfg.isOut|
  {
    Rebalanced(cfg, Accept(cfg, StartTimer(cfg, s, p, cfg.timerStop), r, p, data))
  }

  /** After a read the watchdog has been started by a pipe that is waited for,
      the bytes are behind those held, and top priority has the replica that is
      then most behind; a read that does not fit only starts the watchdog. */
  lemma ReadIs(cfg: Config, s: State, r: nat, p: nat, data: seq<byte>)
    requires ValidState(cfg, s) && r < cfg.reps && p < |cfg.isOut|
    ensures var fits := data != [] && |s.buffs[r][p].contents| + |data| <= 4095;
      var t := if fits then Read(cfg, s, r, p, data) else ProcessFromRep(cfg, s, r, p, data);
      && ValidState(cfg, t) && Started(s, t, p, cfg.timerStop[0], cfg.timerStop[1])
      && t.sent == s.sent && t.pending == s.pending
      && (forall i, q :: 0 <= i < cfg.reps && 0 <= q < |cfg.isOut| ==>
            && t.buffs[i][q].index == s.buffs[i][q].index
            && t.buffs[i][q].contents == s.buffs[i][q].contents + if fits && i == r && q == p then data else [])
      && (if fits && cfg.reps >= 2 then
            forall i :: 0 <= i < cfg.reps ==> (t.priorities[i] == cfg.priority + 2 <==> MostBehind(cfg, t.buffs, i))
          else t.priorities == s.priorities)
  {
    hide Balanced, CheckSDC, MostBehind, ValidBuff;
    var s1 := Accept(cfg, StartTimer(cfg, s, p, cfg.timerStop), r, p, data);
    if cfg.reps >= 2 {
      forall i | 0 <= i < cfg.reps
        ensures Balanced(cfg, s1.buffs, s1.priorities)[i] == cfg.priority + 2 <==> MostBehind(cfg, s1.buffs, i)
      {
        TopPriorityIsMostBehind(cfg, s1.buffs, s1.priorities, i);
      }
    } else {
      OnePriority(cfg, s1);
    }
  }

  lemma OnePriority(cfg: Config, s: State)
    requires ValidState(cfg, s) && cfg.reps < 2
    ensures Rebalanced(cfg, s).priorities == s.priorities
  {
  }

  /** When the watchdog runs after an output event: when it ran or was started,
      unless a restart or a send on a pipe that is waited for stopped it. */
  lemma OutputWatch(cfg: Config, s: State, r: nat, p: nat, data: seq<byte>)
    requires ValidState(cfg, s) && Enabled(cfg, s, Output(r, p, data))
    requires data != [] && |s.buffs[r][p].contents| + |data| <= 4095
    ensures var t := Step(cfg, s, Output(r, p, data));
      t.timerStarted <==>
        match VerdictOn(cfg, Read(cfg, s, r, p, data), p)
        case Nothing => s.timerStarted || p == cfg.timerStop[0] || p == cfg.timerStop[1]
        case Send(_) => s.timerStarted && p != cfg.timerStop[0] && p != cfg.timerStop[1]
        case Restart(_, _) => false
  {
    hide SendPipe, RestartPrep, VerdictOn, Balanced, ValidBuff;
    var t := Read(cfg, s, r, p, data);
    ReadIs(cfg, s, r, p, data);
    match VerdictOn(cfg, t, p)
    case Nothing =>
    case Send(from) =>
      SendWatch(cfg, t, p, from);
      SentSomething(cfg, t, p);
    case Restart(restartee, restarter) => RestartWatch(cfg, t, restartee, restarter);
  }

  lemma SentSomething(cfg: Config, s: State, p: nat)
    requires ValidState(cfg, s) && p < |cfg.isOut| && VerdictOn(cfg, s, p) != Nothing
    ensures BytesReady(s.buffs, p, cfg.reps) > 0
  {
  }

  /** A timeout leaves the watchdog off. */
  lemma TimeoutWatch(cfg: Config, s: State)
    requires ValidState(cfg, s) && Enabled(cfg, s, Timeout)
    ensures var t := Step(cfg, s, Timeout); !t.timerStarted && t.currentTimer == s.currentTimer
  {
    hide RestartPrep, ValidBuff;
    var b := BehindRep(s.buffs, s.priorities, cfg.timerStop[s.currentTimer], cfg.reps);
    RestartWatch(cfg, s, b, (b + (cfg.reps - 1)) % cfg.reps);
  }

  // ----- input

  /** Input goes to every replica, on its pipe and behind what is unread there.
      It starts the watchdog when its pipe is one that is answered, with the
      number of the pair, and gives top priority to the most behind replica. */
  lemma InputReachesAll(cfg: Config, s: State, p: nat, data: seq<byte>)
    requires ValidState(cfg, s) && p < |cfg.isOut|
    ensures var t := ProcessData(cfg, s, p, data);
      && (forall r, q :: 0 <= r < cfg.reps && 0 <= q < |cfg.isOut| ==>
            t.pending[r][q] == s.pending[r][q] + if q == p then data else [])
      && Started(s, t, p, cfg.timerStart[0], cfg.timerStart[1])
      && t.buffs == s.buffs && t.sent == s.sent
      && (cfg.reps >= 2 ==> forall i :: 0 <= i < cfg.reps ==>
            (t.priorities[i] == cfg.priority + 2 <==> MostBehind(cfg, s.buffs, i)))
  {
    hide Balanced, MostBehind, ValidBuff;
    if cfg.reps >= 2 {
      forall i | 0 <= i < cfg.reps
        ensures Balanced(cfg, s.buffs, s.priorities)[i] == cfg.priority + 2 <==> MostBehind(cfg, s.buffs, i)
      {
        TopPriorityIsMostBehind(cfg, s.buffs, s.priorities, i);
      }
    }
  }

  /** All input of pipe p in the first k events. */
  ghost function Inputs(events: seq<Event>, k: nat, p: nat): (all: seq<byte>)
    requires k <= |events|
  {
    if k == 0 then []
    else Inputs(events, k - 1, p) + if events[k - 1].Input? && events[k - 1].pipe == p then events[k - 1].data else []
  }

  /** How much of its input on pipe p replica i has taken in the first k events; a
      restarted replica goes on from where its restarter is. */
  ghost function Progress(cfg: Config, states: seq<State>, events: seq<Event>, k: nat, i: nat, p: nat): nat
    requires Run(cfg, states, events) && k < |states| && i < cfg.reps && p < |cfg.isOut|
  {
    if k == 0 then 0
    else
      var s, e := states[k - 1], events[k - 1];
      var n := if e.Taken? && e.rep == i && e.pipe == p then e.n else 0;
      Progress(cfg, states, events, k - 1, Heir(RestartOf(cfg, s, e), i), p) + n
  }

  /** No restart happens while its restarter has more than 4096 unread bytes. */
  ghost predicate HandsOverWhole(cfg: Config, states: seq<State>, events: seq<Event>)
    requires Run(cfg, states, events)
  {
    forall k, p :: 0 <= k < |events| && 0 <= p < |cfg.isOut| && RestartOf(cfg, states[k], events[k]).Restart? ==>
      |states[k].pending[RestartOf(cfg, states[k], events[k]).restarter][p]| <= 4096
  }

  /** The unread input that one event leaves. */
  ghost function Left(s: State, e: Event, v: Verdict, i: nat, p: nat): seq<byte>
    requires Heir(v, i) < |s.pending| && p < |s.pending[Heir(v, i)]|
    requires e.Taken? && e.rep == i && e.pipe == p ==> e.n <= |s.pending[Heir(v, i)][p]|
  {
    var before := s.pending[Heir(v, i)][p];
    if e.Input? && e.pipe == p then before + e.data
    else if e.Taken? && e.rep == i && e.pipe == p then before[e.n..]
    else before
  }

  lemma RestartLeaves(cfg: Config, s: State, restartee: nat, restarter: nat, i: nat, p: nat)
    requires ValidState(cfg, s) && Aligned(cfg, s) && restarter < cfg.reps && restartee < cfg.reps
    requires restarter != restartee && i < cfg.reps && p < |cfg.isOut| && !cfg.isOut[p]
    requires |s.pending[restarter][p]| <= 4096
    ensures var t := RestartPrep(cfg, s, restartee, restarter);
            t.pending[i][p] == s.pending[if i == restartee then restarter else i][p]
  {
    hide RestartPrep, Aligned;
    RestartHandsOver(cfg, s, restartee, restarter, p);
  }

  lemma StepLeaves(cfg: Config, s: State, e: Event, i: nat, p: nat)
    requires ValidState(cfg, s) && Aligned(cfg, s) && Enabled(cfg, s, e)
    requires i < cfg.reps && p < |cfg.isOut| && !cfg.isOut[p]
    requires var v := RestartOf(cfg, s, e); v.Restart? ==> |s.pending[v.restarter][p]| <= 4096
    ensures var v := RestartOf(cfg, s, e);
      && Heir(v, i) < cfg.reps
      && (e.Taken? && e.rep == i && e.pipe == p ==> e.n <= |s.pending[Heir(v, i)][p]|)
      && Step(cfg, s, e).pending[i][p] == Left(s, e, v, i, p)
  {
    hide RestartPrep, Aligned, AlignedBut, Balanced, SendPipe, VerdictOn, ValidBuff, BehindRep;
    match e
    case Output(r, q, data) =>
      if Fits(s.buffs[r][q], data) {
        var t := Read(cfg, s, r, q, data);
        ReadAligned(cfg, s, r, q, data);
        match VerdictOn(cfg, t, q) {
          case Nothing =>
          case Send(from) => SendKeepsPending(cfg, t, q, from);
          case Restart(restartee, restarter) => RestartLeaves(cfg, t, restartee, restarter, i, p);
        }
      }
    case Input(q, data) => InputReachesAll(cfg, s, q, data);
    case Taken(r, q, n) =>
    case Timeout =>
      var b := BehindRep(s.buffs, s.priorities, cfg.timerStop[s.currentTimer], cfg.reps);
      RestartLeaves(cfg, s, b, (b + (cfg.reps - 1)) % cfg.reps, i, p);
  }

  lemma ReadAligned(cfg: Config, s: State, r: nat, p: nat, data: seq<byte>)
    requires ValidState(cfg, s) && Aligned(cfg, s) && r < cfg.reps && p < |cfg.isOut| && cfg.isOut[p]
    ensures ValidState(cfg, Read(cfg, s, r, p, data)) && Aligned(cfg, Read(cfg, s, r, p, data))
    ensures Read(cfg, s, r, p, data).pending == s.pending
  {
    hide AlignedBut, Balanced;
    var s1 := Accept(cfg, StartTimer(cfg, s, p, cfg.timerStop), r, p, data);
    SameAligned(cfg, s, s1, 0);
    SameAligned(cfg, s1, Read(cfg, s, r, p, data), 0);
  }

  lemma Onward(all: seq<byte>, from: nat, e: Event, i: nat, p: nat)
    requires from <= |all|
    ensures e.Input? && e.pipe == p ==> all[from..] + e.data == (all + e.data)[from..]
    ensures e.Taken? && from + e.n <= |all| ==> all[from..][e.n..] == all[from + e.n..]
  {
  }

  /** On every run whose restarts hand input over whole, what a replica has unread
      is the input as a whole from where the replica has got to. */
  lemma {:induction false} InputIsHandedOn(cfg: Config, states: seq<State>, events: seq<Event>, k: nat, i: nat, p: nat)
    requires Run(cfg, states, events) && HandsOverWhole(cfg, states, events)
    requires k < |states| && i < cfg.reps && p < |cfg.isOut| && !cfg.isOut[p]
    ensures Progress(cfg, states, events, k, i, p) <= |Inputs(events, k, p)|
    ensures states[k].pending[i][p] == Inputs(events, k, p)[Progress(cfg, states, events, k, i, p)..]
  {
    hide Step, RestartOf, ValidBuff, Aligned;
    if k > 0 {
      var s, e := states[k - 1], events[k - 1];
      AlwaysAligned(cfg, states, events, k - 1);
      StepLeaves(cfg, s, e, i, p);
      var h := Heir(RestartOf(cfg, s, e), i);
      InputIsHandedOn(cfg, states, events, k - 1, h, p);
      Onward(Inputs(events, k - 1, p), Progress(cfg, states, events, k - 1, h, p), e, i, p);
    }
  }

  /** Replicas that have taken equally much of a pipe have the same left. */
  lemma EquallyFar(cfg: Config, states: seq<State>, events: seq<Event>, k: nat, a: nat, b: nat, p: nat)
    requires Run(cfg, states, events) && HandsOverWhole(cfg, states, events)
    requires k < |states| && a < cfg.reps && b < cfg.reps && p < |cfg.isOut| && !cfg.isOut[p]
    requires Progress(cfg, states, events, k, a, p) == Progress(cfg, states, events, k, b, p)
    ensures states[k].pending[a][p] == states[k].pending[b][p]
  {
    InputIsHandedOn(cfg, states, events, k, a, p);
    InputIsHandedOn(cfg, states, events, k, b, p);
  }
}
