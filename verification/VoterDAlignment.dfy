/** What VoterD keeps whatever its replicas do: their buffers stay comparable,
    no byte is lost between reading and sending, and a restarted replica gets
    just what its restarter has. */
module VoterDAlignment {
  import opened VoteBuff
  import opened VoterDSpec

  /** Every buffer starts where its pipe's sent bytes end, so that replicas can
      be compared. While pipes are copied to `restartee`, only the first k of
      its pipes are in place. */
  ghost predicate AlignedBut(cfg: Config, s: State, restartee: nat, k: nat) {
    && ValidState(cfg, s)
    && (forall p :: 0 <= p < |cfg.isOut| && !cfg.isOut[p] ==> s.sent[p] == [])
    && forall r, p :: 0 <= r < cfg.reps && 0 <= p < |cfg.isOut| && (r == restartee && cfg.isOut[p] ==> p < k) ==>
         s.buffs[r][p].index == |s.sent[p]| % MAX_VOTE_PIPE_BUFF && (!cfg.isOut[p] ==> s.buffs[r][p].contents == [])
  }

  ghost predicate Aligned(cfg: Config, s: State) {
    AlignedBut(cfg, s, cfg.reps, 0)
  }

  /** On the first k output pipes, nothing is left that all replicas hold. */
  ghost predicate DrainedTo(cfg: Config, s: State, k: nat) {
    && ValidState(cfg, s) && k <= |cfg.isOut|
    && forall p :: 0 <= p < k && cfg.isOut[p] ==> BytesReady(s.buffs, p, cfg.reps) == 0
  }

  // ----- sending

  ghost predicate SentFrom(cfg: Config, s: State, t: State, p: nat, r: nat, n: nat)
    requires ValidState(cfg, s) && ValidState(cfg, t) && p < |cfg.isOut| && r < cfg.reps
  {
    && (forall i :: 0 <= i < cfg.reps ==> n <= |s.buffs[i][p].contents|)
    && t.sent[p] == s.sent[p] + s.buffs[r][p].contents[..n]
    && (forall q :: 0 <= q < |cfg.isOut| && q != p ==> t.sent[q] == s.sent[q])
    && (forall i :: 0 <= i < cfg.reps ==> t.buffs[i][p] == Drop(s.buffs[i][p], n))
    && (forall i, q :: 0 <= i < cfg.reps && 0 <= q < |cfg.isOut| && q != p ==> t.buffs[i][q] == s.buffs[i][q])
  }

  lemma SendPipeSends(cfg: Config, s: State, p: nat, r: nat)
    requires ValidState(cfg, s) && p < |cfg.isOut| && r < cfg.reps
    ensures SentFrom(cfg, s, SendPipe(cfg, s, p, r), p, r, BytesReady(s.buffs, p, cfg.reps))
  {
    var n := BytesReady(s.buffs, p, cfg.reps);
    if n == 0 {
      forall i | 0 <= i < cfg.reps ensures s.buffs[i][p] == Drop(s.buffs[i][p], 0) {
        assert ValidBuff(s.buffs[i][p]) && s.buffs[i][p].contents[0..] == s.buffs[i][p].contents;
      }
    }
  }

  lemma BytesReadyIs(buffs: seq<seq<Buff>>, p: nat, n: nat)
    requires |buffs| > 0 && n < MAX_VOTE_PIPE_BUFF && forall r :: 0 <= r < |buffs| ==> p < |buffs[r]|
    requires forall r :: 0 <= r < |buffs| ==> n <= |buffs[r][p].contents|
    requires exists r :: 0 <= r < |buffs| && |buffs[r][p].contents| == n
    ensures BytesReady(buffs, p, |buffs|) == n
  {
  }

  lemma SendPipeDrains(cfg: Config, s: State, p: nat, r: nat)
    requires ValidState(cfg, s) && p < |cfg.isOut| && r < cfg.reps
    ensures BytesReady(SendPipe(cfg, s, p, r).buffs, p, cfg.reps) == 0
    ensures forall q :: 0 <= q < |cfg.isOut| && q != p ==>
              BytesReady(SendPipe(cfg, s, p, r).buffs, q, cfg.reps) == BytesReady(s.buffs, q, cfg.reps)
  {
    var t := SendPipe(cfg, s, p, r);
    SendPipeSends(cfg, s, p, r);
    assert ValidBuff(s.buffs[0][p]);
    var i :| 0 <= i < cfg.reps && |s.buffs[i][p].contents| == BytesReady(s.buffs, p, cfg.reps);
    assert |t.buffs[i][p].contents| == 0;
    forall q | 0 <= q < |cfg.isOut| && q != p
      ensures BytesReady(t.buffs, q, cfg.reps) == BytesReady(s.buffs, q, cfg.reps)
    {
      SameReady(s.buffs, t.buffs, q, cfg.reps);
    }
  }

  lemma {:induction false} SameReady(a: seq<seq<Buff>>, b: seq<seq<Buff>>, p: nat, k: nat)
    requires k <= |a| == |b| && forall r :: 0 <= r < |a| ==> p < |a[r]| && p < |b[r]| && a[r][p] == b[r][p]
    ensures BytesReady(a, p, k) == BytesReady(b, p, k)
  {
    if k > 0 {
      SameReady(a, b, p, k - 1);
    }
  }

  lemma ModAdd(a: nat, n: nat)
    ensures (a % MAX_VOTE_PIPE_BUFF + n) % MAX_VOTE_PIPE_BUFF == (a + n) % MAX_VOTE_PIPE_BUFF
  {
  }

  lemma SendStaysAligned(cfg: Config, s: State, t: State, p: nat, r: nat, n: nat, restartee: nat, k: nat)
    requires ValidState(cfg, s) && ValidState(cfg, t) && p < |cfg.isOut| && r < cfg.reps
    requires SentFrom(cfg, s, t, p, r, n) && AlignedBut(cfg, s, restartee, k) && cfg.isOut[p]
    ensures AlignedBut(cfg, t, restartee, k)
  {
    ModAdd(|s.sent[p]|, n);
    forall i, q | 0 <= i < cfg.reps && 0 <= q < |cfg.isOut| && (i == restartee && cfg.isOut[q] ==> q < k)
      ensures t.buffs[i][q].index == |t.sent[q]| % MAX_VOTE_PIPE_BUFF
      ensures !cfg.isOut[q] ==> t.buffs[i][q].contents == []
    {
      assert s.buffs[i][q].index == |s.sent[q]| % MAX_VOTE_PIPE_BUFF;
    }
  }

  // ----- alignment

  lemma SendPipeAligned(cfg: Config, s: State, p: nat, r: nat, restartee: nat, k: nat)
    requires ValidState(cfg, s) && p < |cfg.isOut| && cfg.isOut[p] && r < cfg.reps && AlignedBut(cfg, s, restartee, k)
    ensures AlignedBut(cfg, SendPipe(cfg, s, p, r), restartee, k)
  {
    hide SendPipe, AlignedBut, SentFrom;
    SendPipeSends(cfg, s, p, r);
    SendStaysAligned(cfg, s, SendPipe(cfg, s, p, r), p, r, BytesReady(s.buffs, p, cfg.reps), restartee, k);
  }

  function Copied(cfg: Config, s: State, restarter: nat, restartee: nat, p: nat): (t: State)
    requires ValidState(cfg, s) && restarter < cfg.reps && restartee < cfg.reps && p < |cfg.isOut|
    ensures ValidState(cfg, t)
  {
    s.(buffs := s.buffs[restartee := s.buffs[restartee][p := s.buffs[restarter][p]]])
  }

  lemma {:induction false} CopyPipesAligned(cfg: Config, s: State, restarter: nat, restartee: nat, k: nat)
    requires ValidState(cfg, s) && restarter < cfg.reps && restartee < cfg.reps && restarter != restartee
    requires k <= |cfg.isOut|
    requires AlignedBut(cfg, s, restartee, 0)
    ensures AlignedBut(cfg, CopyPipes(cfg, s, restarter, restartee, k), restartee, k)
  {
    hide AlignedBut, SendPipe;
    if k > 0 {
      var t := CopyPipes(cfg, s, restarter, restartee, k - 1);
      CopyPipesAligned(cfg, s, restarter, restartee, k - 1);
      if cfg.isOut[k - 1] {
        CopiedAligned(cfg, t, restarter, restartee, k - 1);
        SendPipeAligned(cfg, Copied(cfg, t, restarter, restartee, k - 1), k - 1, restarter, restartee, k);
      } else {
        SkippedAligned(cfg, t, restartee, k - 1);
      }
    }
  }

  lemma CopiedAligned(cfg: Config, s: State, restarter: nat, restartee: nat, p: nat)
    requires ValidState(cfg, s) && restarter < cfg.reps && restartee < cfg.reps && restarter != restartee
    requires p < |cfg.isOut| && cfg.isOut[p] && AlignedBut(cfg, s, restartee, p)
    ensures AlignedBut(cfg, Copied(cfg, s, restarter, restartee, p), restartee, p + 1)
  {
  }

  lemma SkippedAligned(cfg: Config, s: State, restartee: nat, p: nat)
    requires ValidState(cfg, s) && p < |cfg.isOut| && !cfg.isOut[p] && AlignedBut(cfg, s, restartee, p)
    ensures AlignedBut(cfg, s, restartee, p + 1)
  {
  }

  lemma RestartReplicaAligned(cfg: Config, s: State, restarter: nat, restartee: nat)
    requires ValidState(cfg, s) && restarter < cfg.reps && restartee < cfg.reps && Aligned(cfg, s)
    ensures AlignedBut(cfg, RestartReplica(cfg, s, restarter, restartee), restartee, 0)
  {
  }

  lemma SameAligned(cfg: Config, s: State, t: State, k: nat)
    requires ValidState(cfg, s) && ValidState(cfg, t) && s.sent == t.sent && AlignedBut(cfg, s, cfg.reps, k)
    requires forall r, p :: 0 <= r < cfg.reps && 0 <= p < |cfg.isOut| ==>
      s.buffs[r][p].index == t.buffs[r][p].index && (!cfg.isOut[p] ==> s.buffs[r][p] == t.buffs[r][p])
    ensures AlignedBut(cfg, t, cfg.reps, k)
  {
  }

  lemma AllCopied(cfg: Config, s: State, restartee: nat)
    requires ValidState(cfg, s) && AlignedBut(cfg, s, restartee, |cfg.isOut|)
    ensures Aligned(cfg, s)
  {
  }

  lemma RestartAligned(cfg: Config, s: State, restartee: nat, restarter: nat)
    requires ValidState(cfg, s) && restarter < cfg.reps && restartee < cfg.reps && restarter != restartee
    requires Aligned(cfg, s)
    ensures Aligned(cfg, RestartPrep(cfg, s, restartee, restarter))
  {
    hide AlignedBut, RestartReplica, CopyPipes, Without, Returned;
    var stolen := Stolen(cfg, s.pending[restarter]);
    var s1 := s.(pending := s.pending[restarter := Without(s.pending[restarter], stolen)], timerStarted := false);
    SameAligned(cfg, s, s1, 0);
    var s2 := RestartReplica(cfg, s1, restarter, restartee);
    RestartReplicaAligned(cfg, s1, restarter, restartee);
    var s3 := CopyPipes(cfg, s2, restarter, restartee, |cfg.isOut|);
    CopyPipesAligned(cfg, s2, restarter, restartee, |cfg.isOut|);
    AllCopied(cfg, s3, restartee);
    SameAligned(cfg, s3, RestartPrep(cfg, s, restartee, restarter), 0);
  }

  lemma CheckAligned(cfg: Config, s: State, p: nat)
    requires ValidState(cfg, s) && p < |cfg.isOut| && cfg.isOut[p] && Aligned(cfg, s)
    ensures Aligned(cfg, CheckSDC(cfg, s, p))
  {
    hide AlignedBut, SendPipe, RestartPrep, VerdictOn;
    match VerdictOn(cfg, s, p)
    case Nothing =>
    case Send(from) => SendPipeAligned(cfg, s, p, from, cfg.reps, 0);
    case Restart(restartee, restarter) => RestartAligned(cfg, s, restartee, restarter);
  }

  lemma StepAligned(cfg: Config, s: State, e: Event)
    requires ValidState(cfg, s) && Enabled(cfg, s, e) && Aligned(cfg, s)
    ensures Aligned(cfg, Step(cfg, s, e))
  {
    hide AlignedBut, CheckSDC, RestartPrep, Balanced;
    match e
    case Output(r, p, data) =>
      var s1 := Accept(cfg, StartTimer(cfg, s, p, cfg.timerStop), r, p, data);
      SameAligned(cfg, s, s1, 0);
      SameAligned(cfg, s1, Rebalanced(cfg, s1), 0);
      CheckAligned(cfg, Rebalanced(cfg, s1), p);
    case Input(p, data) =>
      SameAligned(cfg, s, Step(cfg, s, e), 0);
    case Taken(r, p, n) =>
      SameAligned(cfg, s, Step(cfg, s, e), 0);
    case Timeout =>
      var b := BehindRep(s.buffs, s.priorities, cfg.timerStop[s.currentTimer], cfg.reps);
      RestartAligned(cfg, s, b, (b + (cfg.reps - 1)) % cfg.reps);
  }

  lemma InitialAligned(cfg: Config)
    requires ValidConfig(cfg)
    ensures Aligned(cfg, Initial(cfg))
  {
  }

  lemma SamePlaces(cfg: Config, s: State)
    requires ValidState(cfg, s) && Aligned(cfg, s)
    ensures forall a, b, p :: 0 <= a < cfg.reps && 0 <= b < cfg.reps && 0 <= p < |cfg.isOut| ==>
              s.buffs[a][p].index == s.buffs[b][p].index
  {
    forall a, b, p | 0 <= a < cfg.reps && 0 <= b < cfg.reps && 0 <= p < |cfg.isOut|
      ensures s.buffs[a][p].index == s.buffs[b][p].index
    {
      assert s.buffs[a][p].index == |s.sent[p]| % MAX_VOTE_PIPE_BUFF;
    }
  }

  /** In every state of every run, whatever the replicas send, all replicas are
      at the same place of their rings on every pipe: comparing them never fails
      for their places. */
  lemma {:induction false} AlwaysAligned(cfg: Config, states: seq<State>, events: seq<Event>, i: nat)
    requires Run(cfg, states, events) && i < |states|
    ensures Aligned(cfg, states[i])
    ensures forall a, b, p :: 0 <= a < cfg.reps && 0 <= b < cfg.reps && 0 <= p < |cfg.isOut| ==>
              states[i].buffs[a][p].index == states[i].buffs[b][p].index
  {
    hide AlignedBut, Step, Enabled, ValidState, Initial;
    if i == 0 {
      InitialAligned(cfg);
    } else {
      AlwaysAligned(cfg, states, events, i - 1);
      StepAligned(cfg, states[i - 1], events[i - 1]);
    }
    SamePlaces(cfg, states[i]);
  }

  // ----- conservation

  /** How far along its output stream a replica is for the voter. */
  function Position(s: State, r: nat, p: nat): nat
    requires r < |s.buffs| && p < |s.buffs[r]| && p < |s.sent|
  {
    |s.sent[p]| + |s.buffs[r][p].contents|
  }

  lemma SendPosition(cfg: Config, s: State, p: nat, r: nat)
    requires ValidState(cfg, s) && p < |cfg.isOut| && r < cfg.reps
    ensures forall i, q :: 0 <= i < cfg.reps && 0 <= q < |cfg.isOut| ==>
              Position(SendPipe(cfg, s, p, r), i, q) == Position(s, i, q)
  {
    hide SendPipe;
    SendPipeSends(cfg, s, p, r);
  }

  /** The replica whose place replica i takes over when k pipes are copied. */
  function Source(cfg: Config, restarter: nat, restartee: nat, k: nat, i: nat, p: nat): nat
    requires p < |cfg.isOut|
  {
    if i == restartee && p < k && cfg.isOut[p] then restarter else i
  }

  lemma {:induction false} CopyPipesPosition(cfg: Config, s: State, restarter: nat, restartee: nat, k: nat, i: nat,
                                             p: nat)
    requires ValidState(cfg, s) && restarter < cfg.reps && restartee < cfg.reps && restarter != restartee
    requires k <= |cfg.isOut|
    requires i < cfg.reps && p < |cfg.isOut|
    ensures Position(CopyPipes(cfg, s, restarter, restartee, k), i, p) ==
        Position(s, Source(cfg, restarter, restartee, k, i, p), p)
    decreases k, i == restartee
  {
    hide SendPipe, ValidBuff;
    if k > 0 {
      CopyPipesPosition(cfg, s, restarter, restartee, k - 1, i, p);
      CopyPipesPosition(cfg, s, restarter, restartee, k - 1, restarter, p);
      if cfg.isOut[k - 1] {
        var t := CopyPipes(cfg, s, restarter, restartee, k - 1);
        SendPosition(cfg, Copied(cfg, t, restarter, restartee, k - 1), k - 1, restarter);
      }
    }
  }

  lemma RestartPosition(cfg: Config, s: State, restartee: nat, restarter: nat, i: nat, p: nat)
    requires ValidState(cfg, s) && restarter < cfg.reps && restartee < cfg.reps && restarter != restartee
    requires i < cfg.reps && p < |cfg.isOut| && cfg.isOut[p]
    ensures Position(RestartPrep(cfg, s, restartee, restarter), i, p) ==
        Position(s, if i == restartee then restarter else i, p)
  {
    hide CopyPipes, Returned, Balanced, ValidBuff;
    var stolen := Stolen(cfg, s.pending[restarter]);
    var s1 := s.(pending := s.pending[restarter := Without(s.pending[restarter], stolen)], timerStarted := false);
    var s2 := RestartReplica(cfg, s1, restarter, restartee);
    CopyPipesPosition(cfg, s2, restarter, restartee, |cfg.isOut|, i, p);
  }

  /** The replica whose bytes count for replica i after a verdict. */
  function Heir(v: Verdict, i: nat): nat {
    if v.Restart? && i == v.restartee then v.restarter else i
  }

  lemma SamePosition(s: State, t: State, r: nat, p: nat)
    requires s.buffs == t.buffs && s.sent == t.sent && r < |s.buffs| && p < |s.buffs[r]| && p < |s.sent|
    ensures Position(s, r, p) == Position(t, r, p)
  {
  }

  lemma CheckPosition(cfg: Config, s: State, q: nat, i: nat, p: nat)
    requires ValidState(cfg, s) && q < |cfg.isOut| && i < cfg.reps && p < |cfg.isOut| && cfg.isOut[p]
    ensures Heir(VerdictOn(cfg, s, q), i) < cfg.reps
    ensures Position(CheckSDC(cfg, s, q), i, p) == Position(s, Heir(VerdictOn(cfg, s, q), i), p)
  {
    hide SendPipe, RestartPrep, VerdictOn, ValidBuff;
    match VerdictOn(cfg, s, q)
    case Nothing =>
    case Send(from) => SendPosition(cfg, s, q, from);
    case Restart(restartee, restarter) => RestartPosition(cfg, s, restartee, restarter, i, p);
  }

  lemma AcceptPosition(cfg: Config, s: State, r: nat, q: nat, data: seq<byte>, i: nat, p: nat)
    requires ValidState(cfg, s) && r < cfg.reps && q < |cfg.isOut| && i < cfg.reps && p < |cfg.isOut|
    ensures Position(Accept(cfg, StartTimer(cfg, s, q, cfg.timerStop), r, q, data), i, p) ==
            Position(s, i, p) + if r == i && q == p && Fits(s.buffs[i][p], data) then |data| else 0
  {
  }

  lemma OutputConserves(cfg: Config, s: State, r: nat, q: nat, data: seq<byte>, i: nat, p: nat)
    requires ValidState(cfg, s) && Enabled(cfg, s, Output(r, q, data))
    requires i < cfg.reps && p < |cfg.isOut| && cfg.isOut[p]
    ensures var h := Heir(RestartOf(cfg, s, Output(r, q, data)), i);
            Position(Step(cfg, s, Output(r, q, data)), i, p)
            == Position(s, h, p) + ReadBy(cfg, s, Output(r, q, data), h, p)
  {
    hide CheckSDC, VerdictOn, Balanced, ValidBuff, Accept, Fits, Position;
    var s1 := Accept(cfg, StartTimer(cfg, s, q, cfg.timerStop), r, q, data);
    var h := Heir(RestartOf(cfg, s, Output(r, q, data)), i);
    AcceptPosition(cfg, s, r, q, data, i, p);
    AcceptPosition(cfg, s, r, q, data, h, p);
    CheckPosition(cfg, Rebalanced(cfg, s1), q, i, p);
    SamePosition(s1, Rebalanced(cfg, s1), h, p);
  }

  lemma StepConserves(cfg: Config, s: State, e: Event, i: nat, p: nat)
    requires ValidState(cfg, s) && Enabled(cfg, s, e) && i < cfg.reps && p < |cfg.isOut| && cfg.isOut[p]
    ensures var h := Heir(RestartOf(cfg, s, e), i);
            Position(Step(cfg, s, e), i, p) == Position(s, h, p) + ReadBy(cfg, s, e, h, p)
  {
    hide ProcessFromRep, RestartPrep, VerdictOn, Balanced, BehindRep, ValidBuff, Accept, Fits, Position;
    match e
    case Output(r, q, data) =>
      OutputConserves(cfg, s, r, q, data, i, p);
    case Input(q, data) =>
      SamePosition(s, Step(cfg, s, e), i, p);
    case Taken(r, q, n) =>
      SamePosition(s, Step(cfg, s, e), i, p);
    case Timeout =>
      var b := BehindRep(s.buffs, s.priorities, cfg.timerStop[s.currentTimer], cfg.reps);
      RestartPosition(cfg, s, b, (b + (cfg.reps - 1)) % cfg.reps, i, p);
  }

  /** The bytes the voter has read of pipe p of replica i in the first k events
      of a run; a restarted replica inherits the total of its restarter. */
  ghost function BytesRead(cfg: Config, states: seq<State>, events: seq<Event>, k: nat, i: nat, p: nat): nat
    requires Run(cfg, states, events) && k < |states| && i < cfg.reps && p < |cfg.isOut|
  {
    if k == 0 then 0
    else
      var s, e := states[k - 1], events[k - 1];
      var h := Heir(RestartOf(cfg, s, e), i);
      BytesRead(cfg, states, events, k - 1, h, p) + ReadBy(cfg, s, e, h, p)
  }

  /** In every state of every run, whatever the replicas send, the bytes read of
      a replica are those sent on and those still buffered. */
  lemma {:induction false} BytesAreConserved(cfg: Config, states: seq<State>, events: seq<Event>, k: nat, i: nat,
                                             p: nat)
    requires Run(cfg, states, events) && k < |states| && i < cfg.reps && p < |cfg.isOut| && cfg.isOut[p]
    ensures BytesRead(cfg, states, events, k, i, p) == |states[k].sent[p]| + |states[k].buffs[i][p].contents|
  {
    hide Step, Enabled, RestartOf, ReadBy, Heir, ValidBuff;
    if k > 0 {
      var s, e := states[k - 1], events[k - 1];
      HeirIsReplica(cfg, s, e, i);
      BytesAreConserved(cfg, states, events, k - 1, Heir(RestartOf(cfg, s, e), i), p);
      StepConserves(cfg, s, e, i, p);
    }
  }

  lemma HeirIsReplica(cfg: Config, s: State, e: Event, i: nat)
    requires ValidState(cfg, s) && Enabled(cfg, s, e) && i < cfg.reps
    ensures Heir(RestartOf(cfg, s, e), i) < cfg.reps
  {
  }

  // ----- hand-over

  lemma {:induction false} CopyPipesCopies(cfg: Config, s: State, restarter: nat, restartee: nat, k: nat)
    requires ValidState(cfg, s) && restarter < cfg.reps && restartee < cfg.reps && restarter != restartee
    requires k <= |cfg.isOut|
    ensures var t := CopyPipes(cfg, s, restarter, restartee, k);
      && t.pending == s.pending
      && forall p :: 0 <= p < |cfg.isOut| ==>
           (if cfg.isOut[p] then p < k else s.buffs[restartee][p] == s.buffs[restarter][p]) ==>
             t.buffs[restartee][p] == t.buffs[restarter][p]
  {
    hide ValidBuff, SendPipe;
    if k > 0 {
      CopyPipesCopies(cfg, s, restarter, restartee, k - 1);
      if cfg.isOut[k - 1] {
        var u := Copied(cfg, CopyPipes(cfg, s, restarter, restartee, k - 1), restarter, restartee, k - 1);
        SendPipeSends(cfg, u, k - 1, restarter);
        SendKeepsPending(cfg, u, k - 1, restarter);
      }
    }
  }

  lemma SendKeepsPending(cfg: Config, s: State, p: nat, r: nat)
    requires ValidState(cfg, s) && p < |cfg.isOut| && r < cfg.reps
    ensures SendPipe(cfg, s, p, r).pending == s.pending
  {
  }

  /** Hand-over at a restart: both replicas then hold the same unsent output, the
      restarter keeps all its unread input when no pipe has more than 4096 bytes
      of it, and on each pipe the restarted replica has the same unread input as
      its restarter exactly when there were no more. */
  lemma RestartHandsOver(cfg: Config, s: State, restartee: nat, restarter: nat, p: nat)
    requires ValidState(cfg, s) && Aligned(cfg, s)
    requires restarter < cfg.reps && restartee < cfg.reps && restarter != restartee && p < |cfg.isOut|
    ensures var t := RestartPrep(cfg, s, restartee, restarter);
      && t.buffs[restartee][p] == t.buffs[restarter][p]
      && (!cfg.isOut[p] && |s.pending[restarter][p]| <= MAX_VOTE_PIPE_BUFF ==>
          t.pending[restarter][p] == s.pending[restarter][p])
      && (!cfg.isOut[p] ==>
            (t.pending[restartee][p] == t.pending[restarter][p] <==> |s.pending[restarter][p]| <= MAX_VOTE_PIPE_BUFF))
      && (forall r :: 0 <= r < cfg.reps && r != restarter && r != restartee ==> t.pending[r] == s.pending[r])
  {
    hide CopyPipes, Balanced, ValidBuff;
    var stolen := Stolen(cfg, s.pending[restarter]);
    var s1 := s.(pending := s.pending[restarter := Without(s.pending[restarter], stolen)], timerStarted := false);
    var s2 := RestartReplica(cfg, s1, restarter, restartee);
    CopyPipesCopies(cfg, s2, restarter, restartee, |cfg.isOut|);
  }

  const INPUT := Config(2, [true, false], [2, 2], [0, 0], 10)

  lemma TakeInput(s: State, data: seq<byte>)
    requires ValidState(INPUT, s) && !s.timerStarted && InSync(INPUT, s) && data != []
    ensures Enabled(INPUT, s, Input(1, data))
    ensures var t := Step(INPUT, s, Input(1, data));
      && t.pending[0][1] == s.pending[0][1] + data
      && !t.timerStarted && InSync(INPUT, t)
  {
    hide Balanced;
  }

  /** So much can wait: two reads of input that no replica takes meanwhile. */
  lemma InputWaits(data: seq<byte>) returns (events: seq<Event>, u: State)
    requires |data| == MAX_VOTE_PIPE_BUFF + 1
    ensures ValidState(INPUT, u) && Reaches(INPUT, Initial(INPUT), events, u) && u.pending[0][1] == data
  {
    var s, d, e := Initial(INPUT), Input(1, data[..MAX_VOTE_PIPE_BUFF]), Input(1, data[MAX_VOTE_PIPE_BUFF..]);
    TakeInput(s, d.data);
    var t := Step(INPUT, s, d);
    TakeInput(t, e.data);
    u := Step(INPUT, t, e);
    events := [d, e];
    assert u.pending[0][1] == [] + data[..MAX_VOTE_PIPE_BUFF] + data[MAX_VOTE_PIPE_BUFF..] == data;
    hide Step, Enabled;
    assert [d, e][1..] == [e] && [e][1..] == [];
    assert Reaches(INPUT, u, [], u);
    assert Reaches(INPUT, t, [e], u);
  }

  /** With 4097 unread bytes on an input pipe, the clone misses the last of them,
      and the restarter reads it before the others. */
  lemma OneByteTooMany(cfg: Config, s: State, restartee: nat, restarter: nat, p: nat)
    requires ValidState(cfg, s) && Aligned(cfg, s)
    requires restarter < cfg.reps && restartee < cfg.reps && restarter != restartee && p < |cfg.isOut| && !cfg.isOut[p]
    requires |s.pending[restarter][p]| == MAX_VOTE_PIPE_BUFF + 1
    ensures var t, all := RestartPrep(cfg, s, restartee, restarter), s.pending[restarter][p];
      && t.pending[restartee][p] == all[..MAX_VOTE_PIPE_BUFF]
      && t.pending[restarter][p] == [all[MAX_VOTE_PIPE_BUFF]] + all[..MAX_VOTE_PIPE_BUFF]
  {
    hide CopyPipes, Balanced, ValidBuff;
    var stolen := Stolen(cfg, s.pending[restarter]);
    var s1 := s.(pending := s.pending[restarter := Without(s.pending[restarter], stolen)], timerStarted := false);
    var s2 := RestartReplica(cfg, s1, restarter, restartee);
    CopyPipesCopies(cfg, s2, restarter, restartee, |cfg.isOut|);
    assert stolen[p] == s.pending[restarter][p][..MAX_VOTE_PIPE_BUFF];
  }
}
