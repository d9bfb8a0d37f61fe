/** Fault masking by VoterD: over any run in which at most one of three replicas
    deviates at a time, what is sent on is the golden output. */
module VoterDMasking {
  import opened VoteBuff
  import opened VoterDSpec
  import opened VoterDAlignment

  /** The fault-free output: the byte at each position of each pipe. */
  type Golden = (nat, nat) -> byte

  ghost predicate GoldenAt(g: Golden, p: nat, from: nat, s: seq<byte>) {
    forall i :: 0 <= i < |s| ==> s[i] == g(p, from + i)
  }

  /** Everything buffered of replica r continues what was sent as it should. */
  ghost predicate Good(cfg: Config, g: Golden, s: State, r: nat) {
    && ValidState(cfg, s) && r < cfg.reps
    && forall p :: 0 <= p < |cfg.isOut| ==> GoldenAt(g, p, |s.sent[p]|, s.buffs[r][p].contents)
  }

  ghost predicate SentGolden(cfg: Config, g: Golden, s: State) {
    && ValidState(cfg, s)
    && forall p :: 0 <= p < |cfg.isOut| ==> GoldenAt(g, p, 0, s.sent[p])
  }

  /** One of three replicas may deviate; of two or one, none. */
  ghost predicate FewBad(cfg: Config, g: Golden, s: State) {
    if cfg.reps == 3 then
      forall a, b :: 0 <= a < 3 && 0 <= b < 3 && !Good(cfg, g, s, a) && !Good(cfg, g, s, b) ==> a == b
    else
      forall r :: 0 <= r < cfg.reps ==> Good(cfg, g, s, r)
  }

  ghost predicate Inv(cfg: Config, g: Golden, s: State) {
    && ValidState(cfg, s)
    && SentGolden(cfg, g, s)
    && Aligned(cfg, s)
    && FewBad(cfg, g, s)
    && DrainedTo(cfg, s, |cfg.isOut|)
  }

  // ----- sending

  lemma GoldenSplits(g: Golden, p: nat, from: nat, s: seq<byte>, n: nat)
    requires n <= |s| && GoldenAt(g, p, from, s)
    ensures GoldenAt(g, p, from, s[..n]) && GoldenAt(g, p, from + n, s[n..])
  {
  }

  lemma GoldenJoins(g: Golden, p: nat, from: nat, a: seq<byte>, b: seq<byte>)
    requires GoldenAt(g, p, from, a) && GoldenAt(g, p, from + |a|, b)
    ensures GoldenAt(g, p, from, a + b)
  {
  }

  lemma SentStaysGolden(cfg: Config, g: Golden, s: State, t: State, p: nat, r: nat, n: nat)
    requires ValidState(cfg, s) && ValidState(cfg, t) && p < |cfg.isOut| && r < cfg.reps
    requires SentFrom(cfg, s, t, p, r, n) && SentGolden(cfg, g, s)
    requires GoldenAt(g, p, |s.sent[p]|, s.buffs[r][p].contents[..n])
    ensures SentGolden(cfg, g, t)
  {
    GoldenJoins(g, p, 0, s.sent[p], s.buffs[r][p].contents[..n]);
    forall q | 0 <= q < |cfg.isOut| ensures GoldenAt(g, q, 0, t.sent[q]) {
      assert GoldenAt(g, q, 0, s.sent[q]);
    }
  }

  lemma GoodStaysGood(cfg: Config, g: Golden, s: State, t: State, p: nat, r: nat, n: nat, i: nat)
    requires ValidState(cfg, s) && ValidState(cfg, t) && p < |cfg.isOut| && r < cfg.reps
    requires SentFrom(cfg, s, t, p, r, n) && i < cfg.reps && Good(cfg, g, s, i)
    ensures Good(cfg, g, t, i)
  {
    GoldenSplits(g, p, |s.sent[p]|, s.buffs[i][p].contents, n);
    forall q | 0 <= q < |cfg.isOut| ensures GoldenAt(g, q, |t.sent[q]|, t.buffs[i][q].contents) {
      assert GoldenAt(g, q, |s.sent[q]|, s.buffs[i][q].contents);
    }
  }

  /** Sending golden bytes keeps what was sent golden and every good replica
      good. */
  lemma SendPipeKeeps(cfg: Config, g: Golden, s: State, p: nat, r: nat)
    requires ValidState(cfg, s) && p < |cfg.isOut| && r < cfg.reps && SentGolden(cfg, g, s)
    requires GoldenAt(g, p, |s.sent[p]|, s.buffs[r][p].contents[..BytesReady(s.buffs, p, cfg.reps)])
    ensures var t := SendPipe(cfg, s, p, r);
      && SentGolden(cfg, g, t)
      && forall i :: 0 <= i < cfg.reps && Good(cfg, g, s, i) ==> Good(cfg, g, t, i)
  {
    hide SendPipe, Good, SentGolden, SentFrom;
    var t, n := SendPipe(cfg, s, p, r), BytesReady(s.buffs, p, cfg.reps);
    SendPipeSends(cfg, s, p, r);
    SentStaysGolden(cfg, g, s, t, p, r, n);
    forall i | 0 <= i < cfg.reps && Good(cfg, g, s, i) ensures Good(cfg, g, t, i) {
      GoodStaysGood(cfg, g, s, t, p, r, n, i);
    }
  }

  // ----- restarting

  /** Where the loop of `restart_prep` is after k pipes. */
  ghost predicate Copying(cfg: Config, g: Golden, s: State, t: State, k: nat)
    requires ValidState(cfg, s) && ValidState(cfg, t) && k <= |cfg.isOut|
  {
    && SentGolden(cfg, g, t) && DrainedTo(cfg, t, k)
    && forall r :: 0 <= r < cfg.reps && Good(cfg, g, s, r) ==> Good(cfg, g, t, r)
  }

  lemma CopyOne(cfg: Config, g: Golden, s: State, restarter: nat, restartee: nat, p: nat)
    requires ValidState(cfg, s) && restarter < cfg.reps && restartee < cfg.reps && restarter != restartee
    requires p < |cfg.isOut| && Good(cfg, g, s, restarter) && SentGolden(cfg, g, s)
    ensures var t := Copied(cfg, s, restarter, restartee, p);
      && SentGolden(cfg, g, t)
      && forall r :: 0 <= r < cfg.reps && Good(cfg, g, s, r) ==> Good(cfg, g, t, r)
  {
    var t := Copied(cfg, s, restarter, restartee, p);
    assert GoldenAt(g, p, |s.sent[p]|, s.buffs[restarter][p].contents);
    forall r | 0 <= r < cfg.reps && Good(cfg, g, s, r) ensures Good(cfg, g, t, r) {
      forall q | 0 <= q < |cfg.isOut| ensures GoldenAt(g, q, |t.sent[q]|, t.buffs[r][q].contents) {
        assert GoldenAt(g, q, |s.sent[q]|, s.buffs[r][q].contents);
      }
    }
  }

  lemma CopyAndSendGolden(cfg: Config, g: Golden, t: State, restarter: nat, restartee: nat, p: nat)
    requires ValidState(cfg, t) && restarter < cfg.reps && restartee < cfg.reps && restarter != restartee
    requires p < |cfg.isOut| && Good(cfg, g, t, restarter) && SentGolden(cfg, g, t)
    ensures var v := CopyAndSend(cfg, t, restarter, restartee, p);
      && SentGolden(cfg, g, v)
      && forall r :: 0 <= r < cfg.reps && Good(cfg, g, t, r) ==> Good(cfg, g, v, r)
  {
    hide SentGolden, SendPipe, BytesReady, GoldenAt;
    var u := Copied(cfg, t, restarter, restartee, p);
    CopyOne(cfg, g, t, restarter, restartee, p);
    assert GoldenAt(g, p, |u.sent[p]|, u.buffs[restarter][p].contents);
    GoldenSplits(g, p, |u.sent[p]|, u.buffs[restarter][p].contents, BytesReady(u.buffs, p, cfg.reps));
    SendPipeKeeps(cfg, g, u, p, restarter);
  }

  lemma CopyAndSendDrains(cfg: Config, t: State, restarter: nat, restartee: nat, p: nat)
    requires ValidState(cfg, t) && restarter < cfg.reps && restartee < cfg.reps
    requires p < |cfg.isOut| && DrainedTo(cfg, t, p)
    ensures DrainedTo(cfg, CopyAndSend(cfg, t, restarter, restartee, p), p + 1)
  {
    var u := Copied(cfg, t, restarter, restartee, p);
    SendPipeDrains(cfg, u, p, restarter);
    forall q | 0 <= q < p && cfg.isOut[q] ensures BytesReady(u.buffs, q, cfg.reps) == 0 {
      SameReady(t.buffs, u.buffs, q, cfg.reps);
    }
  }

  lemma {:induction false} CopyPipesKeeps(cfg: Config, g: Golden, s: State, restarter: nat, restartee: nat, k: nat)
    requires ValidState(cfg, s) && restarter < cfg.reps && restartee < cfg.reps && restarter != restartee
    requires k <= |cfg.isOut|
    requires Good(cfg, g, s, restarter) && SentGolden(cfg, g, s)
    ensures Copying(cfg, g, s, CopyPipes(cfg, s, restarter, restartee, k), k)
  {
    hide Good, SentGolden, CopyAndSend, BytesReady, ValidState;
    if k > 0 {
      var t := CopyPipes(cfg, s, restarter, restartee, k - 1);
      CopyPipesKeeps(cfg, g, s, restarter, restartee, k - 1);
      if cfg.isOut[k - 1] {
        CopyAndSendGolden(cfg, g, t, restarter, restartee, k - 1);
        CopyAndSendDrains(cfg, t, restarter, restartee, k - 1);
      }
    }
  }

  /** Nothing here depends on input, priorities or the timer. */
  lemma SameBuffers(cfg: Config, g: Golden, s: State, t: State)
    requires ValidState(cfg, s) && ValidState(cfg, t) && s.buffs == t.buffs && s.sent == t.sent
    ensures SentGolden(cfg, g, s) == SentGolden(cfg, g, t) && Aligned(cfg, s) == Aligned(cfg, t)
    ensures forall k :: 0 <= k <= |cfg.isOut| ==> DrainedTo(cfg, s, k) == DrainedTo(cfg, t, k)
    ensures forall r :: 0 <= r < cfg.reps ==> Good(cfg, g, s, r) == Good(cfg, g, t, r)
  {
  }

  lemma RestartReplicaKeeps(cfg: Config, g: Golden, s: State, restarter: nat, restartee: nat)
    requires ValidState(cfg, s) && restarter < cfg.reps && restartee < cfg.reps && restarter != restartee
    requires SentGolden(cfg, g, s)
    ensures var t := RestartReplica(cfg, s, restarter, restartee);
      && SentGolden(cfg, g, t) && Good(cfg, g, t, restartee)
      && forall r :: 0 <= r < cfg.reps && Good(cfg, g, s, r) ==> Good(cfg, g, t, r)
  {
  }

  /** A restart by a good replica sends only golden bytes, those of pipes that
      were never compared included, leaves nothing that all hold, makes the
      restarted replica good and no good one bad. */
  lemma RestartKeeps(cfg: Config, g: Golden, s: State, restartee: nat, restarter: nat)
    requires ValidState(cfg, s) && restarter < cfg.reps && restartee < cfg.reps && restarter != restartee
    requires SentGolden(cfg, g, s) && Good(cfg, g, s, restarter)
    ensures var t := RestartPrep(cfg, s, restartee, restarter);
      && SentGolden(cfg, g, t) && DrainedTo(cfg, t, |cfg.isOut|) && Good(cfg, g, t, restartee)
      && forall r :: 0 <= r < cfg.reps && Good(cfg, g, s, r) ==> Good(cfg, g, t, r)
  {
    hide Good, SentGolden, DrainedTo, RestartReplica, CopyPipes, Without, Returned, AlignedBut;
    var stolen := Stolen(cfg, s.pending[restarter]);
    var s1 := s.(pending := s.pending[restarter := Without(s.pending[restarter], stolen)], timerStarted := false);
    SameBuffers(cfg, g, s, s1);
    var s2 := RestartReplica(cfg, s1, restarter, restartee);
    RestartReplicaKeeps(cfg, g, s1, restarter, restartee);
    var s3 := CopyPipes(cfg, s2, restarter, restartee, |cfg.isOut|);
    CopyPipesKeeps(cfg, g, s2, restarter, restartee, |cfg.isOut|);
    SameBuffers(cfg, g, s3, RestartPrep(cfg, s, restartee, restarter));
  }

  // ----- voting

  ghost predicate AgreeOn(s: State, p: nat, n: nat, a: nat, b: nat)
    requires a < |s.buffs| && b < |s.buffs| && p < |s.buffs[a]| && p < |s.buffs[b]|
    requires n <= |s.buffs[a][p].contents| && n <= |s.buffs[b][p].contents|
  {
    s.buffs[a][p].contents[..n] == s.buffs[b][p].contents[..n]
  }

  /** Replicas in place are compared by what they hold. */
  lemma MatchIsAgreement(cfg: Config, s: State, p: nat, a: nat, b: nat)
    requires ValidState(cfg, s) && Aligned(cfg, s) && p < |cfg.isOut| && a < cfg.reps && b < cfg.reps
    ensures var n := BytesReady(s.buffs, p, cfg.reps);
            Matches(s.buffs[a][p], s.buffs[b][p], n) <==> AgreeOn(s, p, n, a, b)
  {
    assert s.buffs[a][p].index == |s.sent[p]| % MAX_VOTE_PIPE_BUFF == s.buffs[b][p].index;
  }

  /** The verdict of three, whatever the replicas hold: bytes that all three
      hold are sent on, the one that differs from an agreeing pair is restarted
      from one of the pair, and when no two agree nothing is done. */
  lemma VerdictIsExact(cfg: Config, s: State, p: nat)
    requires ValidState(cfg, s) && Aligned(cfg, s) && cfg.reps == 3 && p < |cfg.isOut|
    requires BytesReady(s.buffs, p, 3) > 0
    ensures var n := BytesReady(s.buffs, p, 3);
      VerdictOn(cfg, s, p) ==
        if AgreeOn(s, p, n, 0, 1) && AgreeOn(s, p, n, 0, 2) then Send(0)
        else if AgreeOn(s, p, n, 0, 1) then Restart(2, 0)
        else if AgreeOn(s, p, n, 1, 2) then Restart(0, 1)
        else if AgreeOn(s, p, n, 0, 2) then Restart(1, 2)
        else Nothing
  {
    hide Aligned, ValidBuff, Matches;
    MatchIsAgreement(cfg, s, p, 0, 1);
    MatchIsAgreement(cfg, s, p, 0, 2);
    MatchIsAgreement(cfg, s, p, 1, 2);
    MatchIsAgreement(cfg, s, p, 1, 0);
    MatchIsAgreement(cfg, s, p, 2, 0);
    MatchIsAgreement(cfg, s, p, 2, 1);
    var n := BytesReady(s.buffs, p, 3);
    assert Vote(cfg, s, p, n, 3) == Nothing;
    assert Vote(cfg, s, p, n, 2) == if Matches(s.buffs[2][p], s.buffs[0][p], n) then
        if !Matches(s.buffs[2][p], s.buffs[1][p], n) then Restart(1, 2) else Send(2) else Nothing;
  }

  /** Two good replicas agree, and a replica that agrees with a good one holds
      golden bytes too. */
  lemma GoodAgree(cfg: Config, g: Golden, s: State, p: nat, a: nat, b: nat)
    requires ValidState(cfg, s) && p < |cfg.isOut| && a < cfg.reps && b < cfg.reps && Good(cfg, g, s, a)
    ensures var n := BytesReady(s.buffs, p, cfg.reps);
      && GoldenAt(g, p, |s.sent[p]|, s.buffs[a][p].contents[..n])
      && (Good(cfg, g, s, b) ==> AgreeOn(s, p, n, a, b))
  {
    var n := BytesReady(s.buffs, p, cfg.reps);
    assert GoldenAt(g, p, |s.sent[p]|, s.buffs[a][p].contents);
    GoldenSplits(g, p, |s.sent[p]|, s.buffs[a][p].contents, n);
    if Good(cfg, g, s, b) {
      assert GoldenAt(g, p, |s.sent[p]|, s.buffs[b][p].contents);
      GoldenSplits(g, p, |s.sent[p]|, s.buffs[b][p].contents, n);
    }
  }

  lemma FewBadStays(cfg: Config, g: Golden, s: State, t: State)
    requires ValidState(cfg, s) && ValidState(cfg, t) && FewBad(cfg, g, s)
    requires forall r :: 0 <= r < cfg.reps && Good(cfg, g, s, r) ==> Good(cfg, g, t, r)
    ensures FewBad(cfg, g, t)
  {
    hide Good;
  }

  /** What holds when one pipe has just taken in bytes and awaits its vote. */
  ghost predicate Awaiting(cfg: Config, g: Golden, s: State, p: nat) {
    && ValidState(cfg, s) && p < |cfg.isOut| && cfg.isOut[p]
    && SentGolden(cfg, g, s) && Aligned(cfg, s) && FewBad(cfg, g, s)
    && forall q :: 0 <= q < |cfg.isOut| && q != p && cfg.isOut[q] ==> BytesReady(s.buffs, q, cfg.reps) == 0
  }

  lemma SendKeepsInv(cfg: Config, g: Golden, s: State, p: nat, r: nat)
    requires Awaiting(cfg, g, s, p) && r < cfg.reps
    requires GoldenAt(g, p, |s.sent[p]|, s.buffs[r][p].contents[..BytesReady(s.buffs, p, cfg.reps)])
    ensures Inv(cfg, g, SendPipe(cfg, s, p, r))
  {
    hide SentGolden, AlignedBut, FewBad, Good, SendPipe, GoldenAt;
    SendPipeKeeps(cfg, g, s, p, r);
    SendPipeAligned(cfg, s, p, r, cfg.reps, 0);
    SendPipeDrains(cfg, s, p, r);
    FewBadStays(cfg, g, s, SendPipe(cfg, s, p, r));
  }

  lemma RestartKeepsInv(cfg: Config, g: Golden, s: State, restartee: nat, restarter: nat)
    requires ValidState(cfg, s) && restarter < cfg.reps && restartee < cfg.reps && restarter != restartee
    requires SentGolden(cfg, g, s) && Aligned(cfg, s) && FewBad(cfg, g, s) && Good(cfg, g, s, restarter)
    ensures Inv(cfg, g, RestartPrep(cfg, s, restartee, restarter))
  {
    hide SentGolden, Aligned, AlignedBut, FewBad, Good, RestartPrep, DrainedTo;
    RestartKeeps(cfg, g, s, restartee, restarter);
    RestartAligned(cfg, s, restartee, restarter);
    FewBadStays(cfg, g, s, RestartPrep(cfg, s, restartee, restarter));
  }

  /** The replica that an agreeing pair starts from is good when the third of
      the three disagrees with it, and its bytes are golden when all agree. */
  lemma PairIsGood(cfg: Config, g: Golden, s: State, p: nat, a: nat, b: nat, c: nat)
    requires Awaiting(cfg, g, s, p) && cfg.reps == 3
    requires {a, b, c} == {0, 1, 2}
    requires a < 3 && b < 3 && c < 3 && a != b && b != c && a != c
    requires AgreeOn(s, p, BytesReady(s.buffs, p, cfg.reps), a, b)
    ensures var n := BytesReady(s.buffs, p, cfg.reps);
      && (!AgreeOn(s, p, n, a, c) ==> Good(cfg, g, s, a))
      && GoldenAt(g, p, |s.sent[p]|, s.buffs[a][p].contents[..n])
  {
    hide SentGolden, Aligned, Good, GoldenAt;
    if Good(cfg, g, s, a) {
      GoodAgree(cfg, g, s, p, a, b);
    } else {
      GoodAgree(cfg, g, s, p, b, c);
    }
  }

  lemma SomeAgree(cfg: Config, g: Golden, s: State, p: nat)
    requires Awaiting(cfg, g, s, p) && cfg.reps == 3
    ensures var n := BytesReady(s.buffs, p, cfg.reps);
            AgreeOn(s, p, n, 0, 1) || AgreeOn(s, p, n, 0, 2) || AgreeOn(s, p, n, 1, 2)
  {
    hide SentGolden, Aligned, Good, GoldenAt;
    if Good(cfg, g, s, 0) {
      GoodAgree(cfg, g, s, p, 0, 1);
      GoodAgree(cfg, g, s, p, 0, 2);
    } else {
      GoodAgree(cfg, g, s, p, 1, 2);
    }
  }

  lemma VoteKeepsInv(cfg: Config, g: Golden, s: State, p: nat)
    requires Awaiting(cfg, g, s, p)
    ensures Inv(cfg, g, CheckSDC(cfg, s, p))
  {
    hide SentGolden, Aligned, Good, GoldenAt, Inv, FewBad, SendPipe, RestartPrep;
    var n := BytesReady(s.buffs, p, cfg.reps);
    if n == 0 {
      NothingToVote(cfg, g, s, p);
    } else if cfg.reps == 3 {
      VerdictIsExact(cfg, s, p);
      SomeAgree(cfg, g, s, p);
      if AgreeOn(s, p, n, 0, 1) {
        PairIsGood(cfg, g, s, p, 0, 1, 2);
        if AgreeOn(s, p, n, 0, 2) {
          SendKeepsInv(cfg, g, s, p, 0);
        } else {
          RestartKeepsInv(cfg, g, s, 2, 0);
        }
      } else if AgreeOn(s, p, n, 1, 2) {
        PairIsGood(cfg, g, s, p, 1, 2, 0);
        RestartKeepsInv(cfg, g, s, 0, 1);
      } else {
        PairIsGood(cfg, g, s, p, 2, 0, 1);
        RestartKeepsInv(cfg, g, s, 1, 2);
      }
    } else {
      AllGood(cfg, g, s, p);
      SendKeepsInv(cfg, g, s, p, 0);
    }
  }

  lemma NothingToVote(cfg: Config, g: Golden, s: State, p: nat)
    requires Awaiting(cfg, g, s, p) && BytesReady(s.buffs, p, cfg.reps) == 0
    ensures Inv(cfg, g, s)
  {
    hide SentGolden, Aligned, FewBad;
  }

  lemma AllGood(cfg: Config, g: Golden, s: State, p: nat)
    requires Awaiting(cfg, g, s, p) && cfg.reps != 3
    ensures GoldenAt(g, p, |s.sent[p]|, s.buffs[0][p].contents[..BytesReady(s.buffs, p, cfg.reps)])
  {
    hide SentGolden, Aligned;
    GoodAgree(cfg, g, s, p, 0, 0);
  }

  // ----- runs

  /** What the fault model grants of an event: bytes that arrive leave at most
      one of three replicas deviating, and when the watchdog goes off a replica
      that deviates has delivered least on the pipe that is waited for. */
  ghost predicate Tolerable(cfg: Config, g: Golden, s: State, e: Event)
    requires ValidState(cfg, s) && Enabled(cfg, s, e)
  {
    match e
    case Output(r, p, data) => FewBad(cfg, g, Accept(cfg, s, r, p, data))
    case Input(p, data) => true
    case Taken(r, p, n) => true
    case Timeout =>
      var stop := cfg.timerStop[s.currentTimer];
      forall a, b :: 0 <= a < cfg.reps && 0 <= b < cfg.reps && a != b && !Good(cfg, g, s, a) ==>
        |s.buffs[a][stop].contents| < |s.buffs[b][stop].contents|
  }

  lemma OutputKeepsInv(cfg: Config, g: Golden, s: State, r: nat, p: nat, data: seq<byte>)
    requires Inv(cfg, g, s) && Enabled(cfg, s, Output(r, p, data)) && Tolerable(cfg, g, s, Output(r, p, data))
    ensures Inv(cfg, g, Step(cfg, s, Output(r, p, data)))
  {
    var s1 := Accept(cfg, StartTimer(cfg, s, p, cfg.timerStop), r, p, data);
    var a := Accept(cfg, s, r, p, data);
    AcceptAwaits(cfg, g, s, r, p, data);
    hide Good, SentGolden, Aligned, AlignedBut, CheckSDC, DrainedTo, FewBad;
    if Fits(s.buffs[r][p], data) {
      var s2 := Rebalanced(cfg, s1);
      SameAwaiting(cfg, g, a, s2, p);
      VoteKeepsInv(cfg, g, s2, p);
    } else {
      SameInv(cfg, g, s, s1);
    }
  }

  lemma AcceptAwaits(cfg: Config, g: Golden, s: State, r: nat, p: nat, data: seq<byte>)
    requires Inv(cfg, g, s) && Enabled(cfg, s, Output(r, p, data)) && FewBad(cfg, g, Accept(cfg, s, r, p, data))
    ensures Awaiting(cfg, g, Accept(cfg, s, r, p, data), p)
  {
    hide Good, FewBad;
    var a := Accept(cfg, s, r, p, data);
    forall q | 0 <= q < |cfg.isOut| && q != p && cfg.isOut[q] ensures BytesReady(a.buffs, q, cfg.reps) == 0 {
      SameReady(s.buffs, a.buffs, q, cfg.reps);
    }
  }

  lemma SameAwaiting(cfg: Config, g: Golden, s: State, t: State, p: nat)
    requires ValidState(cfg, t) && Awaiting(cfg, g, s, p) && s.buffs == t.buffs && s.sent == t.sent
    ensures Awaiting(cfg, g, t, p)
  {
    hide Good, SentGolden, AlignedBut;
    SameBuffers(cfg, g, s, t);
    FewBadStays(cfg, g, s, t);
  }

  lemma SameInv(cfg: Config, g: Golden, s: State, t: State)
    requires ValidState(cfg, t) && Inv(cfg, g, s) && s.buffs == t.buffs && s.sent == t.sent
    ensures Inv(cfg, g, t)
  {
    hide Good, SentGolden, AlignedBut;
    SameBuffers(cfg, g, s, t);
    FewBadStays(cfg, g, s, t);
  }

  /** The replica that the watchdog restarts is the deviating one, if there is
      one, so that the one before it, which restarts it, is good. */
  lemma RestarterIsGood(cfg: Config, g: Golden, s: State)
    requires Inv(cfg, g, s) && Enabled(cfg, s, Timeout) && Tolerable(cfg, g, s, Timeout)
    ensures var b := BehindRep(s.buffs, s.priorities, cfg.timerStop[s.currentTimer], cfg.reps);
            Good(cfg, g, s, (b + (cfg.reps - 1)) % cfg.reps)
  {
    hide Good, SentGolden, AlignedBut, DrainedTo;
    var stop := cfg.timerStop[s.currentTimer];
    var b := BehindRep(s.buffs, s.priorities, stop, cfg.reps);
    BehindRepIsFirst(s.buffs, s.priorities, stop, cfg.reps);
    var a := (b + (cfg.reps - 1)) % cfg.reps;
    assert a != b;
    assert |s.buffs[b][stop].contents| <= |s.buffs[a][stop].contents|;
  }

  // ----- what the watchdog asks of the faulty replica

  /** All that replica r has delivered on pipe p, as far as it still counts. */
  ghost function Stream(s: State, r: nat, p: nat): seq<byte>
    requires r < |s.buffs| && p < |s.buffs[r]| && p < |s.sent|
  {
    s.sent[p] + s.buffs[r][p].contents
  }

  lemma SendKeepsStream(cfg: Config, s: State, p: nat, r: nat, q: nat)
    requires ValidState(cfg, s) && p < |cfg.isOut| && q < |cfg.isOut| && r < cfg.reps
    ensures Stream(SendPipe(cfg, s, p, r), r, q) == Stream(s, r, q)
  {
    hide SendPipe;
    SendPipeSends(cfg, s, p, r);
    if p == q {
      var n, b := BytesReady(s.buffs, p, cfg.reps), s.buffs[r][p].contents;
      assert b == b[..n] + b[n..];
    }
  }

  lemma {:induction false} CopyPipesKeepsStream(cfg: Config, s: State, restarter: nat, restartee: nat, k: nat, q: nat)
    requires ValidState(cfg, s) && restarter < cfg.reps && restartee < cfg.reps && restarter != restartee
    requires k <= |cfg.isOut| && q < |cfg.isOut|
    ensures Stream(CopyPipes(cfg, s, restarter, restartee, k), restarter, q) == Stream(s, restarter, q)
  {
    hide SendPipe, ValidBuff;
    if k > 0 {
      CopyPipesKeepsStream(cfg, s, restarter, restartee, k - 1, q);
      if cfg.isOut[k - 1] {
        var t := CopyPipes(cfg, s, restarter, restartee, k - 1);
        SendKeepsStream(cfg, Copied(cfg, t, restarter, restartee, k - 1), k - 1, restarter, q);
      }
    }
  }

  lemma RestartKeepsStream(cfg: Config, s: State, restartee: nat, restarter: nat, q: nat)
    requires ValidState(cfg, s) && restarter < cfg.reps && restartee < cfg.reps && restarter != restartee
    requires q < |cfg.isOut|
    ensures Stream(RestartPrep(cfg, s, restartee, restarter), restarter, q) == Stream(s, restarter, q)
  {
    hide CopyPipes, Returned, Balanced, ValidBuff;
    var stolen := Stolen(cfg, s.pending[restarter]);
    var s1 := s.(pending := s.pending[restarter := Without(s.pending[restarter], stolen)], timerStarted := false);
    CopyPipesKeepsStream(cfg, RestartReplica(cfg, s1, restarter, restartee), restarter, restartee, |cfg.isOut|, q);
  }

  lemma GoodByStream(cfg: Config, g: Golden, s: State, r: nat)
    requires ValidState(cfg, s) && SentGolden(cfg, g, s) && r < cfg.reps
    ensures Good(cfg, g, s, r) <==> forall p :: 0 <= p < |cfg.isOut| ==> GoldenAt(g, p, 0, Stream(s, r, p))
  {
    hide GoldenAt;
    forall p | 0 <= p < |cfg.isOut|
      ensures GoldenAt(g, p, |s.sent[p]|, s.buffs[r][p].contents) <==> GoldenAt(g, p, 0, Stream(s, r, p))
    {
      if GoldenAt(g, p, |s.sent[p]|, s.buffs[r][p].contents) {
        GoldenJoins(g, p, 0, s.sent[p], s.buffs[r][p].contents);
      }
      if GoldenAt(g, p, 0, Stream(s, r, p)) {
        GoldenSplits(g, p, 0, Stream(s, r, p), |s.sent[p]|);
        assert Stream(s, r, p)[|s.sent[p]|..] == s.buffs[r][p].contents;
      }
    }
  }

  /** Cloning a bad replica is never masked. */
  lemma RestartFromBad(cfg: Config, g: Golden, s: State, restartee: nat, restarter: nat)
    requires Inv(cfg, g, s) && restarter < cfg.reps && restartee < cfg.reps && restarter != restartee
    requires !Good(cfg, g, s, restarter)
    ensures !Inv(cfg, g, RestartPrep(cfg, s, restartee, restarter))
  {
    var t := RestartPrep(cfg, s, restartee, restarter);
    if Inv(cfg, g, t) {
      GoodByStream(cfg, g, s, restarter);
      GoodByStream(cfg, g, t, restarter);
      hide Good, SentGolden, RestartPrep, DrainedTo, GoldenAt;
      forall p | 0 <= p < |cfg.isOut| ensures Stream(t, restarter, p) == Stream(s, restarter, p) {
        RestartKeepsStream(cfg, s, restartee, restarter, p);
      }
      forall p | 0 <= p < |cfg.isOut| ensures t.buffs[restartee][p] == t.buffs[restarter][p] {
        RestartHandsOver(cfg, s, restartee, restarter, p);
      }
      SameGood(cfg, g, t, restartee, restarter);
    }
  }

  lemma SameGood(cfg: Config, g: Golden, s: State, a: nat, b: nat)
    requires ValidState(cfg, s) && a < cfg.reps && b < cfg.reps
    requires forall p :: 0 <= p < |cfg.isOut| ==> s.buffs[a][p] == s.buffs[b][p]
    ensures Good(cfg, g, s, a) <==> Good(cfg, g, s, b)
  {
  }

  /** The exact condition under which the watchdog's restart is masked: the
      replica before the most behind one, from which the code clones, is good. */
  lemma TimeoutIsExact(cfg: Config, g: Golden, s: State)
    requires Inv(cfg, g, s) && Enabled(cfg, s, Timeout)
    ensures var b := BehindRep(s.buffs, s.priorities, cfg.timerStop[s.currentTimer], cfg.reps);
            Inv(cfg, g, Step(cfg, s, Timeout)) <==> Good(cfg, g, s, (b + (cfg.reps - 1)) % cfg.reps)
  {
    hide Good, SentGolden, Aligned, FewBad, DrainedTo, RestartPrep;
    var b := BehindRep(s.buffs, s.priorities, cfg.timerStop[s.currentTimer], cfg.reps);
    var a := (b + (cfg.reps - 1)) % cfg.reps;
    if Good(cfg, g, s, a) {
      RestartKeepsInv(cfg, g, s, b, a);
    } else {
      RestartFromBad(cfg, g, s, b, a);
    }
  }

  lemma TimeoutKeepsInv(cfg: Config, g: Golden, s: State)
    requires Inv(cfg, g, s) && Enabled(cfg, s, Timeout) && Tolerable(cfg, g, s, Timeout)
    ensures Inv(cfg, g, Step(cfg, s, Timeout))
  {
    hide Inv, Good, Step, Enabled, Tolerable;
    RestarterIsGood(cfg, g, s);
    TimeoutIsExact(cfg, g, s);
  }

  lemma InputKeepsInv(cfg: Config, g: Golden, s: State, p: nat, data: seq<byte>)
    requires Inv(cfg, g, s) && Enabled(cfg, s, Input(p, data))
    ensures Inv(cfg, g, Step(cfg, s, Input(p, data)))
  {
    hide SentGolden, Aligned, FewBad, DrainedTo, Balanced;
    SameInv(cfg, g, s, Step(cfg, s, Input(p, data)));
  }

  lemma TakenKeepsInv(cfg: Config, g: Golden, s: State, r: nat, p: nat, n: nat)
    requires Inv(cfg, g, s) && Enabled(cfg, s, Taken(r, p, n))
    ensures Inv(cfg, g, Step(cfg, s, Taken(r, p, n)))
  {
    hide SentGolden, Aligned, FewBad, DrainedTo;
    SameInv(cfg, g, s, Step(cfg, s, Taken(r, p, n)));
  }

  lemma StepKeepsInv(cfg: Config, g: Golden, s: State, e: Event)
    requires Inv(cfg, g, s) && Enabled(cfg, s, e) && Tolerable(cfg, g, s, e)
    ensures Inv(cfg, g, Step(cfg, s, e))
  {
    hide Inv, Step, Enabled, Tolerable;
    match e
    case Output(r, p, data) => OutputKeepsInv(cfg, g, s, r, p, data);
    case Input(p, data) => InputKeepsInv(cfg, g, s, p, data);
    case Taken(r, p, n) => TakenKeepsInv(cfg, g, s, r, p, n);
    case Timeout => TimeoutKeepsInv(cfg, g, s);
  }

  ghost predicate TolerableRun(cfg: Config, g: Golden, states: seq<State>, events: seq<Event>) {
    && Run(cfg, states, events)
    && forall i :: 0 <= i < |events| ==> Tolerable(cfg, g, states[i], events[i])
  }

  lemma InitialKeepsInv(cfg: Config, g: Golden)
    requires ValidConfig(cfg)
    ensures Inv(cfg, g, Initial(cfg))
  {
    var s := Initial(cfg);
    forall p | 0 <= p < |cfg.isOut| ensures BytesReady(s.buffs, p, cfg.reps) == 0 {
      assert |s.buffs[0][p].contents| == 0;
    }
  }

  /** Masking over whole runs: in every state of every run of the fault model,
      all that was sent on is golden, and everything that all replicas have
      delivered has been sent. */
  lemma {:induction false} FaultsAreMasked(cfg: Config, g: Golden, states: seq<State>, events: seq<Event>, i: nat)
    requires TolerableRun(cfg, g, states, events) && i < |states|
    ensures Inv(cfg, g, states[i])
    ensures forall p, k :: 0 <= p < |cfg.isOut| && 0 <= k < |states[i].sent[p]| ==> states[i].sent[p][k] == g(p, k)
  {
    hide Tolerable, Step, Enabled, Initial, Good, AlignedBut, ValidBuff;
    if i == 0 {
      InitialKeepsInv(cfg, g);
    } else {
      FaultsAreMasked(cfg, g, states, events, i - 1);
      StepKeepsInv(cfg, g, states[i - 1], events[i - 1]);
    }
  }

  /** The same along the events that a pass of the main loop takes. */
  ghost predicate TolerableFrom(cfg: Config, g: Golden, s: State, events: seq<Event>)
    requires ValidState(cfg, s)
    decreases |events|
  {
    events != [] ==>
      && Enabled(cfg, s, events[0]) && Tolerable(cfg, g, s, events[0])
      && TolerableFrom(cfg, g, Step(cfg, s, events[0]), events[1..])
  }

  lemma {:induction false} PassIsMasked(cfg: Config, g: Golden, s: State, events: seq<Event>, t: State)
    requires Inv(cfg, g, s) && Reaches(cfg, s, events, t) && TolerableFrom(cfg, g, s, events)
    ensures Inv(cfg, g, t)
    decreases |events|
  {
    hide SentGolden, Aligned, FewBad, DrainedTo, Step, Enabled, Tolerable;
    if events != [] {
      StepKeepsInv(cfg, g, s, events[0]);
      PassIsMasked(cfg, g, Step(cfg, s, events[0]), events[1..], t);
    }
  }
}
