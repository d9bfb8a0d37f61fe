/** What the watchdog's restart does to the bytes sent, when the replica it
    clones is the faulty one. */
module VoterDTimeout {
  import opened VoteBuff
  import opened VoterDAlignment
  import opened VoterDMasking
  import opened VoterDSpec

  // ----- continuations in which nothing more goes wrong

  /** No replica that is good deviates by the event. */
  ghost predicate Honest(cfg: Config, g: Golden, s: State, e: Event)
    requires ValidState(cfg, s) && Enabled(cfg, s, e)
  {
    match e
    case Output(r, p, data) => Good(cfg, g, s, r) ==> Good(cfg, g, Accept(cfg, s, r, p, data), r)
    case _ => Tolerable(cfg, g, s, e)
  }

  ghost predicate HonestFrom(cfg: Config, g: Golden, s: State, events: seq<Event>)
    requires ValidState(cfg, s)
    decreases |events|
  {
    events != [] ==>
      && Enabled(cfg, s, events[0]) && Honest(cfg, g, s, events[0])
      && HonestFrom(cfg, g, Step(cfg, s, events[0]), events[1..])
  }

  ghost predicate SendsGolden(cfg: Config, g: Golden, s: State) {
    ValidState(cfg, s) && SentGolden(cfg, g, s)
  }

  lemma HonestIsTolerable(cfg: Config, g: Golden, s: State, e: Event)
    requires Inv(cfg, g, s) && Enabled(cfg, s, e) && Honest(cfg, g, s, e)
    ensures Tolerable(cfg, g, s, e)
  {
    if e.Output? {
      var t := Accept(cfg, s, e.rep, e.pipe, e.data);
      forall r | 0 <= r < cfg.reps && Good(cfg, g, s, r) ensures Good(cfg, g, t, r) {
        if r != e.rep {
          assert t.buffs[r] == s.buffs[r];
        }
      }
      hide Good;
      FewBadStays(cfg, g, s, t);
    }
  }

  lemma {:induction false} HonestKeepsInv(cfg: Config, g: Golden, s: State, events: seq<Event>, t: State)
    requires Inv(cfg, g, s) && Reaches(cfg, s, events, t) && HonestFrom(cfg, g, s, events)
    ensures Inv(cfg, g, t)
    decreases |events|
  {
    hide SentGolden, Aligned, FewBad, DrainedTo, Step, Enabled, Honest, Tolerable;
    if events != [] {
      HonestIsTolerable(cfg, g, s, events[0]);
      StepKeepsInv(cfg, g, s, events[0]);
      HonestKeepsInv(cfg, g, Step(cfg, s, events[0]), events[1..], t);
    }
  }

  // ----- what a restart from any replica keeps

  lemma {:induction false} CopyPipesDrains(cfg: Config, s: State, restarter: nat, restartee: nat, k: nat)
    requires ValidState(cfg, s) && restarter < cfg.reps && restartee < cfg.reps && restarter != restartee
    requires k <= |cfg.isOut|
    ensures DrainedTo(cfg, CopyPipes(cfg, s, restarter, restartee, k), k)
  {
    hide CopyAndSend, BytesReady, ValidBuff;
    if k > 0 {
      CopyPipesDrains(cfg, s, restarter, restartee, k - 1);
      if cfg.isOut[k - 1] {
        CopyAndSendDrains(cfg, CopyPipes(cfg, s, restarter, restartee, k - 1), restarter, restartee, k - 1);
      }
    }
  }

  lemma {:induction false} CopyPipesKeepsGood(cfg: Config, g: Golden, s: State, restarter: nat, restartee: nat, k: nat,
                                              c: nat)
    requires ValidState(cfg, s) && restarter < cfg.reps && restartee < cfg.reps && restarter != restartee
    requires k <= |cfg.isOut| && c < cfg.reps && c != restartee && Good(cfg, g, s, c)
    ensures Good(cfg, g, CopyPipes(cfg, s, restarter, restartee, k), c)
  {
    hide Good, SendPipe, BytesReady, ValidBuff;
    if k > 0 {
      var t := CopyPipes(cfg, s, restarter, restartee, k - 1);
      CopyPipesKeepsGood(cfg, g, s, restarter, restartee, k - 1, c);
      if cfg.isOut[k - 1] {
        var u := Copied(cfg, t, restarter, restartee, k - 1);
        SameRow(cfg, g, t, u, c);
        SendPipeSends(cfg, u, k - 1, restarter);
        var n := BytesReady(u.buffs, k - 1, cfg.reps);
        GoodStaysGood(cfg, g, u, SendPipe(cfg, u, k - 1, restarter), k - 1, restarter, n, c);
      }
    }
  }

  /** Whoever is cloned, nothing that all hold is left unsent. */
  lemma RestartDrains(cfg: Config, g: Golden, s: State, restartee: nat, restarter: nat)
    requires ValidState(cfg, s) && restarter < cfg.reps && restartee < cfg.reps && restarter != restartee
    ensures DrainedTo(cfg, RestartPrep(cfg, s, restartee, restarter), |cfg.isOut|)
  {
    hide DrainedTo, CopyPipes, Without, Returned, Balanced, ValidBuff;
    var stolen := Stolen(cfg, s.pending[restarter]);
    var s1 := s.(pending := s.pending[restarter := Without(s.pending[restarter], stolen)], timerStarted := false);
    var s2 := RestartReplica(cfg, s1, restarter, restartee);
    CopyPipesDrains(cfg, s2, restarter, restartee, |cfg.isOut|);
    var s3 := CopyPipes(cfg, s2, restarter, restartee, |cfg.isOut|);
    SameBuffers(cfg, g, s3, RestartPrep(cfg, s, restartee, restarter));
  }

  /** Whoever is cloned, a third replica that is good stays so. */
  lemma RestartKeepsThird(cfg: Config, g: Golden, s: State, restartee: nat, restarter: nat, c: nat)
    requires ValidState(cfg, s) && restarter < cfg.reps && restartee < cfg.reps && restarter != restartee
    requires c < cfg.reps && c != restartee && Good(cfg, g, s, c)
    ensures Good(cfg, g, RestartPrep(cfg, s, restartee, restarter), c)
  {
    hide Good, CopyPipes, Without, Returned, Balanced, ValidBuff;
    var stolen := Stolen(cfg, s.pending[restarter]);
    var s1 := s.(pending := s.pending[restarter := Without(s.pending[restarter], stolen)], timerStarted := false);
    var s2 := RestartReplica(cfg, s1, restarter, restartee);
    SameBuffers(cfg, g, s, s1);
    SameRow(cfg, g, s1, s2, c);
    CopyPipesKeepsGood(cfg, g, s2, restarter, restartee, |cfg.isOut|, c);
    var s3 := CopyPipes(cfg, s2, restarter, restartee, |cfg.isOut|);
    SameBuffers(cfg, g, s3, RestartPrep(cfg, s, restartee, restarter));
  }

  lemma SameRow(cfg: Config, g: Golden, s: State, t: State, c: nat)
    requires ValidState(cfg, s) && ValidState(cfg, t) && s.sent == t.sent && c < cfg.reps && s.buffs[c] == t.buffs[c]
    ensures Good(cfg, g, s, c) <==> Good(cfg, g, t, c)
  {
  }

  // ----- a bad replica and its clone outvote the third

  /** When replicas that have delivered as much are restarted from x, all that x
      has delivered is sent. */
  lemma RestartSendsAll(cfg: Config, g: Golden, s: State, restartee: nat, x: nat, y: nat, p: nat)
    requires ValidState(cfg, s) && cfg.reps == 3
    requires restartee < 3 && x < 3 && y < 3 && restartee != x && x != y && y != restartee
    requires p < |cfg.isOut| && cfg.isOut[p] && |s.buffs[x][p].contents| == |s.buffs[y][p].contents|
    ensures RestartPrep(cfg, s, restartee, x).sent[p] == Stream(s, x, p)
  {
    hide RestartPrep, ValidBuff;
    var u := RestartPrep(cfg, s, restartee, x);
    RestartDrains(cfg, g, s, restartee, x);
    RestartKeepsStream(cfg, s, restartee, x, p);
    RestartPosition(cfg, s, restartee, x, restartee, p);
    RestartPosition(cfg, s, restartee, x, x, p);
    RestartPosition(cfg, s, restartee, x, y, p);
    assert BytesReady(u.buffs, p, 3) == 0;
    assert |u.buffs[x][p].contents| == 0;
  }

  lemma BadByte(cfg: Config, g: Golden, s: State, a: nat) returns (p: nat, i: nat)
    requires ValidState(cfg, s) && Aligned(cfg, s) && a < cfg.reps && !Good(cfg, g, s, a)
    ensures p < |cfg.isOut| && cfg.isOut[p] && i < |s.buffs[a][p].contents|
    ensures s.buffs[a][p].contents[i] != g(p, |s.sent[p]| + i)
  {
    p :| 0 <= p < |cfg.isOut| && !GoldenAt(g, p, |s.sent[p]|, s.buffs[a][p].contents);
    i :| 0 <= i < |s.buffs[a][p].contents| && s.buffs[a][p].contents[i] != g(p, |s.sent[p]| + i);
    assert s.buffs[a][p].contents != [];
  }

  /** A stage at which a and b hold the same bytes, the one at i a wrong one, and
      c nothing of pipe p. */
  ghost predicate Split(cfg: Config, g: Golden, s: State, a: nat, b: nat, c: nat, p: nat, i: nat) {
    && ValidState(cfg, s) && Aligned(cfg, s) && cfg.reps == 3
    && a < 3 && b < 3 && c < 3 && a != b && b != c && c != a
    && p < |cfg.isOut| && cfg.isOut[p] && s.buffs[a][p] == s.buffs[b][p] && s.buffs[c][p].contents == []
    && Good(cfg, g, s, c)
    && i < |s.buffs[a][p].contents| && s.buffs[a][p].contents[i] != g(p, |s.sent[p]| + i)
  }

  /** What the third replica goes on to say, up to the wrong byte of the others. */
  ghost function Truth(g: Golden, p: nat, from: nat, n: nat): (data: seq<byte>)
    ensures |data| == n && GoldenAt(g, p, from, data)
  {
    seq(n, j requires 0 <= j < n => g(p, from + j))
  }

  /** Reading what the third replica says, up to the vote on it. */
  ghost function Heard(cfg: Config, s: State, c: nat, p: nat, data: seq<byte>): State
    requires ValidState(cfg, s) && c < cfg.reps && p < |cfg.isOut|
  {
    Rebalanced(cfg, Accept(cfg, StartTimer(cfg, s, p, cfg.timerStop), c, p, data))
  }

  lemma HeardAll(cfg: Config, s: State, c: nat, p: nat, data: seq<byte>)
    requires ValidState(cfg, s) && Aligned(cfg, s) && c < cfg.reps && p < |cfg.isOut| && cfg.isOut[p]
    requires s.buffs[c][p].contents == [] && 0 < |data| < MAX_VOTE_PIPE_BUFF
    ensures var t := Heard(cfg, s, c, p, data);
      && ValidState(cfg, t) && Aligned(cfg, t) && t.sent == s.sent && t.buffs[c][p].contents == data
      && (forall r :: 0 <= r < cfg.reps && r != c ==> t.buffs[r] == s.buffs[r])
      && Step(cfg, s, Output(c, p, data)) == CheckSDC(cfg, t, p)
  {
    hide Balanced, CheckSDC, AlignedBut;
    var s1 := Accept(cfg, StartTimer(cfg, s, p, cfg.timerStop), c, p, data);
    SameAligned(cfg, s, s1, 0);
    SameAligned(cfg, s1, Heard(cfg, s, c, p, data), 0);
  }

  lemma TruthIsHeard(cfg: Config, g: Golden, s: State, c: nat, p: nat, i: nat)
    requires ValidState(cfg, s) && Aligned(cfg, s) && c < cfg.reps && p < |cfg.isOut| && cfg.isOut[p]
    requires s.buffs[c][p].contents == [] && Good(cfg, g, s, c) && i + 1 < MAX_VOTE_PIPE_BUFF
    ensures var data := Truth(g, p, |s.sent[p]|, i + 1);
      && Enabled(cfg, s, Output(c, p, data)) && Honest(cfg, g, s, Output(c, p, data))
      && var t := Heard(cfg, s, c, p, data);
      && ValidState(cfg, t) && Aligned(cfg, t) && t.sent == s.sent && t.buffs[c][p].contents == data
      && (forall r :: 0 <= r < cfg.reps && r != c ==> t.buffs[r] == s.buffs[r])
      && Step(cfg, s, Output(c, p, data)) == CheckSDC(cfg, t, p)
  {
    var data := Truth(g, p, |s.sent[p]|, i + 1);
    TruthIsHonest(cfg, g, s, c, p, data);
    hide Good, ValidBuff, Heard, Step, GoldenAt, Aligned, CheckSDC, Accept;
    HeardAll(cfg, s, c, p, data);
  }

  lemma TruthIsOutvoted(cfg: Config, g: Golden, s: State, a: nat, b: nat, c: nat, p: nat, i: nat)
    requires Split(cfg, g, s, a, b, c, p, i)
    ensures var e := Output(c, p, Truth(g, p, |s.sent[p]|, i + 1));
      && Enabled(cfg, s, e) && Honest(cfg, g, s, e)
      && !SentGolden(cfg, g, Step(cfg, s, e))
  {
    hide Aligned, CheckSDC, Good, Heard, Step, SentGolden, GoldenAt, Honest, Enabled, Truth;
    assert ValidBuff(s.buffs[a][p]);
    TruthIsHeard(cfg, g, s, c, p, i);
    LieIsSent(cfg, g, Heard(cfg, s, c, p, Truth(g, p, |s.sent[p]|, i + 1)), a, b, c, p, i);
  }

  lemma LieIsSent(cfg: Config, g: Golden, s: State, a: nat, b: nat, c: nat, p: nat, i: nat)
    requires ValidState(cfg, s) && Aligned(cfg, s) && cfg.reps == 3
    requires a < 3 && b < 3 && c < 3 && a != b && b != c && c != a
    requires p < |cfg.isOut| && cfg.isOut[p] && s.buffs[a][p] == s.buffs[b][p]
    requires s.buffs[c][p].contents == Truth(g, p, |s.sent[p]|, i + 1)
    requires i < |s.buffs[a][p].contents| && s.buffs[a][p].contents[i] != g(p, |s.sent[p]| + i)
    ensures !SentGolden(cfg, g, CheckSDC(cfg, s, p))
  {
    hide Aligned, RestartPrep, ValidBuff, VerdictOn, Truth, Matches, Stream, GoldenAt;
    var x := LieIsChosen(cfg, g, s, a, b, c, p, i);
    RestartSendsAll(cfg, g, s, c, x, if x == a then b else a, p);
    LieIsNotGolden(g, p, s, a, i);
    LieIsNotGolden(g, p, s, b, i);
  }

  lemma LieIsChosen(cfg: Config, g: Golden, s: State, a: nat, b: nat, c: nat, p: nat, i: nat) returns (x: nat)
    requires ValidState(cfg, s) && Aligned(cfg, s) && cfg.reps == 3
    requires a < 3 && b < 3 && c < 3 && a != b && b != c && c != a
    requires p < |cfg.isOut| && cfg.isOut[p] && s.buffs[a][p] == s.buffs[b][p]
    requires s.buffs[c][p].contents == Truth(g, p, |s.sent[p]|, i + 1)
    requires i < |s.buffs[a][p].contents| && s.buffs[a][p].contents[i] != g(p, |s.sent[p]| + i)
    ensures (x == a || x == b) && VerdictOn(cfg, s, p) == Restart(c, x)
  {
    assert |s.buffs[a][p].contents| < MAX_VOTE_PIPE_BUFF by {
      assert ValidBuff(s.buffs[a][p]);
    }
    hide Aligned, ValidBuff, VerdictOn;
    BytesReadyIs(s.buffs, p, i + 1);
    VerdictIsExact(cfg, s, p);
    var n := i + 1;
    assert s.buffs[a][p].contents[..n][i] != s.buffs[c][p].contents[..n][i];
    assert AgreeOn(s, p, n, a, b) && AgreeOn(s, p, n, b, a);
    assert !AgreeOn(s, p, n, a, c) && !AgreeOn(s, p, n, c, a) && !AgreeOn(s, p, n, b, c) && !AgreeOn(s, p, n, c, b);
    x := if c == 2 then 0 else if c == 0 then 1 else 2;
  }

  lemma LieIsNotGolden(g: Golden, p: nat, s: State, x: nat, i: nat)
    requires x < |s.buffs| && p < |s.buffs[x]| && p < |s.sent| && i < |s.buffs[x][p].contents|
    requires s.buffs[x][p].contents[i] != g(p, |s.sent[p]| + i)
    ensures !GoldenAt(g, p, 0, Stream(s, x, p))
  {
    assert Stream(s, x, p)[|s.sent[p]| + i] == s.buffs[x][p].contents[i];
  }

  lemma TruthIsHonest(cfg: Config, g: Golden, s: State, c: nat, p: nat, data: seq<byte>)
    requires ValidState(cfg, s) && c < cfg.reps && p < |cfg.isOut| && Good(cfg, g, s, c)
    requires s.buffs[c][p].contents == [] && GoldenAt(g, p, |s.sent[p]|, data)
    ensures Good(cfg, g, Accept(cfg, s, c, p, data), c)
  {
    assert [] + data == data;
  }

  // ----- the watchdog

  ghost function Restarter(cfg: Config, s: State): nat
    requires ValidState(cfg, s) && cfg.reps >= 2
  {
    (BehindRep(s.buffs, s.priorities, cfg.timerStop[s.currentTimer], cfg.reps) + (cfg.reps - 1)) % cfg.reps
  }

  /** A restart from a bad replica is followed by a wrong byte: at once, or with
      the next honest thing the third replica says. */
  lemma WrongByteFollows(cfg: Config, g: Golden, s: State, restartee: nat, a: nat)
    returns (events: seq<Event>, u: State)
    requires Inv(cfg, g, s) && a < cfg.reps && restartee < cfg.reps && restartee != a && !Good(cfg, g, s, a)
    ensures |events| <= 1
    ensures var t := RestartPrep(cfg, s, restartee, a);
            HonestFrom(cfg, g, t, events) && Reaches(cfg, t, events, u)
    ensures !SendsGolden(cfg, g, u)
  {
    hide Good, Aligned, AlignedBut, DrainedTo, RestartPrep, SentGolden, GoldenAt, Honest, Enabled, Step;
    var t := RestartPrep(cfg, s, restartee, a);
    events, u := [], t;
    if SentGolden(cfg, g, t) {
      assert cfg.reps == 3;
      var c := 3 - a - restartee;
      RestartKeepsThird(cfg, g, s, restartee, a, c);
      RestartAligned(cfg, s, restartee, a);
      CloneIsBad(cfg, g, s, restartee, a);
      var p, i := BadByte(cfg, g, t, a);
      RestartHandsOver(cfg, s, restartee, a, p);
      NothingOfThird(cfg, g, s, restartee, a, c, p);
      TruthIsOutvoted(cfg, g, t, a, restartee, c, p, i);
      var e := Output(c, p, Truth(g, p, |t.sent[p]|, i + 1));
      events, u := [e], Step(cfg, t, e);
      assert events[1..] == [];
      assert Reaches(cfg, u, [], u) && HonestFrom(cfg, g, u, []);
    }
  }

  lemma CloneIsBad(cfg: Config, g: Golden, s: State, restartee: nat, a: nat)
    requires Inv(cfg, g, s) && a < cfg.reps && restartee < cfg.reps && restartee != a && !Good(cfg, g, s, a)
    requires SentGolden(cfg, g, RestartPrep(cfg, s, restartee, a))
    ensures !Good(cfg, g, RestartPrep(cfg, s, restartee, a), a)
  {
    hide Good, RestartPrep, DrainedTo, GoldenAt, Aligned, SentGolden;
    var t := RestartPrep(cfg, s, restartee, a);
    GoodByStream(cfg, g, s, a);
    GoodByStream(cfg, g, t, a);
    forall p | 0 <= p < |cfg.isOut| ensures Stream(t, a, p) == Stream(s, a, p) {
      RestartKeepsStream(cfg, s, restartee, a, p);
    }
  }

  lemma NothingOfThird(cfg: Config, g: Golden, s: State, restartee: nat, a: nat, c: nat, p: nat)
    requires ValidState(cfg, s) && cfg.reps == 3 && a < 3 && restartee < 3 && c < 3
    requires restartee != a && c != a && c != restartee && p < |cfg.isOut| && cfg.isOut[p]
    requires var t := RestartPrep(cfg, s, restartee, a);
             t.buffs[restartee][p] == t.buffs[a][p] && t.buffs[a][p].contents != []
    ensures RestartPrep(cfg, s, restartee, a).buffs[c][p].contents == []
  {
    hide RestartPrep, ValidBuff;
    var t := RestartPrep(cfg, s, restartee, a);
    RestartDrains(cfg, g, s, restartee, a);
    assert BytesReady(t.buffs, p, 3) == 0;
  }

  /** The exact condition under which the watchdog's restart is masked: when the
      replica it clones is good, every byte sent afterwards is golden as long as
      nothing more goes wrong; and when it is not, a wrong byte goes out although
      nothing more goes wrong. */
  lemma WatchdogIsExact(cfg: Config, g: Golden, s: State)
    requires Inv(cfg, g, s) && Enabled(cfg, s, Timeout)
    ensures var t := Step(cfg, s, Timeout);
      Good(cfg, g, s, Restarter(cfg, s)) <==>
        forall events, u :: HonestFrom(cfg, g, t, events) && Reaches(cfg, t, events, u) ==> SendsGolden(cfg, g, u)
  {
    hide Good, Aligned, DrainedTo, RestartPrep, SentGolden, FewBad, HonestFrom, Reaches, BehindRep;
    var t := Step(cfg, s, Timeout);
    var b := BehindRep(s.buffs, s.priorities, cfg.timerStop[s.currentTimer], cfg.reps);
    if Good(cfg, g, s, Restarter(cfg, s)) {
      RestartKeepsInv(cfg, g, s, b, Restarter(cfg, s));
      forall events, u | HonestFrom(cfg, g, t, events) && Reaches(cfg, t, events, u) ensures SendsGolden(cfg, g, u) {
        HonestKeepsInv(cfg, g, t, events, u);
      }
    } else {
      var events, u := WrongByteFollows(cfg, g, s, b, Restarter(cfg, s));
    }
  }
}
