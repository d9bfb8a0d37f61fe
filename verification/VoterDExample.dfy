/** A run of VoterD on which the watchdog clones the faulty replica and its
    output is sent. */
module VoterDExample {
  import opened VoteBuff
  import opened VoterDAlignment
  import opened VoterDMasking
  import opened VoterDSpec
  import opened VoterDTimeout

  const THREE := Config(3, [true], [1, 1], [0, 0], 10)

  predicate Rows(buffs: seq<seq<Buff>>, a: seq<byte>, b: seq<byte>, c: seq<byte>) {
    && |buffs| == 3 && |buffs[0]| == |buffs[1]| == |buffs[2]| == 1
    && buffs[0][0] == Buff(0, a) && buffs[1][0] == Buff(0, b) && buffs[2][0] == Buff(0, c)
  }

  /** Replica 2 has said 1, the others nothing. */
  ghost predicate Spoke(s: State) {
    && ValidState(THREE, s) && s.sent == [[]] && s.timerStarted && s.currentTimer == 0
    && Rows(s.buffs, [], [], [1]) && s.priorities == [12, 11, 10]
  }

  ghost predicate Cloned(s: State) {
    ValidState(THREE, s) && s.sent == [[]] && Rows(s.buffs, [1], [], [1])
  }

  lemma SpeakFirst()
    ensures Enabled(THREE, Initial(THREE), Output(2, 0, [1]))
    ensures Spoke(Step(THREE, Initial(THREE), Output(2, 0, [1])))
  {
    var s := Initial(THREE);
    assert Rows(s.buffs, [], [], []);
    var s1 := Accept(THREE, StartTimer(THREE, s, 0, THREE.timerStop), 2, 0, [1]);
    assert [] + [1 as byte] == [1];
    assert Rows(s1.buffs, [], [], [1]);
    BytesReadyIs(s1.buffs, 0, 0);
    FirstIsBehind(s1.buffs, s1.priorities);
  }

  lemma FirstIsBehind(buffs: seq<seq<Buff>>, priorities: seq<int>)
    requires Rows(buffs, [], [], [1]) && |priorities| == 3
    ensures Balanced(THREE, buffs, priorities) == [12, 11, 10]
  {
    assert AheadRep(buffs, 0, 2) == 0;
    assert AheadRep(buffs, 0, 3) == 2;
    forall r: nat | r < 3 ensures Gap(THREE, buffs, r) == if r == 2 then 0 else 1 {
      assert RepGap(THREE, buffs, r, 1) == RepGap(THREE, buffs, r, 0) + 1 - |buffs[r][0].contents|;
    }
    hide Gap;
    assert Choices(THREE, buffs, 1) == (0, 1);
    assert Choices(THREE, buffs, 2) == (0, 1);
    assert Choices(THREE, buffs, 3) == (0, 1);
  }

  lemma ThenTimeout(s: State)
    requires Spoke(s)
    ensures Enabled(THREE, s, Timeout) && Restarter(THREE, s) == 2
    ensures Cloned(Step(THREE, s, Timeout))
  {
    assert BehindRep(s.buffs, s.priorities, 0, 2) == 0;
    assert BehindRep(s.buffs, s.priorities, 0, 3) == 0;
    CloneSecond(s);
    hide RestartPrep;
  }

  lemma CloneSecond(s: State)
    requires Spoke(s)
    ensures Cloned(RestartPrep(THREE, s, 0, 2))
  {
    hide Balanced, Without, Returned, ValidBuff, SendPipe;
    var stolen := Stolen(THREE, s.pending[2]);
    var s1 := s.(pending := s.pending[2 := Without(s.pending[2], stolen)], timerStarted := false);
    var s2 := RestartReplica(THREE, s1, 2, 0);
    var s3 := Copied(THREE, s2, 2, 0, 0);
    assert Rows(s3.buffs, [1], [], [1]);
    NothingSent(s3);
    assert CopyPipes(THREE, s2, 2, 0, 0) == s2;
    assert CopyPipes(THREE, s2, 2, 0, 1) == s3;
  }

  lemma NothingSent(s: State)
    requires Cloned(s)
    ensures SendPipe(THREE, s, 0, 2) == s
  {
    BytesReadyIs(s.buffs, 0, 0);
  }

  lemma ThenOutvoted(g: Golden, s: State)
    requires Cloned(s) && Aligned(THREE, s) && forall p, i :: g(p, i) == 0
    ensures Enabled(THREE, s, Output(1, 0, [0])) && Honest(THREE, g, s, Output(1, 0, [0]))
    ensures Step(THREE, s, Output(1, 0, [0])).sent == [[1]]
  {
    assert Good(THREE, g, s, 1);
    ZeroIsTruth(g);
    hide Aligned, Good, Honest, Heard, Step, CheckSDC, Truth, Enabled, ValidBuff, GoldenAt;
    TruthIsHeard(THREE, g, s, 1, 0, 0);
    LieGoesOut(g, Heard(THREE, s, 1, 0, [0]));
  }

  lemma LieGoesOut(g: Golden, t: State)
    requires ValidState(THREE, t) && Aligned(THREE, t) && t.sent == [[]] && forall p, i :: g(p, i) == 0
    requires t.buffs[0][0] == t.buffs[2][0] && t.buffs[0][0].contents == [1] && t.buffs[1][0].contents == [0]
    ensures CheckSDC(THREE, t, 0).sent == [[1]]
  {
    ZeroIsTruth(g);
    var x := LieIsChosen(THREE, g, t, 0, 2, 1, 0, 0);
    hide Aligned, RestartPrep, VerdictOn;
    RestartSendsAll(THREE, g, t, 1, x, 2 - x, 0);
    assert [] + [1 as byte] == [1];
  }

  lemma ZeroIsTruth(g: Golden)
    requires forall p, i :: g(p, i) == 0
    ensures Truth(g, 0, 0, 1) == [0]
  {
  }

  /** Three replicas that should say zeros. Replica 2 alone deviates and says a
      one, while the others are slow; the watchdog finds them all as far behind
      and clones replica 2 over the first; then replica 1 says its zero, is
      outvoted, and the one is sent. */
  lemma WatchdogClonesTheFault(g: Golden) returns (events: seq<Event>, u: State)
    requires forall p, i :: g(p, i) == 0
    ensures events == [Output(2, 0, [1]), Timeout, Output(1, 0, [0])]
    ensures Reaches(THREE, Initial(THREE), events, u) && u.sent == [[1]]
    ensures var s := Initial(THREE); var t := Step(THREE, s, events[0]);
      && Tolerable(THREE, g, s, events[0]) && Inv(THREE, g, t)
      && Good(THREE, g, t, 0) && Good(THREE, g, t, 1)
      && HonestFrom(THREE, g, Step(THREE, t, Timeout), events[2..])
  {
    var s, e, last := Initial(THREE), Output(2, 0, [1]), Output(1, 0, [0]);
    hide Step, Enabled, Aligned, Tolerable, Honest, Good, Spoke, Cloned, ValidBuff, Initial, SentGolden, FewBad,
      DrainedTo, HonestFrom, Reaches, SendsGolden;
    SpeakFirst();
    var t := Step(THREE, s, e);
    ThenTimeout(t);
    var v := Step(THREE, t, Timeout);
    OneDeviates(g);
    InitialKeepsInv(THREE, g);
    StepKeepsInv(THREE, g, s, e);
    assert Inv(THREE, g, t);
    StepAligned(THREE, t, Timeout);
    ThenOutvoted(g, v);
    u := Step(THREE, v, last);
    events := [e, Timeout, last];
    ThreeEvents(s, t, v, u, e, Timeout, last);
    OneHonest(g, v, last);
    assert events[2..] == [last];
  }

  lemma OneHonest(g: Golden, s: State, e: Event)
    requires ValidState(THREE, s) && Enabled(THREE, s, e) && Honest(THREE, g, s, e)
    ensures HonestFrom(THREE, g, s, [e])
  {
    hide Step, Enabled, Honest;
    assert [e][1..] == [];
  }

  lemma ThreeEvents(s: State, t: State, v: State, u: State, d: Event, e: Event, f: Event)
    requires ValidState(THREE, s) && Enabled(THREE, s, d) && t == Step(THREE, s, d)
    requires Enabled(THREE, t, e) && v == Step(THREE, t, e)
    requires Enabled(THREE, v, f) && u == Step(THREE, v, f)
    ensures Reaches(THREE, s, [d, e, f], u)
  {
    hide Step, Enabled;
    assert [d, e, f][1..] == [e, f] && [e, f][1..] == [f] && [f][1..] == [];
    assert Reaches(THREE, u, [], u);
    assert Reaches(THREE, v, [f], u);
    assert Reaches(THREE, t, [e, f], u);
  }

  lemma OneDeviates(g: Golden)
    requires forall p, i :: g(p, i) == 0
    ensures Enabled(THREE, Initial(THREE), Output(2, 0, [1]))
    ensures Tolerable(THREE, g, Initial(THREE), Output(2, 0, [1]))
    ensures Spoke(Step(THREE, Initial(THREE), Output(2, 0, [1])))
    ensures Good(THREE, g, Step(THREE, Initial(THREE), Output(2, 0, [1])), 0)
    ensures Good(THREE, g, Step(THREE, Initial(THREE), Output(2, 0, [1])), 1)
  {
    SpeakFirst();
    hide Step;
  }
}
