/** VoterD as a state machine on values: what each replica has buffered, what
    has been sent on, and what every operation of the voter does to them. */
module VoterDSpec {
  import opened VoteBuff

  /** One replica's output pipe as the voter holds it. */
  datatype Buff = Buff(index: nat, contents: seq<byte>)

  /** `isOut` tells the pipes that carry output of the replicas; the timer
      indexes number the pipes that start and stop the watchdog. */
  datatype Config = Config(reps: nat, isOut: seq<bool>, timerStart: seq<nat>, timerStop: seq<nat>, priority: int)

  /** `buffs` and `pending` go by replica and pipe: output read and not yet
      sent, and input written and not yet read by the replica. */
  datatype State = State(
    buffs: seq<seq<Buff>>,
    priorities: seq<int>,
    pending: seq<seq<seq<byte>>>,
    sent: seq<seq<byte>>,
    timerStarted: bool,
    currentTimer: nat)

  datatype Event =
    | Output(rep: nat, pipe: nat, data: seq<byte>)
    | Input(pipe: nat, data: seq<byte>)
    | Taken(rep: nat, pipe: nat, n: nat)
    | Timeout

  // ----- shapes

  predicate ValidConfig(cfg: Config) {
    && 1 <= cfg.reps <= 3
    && |cfg.timerStart| == 2 && |cfg.timerStop| == 2
    && cfg.timerStop[0] < |cfg.isOut| && cfg.timerStop[1] < |cfg.isOut|
  }

  predicate Shaped(cfg: Config, buffs: seq<seq<Buff>>) {
    && |buffs| == cfg.reps
    && forall r :: 0 <= r < |buffs| ==> |buffs[r]| == |cfg.isOut|
  }

  predicate ValidBuff(b: Buff) {
    b.index < MAX_VOTE_PIPE_BUFF && |b.contents| < MAX_VOTE_PIPE_BUFF
  }

  predicate ValidState(cfg: Config, s: State) {
    && ValidConfig(cfg)
    && Shaped(cfg, s.buffs)
    && |s.priorities| == cfg.reps
    && |s.pending| == cfg.reps && (forall r :: 0 <= r < cfg.reps ==> |s.pending[r]| == |cfg.isOut|)
    && |s.sent| == |cfg.isOut|
    && s.currentTimer < 2
    && forall r, p :: 0 <= r < cfg.reps && 0 <= p < |cfg.isOut| ==> ValidBuff(s.buffs[r][p])
  }

  // ----- choosing replicas

  /** `bytesReady`: the fewest bytes any of the first k replicas holds. */
  function BytesReady(buffs: seq<seq<Buff>>, p: nat, k: nat): (n: nat)
    requires k <= |buffs| && forall r :: 0 <= r < |buffs| ==> p < |buffs[r]|
    ensures n <= MAX_VOTE_PIPE_BUFF
    ensures forall r :: 0 <= r < k ==> n <= |buffs[r][p].contents|
    ensures n == MAX_VOTE_PIPE_BUFF || exists r :: 0 <= r < k && |buffs[r][p].contents| == n
  {
    if k == 0 then MAX_VOTE_PIPE_BUFF
    else
      var min := BytesReady(buffs, p, k - 1);
      if |buffs[k - 1][p].contents| < min then |buffs[k - 1][p].contents| else min
  }

  /** `behindRep` over the first k replicas. */
  function BehindRep(buffs: seq<seq<Buff>>, priorities: seq<int>, p: nat, k: nat): (b: nat)
    requires 1 <= k <= |buffs| == |priorities| && forall r :: 0 <= r < |buffs| ==> p < |buffs[r]|
    ensures b < k
  {
    if k == 1 then 0
    else
      var b := BehindRep(buffs, priorities, p, k - 1);
      var mine, best := |buffs[k - 1][p].contents|, |buffs[b][p].contents|;
      if mine < best then k - 1
      else if mine == best && priorities[k - 1] > priorities[b] then k - 1
      else b
  }

  /** `behindRep` returns the replica with the fewest bytes on the pipe, of those
      the one with the highest priority, and of those the first. */
  lemma {:induction false} BehindRepIsFirst(buffs: seq<seq<Buff>>, priorities: seq<int>, p: nat, k: nat)
    requires 1 <= k <= |buffs| == |priorities| && forall r :: 0 <= r < |buffs| ==> p < |buffs[r]|
    ensures var b := BehindRep(buffs, priorities, p, k);
      forall r :: 0 <= r < k && r != b ==>
        var mine, other := |buffs[b][p].contents|, |buffs[r][p].contents|;
        || mine < other
        || (mine == other && priorities[b] > priorities[r])
        || (mine == other && priorities[b] == priorities[r] && b < r)
  {
    if k > 1 {
      BehindRepIsFirst(buffs, priorities, p, k - 1);
    }
  }

  /** `aheadRep` over the first k replicas. */
  function AheadRep(buffs: seq<seq<Buff>>, p: nat, k: nat): (a: nat)
    requires 1 <= k <= |buffs| && forall r :: 0 <= r < |buffs| ==> p < |buffs[r]|
    ensures a < k
    ensures forall r :: 0 <= r < k ==> |buffs[r][p].contents| <= |buffs[a][p].contents|
    ensures forall r :: 0 <= r < a ==> |buffs[r][p].contents| < |buffs[a][p].contents|
  {
    if k == 1 then 0
    else
      var a := AheadRep(buffs, p, k - 1);
      if |buffs[k - 1][p].contents| > |buffs[a][p].contents| then k - 1 else a
  }

  /** `rep_gap` over the first k pipes: how far a replica is behind in all. */
  function RepGap(cfg: Config, buffs: seq<seq<Buff>>, r: nat, k: nat): (g: nat)
    requires cfg.reps >= 1 && Shaped(cfg, buffs) && r < cfg.reps && k <= |cfg.isOut|
  {
    if k == 0 then 0
    else if !cfg.isOut[k - 1] then RepGap(cfg, buffs, r, k - 1)
    else
      var ahead := AheadRep(buffs, k - 1, cfg.reps);
      RepGap(cfg, buffs, r, k - 1) + |buffs[ahead][k - 1].contents| - |buffs[r][k - 1].contents|
  }

  function Gap(cfg: Config, buffs: seq<seq<Buff>>, r: nat): nat
    requires cfg.reps >= 1 && Shaped(cfg, buffs) && r < cfg.reps
  {
    RepGap(cfg, buffs, r, |cfg.isOut|)
  }

  /** The first and second choice of `balanceReps` after k replicas. */
  function Choices(cfg: Config, buffs: seq<seq<Buff>>, k: nat): (c: (nat, nat))
    requires cfg.reps >= 2 && Shaped(cfg, buffs) && k <= cfg.reps
    ensures c.0 < cfg.reps && c.1 < cfg.reps
    ensures c.0 < k || c.0 == 0
    ensures forall r :: 0 <= r < k ==> Gap(cfg, buffs, r) <= Gap(cfg, buffs, c.0)
    ensures forall r :: 0 <= r < c.0 ==> Gap(cfg, buffs, r) < Gap(cfg, buffs, c.0)
  {
    if k == 0 then (0, 1)
    else
      var c := Choices(cfg, buffs, k - 1);
      if Gap(cfg, buffs, k - 1) > Gap(cfg, buffs, c.0) then (k - 1, c.1)
      else if Gap(cfg, buffs, k - 1) > Gap(cfg, buffs, c.1) && k - 1 != c.0 then (c.0, k - 1)
      else c
  }

  function Balanced(cfg: Config, buffs: seq<seq<Buff>>, priorities: seq<int>): (ps: seq<int>)
    requires cfg.reps >= 1 && Shaped(cfg, buffs) && |priorities| == cfg.reps
    ensures |ps| == cfg.reps
  {
    if cfg.reps < 2 then priorities
    else
      var c := Choices(cfg, buffs, cfg.reps);
      seq(cfg.reps, i => cfg.priority + if i == c.0 then 2 else if i == c.1 then 1 else 0)
  }

  /** The output of replica r that waits to be voted on, over the first k pipes. */
  function TotalOut(cfg: Config, buffs: seq<seq<Buff>>, r: nat, k: nat): nat
    requires Shaped(cfg, buffs) && r < cfg.reps && k <= |cfg.isOut|
  {
    if k == 0 then 0
    else TotalOut(cfg, buffs, r, k - 1) + if cfg.isOut[k - 1] then |buffs[r][k - 1].contents| else 0
  }

  lemma {:induction false} GapComplementsTotal(cfg: Config, buffs: seq<seq<Buff>>, a: nat, b: nat, k: nat)
    requires cfg.reps >= 1 && Shaped(cfg, buffs) && a < cfg.reps && b < cfg.reps && k <= |cfg.isOut|
    ensures RepGap(cfg, buffs, a, k) + TotalOut(cfg, buffs, a, k) ==
        RepGap(cfg, buffs, b, k) + TotalOut(cfg, buffs, b, k)
  {
    if k > 0 {
      GapComplementsTotal(cfg, buffs, a, b, k - 1);
    }
  }

  /** Replica i has the fewest waiting bytes in all, and is the first such. */
  predicate MostBehind(cfg: Config, buffs: seq<seq<Buff>>, i: nat)
    requires Shaped(cfg, buffs) && i < cfg.reps
  {
    var n := |cfg.isOut|;
    && (forall r :: 0 <= r < cfg.reps ==> TotalOut(cfg, buffs, i, n) <= TotalOut(cfg, buffs, r, n))
    && (forall r :: 0 <= r < i ==> TotalOut(cfg, buffs, i, n) < TotalOut(cfg, buffs, r, n))
  }

  /** `balanceReps` gives the top priority to the most behind replica and to no
      other; at most one more is raised, by one. */
  lemma TopPriorityIsMostBehind(cfg: Config, buffs: seq<seq<Buff>>, priorities: seq<int>, i: nat)
    requires cfg.reps >= 2 && Shaped(cfg, buffs) && |priorities| == cfg.reps && i < cfg.reps
    ensures Balanced(cfg, buffs, priorities)[i] == cfg.priority + 2 <==> MostBehind(cfg, buffs, i)
    ensures cfg.priority <= Balanced(cfg, buffs, priorities)[i] <= cfg.priority + 2
    ensures forall j :: 0 <= j < cfg.reps && j != i ==>
              !(Balanced(cfg, buffs, priorities)[i] == Balanced(cfg, buffs, priorities)[j] == cfg.priority + 1)
  {
    var c := Choices(cfg, buffs, cfg.reps);
    forall r | 0 <= r < cfg.reps
      ensures Gap(cfg, buffs, r) <= Gap(cfg, buffs, c.0) <==>
          TotalOut(cfg, buffs, c.0, |cfg.isOut|) <= TotalOut(cfg, buffs, r, |cfg.isOut|)
    {
      GapComplementsTotal(cfg, buffs, c.0, r, |cfg.isOut|);
    }
    forall r | 0 <= r < c.0
      ensures TotalOut(cfg, buffs, c.0, |cfg.isOut|) < TotalOut(cfg, buffs, r, |cfg.isOut|)
    {
      assert Gap(cfg, buffs, r) < Gap(cfg, buffs, c.0);
      GapComplementsTotal(cfg, buffs, c.0, r, |cfg.isOut|);
    }
    assert MostBehind(cfg, buffs, c.0);
  }

  /** Only output pipes count for the total, and each byte on them for one. */
  lemma {:induction false} TotalOutCounts(cfg: Config, buffs: seq<seq<Buff>>, r: nat, p: nat, b: Buff, k: nat)
    requires Shaped(cfg, buffs) && r < cfg.reps && p < k <= |cfg.isOut|
    ensures TotalOut(cfg, buffs[r := buffs[r][p := b]], r, k) ==
            TotalOut(cfg, buffs, r, k) + if cfg.isOut[p] then |b.contents| - |buffs[r][p].contents| else 0
  {
    if p < k - 1 {
      TotalOutCounts(cfg, buffs, r, p, b, k - 1);
    } else {
      TotalOutBelow(cfg, buffs, buffs[r := buffs[r][p := b]], r, p);
    }
  }

  lemma {:induction false} TotalOutBelow(cfg: Config, a: seq<seq<Buff>>, b: seq<seq<Buff>>, r: nat, k: nat)
    requires Shaped(cfg, a) && Shaped(cfg, b) && r < cfg.reps && k <= |cfg.isOut|
    requires forall p :: 0 <= p < k ==> a[r][p] == b[r][p]
    ensures TotalOut(cfg, a, r, k) == TotalOut(cfg, b, r, k)
  {
    if k > 0 {
      TotalOutBelow(cfg, a, b, r, k - 1);
    }
  }

  lemma {:induction false} NothingOutIsZero(cfg: Config, buffs: seq<seq<Buff>>, r: nat, k: nat)
    requires Shaped(cfg, buffs) && r < cfg.reps && k <= |cfg.isOut|
    requires forall p :: 0 <= p < k && cfg.isOut[p] ==> buffs[r][p].contents == []
    ensures TotalOut(cfg, buffs, r, k) == 0
  {
    if k > 0 {
      NothingOutIsZero(cfg, buffs, r, k - 1);
    }
  }

  /** All priorities that `balanceReps` gives, by how much output of each replica
      waits. The first replica is never raised by one, and when the second of
      three is most behind, nobody is. */
  lemma PrioritiesAre(cfg: Config, buffs: seq<seq<Buff>>, priorities: seq<int>)
    requires 2 <= cfg.reps <= 3 && Shaped(cfg, buffs) && |priorities| == cfg.reps
    ensures var n, low := |cfg.isOut|, cfg.priority;
      var first, second := TotalOut(cfg, buffs, 0, n), TotalOut(cfg, buffs, 1, n);
      Balanced(cfg, buffs, priorities) ==
        if cfg.reps == 2 then if second < first then [low, low + 2] else [low + 2, low + 1]
        else
          var third := TotalOut(cfg, buffs, 2, n);
          if third < first && third < second then [low, low + 1, low + 2]
          else if second < first then [low, low + 2, low]
          else if third < second then [low + 2, low, low + 1]
          else [low + 2, low + 1, low]
  {
    var n := |cfg.isOut|;
    hide RepGap, TotalOut, Choices;
    GapComplementsTotal(cfg, buffs, 0, 1, n);
    if cfg.reps == 3 {
      GapComplementsTotal(cfg, buffs, 0, 2, n);
    }
    ChoicesAre(cfg, buffs);
  }

  lemma ChoicesAre(cfg: Config, buffs: seq<seq<Buff>>)
    requires 2 <= cfg.reps <= 3 && Shaped(cfg, buffs)
    ensures var a, b := Gap(cfg, buffs, 0), Gap(cfg, buffs, 1);
      Choices(cfg, buffs, cfg.reps) ==
        if cfg.reps == 2 then if b > a then (1, 1) else (0, 1)
        else
          var c := Gap(cfg, buffs, 2);
          if c > a && c > b then (2, 1) else if b > a then (1, 1) else if c > b then (0, 2) else (0, 1)
  {
    hide Gap;
    assert Choices(cfg, buffs, 0) == (0, 1);
    assert Choices(cfg, buffs, 1) == (0, 1);
    assert Choices(cfg, buffs, 2) == if Gap(cfg, buffs, 1) > Gap(cfg, buffs, 0) then (1, 1) else (0, 1);
  }

  // ----- sending and comparing

  function Drop(b: Buff, n: nat): Buff
    requires n <= |b.contents|
  {
    Buff((b.index + n) % MAX_VOTE_PIPE_BUFF, b.contents[n..])
  }

  function StopsTimer(cfg: Config, p: nat): bool
    requires |cfg.timerStop| == 2
  {
    p == cfg.timerStop[0] || p == cfg.timerStop[1]
  }

  function SendPipe(cfg: Config, s: State, p: nat, r: nat): (t: State)
    requires ValidState(cfg, s) && p < |cfg.isOut| && r < cfg.reps
    ensures ValidState(cfg, t)
  {
    var n := BytesReady(s.buffs, p, cfg.reps);
    if n == 0 then s
    else s.(timerStarted := s.timerStarted && !StopsTimer(cfg, p),
            sent := s.sent[p := s.sent[p] + s.buffs[r][p].contents[..n]],
            buffs := seq(cfg.reps, i requires 0 <= i < cfg.reps => s.buffs[i][p := Drop(s.buffs[i][p], n)]))
  }

  /** What `compareBuffs` finds of two replicas on the first n bytes. */
  predicate Matches(a: Buff, b: Buff, n: nat)
    requires n <= |a.contents| && n <= |b.contents|
  {
    a.index == b.index && a.contents[..n] == b.contents[..n]
  }

  // ----- restarting

  /** The part of a replica's unread input that `stealPipes` takes. */
  function Stolen(cfg: Config, pending: seq<seq<byte>>): (b: seq<seq<byte>>)
    requires |pending| == |cfg.isOut|
    ensures |b| == |pending|
  {
    seq(|pending|, p requires 0 <= p < |pending| =>
      if cfg.isOut[p] then []
      else if |pending[p]| <= MAX_VOTE_PIPE_BUFF then pending[p] else pending[p][..MAX_VOTE_PIPE_BUFF])
  }

  function Without(pending: seq<seq<byte>>, taken: seq<seq<byte>>): (b: seq<seq<byte>>)
    requires |pending| == |taken| && forall p :: 0 <= p < |pending| ==> |taken[p]| <= |pending[p]|
    ensures |b| == |pending|
  {
    seq(|pending|, p requires 0 <= p < |pending| => pending[p][|taken[p]|..])
  }

  function Returned(pending: seq<seq<byte>>, taken: seq<seq<byte>>): (b: seq<seq<byte>>)
    requires |pending| == |taken|
    ensures |b| == |pending|
  {
    seq(|pending|, p requires 0 <= p < |pending| => pending[p] + taken[p])
  }

  /** `restartReplica`: the restartee starts with empty pipes, and priorities
      are handed out anew. */
  function RestartReplica(cfg: Config, s: State, restarter: nat, restartee: nat): (t: State)
    requires ValidState(cfg, s) && restarter < cfg.reps && restartee < cfg.reps
    ensures ValidState(cfg, t)
  {
    var buffs := s.buffs[restartee := seq(|cfg.isOut|, p => Buff(0, []))];
    var priorities := seq(cfg.reps, i => if i == restarter && i != restartee then cfg.priority + 2 else cfg.priority);
    s.(buffs := buffs,
       pending := s.pending[restartee := seq(|cfg.isOut|, p => [])],
       priorities := Balanced(cfg, buffs, priorities))
  }

  /** Copies the restarter's pipe to the restartee and sends on what can be. */
  function CopyAndSend(cfg: Config, s: State, restarter: nat, restartee: nat, p: nat): (t: State)
    requires ValidState(cfg, s) && restarter < cfg.reps && restartee < cfg.reps && p < |cfg.isOut|
    ensures ValidState(cfg, t)
  {
    SendPipe(cfg, s.(buffs := s.buffs[restartee := s.buffs[restartee][p := s.buffs[restarter][p]]]), p, restarter)
  }

  /** The first k pipes of the loop in `restart_prep`. */
  function CopyPipes(cfg: Config, s: State, restarter: nat, restartee: nat, k: nat): (t: State)
    requires ValidState(cfg, s) && restarter < cfg.reps && restartee < cfg.reps && k <= |cfg.isOut|
    ensures ValidState(cfg, t)
  {
    if k == 0 then s
    else
      var t := CopyPipes(cfg, s, restarter, restartee, k - 1);
      if cfg.isOut[k - 1] then CopyAndSend(cfg, t, restarter, restartee, k - 1) else t
  }

  function RestartPrep(cfg: Config, s: State, restartee: nat, restarter: nat): (t: State)
    requires ValidState(cfg, s) && restarter < cfg.reps && restartee < cfg.reps && restarter != restartee
    ensures ValidState(cfg, t)
  {
    var stolen := Stolen(cfg, s.pending[restarter]);
    var s1 := s.(pending := s.pending[restarter := Without(s.pending[restarter], stolen)], timerStarted := false);
    var s2 := CopyPipes(cfg, RestartReplica(cfg, s1, restarter, restartee), restarter, restartee, |cfg.isOut|);
    s2.(pending := s2.pending[restartee := Returned(s2.pending[restartee], stolen)]
                             [restarter := Returned(s2.pending[restarter], stolen)])
  }

  /** `voterRestartHandler` with two or three replicas. */
  function RestartBehind(cfg: Config, s: State): (t: State)
    requires ValidState(cfg, s) && cfg.reps >= 2
    ensures ValidState(cfg, t)
  {
    var restartee := BehindRep(s.buffs, s.priorities, cfg.timerStop[s.currentTimer], cfg.reps);
    RestartPrep(cfg, s, restartee, (restartee + (cfg.reps - 1)) % cfg.reps)
  }

  // ----- voting

  datatype Verdict = Nothing | Send(from: nat) | Restart(restartee: nat, restarter: nat)

  predicate ValidVerdict(cfg: Config, v: Verdict) {
    match v
    case Nothing => true
    case Send(from) => from < cfg.reps
    case Restart(restartee, restarter) => restartee < cfg.reps && restarter < cfg.reps && restartee != restarter
  }

  /** The vote of three on their first n bytes, from replica r on. */
  function Vote(cfg: Config, s: State, p: nat, n: nat, r: nat): (v: Verdict)
    requires ValidState(cfg, s) && cfg.reps == 3 && p < |cfg.isOut| && r <= 3
    requires n == BytesReady(s.buffs, p, cfg.reps)
    ensures ValidVerdict(cfg, v)
    decreases 3 - r
  {
    if r == 3 then Nothing
    else
      var second, third := (r + 1) % 3, (r + 2) % 3;
      if Matches(s.buffs[r][p], s.buffs[second][p], n) then
        if !Matches(s.buffs[r][p], s.buffs[third][p], n) then Restart(third, r) else Send(r)
      else Vote(cfg, s, p, n, r + 1)
  }

  function VerdictOn(cfg: Config, s: State, p: nat): (v: Verdict)
    requires ValidState(cfg, s) && p < |cfg.isOut|
    ensures ValidVerdict(cfg, v)
  {
    var n := BytesReady(s.buffs, p, cfg.reps);
    if n == 0 then Nothing
    else if cfg.reps == 3 then Vote(cfg, s, p, n, 0)
    else Send(0)
  }

  function CheckSDC(cfg: Config, s: State, p: nat): (t: State)
    requires ValidState(cfg, s) && p < |cfg.isOut|
    ensures ValidState(cfg, t)
  {
    match VerdictOn(cfg, s, p)
    case Nothing => s
    case Send(from) => SendPipe(cfg, s, p, from)
    case Restart(restartee, restarter) => RestartPrep(cfg, s, restartee, restarter)
  }

  // ----- what arrives

  function StartTimer(cfg: Config, s: State, p: nat, indexes: seq<nat>): (t: State)
    requires |indexes| == 2
  {
    if s.timerStarted then s
    else if p == indexes[0] then s.(currentTimer := 0, timerStarted := true)
    else if p == indexes[1] then s.(currentTimer := 1, timerStarted := true)
    else s
  }

  predicate Fits(b: Buff, data: seq<byte>) {
    data != [] && |b.contents| + |data| < MAX_VOTE_PIPE_BUFF
  }

  /** `pipeToBuff`. */
  function Accept(cfg: Config, s: State, r: nat, p: nat, data: seq<byte>): (t: State)
    requires ValidState(cfg, s) && r < cfg.reps && p < |cfg.isOut|
    ensures ValidState(cfg, t)
  {
    var b := s.buffs[r][p];
    if Fits(b, data) then s.(buffs := s.buffs[r := s.buffs[r][p := b.(contents := b.contents + data)]]) else s
  }

  /** `balanceReps`. */
  function Rebalanced(cfg: Config, s: State): (t: State)
    requires ValidState(cfg, s)
    ensures ValidState(cfg, t) && t.buffs == s.buffs && t.sent == s.sent
  {
    s.(priorities := Balanced(cfg, s.buffs, s.priorities))
  }

  function ProcessFromRep(cfg: Config, s: State, r: nat, p: nat, data: seq<byte>): (t: State)
    requires ValidState(cfg, s) && r < cfg.reps && p < |cfg.isOut|
    ensures ValidState(cfg, t)
  {
    var s1 := Accept(cfg, StartTimer(cfg, s, p, cfg.timerStop), r, p, data);
    if Fits(s.buffs[r][p], data) then CheckSDC(cfg, Rebalanced(cfg, s1), p) else s1
  }

  function ProcessData(cfg: Config, s: State, p: nat, data: seq<byte>): (t: State)
    requires ValidState(cfg, s) && p < |cfg.isOut|
    ensures ValidState(cfg, t)
  {
    var s1 := Rebalanced(cfg, StartTimer(cfg, s, p, cfg.timerStart));
    s1.(pending := seq(cfg.reps, r requires 0 <= r < cfg.reps => s1.pending[r][p := s1.pending[r][p] + data]))
  }

  /** `checkSync`: every replica has as much buffered as the first. */
  predicate InSync(cfg: Config, s: State)
    requires ValidState(cfg, s)
  {
    forall p, r :: 0 <= p < |cfg.isOut| && 1 <= r < cfg.reps ==> |s.buffs[r][p].contents| == |s.buffs[0][p].contents|
  }

  /** The replica that an event has restarted, and from which. */
  function RestartOf(cfg: Config, s: State, e: Event): (v: Verdict)
    requires ValidState(cfg, s) && Enabled(cfg, s, e)
    ensures ValidVerdict(cfg, v)
  {
    match e
    case Output(r, p, data) =>
      var s1 := Accept(cfg, StartTimer(cfg, s, p, cfg.timerStop), r, p, data);
      if Fits(s.buffs[r][p], data) && VerdictOn(cfg, Rebalanced(cfg, s1), p).Restart?
      then VerdictOn(cfg, Rebalanced(cfg, s1), p) else Nothing
    case Input(p, data) => Nothing
    case Taken(r, p, n) => Nothing
    case Timeout =>
      var restartee := BehindRep(s.buffs, s.priorities, cfg.timerStop[s.currentTimer], cfg.reps);
      Restart(restartee, (restartee + (cfg.reps - 1)) % cfg.reps)
  }

  /** The bytes an event adds to what the voter has read of a pipe. */
  function ReadBy(cfg: Config, s: State, e: Event, r: nat, p: nat): nat
    requires ValidState(cfg, s) && Enabled(cfg, s, e)
  {
    if e.Output? && e.rep == r && e.pipe == p && Fits(s.buffs[r][p], e.data) then |e.data| else 0
  }

  // ----- runs

  /** When an event can happen: a timeout only while the timer runs, input only
      when it does not and the replicas are in step. A replica may read what it
      has of its input at any time. */
  predicate Enabled(cfg: Config, s: State, e: Event)
    requires ValidState(cfg, s)
  {
    match e
    case Output(r, p, data) => r < cfg.reps && p < |cfg.isOut| && cfg.isOut[p]
    case Input(p, data) => p < |cfg.isOut| && !cfg.isOut[p] && data != [] && !s.timerStarted && InSync(cfg, s)
    case Taken(r, p, n) => r < cfg.reps && p < |cfg.isOut| && !cfg.isOut[p] && n <= |s.pending[r][p]|
    case Timeout => s.timerStarted && cfg.reps >= 2
  }

  function Step(cfg: Config, s: State, e: Event): (t: State)
    requires ValidState(cfg, s) && Enabled(cfg, s, e)
    ensures ValidState(cfg, t)
  {
    match e
    case Output(r, p, data) => ProcessFromRep(cfg, s, r, p, data)
    case Input(p, data) => ProcessData(cfg, s, p, data)
    case Taken(r, p, n) => s.(pending := s.pending[r := s.pending[r][p := s.pending[r][p][n..]]])
    case Timeout => RestartBehind(cfg, s)
  }

  /** What one pass of the main loop does, given whether the watchdog's time is
      up, the input at hand and what the replicas have written: the watchdog
      first, then at most one input, then all output. */
  function Pass(cfg: Config, s: State, timeUp: bool, input: seq<Event>, outputs: seq<Event>): seq<Event>
    requires ValidState(cfg, s)
  {
    var late := timeUp && s.timerStarted && cfg.reps >= 2;
    var mid := if late then RestartBehind(cfg, s) else s;
    (if late then [Timeout] else []) + (if InSync(cfg, mid) && !mid.timerStarted then input else []) + outputs
  }

  function Initial(cfg: Config): (s: State)
    requires ValidConfig(cfg)
    ensures ValidState(cfg, s)
  {
    State(seq(cfg.reps, r => seq(|cfg.isOut|, p => Buff(0, []))),
          seq(cfg.reps, r => cfg.priority),
          seq(cfg.reps, r => seq(|cfg.isOut|, p => [])),
          seq(|cfg.isOut|, p => []),
          false, 0)
  }

  ghost predicate Run(cfg: Config, states: seq<State>, events: seq<Event>) {
    && ValidConfig(cfg) && |states| == |events| + 1 && states[0] == Initial(cfg)
    && (forall i :: 0 <= i < |states| ==> ValidState(cfg, states[i]))
    && forall i :: 0 <= i < |events| ==>
        Enabled(cfg, states[i], events[i]) && states[i + 1] == Step(cfg, states[i], events[i])
  }

  /** The events take the voter from s to t, each enabled when it happens. */
  ghost predicate Reaches(cfg: Config, s: State, events: seq<Event>, t: State)
    requires ValidState(cfg, s)
    decreases |events|
  {
    if events == [] then s == t
    else Enabled(cfg, s, events[0]) && Reaches(cfg, Step(cfg, s, events[0]), events[1..], t)
  }

  lemma {:induction false} ReachesOneMore(cfg: Config, s: State, events: seq<Event>, t: State, e: Event)
    requires ValidState(cfg, s) && ValidState(cfg, t) && Reaches(cfg, s, events, t) && Enabled(cfg, t, e)
    ensures Reaches(cfg, s, events + [e], Step(cfg, t, e))
    decreases |events|
  {
    hide Step, Enabled;
    if events == [] {
      assert ([e])[1..] == [];
      assert Reaches(cfg, Step(cfg, s, e), [], Step(cfg, t, e));
      assert events + [e] == [e];
    } else {
      ReachesOneMore(cfg, Step(cfg, s, events[0]), events[1..], t, e);
      assert (events + [e])[1..] == events[1..] + [e];
    }
  }
}
