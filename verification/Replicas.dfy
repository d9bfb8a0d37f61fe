/** The replicas behind VoterD and their voter-side output pipes, updated in
    place. */
module Replicas {
  import opened VoteBuff
  import opened VoterDSpec

  class Replica {
    var priority: int
    const votPipes: seq<VotePipe>

    constructor (votPipes: seq<VotePipe>, priority: int)
      ensures this.votPipes == votPipes && this.priority == priority
    {
      this.votPipes, this.priority := votPipes, priority;
    }
  }

  ghost predicate Holds(pipe: VotePipe, b: Buff)
    reads pipe, pipe.buffer
  {
    pipe.Valid() && pipe.buffIndex == b.index && pipe.Contents() == b.contents
  }

  /** The replicas with, for the proofs, the values they hold: `buffs` and
      `priorities`. `place` says to which replica and pipe an object belongs, so
      that no two pipes share one. */
  class ReplicaGroup {
    const cfg: Config
    const replicas: seq<Replica>
    ghost const place: map<object, (nat, nat)>
    ghost const footprint: set<object>
    ghost var buffs: seq<seq<Buff>>
    ghost var priorities: seq<int>

    ghost predicate Wired() {
      && ValidConfig(cfg) && |replicas| == cfg.reps
      && this !in footprint
      && (forall r :: 0 <= r < cfg.reps ==>
            && |replicas[r].votPipes| == |cfg.isOut|
            && replicas[r] in footprint && replicas[r] in place && place[replicas[r]] == (r, |cfg.isOut|))
      && forall r, p :: 0 <= r < cfg.reps && 0 <= p < |cfg.isOut| ==> Placed(replicas[r].votPipes[p], r, p)
    }

    ghost predicate Placed(pipe: VotePipe, r: nat, p: nat) {
      && pipe in footprint && pipe.buffer in footprint
      && pipe in place && place[pipe] == (r, p)
      && pipe.buffer in place && place[pipe.buffer] == (r, p)
    }

    ghost predicate AllHold(buffs: seq<seq<Buff>>)
      requires Wired()
      reads footprint
      ensures AllHold(buffs) ==> Shaped(cfg, buffs)
    {
      && Shaped(cfg, buffs)
      && forall r, p :: 0 <= r < cfg.reps && 0 <= p < |cfg.isOut| ==> HoldsAt(r, p, buffs[r][p])
    }

    ghost predicate HoldsAt(r: nat, p: nat, b: Buff)
      requires Wired() && r < cfg.reps && p < |cfg.isOut|
      reads footprint
    {
      assert Placed(replicas[r].votPipes[p], r, p);
      Holds(replicas[r].votPipes[p], b)
    }

    ghost predicate Valid()
      reads this, footprint
    {
      && Wired() && AllHold(buffs)
      && |priorities| == cfg.reps
      && forall r :: 0 <= r < cfg.reps ==> replicas[r].priority == priorities[r]
    }

    // ----- setting up

    static method MakePipes(r: nat, n: nat) returns (pipes: seq<VotePipe>, ghost place: map<object, (nat, nat)>)
      ensures |pipes| == n && fresh(place.Keys)
      ensures forall p :: 0 <= p < n ==> InPlace(pipes[p], place, r, p) && Holds(pipes[p], Buff(0, []))
    {
      pipes, place := [], map[];
      for p := 0 to n
        invariant |pipes| == p && fresh(place.Keys)
        invariant forall q :: 0 <= q < p ==> InPlace(pipes[q], place, r, q) && Holds(pipes[q], Buff(0, []))
      {
        var pipe := new VotePipe();
        pipes, place := pipes + [pipe], place[pipe := (r, p)][pipe.buffer := (r, p)];
      }
    }

    static ghost predicate InPlace(pipe: VotePipe, place: map<object, (nat, nat)>, r: nat, p: nat) {
      && pipe in place && place[pipe] == (r, p)
      && pipe.buffer in place && place[pipe.buffer] == (r, p)
    }

    static ghost predicate Started(cfg: Config, rep: Replica, place: map<object, (nat, nat)>, r: nat)
      reads rep, rep.votPipes, set pipe | pipe in rep.votPipes :: pipe.buffer
    {
      && |rep.votPipes| == |cfg.isOut| && rep in place && place[rep] == (r, |cfg.isOut|)
      && rep.priority == cfg.priority
      && forall p :: 0 <= p < |cfg.isOut| ==>
          InPlace(rep.votPipes[p], place, r, p) && Holds(rep.votPipes[p], Buff(0, []))
    }

    static method MakeReplicas(cfg: Config) returns (replicas: seq<Replica>, ghost place: map<object, (nat, nat)>)
      ensures |replicas| == cfg.reps && fresh(place.Keys)
      ensures forall r :: 0 <= r < cfg.reps ==> Started(cfg, replicas[r], place, r)
    {
      replicas, place := [], map[];
      for r := 0 to cfg.reps
        invariant |replicas| == r && fresh(place.Keys)
        invariant forall i :: 0 <= i < r ==> Started(cfg, replicas[i], place, i)
      {
        var pipes;
        ghost var more;
        pipes, more := MakePipes(r, |cfg.isOut|);
        var rep := new Replica(pipes, cfg.priority);
        ghost var before := place;
        place := place + more[rep := (r, |cfg.isOut|)];
        replicas := replicas + [rep];
      }
    }

    constructor (cfg: Config)
      requires ValidConfig(cfg)
      ensures Valid() && fresh(footprint) && this.cfg == cfg
      ensures buffs == Initial(cfg).buffs && priorities == Initial(cfg).priorities
    {
      var reps;
      ghost var where;
      reps, where := MakeReplicas(cfg);
      this.cfg, replicas, place, footprint := cfg, reps, where, where.Keys;
      buffs, priorities := Initial(cfg).buffs, Initial(cfg).priorities;
      new;
      assert forall r :: 0 <= r < cfg.reps ==> Started(cfg, replicas[r], place, r);
    }

    // ----- reading

    method BuffCount(r: nat, p: nat) returns (n: nat)
      requires Valid() && r < cfg.reps && p < |cfg.isOut|
      ensures n == |buffs[r][p].contents|
    {
      assert HoldsAt(r, p, buffs[r][p]);
      n := replicas[r].votPipes[p].buffCount;
    }

    method BytesReady(p: nat) returns (min: nat)
      requires Valid() && p < |cfg.isOut|
      ensures min == VoterDSpec.BytesReady(buffs, p, cfg.reps)
    {
      hide Placed, HoldsAt;
      min := MAX_VOTE_PIPE_BUFF;
      for r := 0 to |replicas|
        invariant min == VoterDSpec.BytesReady(buffs, p, r)
      {
        var count := BuffCount(r, p);
        if count < min {
          min := count;
        }
      }
    }

    method AheadRep(p: nat) returns (mostAhead: nat)
      requires Valid() && p < |cfg.isOut|
      ensures mostAhead == VoterDSpec.AheadRep(buffs, p, cfg.reps)
    {
      hide Placed, HoldsAt;
      mostAhead := 0;
      for r := 0 to |replicas|
        invariant mostAhead < |replicas|
        invariant (if r == 0 then mostAhead == 0 else mostAhead == VoterDSpec.AheadRep(buffs, p, r))
      {
        var count := BuffCount(r, p);
        var most := BuffCount(mostAhead, p);
        if count > most {
          mostAhead := r;
        }
      }
    }

    method BehindRep(p: nat) returns (mostBehind: nat)
      requires Valid() && p < |cfg.isOut|
      ensures mostBehind == VoterDSpec.BehindRep(buffs, priorities, p, cfg.reps)
    {
      hide Placed, HoldsAt;
      mostBehind := 0;
      for r := 1 to |replicas|
        invariant mostBehind == VoterDSpec.BehindRep(buffs, priorities, p, r)
      {
        var count := BuffCount(r, p);
        var least := BuffCount(mostBehind, p);
        if count < least {
          mostBehind := r;
        } else if count == least {
          if replicas[r].priority > replicas[mostBehind].priority {
            mostBehind := r;
          }
        }
      }
    }

    method RepGap(r: nat) returns (gap: nat)
      requires Valid() && r < cfg.reps
      ensures gap == Gap(cfg, buffs, r)
    {
      hide Placed, HoldsAt;
      gap := 0;
      for p := 0 to |cfg.isOut|
        invariant gap == VoterDSpec.RepGap(cfg, buffs, r, p)
      {
        if cfg.isOut[p] {
          var ahead := AheadRep(p);
          var most := BuffCount(ahead, p);
          var count := BuffCount(r, p);
          gap := gap + most - count;
        }
      }
    }

    method CompareReps(a: nat, b: nat, p: nat, n: nat) returns (r: int)
      requires Valid() && a < cfg.reps && b < cfg.reps && p < |cfg.isOut|
      requires n <= |buffs[a][p].contents| && n <= |buffs[b][p].contents|
      ensures r == 0 <==> Matches(buffs[a][p], buffs[b][p], n)
    {
      assert HoldsAt(a, p, buffs[a][p]) && HoldsAt(b, p, buffs[b][p]);
      r := CompareBuffs(replicas[a].votPipes[p], replicas[b].votPipes[p], n);
    }

    // ----- updating one pipe

    method FakeToPipe(r: nat, p: nat, n: nat)
      requires Valid() && r < cfg.reps && p < |cfg.isOut| && n <= |buffs[r][p].contents|
      modifies this`buffs, footprint
      ensures Valid() && priorities == old(priorities)
      ensures buffs == old(buffs)[r := old(buffs)[r][p := Drop(old(buffs)[r][p], n)]]
    {
      hide Ring;
      assert HoldsAt(r, p, buffs[r][p]);
      replicas[r].votPipes[p].FakeToPipe(n);
      assert HoldsAt(r, p, Drop(old(buffs)[r][p], n));
      buffs := buffs[r := buffs[r][p := Drop(buffs[r][p], n)]];
    }

    method BuffToPipe(r: nat, p: nat, n: nat) returns (written: seq<byte>)
      requires Valid() && r < cfg.reps && p < |cfg.isOut| && n <= |buffs[r][p].contents|
      modifies this`buffs, footprint
      ensures Valid() && priorities == old(priorities) && written == old(buffs)[r][p].contents[..n]
      ensures buffs == old(buffs)[r := old(buffs)[r][p := Drop(old(buffs)[r][p], n)]]
    {
      hide Ring;
      assert HoldsAt(r, p, buffs[r][p]);
      var retval;
      retval, written := replicas[r].votPipes[p].BuffToPipe(n);
      buffs := buffs[r := buffs[r][p := Drop(buffs[r][p], n)]];
    }

    method PipeToBuff(r: nat, p: nat, data: seq<byte>) returns (retval: int)
      requires Valid() && r < cfg.reps && p < |cfg.isOut| && |data| <= MAX_VOTE_PIPE_BUFF
      modifies this`buffs, footprint
      ensures Valid() && priorities == old(priorities)
      ensures retval == 0 <==> Fits(old(buffs)[r][p], data)
      ensures var b := old(buffs)[r][p];
        buffs == if Fits(b, data)
                 then old(buffs)[r := old(buffs)[r][p := b.(contents := b.contents + data)]]
                 else old(buffs)
    {
      hide Ring;
      assert HoldsAt(r, p, buffs[r][p]);
      ghost var b := buffs[r][p];
      ghost var b' := if Fits(b, data) then b.(contents := b.contents + data) else b;
      retval := replicas[r].votPipes[p].PipeToBuff(data);
      assert buffs[r][p := b] == buffs[r] && buffs[r := buffs[r]] == buffs;
      buffs := buffs[r := buffs[r][p := b']];
    }

    method CopyPipe(dest: nat, src: nat, p: nat)
      requires Valid() && dest < cfg.reps && src < cfg.reps && dest != src && p < |cfg.isOut|
      modifies this`buffs, footprint
      ensures Valid() && priorities == old(priorities)
      ensures buffs == old(buffs)[dest := old(buffs)[dest][p := old(buffs)[src][p]]]
    {
      hide Ring;
      assert HoldsAt(src, p, buffs[src][p]) && HoldsAt(dest, p, buffs[dest][p]);
      assert Placed(replicas[dest].votPipes[p], dest, p) && Placed(replicas[src].votPipes[p], src, p);
      replicas[dest].votPipes[p].CopyPipe(replicas[src].votPipes[p]);
      buffs := buffs[dest := buffs[dest][p := buffs[src][p]]];
    }

    method ResetVotePipe(r: nat, p: nat)
      requires Valid() && r < cfg.reps && p < |cfg.isOut|
      modifies this`buffs, footprint
      ensures Valid() && priorities == old(priorities)
      ensures buffs == old(buffs)[r := old(buffs)[r][p := Buff(0, [])]]
    {
      hide Ring;
      assert HoldsAt(r, p, buffs[r][p]);
      replicas[r].votPipes[p].ResetVotePipe();
      buffs := buffs[r := buffs[r][p := Buff(0, [])]];
    }

    // ----- priorities

    method SetPriority(r: nat, priority: int)
      requires Valid() && r < cfg.reps
      modifies this`priorities, footprint
      ensures Valid() && buffs == old(buffs) && priorities == old(priorities)[r := priority]
    {
      replicas[r].priority := priority;
      priorities := priorities[r := priority];
      assert forall i, p :: 0 <= i < cfg.reps && 0 <= p < |cfg.isOut| && old(HoldsAt(i, p, buffs[i][p])) ==>
          HoldsAt(i, p, buffs[i][p]);
    }

    /** The replica that goes first, and the one that goes second in case the
        first is dead. */
    method ChooseReps() returns (starting: nat, second: nat)
      requires Valid() && cfg.reps >= 2
      ensures (starting, second) == Choices(cfg, buffs, cfg.reps)
    {
      hide AllHold, Placed, ValidConfig, VoterDSpec.RepGap, VoterDSpec.AheadRep, Gap;
      starting, second := 0, 1;
      for index := 0 to |replicas|
        invariant (starting, second) == Choices(cfg, buffs, index)
      {
        var gap := RepGap(index);
        var startingGap := RepGap(starting);
        var secondGap := RepGap(second);
        if gap > startingGap {
          starting := index;
        } else if gap > secondGap {
          if index != starting {
            second := index;
          }
        }
      }
    }

    method BalanceReps()
      requires Valid()
      modifies this`priorities, footprint
      ensures Valid() && buffs == old(buffs) && priorities == Balanced(cfg, buffs, old(priorities))
    {
      hide AllHold, Placed, ValidConfig, Choices;
      if |replicas| < 2 {
        return;
      }
      var starting, second := ChooseReps();
      for index := 0 to |replicas|
        invariant Valid() && buffs == old(buffs)
        invariant forall i :: 0 <= i < index ==> priorities[i] == Balanced(cfg, buffs, old(priorities))[i]
      {
        var priority;
        if index == starting {
          priority := cfg.priority + 2;
        } else if index == second {
          priority := cfg.priority + 1;
        } else {
          priority := cfg.priority;
        }
        SetPriority(index, priority);
      }
    }

    /** What `initReplicas` and `createPipes` do to one replica. */
    method InitReplica(r: nat)
      requires Valid() && r < cfg.reps
      modifies this`buffs, this`priorities, footprint
      ensures Valid() && priorities == old(priorities)[r := cfg.priority]
      ensures buffs == old(buffs)[r := seq(|cfg.isOut|, p => Buff(0, []))]
    {
      hide AllHold, Placed, ValidConfig;
      SetPriority(r, cfg.priority);
      ghost var empty := seq(|cfg.isOut|, p => Buff(0, []));
      assert empty[..0] + old(buffs)[r][0..] == old(buffs)[r] && old(buffs)[r := old(buffs)[r]] == old(buffs);
      for p := 0 to |cfg.isOut|
        invariant Valid() && priorities == old(priorities)[r := cfg.priority]
        invariant buffs == old(buffs)[r := empty[..p] + old(buffs)[r][p..]]
      {
        ResetVotePipe(r, p);
        assert (empty[..p] + old(buffs)[r][p..])[p := Buff(0, [])] == empty[..p + 1] + old(buffs)[r][p + 1..];
      }
      assert empty[..|cfg.isOut|] + old(buffs)[r][|cfg.isOut|..] == empty;
    }

    method RestartReplica(restarter: nat, restartee: nat)
      requires Valid() && restarter < cfg.reps && restartee < cfg.reps
      modifies this`buffs, this`priorities, footprint
      ensures Valid()
      ensures buffs == old(buffs)[restartee := seq(|cfg.isOut|, p => Buff(0, []))]
      ensures priorities == Balanced(cfg, buffs,
        seq(cfg.reps, i => if i == restarter && i != restartee then cfg.priority + 2 else cfg.priority))
    {
      hide AllHold, Placed, ValidConfig, Balanced;
      ghost var target :=
        seq(cfg.reps, i => if i == restarter && i != restartee then cfg.priority + 2 else cfg.priority);
      for i := 0 to |replicas|
        invariant Valid() && buffs == old(buffs)
        invariant forall j :: 0 <= j < i && j != restartee ==> priorities[j] == target[j]
      {
        if i != restartee {
          SetPriority(i, if i == restarter then cfg.priority + 2 else cfg.priority);
        }
      }
      InitReplica(restartee);
      assert priorities == target;
      BalanceReps();
    }
  }
}
