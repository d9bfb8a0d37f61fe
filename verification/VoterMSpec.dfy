/** The decisions of VoterM on values: what it collects, whom it blames and who
    sends. */
module VoterMSpec {
  import opened VoteBuff

  /** What one replica wrote in a round, by output pipe; nothing is []. */
  type Outputs = seq<seq<byte>>

  predicate Shaped(outs: seq<Outputs>, reps: nat, pipes: nat) {
    |outs| == reps && forall r :: 0 <= r < reps ==> |outs[r]| == pipes
  }

  datatype Verdict = Verdict(fault: bool, index: nat)

  // ----- voting

  /** Which of three values is off when they are not all equal. */
  function OddOne<T(==)>(a: T, b: T, c: T): (i: nat)
    requires a != b || a != c
    ensures i < 3
    ensures (b == c ==> i == 0) && (a == c ==> i == 1) && (a == b ==> i == 2)
  {
    if a != b then if a != c then 0 else 1 else 2
  }

  /** The checks of the first k pipes, one after the other: the last pipe on
      which replicas differ decides. */
  function CheckCounts3(outs: seq<Outputs>, k: nat, before: Verdict): (v: Verdict)
    requires |outs| == 3 && k <= |outs[0]| == |outs[1]| == |outs[2]|
    ensures v == before || (v.fault && v.index < 3)
  {
    if k == 0 then before
    else
      var v := CheckCounts3(outs, k - 1, before);
      var a, b, c := |outs[0][k - 1]|, |outs[1][k - 1]|, |outs[2][k - 1]|;
      if a != b || a != c then Verdict(true, OddOne(a, b, c)) else v
  }

  function CheckContents3(outs: seq<Outputs>, k: nat, before: Verdict): (v: Verdict)
    requires |outs| == 3 && k <= |outs[0]| == |outs[1]| == |outs[2]|
    ensures v == before || (v.fault && v.index < 3)
  {
    if k == 0 then before
    else
      var v := CheckContents3(outs, k - 1, before);
      var a, b, c := outs[0][k - 1], outs[1][k - 1], outs[2][k - 1];
      if a != b || a != c then Verdict(true, OddOne(a, b, c)) else v
  }

  function Check2(outs: seq<Outputs>, k: nat, before: Verdict): (v: Verdict)
    requires |outs| == 2 && k <= |outs[0]| == |outs[1]|
    ensures v == before || (v.fault && v.index < 2)
  {
    if k == 0 then before
    else
      var v := Check2(outs, k - 1, before);
      var a, b := outs[0][k - 1], outs[1][k - 1];
      if |a| < |b| then Verdict(true, 0)
      else if |a| > |b| then Verdict(true, 1)
      else if a != b then Verdict(true, 0)
      else v
  }

  /** `checkSDC`; without a fault the index stays what it was. */
  function CheckSDC(outs: seq<Outputs>, reps: nat, pipes: nat, index: nat): (v: Verdict)
    requires Shaped(outs, reps, pipes)
    ensures if v.fault then v.index < reps else v.index == index
  {
    if reps == 2 then Check2(outs, pipes, Verdict(false, index))
    else if reps == 3 then
      var v := CheckCounts3(outs, pipes, Verdict(false, index));
      if v.fault then v else CheckContents3(outs, pipes, v)
    else Verdict(false, index)
  }

  lemma {:induction false} CountsFault(outs: seq<Outputs>, k: nat, before: Verdict)
    requires |outs| == 3 && k <= |outs[0]| == |outs[1]| == |outs[2]| && !before.fault
    ensures var v := CheckCounts3(outs, k, before);
      && (!v.fault <==> forall p :: 0 <= p < k ==> |outs[0][p]| == |outs[1][p]| == |outs[2][p]|)
      && (!v.fault ==> v == before)
      && (v.fault && outs[1] == outs[2] ==> v.index == 0)
      && (v.fault && outs[0] == outs[2] ==> v.index == 1)
      && (v.fault && outs[0] == outs[1] ==> v.index == 2)
  {
    if k > 0 {
      CountsFault(outs, k - 1, before);
    }
  }

  lemma {:induction false} ContentsFault(outs: seq<Outputs>, k: nat, before: Verdict)
    requires |outs| == 3 && k <= |outs[0]| == |outs[1]| == |outs[2]| && !before.fault
    ensures var v := CheckContents3(outs, k, before);
      && (!v.fault <==> forall p :: 0 <= p < k ==> outs[0][p] == outs[1][p] == outs[2][p])
      && (!v.fault ==> v == before)
      && (v.fault && outs[1] == outs[2] ==> v.index == 0)
      && (v.fault && outs[0] == outs[2] ==> v.index == 1)
      && (v.fault && outs[0] == outs[1] ==> v.index == 2)
  {
    if k > 0 {
      ContentsFault(outs, k - 1, before);
    }
  }

  /** Whom the counts blame: the last pipe on which they differ decides, for the
      first replica if it is not with the second or the third there. */
  lemma {:induction false} CountsBlame(outs: seq<Outputs>, k: nat, before: Verdict) returns (p: nat)
    requires |outs| == 3 && k <= |outs[0]| == |outs[1]| == |outs[2]|
    ensures p <= k
    ensures p < k ==> !(|outs[0][p]| == |outs[1][p]| == |outs[2][p]|)
    ensures forall q :: p <= q < k && (p < k ==> q > p) ==> |outs[0][q]| == |outs[1][q]| == |outs[2][q]|
    ensures CheckCounts3(outs, k, before) ==
      if p == k then before
      else Verdict(true, if |outs[0][p]| == |outs[1][p]| then 2 else if |outs[0][p]| == |outs[2][p]| then 1 else 0)
  {
    if k == 0 {
      p := 0;
    } else if |outs[0][k - 1]| == |outs[1][k - 1]| == |outs[2][k - 1]| {
      p := CountsBlame(outs, k - 1, before);
      p := if p == k - 1 then k else p;
    } else {
      p := k - 1;
    }
  }

  /** Whom the contents blame, in the same way. */
  lemma {:induction false} ContentsBlame(outs: seq<Outputs>, k: nat, before: Verdict) returns (p: nat)
    requires |outs| == 3 && k <= |outs[0]| == |outs[1]| == |outs[2]|
    ensures p <= k
    ensures p < k ==> !(outs[0][p] == outs[1][p] == outs[2][p])
    ensures forall q :: p <= q < k && (p < k ==> q > p) ==> outs[0][q] == outs[1][q] == outs[2][q]
    ensures CheckContents3(outs, k, before) ==
      if p == k then before
      else Verdict(true, if outs[0][p] == outs[1][p] then 2 else if outs[0][p] == outs[2][p] then 1 else 0)
  {
    if k == 0 {
      p := 0;
    } else if outs[0][k - 1] == outs[1][k - 1] == outs[2][k - 1] {
      p := ContentsBlame(outs, k - 1, before);
      p := if p == k - 1 then k else p;
    } else {
      p := k - 1;
    }
  }

  /** The verdict of three is exact: no fault is reported exactly when all three
      agree on everything, and one that differs from two equal ones is named, on
      whatever pipes it differs. */
  lemma VerdictOfThree(outs: seq<Outputs>, pipes: nat, index: nat)
    requires Shaped(outs, 3, pipes)
    ensures var v := CheckSDC(outs, 3, pipes, index);
      && (!v.fault <==> outs[0] == outs[1] == outs[2])
      && (!v.fault ==> v.index == index)
      && forall a, b, c :: {a, b, c} == {0, 1, 2} && outs[b] == outs[c] && outs[a] != outs[b] ==>
          v.fault && v.index == a
  {
    CountsFault(outs, pipes, Verdict(false, index));
    ContentsFault(outs, pipes, Verdict(false, index));
    assert outs[0] == outs[1] == outs[2] <==> forall p :: 0 <= p < pipes ==> outs[0][p] == outs[1][p] == outs[2][p];
    var v := CheckSDC(outs, 3, pipes, index);
    forall a, b, c | {a, b, c} == {0, 1, 2} && outs[b] == outs[c] && outs[a] != outs[b]
      ensures v.fault && v.index == a
    {
      assert a in {0, 1, 2} && b in {0, 1, 2} && c in {0, 1, 2};
    }
  }

  lemma {:induction false} FaultOfTwo(outs: seq<Outputs>, k: nat, before: Verdict)
    requires |outs| == 2 && k <= |outs[0]| == |outs[1]| && !before.fault
    ensures !Check2(outs, k, before).fault <==> forall p :: 0 <= p < k ==> outs[0][p] == outs[1][p]
    ensures !Check2(outs, k, before).fault ==> Check2(outs, k, before) == before
  {
    if k > 0 {
      FaultOfTwo(outs, k - 1, before);
    }
  }

  /** The last pipe, of the first k, on which two replicas differ; k if none. */
  function LastDifference(outs: seq<Outputs>, k: nat): (p: nat)
    requires |outs| == 2 && k <= |outs[0]| == |outs[1]|
    ensures p <= k
    ensures p < k ==> outs[0][p] != outs[1][p] && forall q :: p < q < k ==> outs[0][q] == outs[1][q]
    ensures p == k ==> forall q :: 0 <= q < k ==> outs[0][q] == outs[1][q]
  {
    if k == 0 then 0
    else if outs[0][k - 1] != outs[1][k - 1] then k - 1
    else if LastDifference(outs, k - 1) == k - 1 then k
    else LastDifference(outs, k - 1)
  }

  lemma {:induction false} GuessOfTwo(outs: seq<Outputs>, k: nat, before: Verdict)
    requires |outs| == 2 && k <= |outs[0]| == |outs[1]|
    ensures var p, v := LastDifference(outs, k), Check2(outs, k, before);
            v == if p == k then before else Verdict(true, if |outs[0][p]| > |outs[1][p]| then 1 else 0)
  {
    if k > 0 {
      GuessOfTwo(outs, k - 1, before);
    }
  }

  /** Two replicas: a fault is reported exactly when they differ anywhere, and
      the guess is the first of them, unless it wrote more on the last pipe on
      which they differ. */
  lemma VerdictOfTwo(outs: seq<Outputs>, pipes: nat, index: nat)
    requires Shaped(outs, 2, pipes)
    ensures !CheckSDC(outs, 2, pipes, index).fault <==> outs[0] == outs[1]
    ensures outs[0] != outs[1] ==>
      var p := LastDifference(outs, pipes);
      && p < pipes && CheckSDC(outs, 2, pipes, index).index == if |outs[0][p]| > |outs[1][p]| then 1 else 0
  {
    FaultOfTwo(outs, pipes, Verdict(false, index));
    GuessOfTwo(outs, pipes, Verdict(false, index));
    assert outs[0] == outs[1] <==> forall p :: 0 <= p < pipes ==> outs[0][p] == outs[1][p];
  }

  // ----- blaming a silent replica

  /** The pipes, of the first k, with output. */
  function Score(out: Outputs, k: nat): (n: nat)
    requires k <= |out|
    ensures n <= k
  {
    if k == 0 then 0 else Score(out, k - 1) + if |out[k - 1]| > 0 then 1 else 0
  }

  lemma {:induction false} ScoreCounts(out: Outputs, k: nat)
    requires k <= |out|
    ensures Score(out, k) == |set p | 0 <= p < k && out[p] != []|
  {
    if k > 0 {
      ScoreCounts(out, k - 1);
      var before := set p | 0 <= p < k - 1 && out[p] != [];
      assert (set p | 0 <= p < k && out[p] != []) == before + if out[k - 1] != [] then {k - 1} else {};
    }
  }

  /** `findFaultReplica` after k replicas: whom it blames and the lowest score. */
  function FindFault(outs: seq<Outputs>, pipes: nat, k: nat): (f: (nat, nat))
    requires k <= |outs| && Shaped(outs, |outs|, pipes)
    ensures f.0 < k || f.0 == 0
  {
    if k == 0 then (0, pipes)
    else
      var f := FindFault(outs, pipes, k - 1);
      var score := Score(outs[k - 1], pipes);
      if score < f.1 then (k - 1, score) else f
  }

  function Blamed(outs: seq<Outputs>, pipes: nat): nat
    requires Shaped(outs, |outs|, pipes)
  {
    FindFault(outs, pipes, |outs|).0
  }

  lemma {:induction false} FindFaultIsLowest(outs: seq<Outputs>, pipes: nat, k: nat)
    requires k <= |outs| && Shaped(outs, |outs|, pipes)
    ensures var f := FindFault(outs, pipes, k);
      && (forall r :: 0 <= r < k ==> f.1 <= Score(outs[r], pipes))
      && (f.1 == pipes ==> f.0 == 0)
      && (f.1 != pipes ==> f.0 < k && Score(outs[f.0], pipes) == f.1)
      && (f.1 != pipes ==> forall r :: 0 <= r < f.0 ==> Score(outs[r], pipes) > f.1)
  {
    if k > 0 {
      FindFaultIsLowest(outs, pipes, k - 1);
    }
  }

  /** Among replicas that otherwise agree, one that differs is blamed exactly when
      it wrote on fewer pipes than they did, or is the first and wrote on as many. */
  lemma BlameIsExact(outs: seq<Outputs>, pipes: nat, a: nat, b: nat)
    requires |outs| >= 2 && Shaped(outs, |outs|, pipes) && a < |outs| && b < |outs| && a != b
    requires forall r :: 0 <= r < |outs| && r != a ==> outs[r] == outs[b]
    ensures Blamed(outs, pipes) < |outs|
    ensures Blamed(outs, pipes) == a <==>
      Score(outs[a], pipes) < Score(outs[b], pipes) || (Score(outs[a], pipes) == Score(outs[b], pipes) && a == 0)
  {
    FindFaultIsLowest(outs, pipes, |outs|);
    var f := FindFault(outs, pipes, |outs|);
    assert f.1 <= Score(outs[a], pipes) && f.1 <= Score(outs[b], pipes);
    assert a != 0 ==> outs[0] == outs[b];
  }

  lemma {:induction false} FewerPipes(out: Outputs, whole: Outputs, stop: nat, k: nat)
    requires |out| == |whole| && k <= |out| && stop < |out| && out[stop] == [] && whole[stop] != []
    requires forall p :: 0 <= p < |out| && out[p] != [] ==> whole[p] != []
    ensures Score(out, k) <= Score(whole, k)
    ensures stop < k ==> Score(out, k) < Score(whole, k)
  {
    if k > 0 {
      FewerPipes(out, whole, stop, k - 1);
    }
  }

  /** The replica that restarts replica f, and that sends. */
  function Sender(f: nat, reps: nat): (s: nat)
    requires reps >= 1
    ensures s < reps && (f < reps && reps >= 2 ==> s != f)
    ensures f < reps <= 3 ==> s == if f == 0 then reps - 1 else f - 1
  {
    (f + (reps - 1)) % reps
  }

  // ----- collecting

  datatype Arrival = Arrival(rep: nat, pipe: nat, data: seq<byte>)

  predicate ValidArrival(a: Arrival, reps: nat, pipes: nat) {
    a.rep < reps && a.pipe < pipes && 0 < |a.data| <= MAX_VOTE_PIPE_BUFF
  }

  /** Each read replaces what the buffer of that pipe held. */
  function Applied(outs: seq<Outputs>, arrivals: seq<Arrival>, reps: nat, pipes: nat): (after: seq<Outputs>)
    requires Shaped(outs, reps, pipes) && forall a :: a in arrivals ==> ValidArrival(a, reps, pipes)
    ensures Shaped(after, reps, pipes)
  {
    if arrivals == [] then outs
    else
      var last := arrivals[|arrivals| - 1];
      assert ValidArrival(last, reps, pipes) by { assert last in arrivals; }
      var before := Applied(outs, arrivals[..|arrivals| - 1], reps, pipes);
      before[last.rep := before[last.rep][last.pipe := last.data]]
  }

  /** What replica r wrote last on pipe p; nothing is []. */
  function LastOn(arrivals: seq<Arrival>, r: nat, p: nat): seq<byte> {
    if arrivals == [] then []
    else
      var last := arrivals[|arrivals| - 1];
      if last.rep == r && last.pipe == p then last.data else LastOn(arrivals[..|arrivals| - 1], r, p)
  }

  /** Of several reads on a pipe the last counts, and a pipe that is not read
      keeps what it held. */
  lemma {:induction false} LastReadCounts(outs: seq<Outputs>, arrivals: seq<Arrival>, reps: nat, pipes: nat,
                                          r: nat, p: nat)
    requires Shaped(outs, reps, pipes) && forall a :: a in arrivals ==> ValidArrival(a, reps, pipes)
    requires r < reps && p < pipes
    ensures Applied(outs, arrivals, reps, pipes)[r][p] ==
            if exists a :: a in arrivals && a.rep == r && a.pipe == p then LastOn(arrivals, r, p) else outs[r][p]
    ensures (exists a :: a in arrivals && a.rep == r && a.pipe == p) <==> LastOn(arrivals, r, p) != []
  {
    if arrivals != [] {
      var init, last := arrivals[..|arrivals| - 1], arrivals[|arrivals| - 1];
      assert arrivals == init + [last] && last in arrivals;
      LastReadCounts(outs, init, reps, pipes, r, p);
    }
  }

  /** How many of the arrivals are on the pipe that is waited for. */
  function TimedCount(arrivals: seq<Arrival>, stop: nat): nat {
    if arrivals == [] then 0
    else TimedCount(arrivals[..|arrivals| - 1], stop) + if arrivals[|arrivals| - 1].pipe == stop then 1 else 0
  }

  /** All that the passes of the collecting loop read up to the one in which the
      expected number of replicas is done; all passes when that never happens. */
  function Consumed(passes: seq<seq<Arrival>>, stop: nat, expected: nat, got: seq<Arrival>): (all: seq<Arrival>)
    decreases |passes|
  {
    if TimedCount(got, stop) >= expected || passes == [] then got
    else Consumed(passes[1..], stop, expected, got + passes[0])
  }

  function Flatten(passes: seq<seq<Arrival>>): seq<Arrival> {
    if passes == [] then [] else passes[0] + Flatten(passes[1..])
  }

  ghost predicate ValidPasses(passes: seq<seq<Arrival>>, reps: nat, pipes: nat) {
    forall i, j :: 0 <= i < |passes| && 0 <= j < |passes[i]| ==> ValidArrival(passes[i][j], reps, pipes)
  }

  lemma {:induction false} FlattenValid(passes: seq<seq<Arrival>>, reps: nat, pipes: nat)
    requires ValidPasses(passes, reps, pipes)
    ensures forall a :: a in Flatten(passes) ==> ValidArrival(a, reps, pipes)
  {
    if passes != [] {
      FlattenValid(passes[1..], reps, pipes);
    }
  }

  lemma {:induction false} ConsumedValid(passes: seq<seq<Arrival>>, stop: nat, expected: nat, got: seq<Arrival>,
                                         reps: nat, pipes: nat)
    requires ValidPasses(passes, reps, pipes) && forall a :: a in got ==> ValidArrival(a, reps, pipes)
    ensures forall a :: a in Consumed(passes, stop, expected, got) ==> ValidArrival(a, reps, pipes)
    decreases |passes|
  {
    if !(TimedCount(got, stop) >= expected || passes == []) {
      ConsumedValid(passes[1..], stop, expected, got + passes[0], reps, pipes);
    }
  }

  /** What collecting reads. */
  ghost function Collected(passes: seq<seq<Arrival>>, stop: nat, expected: nat, reps: nat,
                           pipes: nat): (all: seq<Arrival>)
    requires ValidPasses(passes, reps, pipes)
    ensures forall a :: a in all ==> ValidArrival(a, reps, pipes)
  {
    ConsumedValid(passes, stop, expected, [], reps, pipes);
    Consumed(passes, stop, expected, [])
  }

  /** What is written on pipe p when answers are sent one after the other. */
  function Joined(sent: seq<Outputs>, p: nat): seq<byte>
    requires forall i :: 0 <= i < |sent| ==> p < |sent[i]|
  {
    if sent == [] then [] else Joined(sent[..|sent| - 1], p) + sent[|sent| - 1][p]
  }

  /** A replica writes on the pipe that is waited for at most once, and last. */
  ghost predicate TimedLast(arrivals: seq<Arrival>, stop: nat) {
    forall i, j :: 0 <= i < j < |arrivals| && arrivals[i].rep == arrivals[j].rep ==> arrivals[i].pipe != stop
  }

  ghost function TimedReps(arrivals: seq<Arrival>, stop: nat): set<nat> {
    set i | 0 <= i < |arrivals| && arrivals[i].pipe == stop :: arrivals[i].rep
  }

  lemma TimedRepsMore(init: seq<Arrival>, last: Arrival, stop: nat)
    ensures TimedReps(init + [last], stop) == TimedReps(init, stop) + if last.pipe == stop then {last.rep} else {}
  {
    var all := init + [last];
    assert all[|init|] == last;
    forall r ensures r in TimedReps(all, stop) <==> r in TimedReps(init, stop) || (last.pipe == stop && r == last.rep) {
      if r in TimedReps(init, stop) {
        var i :| 0 <= i < |init| && init[i].pipe == stop && init[i].rep == r;
        assert all[i] == init[i];
      }
    }
  }

  lemma TimedLastShorter(init: seq<Arrival>, last: Arrival, stop: nat)
    requires TimedLast(init + [last], stop)
    ensures TimedLast(init, stop) && last.rep !in TimedReps(init, stop)
  {
    var all := init + [last];
    assert forall i :: 0 <= i < |init| ==> all[i] == init[i];
    assert all[|init|] == last;
  }

  lemma {:induction false} TimedRepsCount(arrivals: seq<Arrival>, stop: nat)
    requires TimedLast(arrivals, stop)
    ensures |TimedReps(arrivals, stop)| == TimedCount(arrivals, stop)
  {
    hide TimedLast;
    if arrivals != [] {
      var init, last := arrivals[..|arrivals| - 1], arrivals[|arrivals| - 1];
      assert arrivals == init + [last];
      TimedLastShorter(init, last, stop);
      TimedRepsCount(init, stop);
      TimedRepsMore(init, last, stop);
      hide TimedReps;
    }
  }

  lemma {:induction false} AllReps(s: set<nat>, n: nat)
    requires |s| >= n && forall r :: r in s ==> r < n
    ensures forall r :: 0 <= r < n ==> r in s
  {
    if n > 0 {
      if n - 1 in s {
        AllReps(s - {n - 1}, n - 1);
      } else {
        TooMany(s, n - 1);
      }
    }
  }

  lemma {:induction false} TooMany(s: set<nat>, n: nat)
    requires forall r :: r in s ==> r < n
    ensures |s| <= n
  {
    if n == 0 {
      assert forall r :: r !in s;
      assert s == {};
    } else {
      TooMany(s - {n - 1}, n - 1);
    }
  }

  /** The passes read, and what is left when collecting stops. */
  lemma {:induction false} ConsumedIsPrefix(passes: seq<seq<Arrival>>, stop: nat, expected: nat, got: seq<Arrival>)
    returns (rest: seq<Arrival>)
    ensures got + Flatten(passes) == Consumed(passes, stop, expected, got) + rest
    ensures TimedCount(Consumed(passes, stop, expected, got), stop) < expected ==> rest == []
    decreases |passes|
  {
    if TimedCount(got, stop) >= expected || passes == [] {
      rest := Flatten(passes);
    } else {
      rest := ConsumedIsPrefix(passes[1..], stop, expected, got + passes[0]);
      assert got + passes[0] + Flatten(passes[1..]) == got + Flatten(passes);
    }
  }

  lemma {:induction false} FlattenMore(passes: seq<seq<Arrival>>, k: nat)
    requires k < |passes|
    ensures Flatten(passes[..k + 1]) == Flatten(passes[..k]) + passes[k]
  {
    if k == 0 {
      assert passes[..1] == [passes[0]] && [passes[0]][1..] == [];
      assert Flatten([passes[0]]) == passes[0] + Flatten([]);
    } else {
      FlattenMore(passes[1..], k - 1);
      assert passes[..k + 1][1..] == passes[1..][..k] && passes[..k][1..] == passes[1..][..k - 1];
    }
  }

  /** Collecting stops with the first pass after which enough have answered. */
  lemma {:induction false} ConsumedStops(passes: seq<seq<Arrival>>, stop: nat, expected: nat, j: nat) returns (k: nat)
    requires j <= |passes|
    requires forall i :: 0 <= i < j ==> TimedCount(Flatten(passes[..i]), stop) < expected
    ensures j <= k <= |passes|
    ensures Consumed(passes[j..], stop, expected, Flatten(passes[..j])) == Flatten(passes[..k])
    ensures forall i :: 0 <= i < k ==> TimedCount(Flatten(passes[..i]), stop) < expected
    ensures k < |passes| ==> TimedCount(Flatten(passes[..k]), stop) >= expected
    decreases |passes| - j
  {
    if TimedCount(Flatten(passes[..j]), stop) >= expected || j == |passes| {
      k := j;
    } else {
      FlattenMore(passes, j);
      assert passes[j..][0] == passes[j] && passes[j..][1..] == passes[j + 1..];
      k := ConsumedStops(passes, stop, expected, j + 1);
    }
  }

  lemma RestIsNotTimed(all: seq<Arrival>, got: seq<Arrival>, rest: seq<Arrival>, stop: nat)
    requires all == got + rest && TimedLast(all, stop)
    ensures TimedLast(got, stop)
    ensures forall k :: 0 <= k < |rest| ==> rest[k].rep !in TimedReps(got, stop)
  {
    assert forall i :: 0 <= i < |got| ==> got[i] == all[i];
    forall k, i | 0 <= k < |rest| && 0 <= i < |got| && got[i].pipe == stop ensures got[i].rep != rest[k].rep {
      assert all[i] == got[i] && all[|got| + k] == rest[k];
    }
  }

  lemma TimedRepsAreReps(all: seq<Arrival>, got: seq<Arrival>, rest: seq<Arrival>, stop: nat, reps: nat, pipes: nat)
    requires all == got + rest && forall a :: a in all ==> ValidArrival(a, reps, pipes)
    ensures forall r :: r in TimedReps(got, stop) ==> r < reps
    ensures forall k :: 0 <= k < |rest| ==> rest[k].rep < reps
  {
    forall i | 0 <= i < |all| ensures all[i].rep < reps {
      assert all[i] in all;
    }
    assert forall i :: 0 <= i < |got| ==> got[i] == all[i];
    assert forall k :: 0 <= k < |rest| ==> rest[k] == all[|got| + k];
  }

  /** When no timeout occurs, everything that the replicas write in the round has
      been read when collecting stops. */
  lemma CollectedIsComplete(passes: seq<seq<Arrival>>, stop: nat, reps: nat, pipes: nat)
    requires forall a :: a in Flatten(passes) ==> ValidArrival(a, reps, pipes)
    requires TimedLast(Flatten(passes), stop)
    requires TimedCount(Consumed(passes, stop, reps, []), stop) >= reps
    ensures Consumed(passes, stop, reps, []) == Flatten(passes)
  {
    hide TimedLast, TimedCount, TimedReps, ValidArrival, Flatten, Consumed;
    var all, got := Flatten(passes), Consumed(passes, stop, reps, []);
    var rest := ConsumedIsPrefix(passes, stop, reps, []);
    assert all == got + rest by { assert [] + all == all; }
    RestIsNotTimed(all, got, rest, stop);
    TimedRepsAreReps(all, got, rest, stop, reps, pipes);
    TimedRepsCount(got, stop);
    AllReps(TimedReps(got, stop), reps);
    assert rest == [] || rest[0].rep in TimedReps(got, stop);
  }
}
