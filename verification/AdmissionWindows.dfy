/**
 What the token bucket means, without tokens: a request is admitted exactly when every window
 that ends with it has room, a window having room for a burst of L and L more a minute.
 */
module AdmissionWindows {
  import opened RateLimiter
  import opened TokenBucket
  import Atomic = AtomicRuns
  import Interleaved = InterleavedLimiter
  import PrivateBuckets

  predicate Sorted(times: seq<nat>) {
    forall i, j | 0 <= i < j < |times| :: times[i] <= times[j]
  }

  /** How many of the answers from the `j`-th on are yes. */
  function Yeses(answers: seq<bool>, j: nat): nat {
    if |answers| <= j then 0
    else Yeses(answers[..|answers| - 1], j) + if answers[|answers| - 1] then 1 else 0
  }

  /** Every window up to `at` has room for this much. */
  ghost predicate Fits(limit: nat, times: seq<nat>, answers: seq<bool>, at: nat, units: nat) {
    && units <= limit * TOKEN
    && forall j | 0 <= j < |times| :: Yeses(answers, j) * TOKEN + units <= limit * TOKEN + limit * (at - times[j])
  }

  lemma YesesExtend(answers: seq<bool>, yes: bool, j: nat)
    ensures Yeses(answers + [yes], j) == if |answers| < j then 0 else Yeses(answers, j) + if yes then 1 else 0
  {
    assert (answers + [yes])[..|answers|] == answers;
    if |answers| == j {
      assert Yeses(answers, j) == 0;
    }
  }

  lemma OneTimeMore(limit: nat, times: seq<nat>, t: nat)
    ensures Atomic.Private(limit, times + [t]) == Spend(Atomic.Private(limit, times), t)
    ensures Atomic.PrivateDecisions(limit, times + [t])
            == Atomic.PrivateDecisions(limit, times) + [Admits(Atomic.Private(limit, times), t)]
  {
    assert (times + [t])[..|times|] == times;
  }

  lemma {:induction false} PrivateShape(limit: nat, times: seq<nat>)
    requires Sorted(times)
    ensures |Atomic.PrivateDecisions(limit, times)| == |times|
    ensures var b := Atomic.Private(limit, times);
            b.limit == b.burst == limit && b.last <= if times == [] then 0 else times[|times| - 1]
  {
    if times != [] {
      PrivateShape(limit, times[..|times| - 1]);
    }
  }

  /** A refused request leaves all windows as they are. */
  lemma FitsAfterNo(limit: nat, times: seq<nat>, answers: seq<bool>, t: nat, at: nat, units: nat)
    requires |answers| == |times| && t <= at
    ensures Fits(limit, times + [t], answers + [false], at, units) <==> Fits(limit, times, answers, at, units)
  {
    var times', answers' := times + [t], answers + [false];
    MulMonotone(0, at - t, limit);
    YesesExtend(answers, false, |times|);
    forall j | 0 <= j < |times| ensures Yeses(answers', j) == Yeses(answers, j) && times'[j] == times[j] {
      YesesExtend(answers, false, j);
    }
    if Fits(limit, times', answers', at, units) {
      forall j | 0 <= j < |times|
        ensures Yeses(answers, j) * TOKEN + units <= limit * TOKEN + limit * (at - times[j])
      {
        assert Yeses(answers', j) * TOKEN + units <= limit * TOKEN + limit * (at - times'[j]);
      }
    }
  }

  lemma Split(limit: nat, at: nat, t: nat, start: nat)
    requires start <= t <= at
    ensures limit * (at - start) == limit * (at - t) + limit * (t - start)
  {
  }

  /** An admitted one takes a token's room from all of them: there is room at `at` if there was more at `t`. */
  lemma FitsAfterYes(limit: nat, times: seq<nat>, answers: seq<bool>, t: nat, at: nat, units: nat, before: nat)
    requires |answers| == |times| && t <= at && forall j | 0 <= j < |times| :: times[j] <= t
    requires units <= limit * TOKEN && before == if units + TOKEN <= limit * (at - t) then 0
                                                 else units + TOKEN - limit * (at - t)
    requires Fits(limit, times, answers, t, 0)
    ensures Fits(limit, times + [t], answers + [true], at, units) <==> Fits(limit, times, answers, t, before)
  {
    var times', answers' := times + [t], answers + [true];
    YesesExtend(answers, true, |times|);
    forall j | 0 <= j < |times|
      ensures Yeses(answers', j) * TOKEN + units <= limit * TOKEN + limit * (at - times'[j])
              <==> Yeses(answers, j) * TOKEN + before <= limit * TOKEN + limit * (t - times[j])
    {
      YesesExtend(answers, true, j);
      Split(limit, at, t, times[j]);
      assert Yeses(answers, j) * TOKEN + 0 <= limit * TOKEN + limit * (t - times[j]);
    }
    assert times'[|times|] == t && Yeses(answers', |times|) == 1;
  }

  /** What must be in the bucket at `t`, where a token is taken, for `units` to be there at `at`. */
  function Before(limit: nat, t: nat, at: nat, units: nat): nat
    requires t <= at
  {
    if units + TOKEN <= limit * (at - t) then 0 else units + TOKEN - limit * (at - t)
  }

  lemma SpentBucketHolds(b: Bucket, t: nat, at: nat, units: nat)
    requires b.limit == b.burst && b.last <= t <= at && Admits(b, t)
    ensures units <= Tokens(Spend(b, t), at)
            <==> units <= b.limit * TOKEN && Before(b.limit, t, at, units) <= Tokens(b, t)
  {
    AdvanceComposes(Spend(b, t), t, at);
  }

  lemma HoldsAfterYes(limit: nat, front: seq<nat>, t: nat, at: nat, units: nat)
    requires Sorted(front) && (forall j | 0 <= j < |front| :: front[j] <= t) && t <= at
    requires Admits(Atomic.Private(limit, front), t)
    ensures var answers := Atomic.PrivateDecisions(limit, front);
            units <= Tokens(Atomic.Private(limit, front + [t]), at)
            <==> units <= limit * TOKEN && Fits(limit, front + [t], answers + [true], at, units)
    decreases |front|, 1
  {
    var b, answers := Atomic.Private(limit, front), Atomic.PrivateDecisions(limit, front);
    PrivateShape(limit, front);
    OneTimeMore(limit, front, t);
    SpentBucketHolds(b, t, at, units);
    if units <= limit * TOKEN {
      HoldsWhatFits(limit, front, t, 0);
      HoldsWhatFits(limit, front, t, Before(limit, t, at, units));
      FitsAfterYes(limit, front, answers, t, at, units, Before(limit, t, at, units));
    }
  }

  lemma HoldsAfterNo(limit: nat, front: seq<nat>, t: nat, at: nat, units: nat)
    requires Sorted(front) && (forall j | 0 <= j < |front| :: front[j] <= t) && t <= at
    requires !Admits(Atomic.Private(limit, front), t)
    ensures var answers := Atomic.PrivateDecisions(limit, front);
            units <= Tokens(Atomic.Private(limit, front + [t]), at)
            <==> Fits(limit, front + [t], answers + [false], at, units)
    decreases |front|, 1
  {
    PrivateShape(limit, front);
    OneTimeMore(limit, front, t);
    HoldsWhatFits(limit, front, at, units);
    FitsAfterNo(limit, front, Atomic.PrivateDecisions(limit, front), t, at, units);
  }

  /** The bucket holds so much exactly if every window has room for so much. */
  lemma {:induction false} HoldsWhatFits(limit: nat, times: seq<nat>, at: nat, units: nat)
    requires Sorted(times) && forall j | 0 <= j < |times| :: times[j] <= at
    ensures units <= Tokens(Atomic.Private(limit, times), at)
            <==> Fits(limit, times, Atomic.PrivateDecisions(limit, times), at, units)
    decreases |times|, 0
  {
    if times == [] {
      MulMonotone(0, at, limit);
    } else {
      var front, t := times[..|times| - 1], times[|times| - 1];
      assert times == front + [t];
      OneTimeMore(limit, front, t);
      if Admits(Atomic.Private(limit, front), t) {
        HoldsAfterYes(limit, front, t, at, units);
      } else {
        HoldsAfterNo(limit, front, t, at, units);
      }
    }
  }

  /** The window from request `j` to request `i` has room for the latter: a burst, and L more a minute. */
  predicate Room(limit: nat, times: seq<nat>, answers: seq<bool>, i: nat, j: nat)
    requires Sorted(times) && j <= i < |times| && i <= |answers|
  {
    (Yeses(answers[..i], j) + 1) * 60_000_000_000 <= limit * 60_000_000_000 + limit * (times[i] - times[j])
  }

  ghost predicate EveryWindowHasRoom(limit: nat, times: seq<nat>, answers: seq<bool>, i: nat)
    requires Sorted(times) && i < |times| && i <= |answers|
  {
    forall j | 0 <= j <= i :: Room(limit, times, answers, i, j)
  }

  lemma {:induction false} PrivatePrefix(limit: nat, times: seq<nat>, i: nat)
    requires Sorted(times) && i < |times|
    ensures |Atomic.PrivateDecisions(limit, times)| == |times|
    ensures Atomic.PrivateDecisions(limit, times)[..i] == Atomic.PrivateDecisions(limit, times[..i])
    ensures Atomic.PrivateDecisions(limit, times)[i] == Admits(Atomic.Private(limit, times[..i]), times[i])
  {
    PrivateShape(limit, times);
    var front := times[..|times| - 1];
    PrivateShape(limit, front);
    if i < |front| {
      PrivatePrefix(limit, front, i);
      assert front[..i] == times[..i];
    }
  }

  lemma RoomIsFit(limit: nat, times: seq<nat>, answers: seq<bool>, i: nat)
    requires Sorted(times) && i < |times| && i <= |answers|
    ensures EveryWindowHasRoom(limit, times, answers, i)
            <==> Fits(limit, times[..i], answers[..i], times[i], TOKEN)
  {
    assert Yeses(answers[..i], i) == 0;
    assert Room(limit, times, answers, i, i) <==> TOKEN <= limit * TOKEN;
    forall j | 0 <= j < i
      ensures Room(limit, times, answers, i, j)
              <==> Yeses(answers[..i], j) * TOKEN + TOKEN <= limit * TOKEN + limit * (times[i] - times[..i][j])
    {
    }
  }

  /** The private bucket admits exactly the requests that every window has room for. */
  lemma PrivateAdmitsExactly(limit: nat, times: seq<nat>, i: nat)
    requires Sorted(times) && i < |times|
    ensures |Atomic.PrivateDecisions(limit, times)| == |times|
    ensures Atomic.PrivateDecisions(limit, times)[i]
            <==> EveryWindowHasRoom(limit, times, Atomic.PrivateDecisions(limit, times), i)
  {
    PrivatePrefix(limit, times, i);
    PrivateShape(limit, times[..i]);
    HoldsWhatFits(limit, times[..i], times[i], TOKEN);
    RoomIsFit(limit, times, Atomic.PrivateDecisions(limit, times), i);
  }

  // ----- the same of the shared table -----

  lemma {:induction false} RequestTimesSorted(run: seq<Atomic.Event>, ip: Ip)
    requires Atomic.Ordered(run)
    ensures Sorted(Atomic.Times(run, ip)) && forall t | t in Atomic.Times(run, ip) :: t <= Atomic.Clock(run)
  {
    if run != [] {
      RequestTimesSorted(run[..|run| - 1], ip);
      var front := Atomic.Times(run[..|run| - 1], ip);
      assert forall i | 0 <= i < |front| :: front[i] in front;
    }
  }

  /**
   The limiter at a fixed limit, without buckets: for requests that run alone, with any other
   clients and any cleanup, an address is admitted exactly when every window of its own
   requests has room, and refused otherwise.
   */
  lemma AdmittedExactlyIfEveryWindowHasRoom(limit: nat, run: seq<Atomic.Event>, ip: Ip, i: nat)
    requires Atomic.Ordered(run) && forall e | e in run && e.Publish? :: e.limit == limit
    requires i < |Atomic.Times(run, ip)|
    ensures var times, answers := Atomic.Times(run, ip), Atomic.Decisions(Atomic.Start(limit), run, ip);
            Sorted(times) && |answers| == |times| && (answers[i] <==> EveryWindowHasRoom(limit, times, answers, i))
  {
    Atomic.SharedTableActsAsPrivateBuckets(limit, run);
    RequestTimesSorted(run, ip);
    PrivateAdmitsExactly(limit, Atomic.Times(run, ip), i);
  }

  lemma {:induction false} CallTimesSorted(limit: nat, run: seq<Interleaved.Step>, gap: nat, ip: Ip)
    requires Interleaved.Run(Interleaved.Start(limit), run, gap)
    ensures Sorted(Interleaved.CallTimes(Interleaved.Start(limit), run, ip))
    ensures forall t | t in Interleaved.CallTimes(Interleaved.Start(limit), run, ip) ::
              t <= Interleaved.After(Interleaved.Start(limit), run).now
  {
    if run != [] {
      CallTimesSorted(limit, run[..|run| - 1], gap, ip);
      var front := Interleaved.CallTimes(Interleaved.Start(limit), run[..|run| - 1], ip);
      assert forall i | 0 <= i < |front| :: front[i] in front;
    }
  }

  /** And for interleaved requests, by the times of Allow, if each is in time. */
  lemma InterleavedAdmittedExactlyIfEveryWindowHasRoom(limit: nat, run: seq<Interleaved.Step>, ip: Ip, gap: nat, i: nat)
    requires Interleaved.Run(Interleaved.Start(limit), run, gap) && gap <= 240_000_000_001
    requires PrivateBuckets.NeverReloaded(run, limit) && i < |Interleaved.CallTimes(Interleaved.Start(limit), run, ip)|
    ensures var times := Interleaved.CallTimes(Interleaved.Start(limit), run, ip);
            var answers := Interleaved.Verdicts(Interleaved.Start(limit), run, ip);
            Sorted(times) && |answers| == |times| && (answers[i] <==> EveryWindowHasRoom(limit, times, answers, i))
  {
    PrivateBuckets.ActsPrivateWithin(limit, run, ip, gap);
    CallTimesSorted(limit, run, gap, ip);
    PrivateAdmitsExactly(limit, Interleaved.CallTimes(Interleaved.Start(limit), run, ip), i);
  }
}
