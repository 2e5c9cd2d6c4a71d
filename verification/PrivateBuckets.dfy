/**
 At a fixed limit the shared table acts as private buckets even when getLimiter and Allow are
 separate steps: each address gets the verdicts of one bucket that nobody shares, retunes or
 deletes, fed with the times at which its requests called Allow.
 */
module PrivateBuckets {
  import opened InterleavedLimiter
  import opened LimiterWindow
  import opened RateLimiter
  import opened TokenBucket
  import Atomic = AtomicRuns

  /** Every limit in sight is this one, so nothing is ever retuned. */
  ghost predicate Fixed(s: State, limit: nat) {
    && s.published == s.currentLimit == limit
    && (forall ref | ref in s.buckets :: s.buckets[ref].limit == s.buckets[ref].burst == limit)
    && (forall pid | pid in s.workers && s.workers[pid].phase.Snapped? :: s.workers[pid].phase.limit == limit)
    && (forall pid | pid in s.workers && s.workers[pid].phase.Inside? :: s.workers[pid].phase == Inside(limit, {}, {}))
  }

  lemma FixedStep(s: State, step: Step, limit: nat)
    requires Fixed(s, limit) && Enabled(s, step) && (step.Publish? ==> step.limit == limit)
    ensures Fixed(Apply(s, step), limit)
  {
  }

  /** The private bucket has the tokens of the shared one; while there is none it is full. */
  ghost predicate Mirrors(s: State, ip: Ip, b: Bucket, limit: nat, gap: nat) {
    && b.limit == b.burst == limit && b.last <= s.now
    && if ip in s.clients && s.clients[ip].ref in s.buckets then
         Tokens(b, s.now) == Tokens(s.buckets[s.clients[ip].ref], s.now) && b.last <= LastUse(s, ip, gap)
       else Tokens(b, s.now) == limit * TOKEN
  }

  lemma EqualTokensLater(b: Bucket, c: Bucket, now: nat, later: nat)
    requires b.limit == c.limit && b.burst == c.burst && b.last <= now <= later && c.last <= now
    requires Tokens(b, now) == Tokens(c, now)
    ensures Tokens(b, later) == Tokens(c, later)
  {
    AdvanceComposes(b, now, later);
    AdvanceComposes(c, now, later);
  }

  lemma FullLater(b: Bucket, now: nat, later: nat)
    requires b.last <= now <= later && Tokens(b, now) == b.burst * TOKEN
    ensures Tokens(b, later) == b.burst * TOKEN
  {
    AdvanceComposes(b, now, later);
    MulMonotone(0, later - now, b.limit);
  }

  lemma MirrorsLater(s: State, elapsed: nat, ip: Ip, b: Bucket, limit: nat, gap: nat)
    requires Shape(s) && Fixed(s, limit) && Mirrors(s, ip, b, limit, gap)
    ensures Mirrors(s.(now := s.now + elapsed), ip, b, limit, gap)
  {
    if ip in s.clients && s.clients[ip].ref in s.buckets {
      EqualTokensLater(b, s.buckets[s.clients[ip].ref], s.now, s.now + elapsed);
    } else {
      FullLater(b, s.now, s.now + elapsed);
    }
  }

  /** An entry is evicted only after a minute in which its bucket was not used. */
  lemma EvictionFindsItFull(s: State, ip: Ip, b: Bucket, limit: nat, gap: nat)
    requires Shape(s) && Mirrors(s, ip, b, limit, gap) && gap <= SAFE_GAP && Enabled(s, Evict(ip))
    ensures Tokens(b, s.now) == limit * TOKEN
  {
    assert s.clients[ip].ref in Refs(s);
    FullAfterAMinute(b, s.now);
  }

  lemma CallMirrors(s: State, pid: Pid, b: Bucket, limit: nat, gap: nat)
    requires Fixed(s, limit) && HoldersCurrent(s, gap)
    requires Enabled(s, Allow(pid)) && Timely(s, Allow(pid), gap)
    requires Mirrors(s, s.workers[pid].ip, b, limit, gap)
    ensures Admits(s.buckets[s.workers[pid].phase.ref], s.now) == Admits(b, s.now)
    ensures Mirrors(Apply(s, Allow(pid)), s.workers[pid].ip, Spend(b, s.now), limit, gap)
  {
  }

  lemma LeaveMirrors(s: State, pid: Pid, newRef: Ref, ip: Ip, b: Bucket, limit: nat, gap: nat)
    requires Shape(s) && Fixed(s, limit) && Enabled(s, Leave(pid, newRef)) && Mirrors(s, ip, b, limit, gap)
    ensures Mirrors(Apply(s, Leave(pid, newRef)), ip, b, limit, gap)
  {
    if ip in s.clients {
      assert s.clients[ip].ref in Refs(s);
    }
  }

  /** No other step touches the bucket of `ip`. */
  lemma OtherStepsMirror(s: State, step: Step, ip: Ip, b: Bucket, limit: nat, gap: nat)
    requires Shape(s) && Fixed(s, limit) && HoldersCurrent(s, gap)
    requires Enabled(s, step) && Timely(s, step, gap) && Mirrors(s, ip, b, limit, gap)
    requires !step.Tick? && !step.Leave? && step != Evict(ip) && !Calls(s, step, ip)
    ensures Mirrors(Apply(s, step), ip, b, limit, gap)
  {
    var s' := Apply(s, step);
    if ip in s.clients {
      assert s.clients[ip].ref in Refs(s);
      assert s'.clients[ip] == s.clients[ip] && s'.buckets[s.clients[ip].ref] == s.buckets[s.clients[ip].ref];
    }
  }

  lemma MirrorsStep(s: State, step: Step, ip: Ip, b: Bucket, limit: nat, gap: nat)
    requires Shape(s) && Fixed(s, limit) && HoldersCurrent(s, gap) && gap <= SAFE_GAP
    requires Enabled(s, step) && Timely(s, step, gap) && (step.Publish? ==> step.limit == limit)
    requires Mirrors(s, ip, b, limit, gap)
    ensures if Calls(s, step, ip)
            then Admits(s.buckets[s.workers[step.pid].phase.ref], s.now) == Admits(b, s.now)
                 && Mirrors(Apply(s, step), ip, Spend(b, s.now), limit, gap)
            else Mirrors(Apply(s, step), ip, b, limit, gap)
  {
    if step.Tick? {
      MirrorsLater(s, step.elapsed, ip, b, limit, gap);
    } else if step == Evict(ip) {
      EvictionFindsItFull(s, ip, b, limit, gap);
    } else if Calls(s, step, ip) {
      CallMirrors(s, step.pid, b, limit, gap);
    } else if step.Leave? {
      LeaveMirrors(s, step.pid, step.newRef, ip, b, limit, gap);
    } else {
      OtherStepsMirror(s, step, ip, b, limit, gap);
    }
  }

  /** Only this limit is ever published. */
  ghost predicate NeverReloaded(run: seq<Step>, limit: nat) {
    forall step | step in run && step.Publish? :: step.limit == limit
  }

  lemma {:induction false} FixedAlways(limit: nat, run: seq<Step>, gap: nat)
    requires Run(Start(limit), run, gap) && NeverReloaded(run, limit)
    ensures Fixed(After(Start(limit), run), limit)
  {
    if run != [] {
      var front, step := run[..|run| - 1], run[|run| - 1];
      assert step in run;
      FixedAlways(limit, front, gap);
      FixedStep(After(Start(limit), front), step, limit);
    }
  }

  /** So far `ip` called at these times and was told what a private bucket would have said. */
  ghost predicate Agree(s: State, ip: Ip, times: seq<nat>, verdicts: seq<bool>, limit: nat, gap: nat) {
    Mirrors(s, ip, Atomic.Private(limit, times), limit, gap) && verdicts == Atomic.PrivateDecisions(limit, times)
  }

  lemma AgreeStep(s: State, step: Step, ip: Ip, times: seq<nat>, verdicts: seq<bool>, limit: nat, gap: nat)
    requires Shape(s) && Fixed(s, limit) && HoldersCurrent(s, gap) && gap <= SAFE_GAP
    requires Enabled(s, step) && Timely(s, step, gap) && (step.Publish? ==> step.limit == limit)
    requires Agree(s, ip, times, verdicts, limit, gap)
    ensures if Calls(s, step, ip)
            then Agree(Apply(s, step), ip, times + [s.now],
                       verdicts + [Admits(s.buckets[s.workers[step.pid].phase.ref], s.now)], limit, gap)
            else Agree(Apply(s, step), ip, times, verdicts, limit, gap)
  {
    MirrorsStep(s, step, ip, Atomic.Private(limit, times), limit, gap);
    assert (times + [s.now])[..|times|] == times;
  }

  lemma {:induction false} AgreeAlways(limit: nat, run: seq<Step>, ip: Ip, gap: nat)
    requires Run(Start(limit), run, gap) && NeverReloaded(run, limit) && gap <= SAFE_GAP
    ensures Agree(After(Start(limit), run), ip, CallTimes(Start(limit), run, ip), Verdicts(Start(limit), run, ip),
                  limit, gap)
  {
    if run != [] {
      var front, step := run[..|run| - 1], run[|run| - 1];
      assert step in run;
      AgreeAlways(limit, front, ip, gap);
      FixedAlways(limit, front, gap);
      HoldersCurrentAlways(limit, front, gap);
      var s, times, verdicts :=
        After(Start(limit), front), CallTimes(Start(limit), front, ip), Verdicts(Start(limit), front, ip);
      AgreeStep(s, step, ip, times, verdicts, limit, gap);
      assert times + [] == times && verdicts + [] == verdicts;
    }
  }

  ghost predicate ActsPrivate(limit: nat, run: seq<Step>, ip: Ip, gap: nat) {
    Run(Start(limit), run, gap) && NeverReloaded(run, limit) ==>
      Verdicts(Start(limit), run, ip) == Atomic.PrivateDecisions(limit, CallTimes(Start(limit), run, ip))
  }

  lemma ActsPrivateWithin(limit: nat, run: seq<Step>, ip: Ip, gap: nat)
    requires gap <= SAFE_GAP
    ensures ActsPrivate(limit, run, ip, gap)
  {
    if Run(Start(limit), run, gap) && NeverReloaded(run, limit) {
      AgreeAlways(limit, run, ip, gap);
    }
  }

  /** A private bucket would have refused the second of two requests less than a minute apart. */
  lemma PrivateRefuses()
    ensures Atomic.PrivateDecisions(1, [LATE, EVICTED]) == [true, false]
  {
    assert [LATE][..0] == [] && [LATE, EVICTED][..1] == [LATE];
    assert Atomic.Private(1, []) == NewBucket(1, 1);
    assert Atomic.Private(1, [LATE]) == Bucket(1, 1, 0, LATE);
    assert Atomic.PrivateDecisions(1, [LATE]) == [true];
  }

  /**
   Refinement at a fixed limit, with requests interleaved step by step: it holds for every
   run exactly when Allow may lag behind getLimiter by at most four minutes and a nanosecond.
   */
  lemma ActsPrivateExactlyUpToSafeGap(gap: nat)
    ensures (forall limit, run, ip :: ActsPrivate(limit, run, ip, gap)) <==> gap <= 240_000_000_001
  {
    if gap <= SAFE_GAP {
      forall limit, run, ip ensures ActsPrivate(limit, run, ip, gap) {
        ActsPrivateWithin(limit, run, ip, gap);
      }
    } else {
      var run, s := SpendTwice(gap);
      PrivateRefuses();
      assert [true, true][1] != [true, false][1];
      assert !ActsPrivate(1, run, "a", gap);
    }
  }
}
