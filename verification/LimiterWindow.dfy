/**
 The window bound: however requests, reloads and evictions interleave, one address is
 admitted at most M + M * (to - from) / minute times in any interval [from, to], M bounding
 the limits ever published. Eviction hands out fresh full buckets, so the bound rests on how
 long ago the evicted bucket can last have been used.
 */
module LimiterWindow {
  import opened TokenBucket
  import opened RateLimiter
  import opened InterleavedLimiter

  /** The longest gap between getLimiter and Allow for which the bound holds. */
  const SAFE_GAP: nat := IDLE_LIMIT - NANOS_PER_MINUTE + 1

  /** The requests of `ip` admitted within [from, to]. */
  function Admitted(s: State, ip: Ip, from: nat, to: nat): set<Pid> {
    set pid | pid in s.workers && s.workers[pid].ip == ip && s.workers[pid].phase.Decided?
              && s.workers[pid].phase.admitted && from <= s.workers[pid].phase.at <= to
  }

  ghost predicate Bounded(s: State, most: nat) {
    && s.published <= most && s.currentLimit <= most
    && (forall ref | ref in s.buckets :: s.buckets[ref].limit <= most && s.buckets[ref].burst <= most)
    && (forall pid | pid in s.workers && s.workers[pid].phase.Snapped? :: s.workers[pid].phase.limit <= most)
    && (forall pid | pid in s.workers && s.workers[pid].phase.Inside? :: s.workers[pid].phase.limit <= most)
  }

  lemma BoundedStep(s: State, step: Step, most: nat)
    requires Bounded(s, most) && Enabled(s, step)
    requires step.Publish? ==> step.limit <= most
    ensures Bounded(Apply(s, step), most)
  {
  }

  /**
   A request in flight holds the bucket its address has in the table, handed out no later
   than the entry was last seen - or that bucket was evicted and the request is out of time.
   */
  ghost predicate HoldersCurrent(s: State, gap: nat) {
    forall pid | pid in s.workers && s.workers[pid].phase.Holding? ::
      var w := s.workers[pid];
      if w.ip in s.clients && s.clients[w.ip].ref == w.phase.ref
      then w.phase.since <= s.clients[w.ip].lastSeen
      else w.phase.since + gap < s.now
  }

  lemma HoldersCurrentStep(s: State, step: Step, gap: nat)
    requires Shape(s) && HoldersCurrent(s, gap) && gap <= IDLE_LIMIT
    requires Enabled(s, step) && Timely(s, step, gap)
    ensures HoldersCurrent(Apply(s, step), gap)
  {
  }

  lemma {:induction false} HoldersCurrentAlways(limit: nat, run: seq<Step>, gap: nat)
    requires Run(Start(limit), run, gap) && gap <= IDLE_LIMIT
    ensures Shape(After(Start(limit), run)) && HoldersCurrent(After(Start(limit), run), gap)
  {
    if run != [] {
      var front, step := run[..|run| - 1], run[|run| - 1];
      HoldersCurrentAlways(limit, front, gap);
      ShapeStep(After(Start(limit), front), step);
      HoldersCurrentStep(After(Start(limit), front), step, gap);
    }
  }

  // ----- the invariant of one window -----

  /** The allowance of a window open since `from`: a full bucket and its refill. */
  function Allowance(most: nat, from: nat, to: nat): nat
    requires from <= to
  {
    most * TOKEN + most * (to - from)
  }

  lemma AllowanceGrows(most: nat, from: nat, t: nat, u: nat)
    requires from <= t <= u
    ensures Allowance(most, from, u) == Allowance(most, from, t) + most * (u - t)
    ensures most * (u - from) == most * (t - from) + most * (u - t)
    ensures most * TOKEN <= Allowance(most, from, t) <= Allowance(most, from, u)
  {
    MulMonotone(0, u - t, most);
    MulMonotone(0, t - from, most);
  }

  /** `count` admissions and `inHand` tokens fit the allowance, `count` alone fitted it at the last use. */
  ghost predicate WithinAllowance(count: nat, inHand: nat, lastUse: nat, now: nat, from: nat, most: nat)
    requires from <= now
  {
    && count * TOKEN + inHand <= Allowance(most, from, now)
    && (count > 0 ==> from <= lastUse && count * TOKEN <= Allowance(most, from, lastUse))
  }

  /** What `ip` could spend at once. */
  function InHand(s: State, ip: Ip): nat {
    if ip in s.clients && s.clients[ip].ref in s.buckets
    then Tokens(s.buckets[s.clients[ip].ref], s.now) else 0
  }

  /** The latest moment at which the bucket of `ip` can have been used. */
  function LastUse(s: State, ip: Ip, gap: nat): nat
    requires ip in s.clients
  {
    Min(s.now, s.clients[ip].lastSeen + gap)
  }

  /** While a window is open. An address without a bucket has let a whole refill pass. */
  ghost predicate Open(s: State, ip: Ip, count: nat, from: nat, most: nat, gap: nat)
    requires from <= s.now
  {
    if ip in s.clients
    then WithinAllowance(count, InHand(s, ip), LastUse(s, ip, gap), s.now, from, most)
    else count * TOKEN <= most * (s.now - from)
  }

  ghost predicate Window(s: State, ip: Ip, from: nat, to: nat, most: nat, gap: nat)
    requires from <= to
  {
    var count := |Admitted(s, ip, from, to)|;
    if s.now < from then count == 0
    else if s.now <= to then Open(s, ip, count, from, most, gap)
    else count * TOKEN <= Allowance(most, from, to)
  }

  /** Opening a window: whatever happened before, nobody holds more than a full bucket. */
  lemma WindowOpens(s: State, ip: Ip, from: nat, most: nat, gap: nat)
    requires Bounded(s, most) && from <= s.now
    ensures Open(s, ip, 0, from, most, gap)
  {
    AllowanceGrows(most, from, from, s.now);
    if ip in s.clients && s.clients[ip].ref in s.buckets {
      MulMonotone(s.buckets[s.clients[ip].ref].burst, most, TOKEN);
    }
  }

  lemma AllowanceLater(count: nat, inHand: nat, lastUse: nat, now: nat, from: nat, most: nat,
                       inHand': nat, lastUse': nat, now': nat)
    requires from <= now && WithinAllowance(count, inHand, lastUse, now, from, most)
    requires now <= now' && lastUse <= lastUse' && inHand' <= inHand + most * (now' - now)
    ensures WithinAllowance(count, inHand', lastUse', now', from, most)
  {
    AllowanceGrows(most, from, now, now');
    if count > 0 {
      AllowanceGrows(most, from, lastUse, lastUse');
    }
  }

  lemma TickKeepsOpen(s: State, elapsed: nat, ip: Ip, count: nat, from: nat, most: nat, gap: nat)
    requires Shape(s) && Bounded(s, most) && from <= s.now && Open(s, ip, count, from, most, gap)
    ensures Open(s.(now := s.now + elapsed), ip, count, from, most, gap)
  {
    var s' := s.(now := s.now + elapsed);
    if ip in s.clients {
      assert s.clients[ip].ref in Refs(s);
      var b := s.buckets[s.clients[ip].ref];
      AdvanceComposes(b, s.now, s'.now);
      MulMonotone(b.limit, most, elapsed);
      AllowanceLater(count, InHand(s, ip), LastUse(s, ip, gap), s.now, from, most,
                     InHand(s', ip), LastUse(s', ip, gap), s'.now);
    } else {
      AllowanceGrows(most, from, s.now, s'.now);
    }
  }

  /** The eviction rule pays for the fresh bucket: the last use is at least a minute old. */
  lemma EvictionKeepsOpen(s: State, ip: Ip, count: nat, from: nat, most: nat, gap: nat)
    requires from <= s.now && gap <= SAFE_GAP && Enabled(s, Evict(ip))
    requires Open(s, ip, count, from, most, gap)
    ensures Open(Apply(s, Evict(ip)), ip, count, from, most, gap)
  {
    if count > 0 {
      RefillPays(count, s.clients[ip].lastSeen + gap, s.now, from, most);
    }
  }

  lemma RefillPays(count: nat, lastUse: nat, now: nat, from: nat, most: nat)
    requires from <= lastUse && lastUse + TOKEN <= now && count * TOKEN <= Allowance(most, from, lastUse)
    ensures count * TOKEN <= most * (now - from)
  {
    AllowanceGrows(most, from, lastUse, now);
    MulMonotone(TOKEN, now - lastUse, most);
  }

  /** Leaving getLimiter hands out a fresh bucket or refreshes `lastSeen`. */
  lemma LeaveKeepsOpen(s: State, pid: Pid, newRef: Ref, ip: Ip, count: nat, from: nat, most: nat, gap: nat)
    requires Shape(s) && Bounded(s, most) && from <= s.now && Enabled(s, Leave(pid, newRef))
    requires Open(s, ip, count, from, most, gap)
    ensures Open(Apply(s, Leave(pid, newRef)), ip, count, from, most, gap)
  {
    var s' := Apply(s, Leave(pid, newRef));
    if ip in s.clients {
      assert s.clients[ip].ref in Refs(s);
      assert InHand(s', ip) == InHand(s, ip);
      if count > 0 {
        AllowanceGrows(most, from, LastUse(s, ip, gap), LastUse(s', ip, gap));
      }
    } else if s.workers[pid].ip == ip {
      FreshBucketFits(s.workers[pid].phase.limit, count, s.now, from, most);
      assert InHand(s', ip) == s.workers[pid].phase.limit * TOKEN;
    }
  }

  lemma FreshBucketFits(limit: nat, count: nat, now: nat, from: nat, most: nat)
    requires limit <= most && from <= now && count * TOKEN <= most * (now - from)
    ensures WithinAllowance(count, limit * TOKEN, now, now, from, most)
  {
  }

  /** No step but the passing of time adds tokens to a bucket that stays in the table. */
  lemma OtherStepsKeepOpen(s: State, step: Step, ip: Ip, count: nat, from: nat, most: nat, gap: nat)
    requires from <= s.now && Enabled(s, step) && Open(s, ip, count, from, most, gap)
    requires !step.Tick? && !step.Leave? && step != Evict(ip)
    ensures Open(Apply(s, step), ip, count, from, most, gap)
  {
    var s' := Apply(s, step);
    if ip in s.clients {
      assert InHand(s', ip) <= InHand(s, ip);
    }
  }

  /** An admission takes a token from the bucket in the table. */
  lemma AllowKeepsOpen(s: State, pid: Pid, ip: Ip, count: nat, from: nat, most: nat, gap: nat)
    requires HoldersCurrent(s, gap) && from <= s.now
    requires Enabled(s, Allow(pid)) && Timely(s, Allow(pid), gap) && s.workers[pid].ip == ip
    requires Admits(s.buckets[s.workers[pid].phase.ref], s.now)
    requires Open(s, ip, count, from, most, gap)
    ensures Open(Apply(s, Allow(pid)), ip, count + 1, from, most, gap)
  {
    assert ip in s.clients && s.clients[ip].ref == s.workers[pid].phase.ref;
    assert InHand(Apply(s, Allow(pid)), ip) == InHand(s, ip) - TOKEN;
  }

  predicate Counts(s: State, step: Step, ip: Ip, from: nat, to: nat)
    requires Enabled(s, step)
  {
    step.Allow? && s.workers[step.pid].ip == ip && from <= s.now <= to
    && Admits(s.buckets[s.workers[step.pid].phase.ref], s.now)
  }

  lemma AdmittedGains(s: State, step: Step, ip: Ip, from: nat, to: nat, pid: Pid)
    requires Enabled(s, step)
    ensures pid in Admitted(Apply(s, step), ip, from, to)
            <==> pid in Admitted(s, ip, from, to) || (Counts(s, step, ip, from, to) && pid == step.pid)
    ensures Counts(s, step, ip, from, to) ==> step.pid !in Admitted(s, ip, from, to)
  {
    if step.Allow? && pid == step.pid {
      assert Apply(s, step).workers[pid].phase == Decided(Admits(s.buckets[s.workers[pid].phase.ref], s.now), s.now);
    }
  }

  lemma AdmittedStep(s: State, step: Step, ip: Ip, from: nat, to: nat)
    requires Enabled(s, step)
    ensures |Admitted(Apply(s, step), ip, from, to)|
            == |Admitted(s, ip, from, to)| + if Counts(s, step, ip, from, to) then 1 else 0
  {
    var before, after := Admitted(s, ip, from, to), Admitted(Apply(s, step), ip, from, to);
    forall pid
      ensures pid in after <==> pid in before || (Counts(s, step, ip, from, to) && pid == step.pid)
      ensures Counts(s, step, ip, from, to) ==> step.pid !in before
    {
      AdmittedGains(s, step, ip, from, to, pid);
    }
    if Counts(s, step, ip, from, to) {
      assert after == before + {step.pid};
    } else {
      assert after == before;
    }
  }

  lemma OpenStep(s: State, step: Step, ip: Ip, count: nat, from: nat, most: nat, gap: nat)
    requires Shape(s) && Bounded(s, most) && HoldersCurrent(s, gap) && gap <= SAFE_GAP
    requires Enabled(s, step) && Timely(s, step, gap) && !step.Tick?
    requires from <= s.now && Open(s, ip, count, from, most, gap)
    ensures Open(Apply(s, step), ip, if Counts(s, step, ip, from, s.now) then count + 1 else count, from, most, gap)
  {
    if Counts(s, step, ip, from, s.now) {
      AllowKeepsOpen(s, step.pid, ip, count, from, most, gap);
    } else if step.Leave? {
      LeaveKeepsOpen(s, step.pid, step.newRef, ip, count, from, most, gap);
    } else if step == Evict(ip) {
      EvictionKeepsOpen(s, ip, count, from, most, gap);
    } else {
      OtherStepsKeepOpen(s, step, ip, count, from, most, gap);
    }
  }

  lemma WindowTick(s: State, elapsed: nat, ip: Ip, from: nat, to: nat, most: nat, gap: nat)
    requires Shape(s) && Bounded(s, most) && from <= to && Window(s, ip, from, to, most, gap)
    ensures Window(Apply(s, Tick(elapsed)), ip, from, to, most, gap)
  {
    var s' := Apply(s, Tick(elapsed));
    AdmittedStep(s, Tick(elapsed), ip, from, to);
    var count := |Admitted(s, ip, from, to)|;
    if s.now < from {
      if from <= s'.now {
        WindowOpens(s', ip, from, most, gap);
      }
    } else if s.now <= to {
      OpenWithinAllowance(s, ip, count, from, most, gap);
      AllowanceGrows(most, from, s.now, to);
      TickKeepsOpen(s, elapsed, ip, count, from, most, gap);
    }
  }

  lemma OpenWithinAllowance(s: State, ip: Ip, count: nat, from: nat, most: nat, gap: nat)
    requires from <= s.now && Open(s, ip, count, from, most, gap)
    ensures count * TOKEN <= Allowance(most, from, s.now)
  {
  }

  lemma WindowStep(s: State, step: Step, ip: Ip, from: nat, to: nat, most: nat, gap: nat)
    requires Shape(s) && Bounded(s, most) && HoldersCurrent(s, gap) && from <= to && gap <= SAFE_GAP
    requires Enabled(s, step) && Timely(s, step, gap) && Window(s, ip, from, to, most, gap)
    ensures Window(Apply(s, step), ip, from, to, most, gap)
  {
    if step.Tick? {
      WindowTick(s, step.elapsed, ip, from, to, most, gap);
    } else {
      AdmittedStep(s, step, ip, from, to);
      if from <= s.now <= to {
        OpenStep(s, step, ip, |Admitted(s, ip, from, to)|, from, most, gap);
      }
    }
  }

  lemma {:induction false} WindowAlways(limit: nat, run: seq<Step>, ip: Ip, from: nat, to: nat, most: nat, gap: nat)
    requires Run(Start(limit), run, gap) && limit <= most && from <= to && gap <= SAFE_GAP
    requires AtMost(run, most)
    ensures var s := After(Start(limit), run);
            Shape(s) && Bounded(s, most) && HoldersCurrent(s, gap) && Window(s, ip, from, to, most, gap)
  {
    if run != [] {
      var front, step := run[..|run| - 1], run[|run| - 1];
      WindowAlways(limit, front, ip, from, to, most, gap);
      var s := After(Start(limit), front);
      ShapeStep(s, step);
      BoundedStep(s, step, most);
      HoldersCurrentStep(s, step, gap);
      WindowStep(s, step, ip, from, to, most, gap);
    } else {
      assert Admitted(Start(limit), ip, from, to) == {};
    }
  }

  /**
   The window bound, multiplied through by a minute: at most a burst of M requests, and M
   more for every minute of the interval.
   */
  lemma WindowBound(limit: nat, run: seq<Step>, ip: Ip, from: nat, to: nat, most: nat, gap: nat)
    requires Run(Start(limit), run, gap) && limit <= most && from <= to && gap <= 240_000_000_001
    requires AtMost(run, most)
    ensures |Admitted(After(Start(limit), run), ip, from, to)| * 60_000_000_000
            <= most * 60_000_000_000 + most * (to - from)
  {
    WindowAlways(limit, run, ip, from, to, most, gap);
    var s := After(Start(limit), run);
    if from <= s.now <= to {
      OpenWithinAllowance(s, ip, |Admitted(s, ip, from, to)|, from, most, gap);
      AllowanceGrows(most, from, s.now, to);
    }
  }

  /**
   An evicted bucket is never used again: every Allow that is timely takes its token from the
   bucket its address has in the table at that moment.
   */
  lemma EvictedBucketsAreNotUsed(limit: nat, run: seq<Step>, pid: Pid, gap: nat)
    requires Run(Start(limit), run, gap) && gap <= 300_000_000_000
    requires Enabled(After(Start(limit), run), Allow(pid)) && Timely(After(Start(limit), run), Allow(pid), gap)
    ensures var s := After(Start(limit), run);
            var w := s.workers[pid];
            w.ip in s.clients && s.clients[w.ip].ref == w.phase.ref
  {
    HoldersCurrentAlways(limit, run, gap);
  }

  // ----- the gap is exact -----

  ghost predicate BoundHolds(limit: nat, run: seq<Step>, ip: Ip, from: nat, to: nat, most: nat, gap: nat) {
    Run(Start(limit), run, gap) && limit <= most && from <= to
    && AtMost(run, most) ==>
      |Admitted(After(Start(limit), run), ip, from, to)| * 60_000_000_000
      <= most * 60_000_000_000 + most * (to - from)
  }

  /** A run at a limit of one request a minute, and what "a" was told in it. */
  ghost predicate Witnessed(run: seq<Step>, gap: nat, s: State, times: seq<nat>, verdicts: seq<bool>) {
    && Reaches(Start(1), run, gap, s) && Calm(run)
    && CallTimes(Start(1), run, "a") == times && Verdicts(Start(1), run, "a") == verdicts
  }

  lemma QuietStep(run: seq<Step>, gap: nat, s: State, times: seq<nat>, verdicts: seq<bool>, step: Step)
    returns (run': seq<Step>)
    requires Witnessed(run, gap, s, times, verdicts) && Enabled(s, step) && !step.Allow? && !step.Publish?
    ensures Witnessed(run', gap, Apply(s, step), times, verdicts)
  {
    run' := Extend(Start(1), run, gap, s, step);
    assert run'[..|run|] == run;
  }

  lemma AllowStep(run: seq<Step>, gap: nat, s: State, times: seq<nat>, verdicts: seq<bool>, pid: Pid)
    returns (run': seq<Step>)
    requires Witnessed(run, gap, s, times, verdicts)
    requires Enabled(s, Allow(pid)) && Timely(s, Allow(pid), gap) && s.workers[pid].ip == "a"
    ensures Witnessed(run', gap, Apply(s, Allow(pid)), times + [s.now],
                  verdicts + [Admits(s.buckets[s.workers[pid].phase.ref], s.now)])
  {
    run' := Extend(Start(1), run, gap, s, Allow(pid));
    assert run'[..|run|] == run;
  }

  /** A new address passes through getLimiter alone and is handed a fresh bucket. */
  lemma Arrive(run: seq<Step>, gap: nat, s: State, times: seq<nat>, verdicts: seq<bool>, pid: Pid, newRef: Ref)
    returns (run': seq<Step>)
    requires Witnessed(run, gap, s, times, verdicts)
    requires s.mutex.Free? && s.currentLimit == s.published && s.clients == map[]
    requires pid !in s.workers && newRef !in s.buckets
    ensures Witnessed(run', gap, s.(clients := map["a" := Entry(newRef, s.now)],
                                buckets := s.buckets[newRef := NewBucket(s.published, s.published)],
                                workers := s.workers[pid := Worker("a", Holding(newRef, s.now))]),
                  times, verdicts)
  {
    var s1 := Apply(s, Snapshot(pid, "a"));
    run' := QuietStep(run, gap, s, times, verdicts, Snapshot(pid, "a"));
    var s2 := Apply(s1, Enter(pid));
    run' := QuietStep(run', gap, s1, times, verdicts, Enter(pid));
    run' := QuietStep(run', gap, s2, times, verdicts, Leave(pid, newRef));
  }

  const LATE: nat := SAFE_GAP + 1
  const EVICTED: nat := IDLE_LIMIT + 1

  /** The first request has spent its token at LATE, and its bucket has just been evicted. */
  function SpentAndEvicted(): State {
    State(EVICTED, 1, 1, map[], map[0 := Bucket(1, 1, 0, LATE)], map[0 := Worker("a", Decided(true, LATE))], Free)
  }

  lemma SpendAndEvict(gap: nat) returns (run: seq<Step>)
    requires gap >= LATE
    ensures Witnessed(run, gap, SpentAndEvicted(), [LATE], [true])
  {
    run := Arrive([], gap, Start(1), [], [], 0, 0);
    var s1 := State(0, 1, 1, map["a" := Entry(0, 0)], map[0 := NewBucket(1, 1)],
                    map[0 := Worker("a", Holding(0, 0))], Free);
    run := QuietStep(run, gap, s1, [], [], Tick(LATE));
    run := SpendLate(run, gap, s1.(now := LATE));
    var s3 := s1.(now := LATE, buckets := map[0 := Bucket(1, 1, 0, LATE)],
                  workers := map[0 := Worker("a", Decided(true, LATE))]);
    run := QuietStep(run, gap, s3, [LATE], [true], Tick(EVICTED - LATE));
    var s4 := s3.(now := EVICTED);
    run := QuietStep(run, gap, s4, [LATE], [true], Evict("a"));
    assert Apply(s4, Evict("a")) == SpentAndEvicted();
  }

  lemma SpendLate(run: seq<Step>, gap: nat, s: State) returns (run': seq<Step>)
    requires gap >= LATE && Witnessed(run, gap, s, [], []) && s.now == LATE
    requires s.buckets == map[0 := NewBucket(1, 1)] && s.workers == map[0 := Worker("a", Holding(0, 0))]
    ensures Witnessed(run', gap, s.(buckets := map[0 := Bucket(1, 1, 0, LATE)],
                                workers := map[0 := Worker("a", Decided(true, LATE))]), [LATE], [true])
  {
    run' := AllowStep(run, gap, s, [], [], 0);
    assert [] + [LATE] == [LATE] && [] + [true] == [true];
    assert Apply(s, Allow(0)) == s.(buckets := map[0 := Bucket(1, 1, 0, LATE)],
                                    workers := map[0 := Worker("a", Decided(true, LATE))]);
  }

  /**
   Both requests are admitted less than a minute apart, at a limit of one a minute: the first
   spends the bucket it holds after the second could have been given a new one.
   */
  lemma SpendTwice(gap: nat) returns (run: seq<Step>, s: State)
    requires gap > SAFE_GAP
    ensures Witnessed(run, gap, s, [LATE, EVICTED], [true, true])
    ensures s.workers == map[0 := Worker("a", Decided(true, LATE)), 1 := Worker("a", Decided(true, EVICTED))]
  {
    run := SpendAndEvict(gap);
    var s0 := SpentAndEvicted();
    run := Arrive(run, gap, s0, [LATE], [true], 1, 1);
    var s1 := s0.(clients := map["a" := Entry(1, EVICTED)], buckets := s0.buckets[1 := NewBucket(1, 1)],
                  workers := s0.workers[1 := Worker("a", Holding(1, EVICTED))]);
    run := AllowStep(run, gap, s1, [LATE], [true], 1);
    assert [LATE] + [EVICTED] == [LATE, EVICTED] && [true] + [true] == [true, true];
    s := Apply(s1, Allow(1));
  }

  /** One nanosecond more and the bound fails. */
  lemma GapBreaksTheBound(gap: nat) returns (run: seq<Step>)
    requires gap > 240_000_000_001
    ensures !BoundHolds(1, run, "a", LATE, EVICTED, 1, gap)
  {
    var s;
    run, s := SpendTwice(gap);
    assert Admitted(s, "a", LATE, EVICTED) == {0, 1};
    assert 2 * TOKEN > TOKEN + (EVICTED - LATE);
  }

  lemma BoundHoldsWithin(limit: nat, run: seq<Step>, ip: Ip, from: nat, to: nat, most: nat, gap: nat)
    requires gap <= SAFE_GAP
    ensures BoundHolds(limit, run, ip, from, to, most, gap)
  {
    if Run(Start(limit), run, gap) && limit <= most && from <= to && AtMost(run, most) {
      WindowBound(limit, run, ip, from, to, most, gap);
    }
  }

  /** The window bound holds for every run exactly when Allow may lag by at most four minutes and a nanosecond. */
  lemma WindowBoundHoldsExactlyUpToSafeGap(gap: nat)
    ensures (forall limit, run, ip, from, to, most :: BoundHolds(limit, run, ip, from, to, most, gap))
            <==> gap <= 240_000_000_001
  {
    if gap <= SAFE_GAP {
      forall limit, run, ip, from, to, most ensures BoundHolds(limit, run, ip, from, to, most, gap) {
        BoundHoldsWithin(limit, run, ip, from, to, most, gap);
      }
    } else {
      var run := GapBreaksTheBound(gap);
    }
  }
}
