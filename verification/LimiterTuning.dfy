/**
 What live limit changes do to the shared table: every bucket follows the current limit,
 stale snapshots can flip the limit back, and exactly when it has settled for good. Also,
 the interleaved steps run without interruption are the atomic operations of RateLimiter.
 */
module LimiterTuning {
  import opened TokenBucket
  import opened RateLimiter
  import opened InterleavedLimiter

  // ----- uniform tuning -----

  /** Buckets follow the current limit, except those the goroutine inside has yet to retune. */
  ghost predicate Tuned(s: State)
    requires Shape(s)
  {
    forall ip | ip in s.clients ::
      var ref := s.clients[ip].ref;
      assert ref in Refs(s);
      match s.mutex
      case Free => s.buckets[ref].limit == s.currentLimit && s.buckets[ref].burst == s.currentLimit
      case HeldBy(pid) =>
        var p := s.workers[pid].phase;
        && (ref !in p.toLimit ==> s.buckets[ref].limit == s.currentLimit)
        && (ref !in p.toLimit && ref !in p.toBurst ==> s.buckets[ref].burst == s.currentLimit)
  }

  lemma TunedStep(s: State, step: Step)
    requires Shape(s) && Tuned(s) && Enabled(s, step)
    ensures Shape(Apply(s, step)) && Tuned(Apply(s, step))
  {
    ShapeStep(s, step);
  }

  ghost predicate EverPublished(limit: nat, run: seq<Step>, value: nat) {
    value == limit || Publish(value) in run
  }

  ghost predicate LimitsPublished(limit: nat, run: seq<Step>, s: State) {
    && EverPublished(limit, run, s.published) && EverPublished(limit, run, s.currentLimit)
    && (forall pid | pid in s.workers && s.workers[pid].phase.Snapped? ::
          EverPublished(limit, run, s.workers[pid].phase.limit))
  }

  lemma LimitsPublishedStep(limit: nat, front: seq<Step>, step: Step, s: State)
    requires LimitsPublished(limit, front, s) && Enabled(s, step)
    ensures LimitsPublished(limit, front + [step], Apply(s, step))
  {
    assert forall value | EverPublished(limit, front, value) :: EverPublished(limit, front + [step], value);
    if step.Publish? {
      assert step in front + [step];
    }
  }

  /**
   In every reachable state in which no goroutine is inside getLimiter, every bucket in the
   table has burst currentLimit and rate currentLimit / 60; and currentLimit is always a
   limit that was published at some time, however stale the snapshots.
   */
  lemma {:induction false} UniformTuning(limit: nat, run: seq<Step>, gap: nat)
    requires Run(Start(limit), run, gap)
    ensures var s := After(Start(limit), run);
            Shape(s) && Tuned(s) && LimitsPublished(limit, run, s)
  {
    if run != [] {
      var front, step := run[..|run| - 1], run[|run| - 1];
      UniformTuning(limit, front, gap);
      var s := After(Start(limit), front);
      TunedStep(s, step);
      LimitsPublishedStep(limit, front, step, s);
      assert run == front + [step];
    }
  }

  // ----- convergence after the last reload -----

  /** No matter what happens next, short of a reload, the limiter uses the published limit. */
  ghost predicate SettledForever(s: State) {
    forall run, gap :: Run(s, run, gap) && Calm(run) ==> After(s, run).currentLimit == s.published
  }

  /** The published limit is in use and in every snapshot still on its way to getLimiter. */
  ghost predicate Settled(s: State) {
    && s.currentLimit == s.published
    && (forall pid | pid in s.workers && s.workers[pid].phase.Snapped? :: s.workers[pid].phase.limit == s.published)
  }

  lemma {:induction false} SettledStays(s: State, run: seq<Step>, gap: nat)
    requires Settled(s) && Run(s, run, gap) && Calm(run)
    ensures Settled(After(s, run)) && After(s, run).published == s.published
  {
    if run != [] {
      SettledStays(s, run[..|run| - 1], gap);
    }
  }

  /** A reference no bucket has yet. */
  ghost function FreshRef(refs: set<Ref>): (ref: Ref)
    ensures ref !in refs && forall r | r in refs :: r < ref
  {
    if refs == {} then 0 else
    var r :| r in refs;
    assert refs == (refs - {r}) + {r};
    var ref := FreshRef(refs - {r});
    if ref <= r then r + 1 else ref
  }

  /** Whoever is inside getLimiter can finish its loop; waiting snapshots are untouched. */
  lemma {:induction false} FinishLoop(from: State, run: seq<Step>, gap: nat, s: State)
    returns (run': seq<Step>, s': State)
    requires Reaches(from, run, gap, s) && Shape(s) && s.mutex.HeldBy? && TuningBy(run, s.mutex.pid)
    ensures Reaches(from, run', gap, s') && Shape(s') && TuningBy(run', s.mutex.pid)
    ensures s' == s.(buckets := s'.buckets, workers := s'.workers)
    ensures var p := s'.workers[s.mutex.pid].phase; p.Inside? && p.toLimit == {} && p.toBurst == {}
    ensures s'.workers.Keys == s.workers.Keys && s'.workers[s.mutex.pid].ip == s.workers[s.mutex.pid].ip
    ensures forall pid | pid in s.workers && pid != s.mutex.pid :: s'.workers[pid] == s.workers[pid]
    decreases s.workers[s.mutex.pid].phase.toLimit, s.workers[s.mutex.pid].phase.toBurst
  {
    var pid := s.mutex.pid;
    var p := s.workers[pid].phase;
    if p.toLimit == {} && p.toBurst == {} {
      run', s' := run, s;
    } else {
      var step;
      if p.toLimit != {} {
        var ref :| ref in p.toLimit;
        step := SetLimit(pid, ref);
      } else {
        var ref :| ref in p.toBurst;
        step := SetBurst(pid, ref);
      }
      ShapeStep(s, step);
      run' := Extend(from, run, gap, s, step);
      run', s' := FinishLoop(from, run', gap, Apply(s, step));
    }
  }

  /** And then leave. */
  lemma FinishInside(s: State, gap: nat) returns (run: seq<Step>, s': State)
    requires Shape(s)
    ensures Reaches(s, run, gap, s') && Calm(run) && s'.mutex.Free? && s'.published == s.published
    ensures forall pid | pid in s.workers && s.workers[pid].phase.Snapped? ::
              pid in s'.workers && s'.workers[pid] == s.workers[pid]
  {
    if s.mutex.Free? {
      run, s' := [], s;
    } else {
      run, s' := FinishLoop(s, [], gap, s);
      var leave := Leave(s.mutex.pid, FreshRef(s'.buckets.Keys));
      run := Extend(s, run, gap, s', leave);
      s' := Apply(s', leave);
    }
  }

  /**
   Exactly when the limit has settled: the published limit is in use and no request that has
   yet to enter getLimiter carries another one. One stale snapshot is enough to undo it.
   */
  lemma SettledForeverExactly(s: State)
    requires Shape(s)
    ensures SettledForever(s) <==> Settled(s)
  {
    if Settled(s) {
      forall run, gap | Run(s, run, gap) && Calm(run) ensures After(s, run).currentLimit == s.published {
        SettledStays(s, run, gap);
      }
    } else if s.currentLimit != s.published {
      assert Run(s, [], 0) && Calm([]) && After(s, []) == s;
    } else {
      var pid :| pid in s.workers && s.workers[pid].phase.Snapped? && s.workers[pid].phase.limit != s.published;
      var run, s' := FinishInside(s, 0);
      run := Extend(s, run, 0, s', Enter(pid));
      assert Run(s, run, 0) && Calm(run);
    }
  }

  /** Relative to `s`: old workers that still wait are as they were, new ones have the published limit. */
  ghost predicate FreshSince(s: State, t: State) {
    && t.published == s.published && s.workers.Keys <= t.workers.Keys
    && (forall pid | pid in t.workers && t.workers[pid].phase.Snapped? ::
          if pid in s.workers then t.workers[pid] == s.workers[pid] else t.workers[pid].phase.limit == s.published)
  }

  lemma FreshSinceStep(s: State, t: State, step: Step)
    requires FreshSince(s, t) && Enabled(t, step) && !step.Publish?
    ensures FreshSince(s, Apply(t, step))
  {
  }

  /** After the last reload new snapshots carry the published limit; old ones can only drain. */
  lemma {:induction false} NewSnapshotsAreFresh(s: State, run: seq<Step>, gap: nat)
    requires Run(s, run, gap) && Calm(run)
    ensures FreshSince(s, After(s, run))
  {
    if run != [] {
      NewSnapshotsAreFresh(s, run[..|run| - 1], gap);
      FreshSinceStep(s, After(s, run[..|run| - 1]), run[|run| - 1]);
    }
  }

  /**
   Convergence: once every request that was in flight at the last reload has passed
   getLimiter, the next newer request to enter settles the limit for good.
   */
  lemma SettlesOnTheNewestLimit(s: State, run: seq<Step>, gap: nat, newer: Pid)
    requires Run(s, run, gap) && Calm(run)
    requires var t := After(s, run);
             && Shape(t) && Enabled(t, Enter(newer)) && newer !in s.workers
             && (forall pid | pid in s.workers :: pid in t.workers && !t.workers[pid].phase.Snapped?)
    ensures SettledForever(Apply(After(s, run), Enter(newer)))
    ensures Apply(After(s, run), Enter(newer)).currentLimit == s.published
  {
    NewSnapshotsAreFresh(s, run, gap);
    var t := After(s, run);
    ShapeStep(t, Enter(newer));
    SettledForeverExactly(Apply(t, Enter(newer)));
  }

  /** A request is on its way with the limit 1 when 2 is published; a newer one enters first. */
  lemma NewerEntersFirst() returns (run: seq<Step>)
    ensures Reaches(Start(1), run, 0,
                    Flipping(2, NewBucket(2, 2), Free, Snapped(1)))
    ensures |run| > 3 && run[..3] == [Snapshot(0, "a"), Publish(2), Snapshot(1, "a")]
  {
    var s1 := Start(1).(workers := map[0 := Worker("a", Snapped(1))]);
    run := Extend(Start(1), [], 0, Start(1), Snapshot(0, "a"));
    var s2 := s1.(published := 2);
    run := Extend(Start(1), run, 0, s1, Publish(2));
    var s3 := s2.(workers := map[0 := Worker("a", Snapped(1)), 1 := Worker("a", Snapped(2))]);
    assert Apply(s2, Snapshot(1, "a")) == s3;
    run := Extend(Start(1), run, 0, s2, Snapshot(1, "a"));
    var s4 := s3.(currentLimit := 2, mutex := HeldBy(1),
                  workers := map[0 := Worker("a", Snapped(1)), 1 := Worker("a", Inside(2, {}, {}))]);
    assert Refs(s3) == {};
    assert Apply(s3, Enter(1)) == s4;
    run := Extend(Start(1), run, 0, s3, Enter(1));
    run := Extend(Start(1), run, 0, s4, Leave(1, 0));
  }

  /** One client with one bucket; request 1 is newer and has passed, request 0 is stale. */
  function Flipping(limit: nat, bucket: Bucket, mutex: Mutex, stale: Phase): State {
    State(0, 2, limit, map["a" := Entry(0, 0)], map[0 := bucket],
          map[0 := Worker("a", stale), 1 := Worker("a", Holding(0, 0))], mutex)
  }

  lemma StaleEnters(run: seq<Step>) returns (run': seq<Step>)
    requires Reaches(Start(1), run, 0, Flipping(2, NewBucket(2, 2), Free, Snapped(1)))
    ensures Reaches(Start(1), run', 0, Flipping(1, NewBucket(2, 2), HeldBy(0), Inside(1, {0}, {}))) && run <= run'
  {
    var s := Flipping(2, NewBucket(2, 2), Free, Snapped(1));
    assert "a" in s.clients && s.clients["a"].ref == 0;
    assert Refs(s) == {0};
    assert Apply(s, Enter(0)) == Flipping(1, NewBucket(2, 2), HeldBy(0), Inside(1, {0}, {}));
    run' := Extend(Start(1), run, 0, s, Enter(0));
  }

  lemma StaleSetsLimit(run: seq<Step>) returns (run': seq<Step>)
    requires Reaches(Start(1), run, 0, Flipping(1, NewBucket(2, 2), HeldBy(0), Inside(1, {0}, {})))
    ensures run <= run'
    ensures Reaches(Start(1), run', 0, Flipping(1, WithLimit(NewBucket(2, 2), 1, 0), HeldBy(0), Inside(1, {}, {0})))
  {
    var s := Flipping(1, NewBucket(2, 2), HeldBy(0), Inside(1, {0}, {}));
    var only: set<Ref> := {0};
    assert only - {0} == {} && {} + {0} == only;
    assert Apply(s, SetLimit(0, 0)) == Flipping(1, WithLimit(NewBucket(2, 2), 1, 0), HeldBy(0), Inside(1, {}, {0}));
    run' := Extend(Start(1), run, 0, s, SetLimit(0, 0));
  }

  lemma StaleSetsBurst(run: seq<Step>) returns (run': seq<Step>)
    requires Reaches(Start(1), run, 0, Flipping(1, WithLimit(NewBucket(2, 2), 1, 0), HeldBy(0), Inside(1, {}, {0})))
    ensures run <= run'
    ensures Reaches(Start(1), run', 0, Flipping(1, Retune(NewBucket(2, 2), 1, 0), HeldBy(0), Inside(1, {}, {})))
  {
    var s := Flipping(1, WithLimit(NewBucket(2, 2), 1, 0), HeldBy(0), Inside(1, {}, {0}));
    var only: set<Ref> := {0};
    assert only - {0} == {};
    assert Apply(s, SetBurst(0, 0)) == Flipping(1, Retune(NewBucket(2, 2), 1, 0), HeldBy(0), Inside(1, {}, {}));
    run' := Extend(Start(1), run, 0, s, SetBurst(0, 0));
  }

  /**
   The order matters: here both the request in flight at the reload and one newer request have
   passed getLimiter, but the stale one passed last, and the limit is the old one again.
   */
  lemma StaleSnapshotFlipsTheLimitBack() returns (run: seq<Step>, s: State)
    ensures Reaches(Start(1), run, 0, s) && s.published == 2 && s.currentLimit == 1
    ensures |run| > 3 && run[..3] == [Snapshot(0, "a"), Publish(2), Snapshot(1, "a")]
    ensures forall pid | pid in s.workers :: s.workers[pid].phase.Holding?
  {
    run := NewerEntersFirst();
    run := StaleEnters(run);
    run := StaleSetsLimit(run);
    run := StaleSetsBurst(run);
    s := Flipping(1, Retune(NewBucket(2, 2), 1, 0), HeldBy(0), Inside(1, {}, {}));
    run := Extend(Start(1), run, 0, s, Leave(0, 1));
    s := Apply(s, Leave(0, 1));
  }

  // ----- uninterrupted, the steps are the atomic operations -----

  function BucketOf(s: State, ref: Ref): Bucket {
    if ref in s.buckets then s.buckets[ref] else NewBucket(0, 0)
  }

  function View(s: State): Table {
    Table(s.currentLimit,
          map ip | ip in s.clients :: Client(BucketOf(s, s.clients[ip].ref), s.clients[ip].lastSeen))
  }

  /** How far the loop has come with one bucket. */
  function TunedSoFar(b: Bucket, ref: Ref, p: Phase, now: nat): Bucket
    requires p.Inside?
  {
    if ref in p.toLimit then b
    else if ref in p.toBurst then WithLimit(b, p.limit, now)
    else Retune(b, p.limit, now)
  }

  /** Halfway through the loop: nothing but buckets and the worklists has changed. */
  ghost predicate Halfway(s: State, t: State, pid: Pid)
    requires pid in s.workers
  {
    && Shape(t) && pid in t.workers && t.workers[pid].phase.Inside?
    && t.mutex == HeldBy(pid) && t.clients == s.clients && t.now == s.now
    && t.currentLimit == s.currentLimit && t.buckets.Keys == s.buckets.Keys
    && t.workers[pid].ip == s.workers[pid].ip
    && (forall ref | ref in Refs(s) && ref in s.buckets ::
          t.buckets[ref] == TunedSoFar(s.buckets[ref], ref, t.workers[pid].phase, s.now))
  }

  lemma HalfwayStep(s: State, t: State, step: Step, pid: Pid)
    requires Shape(s) && pid in s.workers && Halfway(s, t, pid)
    requires Enabled(t, step) && (step.SetLimit? || step.SetBurst?) && step.pid == pid
    ensures Halfway(s, Apply(t, step), pid)
  {
    ShapeStep(t, step);
  }

  lemma {:induction false} LoopProgress(s: State, run: seq<Step>, gap: nat, pid: Pid)
    requires Shape(s) && s.mutex == HeldBy(pid) && Run(s, run, gap) && TuningBy(run, pid)
    requires s.workers[pid].phase.toLimit == Refs(s) && s.workers[pid].phase.toBurst == {}
    ensures Halfway(s, After(s, run), pid)
  {
    if run != [] {
      var front, step := run[..|run| - 1], run[|run| - 1];
      assert step in run && forall st | st in front :: st in run;
      LoopProgress(s, front, gap, pid);
      HalfwayStep(s, After(s, front), step, pid);
    }
  }

  lemma LoopDone(s: State, t: State, limit: nat)
    requires t.clients == s.clients && Refs(s) <= s.buckets.Keys && t.buckets.Keys == s.buckets.Keys
    requires forall ref | ref in Refs(s) :: t.buckets[ref] == Retune(s.buckets[ref], limit, s.now)
    ensures View(t).clients == RetuneAll(View(s).clients, limit, s.now)
  {
    forall ip | ip in s.clients ensures View(t).clients[ip] == RetuneAll(View(s).clients, limit, s.now)[ip] {
      assert s.clients[ip].ref in Refs(s);
    }
  }

  lemma {:induction false} FirstStepEnabled(s: State, run: seq<Step>, gap: nat)
    requires run != [] && Run(s, run, gap)
    ensures Enabled(s, run[0])
  {
    if |run| > 1 {
      FirstStepEnabled(s, run[..|run| - 1], gap);
    }
  }

  lemma NothingToTune(s: State, run: seq<Step>, gap: nat, pid: Pid)
    requires s.mutex == HeldBy(pid) && Run(s, run, gap) && TuningBy(run, pid) && pid in s.workers
    requires s.workers[pid].phase.Inside? && s.workers[pid].phase.toLimit == {} && s.workers[pid].phase.toBurst == {}
    ensures run == []
  {
    if run != [] {
      assert run[0] in run;
      FirstStepEnabled(s, run, gap);
    }
  }

  /** After the loop the table shows every bucket retuned if the limit changed, and none if not. */
  lemma LoopRetunesAll(s: State, pid: Pid, run: seq<Step>, gap: nat)
    requires Shape(s) && Enabled(s, Enter(pid))
    requires Run(Apply(s, Enter(pid)), run, gap) && TuningBy(run, pid)
    requires var p := After(Apply(s, Enter(pid)), run).workers;
             pid in p && p[pid].phase.Inside? && p[pid].phase.toLimit == {} && p[pid].phase.toBurst == {}
    ensures var t, limit := After(Apply(s, Enter(pid)), run), s.workers[pid].phase.limit;
            && t.clients == s.clients && t.now == s.now && t.currentLimit == limit && t.buckets.Keys == s.buckets.Keys
            && t.workers[pid].ip == s.workers[pid].ip && t.workers[pid].phase.limit == limit
            && View(t).clients == if s.currentLimit != limit then RetuneAll(View(s).clients, limit, s.now)
                                  else View(s).clients
  {
    ShapeStep(s, Enter(pid));
    if s.currentLimit != s.workers[pid].phase.limit {
      LoopProgress(Apply(s, Enter(pid)), run, gap, pid);
      LoopDone(s, After(Apply(s, Enter(pid)), run), s.workers[pid].phase.limit);
    } else {
      NothingToTune(Apply(s, Enter(pid)), run, gap, pid);
    }
  }

  /** Leaving creates or refreshes the entry of `ip` and leaves every other as it is. */
  lemma LeaveTouchesOne(s: State, pid: Pid, newRef: Ref)
    requires Enabled(s, Leave(pid, newRef)) && Refs(s) <= s.buckets.Keys
    requires s.workers[pid].phase.limit == s.currentLimit
    ensures var ip, clients := s.workers[pid].ip, View(s).clients;
            View(Apply(s, Leave(pid, newRef))).clients
            == clients[ip := if ip in clients then clients[ip].(lastSeen := s.now)
                             else Client(NewBucket(s.currentLimit, s.currentLimit), s.now)]
  {
    forall other | other in s.clients
      ensures s.clients[other].ref in s.buckets && s.clients[other].ref != newRef
    {
      assert s.clients[other].ref in Refs(s);
    }
  }

  lemma LeaveLooksUp(s: State, pid: Pid, newRef: Ref)
    requires Enabled(s, Leave(pid, newRef)) && Refs(s) <= s.buckets.Keys
    requires s.workers[pid].phase.limit == s.currentLimit
    ensures View(Apply(s, Leave(pid, newRef))) == AfterLookup(View(s), s.workers[pid].ip, s.currentLimit, s.now)
  {
    LeaveTouchesOne(s, pid, newRef);
  }

  /**
   A request that is not interrupted between entering and leaving getLimiter does to the
   table exactly what the atomic AfterLookup says, whatever order the loop visits it in.
   */
  lemma CriticalSectionIsAtomic(s: State, pid: Pid, run: seq<Step>, newRef: Ref, gap: nat)
    requires Shape(s) && Enabled(s, Enter(pid))
    requires Run(Apply(s, Enter(pid)), run, gap) && TuningBy(run, pid)
    requires Enabled(After(Apply(s, Enter(pid)), run), Leave(pid, newRef))
    ensures View(Apply(After(Apply(s, Enter(pid)), run), Leave(pid, newRef)))
            == AfterLookup(View(s), s.workers[pid].ip, s.workers[pid].phase.limit, s.now)
  {
    LoopRetunesAll(s, pid, run, gap);
    var t := After(Apply(s, Enter(pid)), run);
    assert Refs(t) == Refs(s);
    LeaveLooksUp(t, pid, newRef);
  }

  lemma AllowIsAtomic(s: State, pid: Pid)
    requires Shape(s) && Enabled(s, Allow(pid))
    requires var w := s.workers[pid]; w.ip in s.clients && s.clients[w.ip].ref == w.phase.ref
    ensures var ip := s.workers[pid].ip;
            && ip in View(s).clients && View(Apply(s, Allow(pid))) == AfterAllow(View(s), ip, s.now)
            && Apply(s, Allow(pid)).workers[pid].phase == Decided(Admits(View(s).clients[ip].bucket, s.now), s.now)
  {
    assert forall ip | ip in s.clients :: s.clients[ip].ref in Refs(s);
  }

  /** A pass that evicts one idle entry after another until none is left is AfterCleanup. */
  lemma CleanupPassIsAtomic(s: State, run: seq<Step>, gap: nat)
    requires Shape(s) && s.mutex.Free? && Run(s, run, gap) && forall step | step in run :: step.Evict?
    requires forall ip :: !Enabled(After(s, run), Evict(ip))
    ensures View(After(s, run)) == AfterCleanup(View(s), s.now)
  {
    EvictionsOnlyRemoveIdle(s, run, gap);
    NothingIdle(After(s, run));
  }

  lemma {:induction false} EvictionsOnlyRemoveIdle(s: State, run: seq<Step>, gap: nat)
    requires Shape(s) && s.mutex.Free? && Run(s, run, gap) && forall step | step in run :: step.Evict?
    ensures var t := After(s, run);
            && Shape(t) && t.mutex.Free? && t.now == s.now
            && AfterCleanup(View(t), t.now) == AfterCleanup(View(s), s.now)
  {
    if run != [] {
      var front := run[..|run| - 1];
      EvictionsOnlyRemoveIdle(s, front, gap);
      EvictOne(After(s, front), run[|run| - 1].ip);
    }
  }

  lemma EvictOne(s: State, ip: Ip)
    requires Shape(s) && Enabled(s, Evict(ip))
    ensures Shape(Apply(s, Evict(ip)))
    ensures AfterCleanup(View(Apply(s, Evict(ip))), s.now) == AfterCleanup(View(s), s.now)
  {
    ShapeStep(s, Evict(ip));
    assert View(Apply(s, Evict(ip))).clients == View(s).clients - {ip};
    DropIdle(View(s), ip, s.now);
  }

  lemma DropIdle(t: Table, ip: Ip, now: nat)
    requires ip in t.clients && Idle(t.clients[ip].lastSeen, now)
    ensures AfterCleanup(t.(clients := t.clients - {ip}), now) == AfterCleanup(t, now)
  {
    assert AfterCleanup(t.(clients := t.clients - {ip}), now).clients == AfterCleanup(t, now).clients;
  }

  lemma NothingIdle(s: State)
    requires s.mutex.Free? && forall ip :: !Enabled(s, Evict(ip))
    ensures AfterCleanup(View(s), s.now) == View(s)
  {
    assert forall ip | ip in s.clients :: !Enabled(s, Evict(ip));
  }
}
