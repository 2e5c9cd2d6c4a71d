/**
 The rate limiter as goroutines really run it. A request is three separate steps - read
 the configuration, pass through the critical section of getLimiter, and call Allow on the
 bucket it was handed - and the critical section itself is not atomic for Allow, which
 takes only the bucket's own lock: it may fall between two retunings of the loop, or
 between SetLimit and SetBurst of one bucket. Time passes wherever `Tick` says.
 */
module InterleavedLimiter {
  import opened TokenBucket
  import opened RateLimiter

  type Pid = nat
  /** The identity of a bucket object; evicted buckets stay reachable from requests in flight. */
  type Ref = nat

  datatype Entry = Entry(ref: Ref, lastSeen: nat)

  datatype Phase =
    | Snapped(limit: nat)
    | Inside(limit: nat, toLimit: set<Ref>, toBurst: set<Ref>)
    | Holding(ref: Ref, since: nat)
    | Decided(admitted: bool, at: nat)

  datatype Worker = Worker(ip: Ip, phase: Phase)

  datatype Mutex = Free | HeldBy(pid: Pid)

  datatype State = State(
    now: nat,
    published: nat,
    currentLimit: nat,
    clients: map<Ip, Entry>,
    buckets: map<Ref, Bucket>,
    workers: map<Pid, Worker>,
    mutex: Mutex)

  datatype Step =
    | Tick(elapsed: nat)
    | Publish(limit: nat)
    | Snapshot(pid: Pid, ip: Ip)
    | Enter(pid: Pid)
    | SetLimit(pid: Pid, ref: Ref)
    | SetBurst(pid: Pid, ref: Ref)
    | Leave(pid: Pid, newRef: Ref)
    | Allow(pid: Pid)
    | Evict(ip: Ip)

  function Start(limit: nat): State {
    State(0, limit, limit, map[], map[], map[], Free)
  }

  function Refs(s: State): set<Ref> {
    set ip | ip in s.clients :: s.clients[ip].ref
  }

  predicate Enabled(s: State, step: Step) {
    match step
    case Tick(_) => true
    case Publish(_) => true
    case Snapshot(pid, _) => pid !in s.workers
    case Enter(pid) => pid in s.workers && s.workers[pid].phase.Snapped? && s.mutex.Free?
    case SetLimit(pid, ref) =>
      && pid in s.workers && s.workers[pid].phase.Inside? && s.mutex == HeldBy(pid)
      && ref in s.workers[pid].phase.toLimit && ref in s.buckets
    case SetBurst(pid, ref) =>
      && pid in s.workers && s.workers[pid].phase.Inside? && s.mutex == HeldBy(pid)
      && ref in s.workers[pid].phase.toBurst && ref in s.buckets
    case Leave(pid, newRef) =>
      && pid in s.workers && s.workers[pid].phase.Inside? && s.mutex == HeldBy(pid)
      && s.workers[pid].phase.toLimit == {} && s.workers[pid].phase.toBurst == {}
      && newRef !in s.buckets
    case Allow(pid) =>
      && pid in s.workers && s.workers[pid].phase.Holding?
      && s.workers[pid].phase.ref in s.buckets
    case Evict(ip) => s.mutex.Free? && ip in s.clients && Idle(s.clients[ip].lastSeen, s.now)
  }

  function SetPhase(s: State, pid: Pid, phase: Phase): State
    requires pid in s.workers
  {
    s.(workers := s.workers[pid := s.workers[pid].(phase := phase)])
  }

  function Apply(s: State, step: Step): State
    requires Enabled(s, step)
  {
    match step
    case Tick(elapsed) => s.(now := s.now + elapsed)
    case Publish(limit) => s.(published := limit)
    case Snapshot(pid, ip) => s.(workers := s.workers[pid := Worker(ip, Snapped(s.published))])
    case Enter(pid) =>
      var limit := s.workers[pid].phase.limit;
      SetPhase(s.(mutex := HeldBy(pid), currentLimit := limit), pid,
               Inside(limit, if s.currentLimit != limit then Refs(s) else {}, {}))
    case SetLimit(pid, ref) =>
      var p := s.workers[pid].phase;
      SetPhase(s.(buckets := s.buckets[ref := WithLimit(s.buckets[ref], p.limit, s.now)]), pid,
               Inside(p.limit, p.toLimit - {ref}, p.toBurst + {ref}))
    case SetBurst(pid, ref) =>
      var p := s.workers[pid].phase;
      SetPhase(s.(buckets := s.buckets[ref := WithBurst(s.buckets[ref], p.limit, s.now)]), pid,
               p.(toBurst := p.toBurst - {ref}))
    case Leave(pid, newRef) =>
      var ip := s.workers[pid].ip;
      if ip in s.clients then
        var entry := s.clients[ip].(lastSeen := s.now);
        SetPhase(s.(mutex := Free, clients := s.clients[ip := entry]), pid, Holding(entry.ref, s.now))
      else
        var limit := s.workers[pid].phase.limit;
        SetPhase(s.(mutex := Free, clients := s.clients[ip := Entry(newRef, s.now)],
                    buckets := s.buckets[newRef := NewBucket(limit, limit)]), pid, Holding(newRef, s.now))
    case Allow(pid) =>
      var ref := s.workers[pid].phase.ref;
      SetPhase(s.(buckets := s.buckets[ref := Spend(s.buckets[ref], s.now)]), pid,
               Decided(Admits(s.buckets[ref], s.now), s.now))
    case Evict(ip) => s.(clients := s.clients - {ip})
  }

  function After(s: State, run: seq<Step>): State {
    if run == [] then s else
    var t, step := After(s, run[..|run| - 1]), run[|run| - 1];
    if Enabled(t, step) then Apply(t, step) else t
  }

  /** A request calls Allow no later than `gap` after it left getLimiter. */
  predicate Timely(s: State, step: Step, gap: nat)
    requires Enabled(s, step)
  {
    step.Allow? ==> s.now <= s.workers[step.pid].phase.since + gap
  }

  /** Every step can be taken where it stands, and every Allow is timely. */
  predicate Run(s: State, run: seq<Step>, gap: nat) {
    run == [] ||
    var front, step := run[..|run| - 1], run[|run| - 1];
    Run(s, front, gap) && Enabled(After(s, front), step) && Timely(After(s, front), step, gap)
  }

  /** The step is a request of `ip` calling Allow. */
  predicate Calls(s: State, step: Step, ip: Ip) {
    step.Allow? && Enabled(s, step) && s.workers[step.pid].ip == ip
  }

  /** When the requests of `ip` called Allow, in order. */
  function CallTimes(s: State, run: seq<Step>, ip: Ip): seq<nat> {
    if run == [] then [] else
    var t, step := After(s, run[..|run| - 1]), run[|run| - 1];
    CallTimes(s, run[..|run| - 1], ip) + if Calls(t, step, ip) then [t.now] else []
  }

  /** And what Allow answered. */
  function Verdicts(s: State, run: seq<Step>, ip: Ip): seq<bool> {
    if run == [] then [] else
    var t, step := After(s, run[..|run| - 1]), run[|run| - 1];
    Verdicts(s, run[..|run| - 1], ip) +
    if Calls(t, step, ip) then [Admits(t.buckets[t.workers[step.pid].phase.ref], t.now)] else []
  }

  // ----- invariants -----

  /** No two addresses share a bucket, and every reference leads to one. */
  ghost predicate BucketsInPlace(s: State) {
    && Refs(s) <= s.buckets.Keys
    && (forall ip, ip' | ip in s.clients && ip' in s.clients && ip != ip' :: s.clients[ip].ref != s.clients[ip'].ref)
    && (forall pid | pid in s.workers && s.workers[pid].phase.Holding? :: s.workers[pid].phase.ref in s.buckets)
  }

  /** Nothing has happened in the future. */
  ghost predicate InThePast(s: State) {
    && (forall ip | ip in s.clients :: s.clients[ip].lastSeen <= s.now)
    && (forall ref | ref in s.buckets :: s.buckets[ref].last <= s.now)
    && (forall pid | pid in s.workers && s.workers[pid].phase.Holding? :: s.workers[pid].phase.since <= s.now)
    && (forall pid | pid in s.workers && s.workers[pid].phase.Decided? :: s.workers[pid].phase.at <= s.now)
  }

  /** Exactly the holder of the mutex is inside getLimiter, at work on buckets of the table. */
  ghost predicate OneInside(s: State) {
    && (forall pid | pid in s.workers && s.workers[pid].phase.Inside? ::
          var p := s.workers[pid].phase;
          && s.mutex == HeldBy(pid) && p.limit == s.currentLimit
          && p.toLimit + p.toBurst <= Refs(s) && p.toLimit !! p.toBurst)
    && (s.mutex.HeldBy? ==> s.mutex.pid in s.workers && s.workers[s.mutex.pid].phase.Inside?)
  }

  /** The part of the state every step keeps in shape. */
  ghost predicate Shape(s: State) {
    BucketsInPlace(s) && InThePast(s) && OneInside(s)
  }

  lemma BucketsInPlaceStep(s: State, step: Step)
    requires BucketsInPlace(s) && Enabled(s, step)
    ensures BucketsInPlace(Apply(s, step))
  {
  }

  lemma InThePastStep(s: State, step: Step)
    requires InThePast(s) && Enabled(s, step)
    ensures InThePast(Apply(s, step))
  {
  }

  lemma OneInsideStep(s: State, step: Step)
    requires OneInside(s) && Enabled(s, step)
    ensures OneInside(Apply(s, step))
  {
  }

  lemma ShapeStep(s: State, step: Step)
    requires Shape(s) && Enabled(s, step)
    ensures Shape(Apply(s, step))
  {
    BucketsInPlaceStep(s, step);
    InThePastStep(s, step);
    OneInsideStep(s, step);
  }

  lemma {:induction false} ShapeAlways(limit: nat, run: seq<Step>, gap: nat)
    requires Run(Start(limit), run, gap)
    ensures Shape(After(Start(limit), run))
  {
    if run != [] {
      var front := run[..|run| - 1];
      ShapeAlways(limit, front, gap);
      ShapeStep(After(Start(limit), front), run[|run| - 1]);
    }
  }

  /**
   What can happen in a reachable state, and nothing else: Allow waits for no mutex, getLimiter
   and evictions do; an entry is evicted exactly after more than five minutes.
   */
  lemma WhatCanHappen(limit: nat, run: seq<Step>, gap: nat, pid: Pid)
    requires Run(Start(limit), run, gap)
    ensures var s := After(Start(limit), run);
            && (forall elapsed :: Enabled(s, Tick(elapsed))) && (forall value :: Enabled(s, Publish(value)))
            && (forall ip :: Enabled(s, Snapshot(pid, ip)) <==> pid !in s.workers)
            && (forall ip :: Enabled(s, Evict(ip)) <==>
                  s.mutex.Free? && ip in s.clients && s.now > s.clients[ip].lastSeen + 300_000_000_000)
            && (pid in s.workers ==>
                  var phase := s.workers[pid].phase;
                  && (Enabled(s, Enter(pid)) <==> phase.Snapped? && s.mutex.Free?)
                  && (Enabled(s, Allow(pid)) <==> phase.Holding?)
                  && (forall ref :: Enabled(s, SetLimit(pid, ref)) <==> phase.Inside? && ref in phase.toLimit)
                  && (forall ref :: Enabled(s, SetBurst(pid, ref)) <==> phase.Inside? && ref in phase.toBurst)
                  && (forall ref :: Enabled(s, Leave(pid, ref)) <==>
                        phase.Inside? && phase.toLimit == {} && phase.toBurst == {} && ref !in s.buckets))
  {
    ShapeAlways(limit, run, gap);
  }

  // ----- building runs -----

  ghost predicate Reaches(from: State, run: seq<Step>, gap: nat, to: State) {
    Run(from, run, gap) && After(from, run) == to
  }

  /** No reload happens during the run. */
  ghost predicate Calm(run: seq<Step>) {
    forall step | step in run :: !step.Publish?
  }

  /** No limit above `most` is published. */
  ghost predicate AtMost(run: seq<Step>, most: nat) {
    forall step | step in run && step.Publish? :: step.limit <= most
  }

  /** Only the retunings of one goroutine's loop. */
  ghost predicate TuningBy(run: seq<Step>, pid: Pid) {
    forall step | step in run :: (step.SetLimit? || step.SetBurst?) && step.pid == pid
  }

  lemma Extend(from: State, run: seq<Step>, gap: nat, s: State, step: Step) returns (run': seq<Step>)
    requires Reaches(from, run, gap, s) && Enabled(s, step) && Timely(s, step, gap)
    ensures Reaches(from, run', gap, Apply(s, step)) && run' == run + [step]
  {
    run' := run + [step];
    assert run'[..|run'| - 1] == run;
  }

  lemma {:induction false} Append(from: State, run1: seq<Step>, gap: nat, mid: State, run2: seq<Step>, to: State)
    returns (run: seq<Step>)
    requires Reaches(from, run1, gap, mid) && Reaches(mid, run2, gap, to)
    ensures Reaches(from, run, gap, to) && run == run1 + run2
  {
    if run2 == [] {
      run := run1;
    } else {
      var front, step := run2[..|run2| - 1], run2[|run2| - 1];
      run := Append(from, run1, gap, mid, front, After(mid, front));
      run := Extend(from, run, gap, After(mid, front), step);
    }
  }
}
