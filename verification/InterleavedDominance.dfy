/**
 Eviction never costs an address an admission, with requests interleaved step by step. Two
 runs move in lockstep, one with evictions and one without: requests take the same steps at
 the same times, and while both have a bucket of the address both retune it at the same
 moment. The other buckets are retuned whenever each run gets to them.
 */
module InterleavedDominance {
  import opened InterleavedLimiter
  import opened LimiterTuning
  import opened LimiterWindow
  import opened Options
  import opened PairedRuns
  import opened RateLimiter
  import opened TokenBucket

  /** What each of the two runs does at a moment; the first has evictions. */
  datatype Move = Move(first: Option<Step>, second: Option<Step>)

  function Taken(step: Option<Step>): seq<Step> {
    if step.Some? then [step.value] else []
  }

  function Firsts(moves: seq<Move>): seq<Step> {
    if moves == [] then [] else Firsts(moves[..|moves| - 1]) + Taken(moves[|moves| - 1].first)
  }

  function Seconds(moves: seq<Move>): seq<Step> {
    if moves == [] then [] else Seconds(moves[..|moves| - 1]) + Taken(moves[|moves| - 1].second)
  }

  predicate Owns(s: State, ip: Ip, ref: Ref) {
    ip in s.clients && s.clients[ip].ref == ref
  }

  predicate Retunes(step: Step) {
    step.SetLimit? || step.SetBurst?
  }

  /** The retuning of the address's own bucket. */
  predicate RetunesOwn(s: State, step: Step, ip: Ip) {
    Retunes(step) && Owns(s, ip, step.ref)
  }

  predicate SameRetuning(x: Step, y: Step) {
    (x.SetLimit? && y.SetLimit? && x.pid == y.pid) || (x.SetBurst? && y.SetBurst? && x.pid == y.pid)
  }

  predicate InLockstep(s: State, t: State, m: Move, ip: Ip) {
    match m
    case Move(Some(x), Some(y)) =>
      || (Bones(x) != [] && Bones(x) == Bones(y))
      || (SameRetuning(x, y) && RetunesOwn(s, x, ip) && RetunesOwn(t, y, ip))
    case Move(Some(x), None) => x.Evict? || (Retunes(x) && !RetunesOwn(s, x, ip))
    case Move(None, Some(y)) => Retunes(y) && (RetunesOwn(t, y, ip) ==> ip !in s.clients)
    case Move(None, None) => false
  }

  predicate CanTake(s: State, step: Option<Step>, gap: nat) {
    step.Some? ==> Enabled(s, step.value) && Timely(s, step.value, gap)
  }

  function Moved(s: State, step: Option<Step>): State
    requires step.Some? ==> Enabled(s, step.value)
  {
    if step.Some? then Apply(s, step.value) else s
  }

  /** A pair of runs from `limit` on, in lockstep as far as `ip` is concerned. */
  predicate Lockstep(limit: nat, moves: seq<Move>, ip: Ip, gap: nat) {
    moves == [] ||
    var front, m := moves[..|moves| - 1], moves[|moves| - 1];
    var s, t := After(Start(limit), Firsts(front)), After(Start(limit), Seconds(front));
    Lockstep(limit, front, ip, gap) && CanTake(s, m.first, gap) && CanTake(t, m.second, gap) && InLockstep(s, t, m, ip)
  }

  /** How often `ip` has been admitted. */
  function Admissions(s: State, run: seq<Step>, ip: Ip): nat {
    if run == [] then 0 else
    var t, step := After(s, run[..|run| - 1]), run[|run| - 1];
    Admissions(s, run[..|run| - 1], ip) + if Admitting(t, step, ip) then 1 else 0
  }

  predicate Admitting(s: State, step: Step, ip: Ip) {
    Calls(s, step, ip) && Admits(s.buckets[s.workers[step.pid].phase.ref], s.now)
  }

  // ----- the requests are in the same place in both runs -----

  predicate SamePlace(w: Worker, v: Worker) {
    w.ip == v.ip &&
    match w.phase
    case Snapped(limit) => v.phase == Snapped(limit)
    case Inside(limit, _, _) => v.phase.Inside? && v.phase.limit == limit
    case Holding(_, since) => v.phase.Holding? && v.phase.since == since
    case Decided(_, _) => v.phase.Decided?
  }

  ghost predicate SameRequests(s: State, t: State) {
    && s.now == t.now && s.published == t.published && s.currentLimit == t.currentLimit && s.mutex == t.mutex
    && s.workers.Keys == t.workers.Keys
    && forall pid | pid in s.workers :: SamePlace(s.workers[pid], t.workers[pid])
  }

  lemma BothMove(s: State, t: State, x: Step, y: Step)
    requires SameRequests(s, t) && Enabled(s, x) && Enabled(t, y) && Bones(x) == Bones(y) != []
    ensures SameRequests(Apply(s, x), Apply(t, y))
  {
  }

  lemma FirstMoves(s: State, t: State, x: Step)
    requires SameRequests(s, t) && Enabled(s, x) && Bones(x) == []
    ensures SameRequests(Apply(s, x), t)
  {
  }

  lemma SecondMoves(s: State, t: State, y: Step)
    requires SameRequests(s, t) && Enabled(t, y) && Bones(y) == []
    ensures SameRequests(s, Apply(t, y))
  {
  }

  lemma SameRequestsMove(s: State, t: State, m: Move, ip: Ip, gap: nat)
    requires SameRequests(s, t) && CanTake(s, m.first, gap) && CanTake(t, m.second, gap) && InLockstep(s, t, m, ip)
    ensures SameRequests(Moved(s, m.first), Moved(t, m.second))
  {
    match m
    case Move(Some(x), Some(y)) =>
      if Bones(x) != [] {
        BothMove(s, t, x, y);
      } else {
        FirstMoves(s, t, x);
        SecondMoves(Apply(s, x), t, y);
      }
    case Move(Some(x), None) => FirstMoves(s, t, x);
    case Move(None, Some(y)) => SecondMoves(s, t, y);
  }

  // ----- two buckets -----

  /** Tuned alike, and admissions plus tokens in hand keep `b` ahead of `c`. */
  ghost predicate AheadOf(b: Bucket, c: Bucket, na: nat, nb: nat, now: nat) {
    && b.limit == c.limit && b.burst == c.burst && b.last <= now && c.last <= now
    && nb <= na && nb * TOKEN + Tokens(c, now) <= na * TOKEN + Tokens(b, now)
  }

  lemma AheadLater(b: Bucket, c: Bucket, na: nat, nb: nat, now: nat, later: nat)
    requires AheadOf(b, c, na, nb, now) && now <= later
    ensures AheadOf(b, c, na, nb, later)
  {
    AdvanceComposes(b, now, later);
    AdvanceComposes(c, now, later);
    MulMonotone(nb, na, TOKEN);
  }

  lemma AheadRetuned(b: Bucket, c: Bucket, na: nat, nb: nat, limit: nat, now: nat)
    requires AheadOf(b, c, na, nb, now)
    ensures AheadOf(WithLimit(b, limit, now), WithLimit(c, limit, now), na, nb, now)
    ensures AheadOf(WithBurst(b, limit, now), WithBurst(c, limit, now), na, nb, now)
  {
    MulMonotone(nb, na, TOKEN);
  }

  function One(yes: bool): nat {
    if yes then 1 else 0
  }

  lemma AheadSpent(b: Bucket, c: Bucket, na: nat, nb: nat, now: nat)
    requires AheadOf(b, c, na, nb, now)
    ensures AheadOf(Spend(b, now), Spend(c, now), na + One(Admits(b, now)), nb + One(Admits(c, now)), now)
  {
  }

  /** A fresh bucket is ahead of any that is tuned alike. */
  lemma FreshIsAhead(c: Bucket, na: nat, nb: nat, now: nat)
    requires nb <= na && c.limit == c.burst && c.last <= now
    ensures AheadOf(NewBucket(c.burst, c.burst), c, na, nb, now)
  {
    MulMonotone(nb, na, TOKEN);
  }

  // ----- the two runs -----

  function Own(s: State, ip: Ip): Bucket
    requires ip in s.clients
  {
    BucketOf(s, s.clients[ip].ref)
  }

  /** An address that the first run has evicted is owed a full bucket. */
  ghost predicate Ahead(s: State, t: State, na: nat, nb: nat, ip: Ip) {
    nb <= na && (ip in s.clients ==> ip in t.clients && AheadOf(Own(s, ip), Own(t, ip), na, nb, s.now))
  }

  /** What every state of either run satisfies. */
  ghost predicate Sound(s: State, gap: nat) {
    Shape(s) && Tuned(s) && HoldersCurrent(s, gap)
  }

  lemma OwnIsThere(s: State, ip: Ip)
    requires Shape(s) && ip in s.clients
    ensures s.clients[ip].ref in s.buckets && Own(s, ip) == s.buckets[s.clients[ip].ref] && Own(s, ip).last <= s.now
  {
    assert s.clients[ip].ref in Refs(s);
  }

  /** A request of another address calls Allow on another bucket. */
  lemma OtherCallsElsewhere(s: State, pid: Pid, ip: Ip, gap: nat)
    requires Sound(s, gap) && Enabled(s, Allow(pid)) && Timely(s, Allow(pid), gap) && s.workers[pid].ip != ip
    ensures !Owns(s, ip, s.workers[pid].phase.ref)
  {
  }

  /** Steps that leave the bucket of `ip` alone, if it has one. */
  lemma OwnStays(s: State, step: Step, ip: Ip, gap: nat)
    requires Sound(s, gap) && Enabled(s, step) && Timely(s, step, gap)
    requires !Calls(s, step, ip) && !RetunesOwn(s, step, ip) && step != Evict(ip) && ip in s.clients
    ensures ip in Apply(s, step).clients && Own(Apply(s, step), ip) == Own(s, ip)
  {
    OwnIsThere(s, ip);
    if step.Allow? {
      OtherCallsElsewhere(s, step.pid, ip, gap);
    }
  }

  lemma NoneStays(s: State, step: Step, ip: Ip)
    requires Enabled(s, step) && ip !in s.clients && !(step.Leave? && s.workers[step.pid].ip == ip)
    ensures ip !in Apply(s, step).clients
  {
  }

  lemma AheadAfterEviction(s: State, t: State, na: nat, nb: nat, ip: Ip, x: Step, gap: nat)
    requires Ahead(s, t, na, nb, ip) && Sound(s, gap) && Enabled(s, x) && Timely(s, x, gap)
    requires x.Evict? || (Retunes(x) && !RetunesOwn(s, x, ip))
    ensures Ahead(Apply(s, x), t, na, nb, ip)
  {
    if ip in Apply(s, x).clients {
      OwnStays(s, x, ip, gap);
    }
  }

  lemma AheadAfterTuning(s: State, t: State, na: nat, nb: nat, ip: Ip, y: Step, gap: nat)
    requires Ahead(s, t, na, nb, ip) && Sound(t, gap) && Enabled(t, y) && Timely(t, y, gap)
    requires Retunes(y) && (RetunesOwn(t, y, ip) ==> ip !in s.clients)
    ensures Ahead(s, Apply(t, y), na, nb, ip)
  {
    if ip in s.clients {
      OwnStays(t, y, ip, gap);
    }
  }

  lemma AheadAfterOwnTuning(s: State, t: State, na: nat, nb: nat, ip: Ip, x: Step, y: Step)
    requires Ahead(s, t, na, nb, ip) && SameRequests(s, t) && Shape(s) && Shape(t)
    requires Enabled(s, x) && Enabled(t, y) && SameRetuning(x, y) && RetunesOwn(s, x, ip) && RetunesOwn(t, y, ip)
    ensures Ahead(Apply(s, x), Apply(t, y), na, nb, ip)
  {
    OwnIsThere(s, ip);
    OwnIsThere(t, ip);
    AheadRetuned(Own(s, ip), Own(t, ip), na, nb, s.workers[x.pid].phase.limit, s.now);
  }

  lemma AheadAfterTick(s: State, t: State, na: nat, nb: nat, ip: Ip, elapsed: nat)
    requires Ahead(s, t, na, nb, ip) && s.now == t.now
    ensures Ahead(Apply(s, Tick(elapsed)), Apply(t, Tick(elapsed)), na, nb, ip)
  {
    if ip in s.clients {
      AheadLater(Own(s, ip), Own(t, ip), na, nb, s.now, s.now + elapsed);
    }
  }

  /** Back in the table, the address has a fresh bucket in the first run, and a tuned one in the second. */
  lemma AheadAfterOwnLeave(s: State, t: State, na: nat, nb: nat, ip: Ip, pid: Pid, ref1: Ref, ref2: Ref)
    requires Ahead(s, t, na, nb, ip) && SameRequests(s, t) && Shape(s) && Shape(t) && Tuned(t)
    requires Enabled(s, Leave(pid, ref1)) && Enabled(t, Leave(pid, ref2)) && s.workers[pid].ip == ip
    ensures Ahead(Apply(s, Leave(pid, ref1)), Apply(t, Leave(pid, ref2)), na, nb, ip)
  {
    var limit := s.workers[pid].phase.limit;
    if ip in s.clients {
      OwnIsThere(s, ip);
      OwnIsThere(t, ip);
    } else if ip in t.clients {
      OwnIsThere(t, ip);
      FreshIsAhead(Own(t, ip), na, nb, s.now);
    } else {
      FreshIsAhead(NewBucket(limit, limit), na, nb, s.now);
    }
  }

  lemma AheadAfterCall(s: State, t: State, na: nat, nb: nat, ip: Ip, pid: Pid, gap: nat)
    requires Ahead(s, t, na, nb, ip) && SameRequests(s, t) && Sound(s, gap) && Sound(t, gap)
    requires Enabled(s, Allow(pid)) && Timely(s, Allow(pid), gap) && s.workers[pid].ip == ip
    requires Enabled(t, Allow(pid)) && Timely(t, Allow(pid), gap)
    ensures Ahead(Apply(s, Allow(pid)), Apply(t, Allow(pid)),
                  na + One(Admitting(s, Allow(pid), ip)), nb + One(Admitting(t, Allow(pid), ip)), ip)
  {
    AheadSpent(Own(s, ip), Own(t, ip), na, nb, s.now);
  }

  lemma AheadAfterOther(s: State, t: State, na: nat, nb: nat, ip: Ip, x: Step, y: Step, gap: nat)
    requires Ahead(s, t, na, nb, ip) && SameRequests(s, t) && Sound(s, gap) && Sound(t, gap)
    requires Enabled(s, x) && Timely(s, x, gap) && Enabled(t, y) && Timely(t, y, gap) && Bones(x) == Bones(y) != []
    requires !x.Tick? && !Calls(s, x, ip) && !(x.Leave? && s.workers[x.pid].ip == ip)
    ensures Ahead(Apply(s, x), Apply(t, y), na, nb, ip)
  {
    if ip in s.clients {
      OwnStays(s, x, ip, gap);
      OwnStays(t, y, ip, gap);
    } else {
      NoneStays(s, x, ip);
    }
  }

  function Gained(s: State, step: Option<Step>, ip: Ip): nat {
    if step.Some? then One(Admitting(s, step.value, ip)) else 0
  }

  lemma AheadAfterBoth(s: State, t: State, na: nat, nb: nat, ip: Ip, x: Step, y: Step, gap: nat)
    requires Ahead(s, t, na, nb, ip) && SameRequests(s, t) && Sound(s, gap) && Sound(t, gap)
    requires Enabled(s, x) && Timely(s, x, gap) && Enabled(t, y) && Timely(t, y, gap) && Bones(x) == Bones(y) != []
    ensures Ahead(Apply(s, x), Apply(t, y), na + One(Admitting(s, x, ip)), nb + One(Admitting(t, y, ip)), ip)
  {
    if x.Tick? {
      AheadAfterTick(s, t, na, nb, ip, x.elapsed);
    } else if Calls(s, x, ip) {
      AheadAfterCall(s, t, na, nb, ip, x.pid, gap);
    } else if x.Leave? && s.workers[x.pid].ip == ip {
      AheadAfterOwnLeave(s, t, na, nb, ip, x.pid, x.newRef, y.newRef);
    } else {
      AheadAfterOther(s, t, na, nb, ip, x, y, gap);
    }
  }

  lemma AheadMove(s: State, t: State, na: nat, nb: nat, ip: Ip, m: Move, gap: nat)
    requires Ahead(s, t, na, nb, ip) && SameRequests(s, t) && Sound(s, gap) && Sound(t, gap)
    requires CanTake(s, m.first, gap) && CanTake(t, m.second, gap) && InLockstep(s, t, m, ip)
    ensures Ahead(Moved(s, m.first), Moved(t, m.second), na + Gained(s, m.first, ip), nb + Gained(t, m.second, ip), ip)
  {
    match m
    case Move(Some(x), Some(y)) =>
      if Bones(x) != [] {
        AheadAfterBoth(s, t, na, nb, ip, x, y, gap);
      } else {
        AheadAfterOwnTuning(s, t, na, nb, ip, x, y);
      }
    case Move(Some(x), None) => AheadAfterEviction(s, t, na, nb, ip, x, gap);
    case Move(None, Some(y)) => AheadAfterTuning(s, t, na, nb, ip, y, gap);
  }

  // ----- whole runs -----

  lemma OneMoreMove(from: State, run: seq<Step>, step: Option<Step>, ip: Ip, gap: nat)
    requires Run(from, run, gap) && CanTake(After(from, run), step, gap)
    ensures Run(from, run + Taken(step), gap) && After(from, run + Taken(step)) == Moved(After(from, run), step)
    ensures Admissions(from, run + Taken(step), ip) == Admissions(from, run, ip) + Gained(After(from, run), step, ip)
  {
    if step.Some? {
      assert (run + [step.value])[..|run|] == run;
    } else {
      assert run + [] == run;
    }
  }

  lemma SoundAlways(limit: nat, run: seq<Step>, gap: nat)
    requires Run(Start(limit), run, gap) && gap <= IDLE_LIMIT
    ensures Sound(After(Start(limit), run), gap)
  {
    UniformTuning(limit, run, gap);
    HoldersCurrentAlways(limit, run, gap);
  }

  lemma {:induction false} LockstepRuns(limit: nat, moves: seq<Move>, ip: Ip, gap: nat)
    requires Lockstep(limit, moves, ip, gap)
    ensures Run(Start(limit), Firsts(moves), gap) && Run(Start(limit), Seconds(moves), gap)
    ensures SameRequests(After(Start(limit), Firsts(moves)), After(Start(limit), Seconds(moves)))
  {
    if moves != [] {
      var front, m := moves[..|moves| - 1], moves[|moves| - 1];
      LockstepRuns(limit, front, ip, gap);
      OneMoreMove(Start(limit), Firsts(front), m.first, ip, gap);
      OneMoreMove(Start(limit), Seconds(front), m.second, ip, gap);
      SameRequestsMove(After(Start(limit), Firsts(front)), After(Start(limit), Seconds(front)), m, ip, gap);
    }
  }

  lemma {:induction false} AheadAlways(limit: nat, moves: seq<Move>, ip: Ip, gap: nat)
    requires Lockstep(limit, moves, ip, gap) && gap <= IDLE_LIMIT
    ensures Ahead(After(Start(limit), Firsts(moves)), After(Start(limit), Seconds(moves)),
                  Admissions(Start(limit), Firsts(moves), ip), Admissions(Start(limit), Seconds(moves), ip), ip)
  {
    if moves != [] {
      var front, m := moves[..|moves| - 1], moves[|moves| - 1];
      AheadAlways(limit, front, ip, gap);
      LockstepRuns(limit, front, ip, gap);
      SoundAlways(limit, Firsts(front), gap);
      SoundAlways(limit, Seconds(front), gap);
      var s, t := After(Start(limit), Firsts(front)), After(Start(limit), Seconds(front));
      AheadMove(s, t, Admissions(Start(limit), Firsts(front), ip), Admissions(Start(limit), Seconds(front), ip),
                ip, m, gap);
      OneMoreMove(Start(limit), Firsts(front), m.first, ip, gap);
      OneMoreMove(Start(limit), Seconds(front), m.second, ip, gap);
    }
  }

  lemma LockstepFront(limit: nat, moves: seq<Move>, ip: Ip, gap: nat)
    requires moves != [] && Lockstep(limit, moves, ip, gap)
    ensures Lockstep(limit, moves[..|moves| - 1], ip, gap)
  {
  }

  lemma FrontPrefix(moves: seq<Move>, upTo: nat)
    requires upTo < |moves|
    ensures moves[..|moves| - 1][..upTo] == moves[..upTo]
  {
  }

  lemma {:induction false} LockstepPrefix(limit: nat, moves: seq<Move>, ip: Ip, gap: nat, upTo: nat)
    requires Lockstep(limit, moves, ip, gap) && upTo <= |moves|
    ensures Lockstep(limit, moves[..upTo], ip, gap)
  {
    if upTo == |moves| {
      assert moves[..upTo] == moves;
    } else {
      LockstepFront(limit, moves, ip, gap);
      LockstepPrefix(limit, moves[..|moves| - 1], ip, gap, upTo);
      FrontPrefix(moves, upTo);
    }
  }

  lemma BonesTaken(run: seq<Step>, step: Option<Step>)
    ensures Skeleton(run + Taken(step)) == Skeleton(run) + if step.Some? then Bones(step.value) else []
  {
    if step.Some? {
      SkeletonConcat(run, [step.value]);
      OneStepAlone(step.value);
    } else {
      assert run + [] == run;
    }
  }

  lemma SameBones(s: State, t: State, m: Move, ip: Ip)
    requires InLockstep(s, t, m, ip)
    ensures (if m.first.Some? then Bones(m.first.value) else []) == if m.second.Some? then Bones(m.second.value) else []
    ensures m.second.Some? ==> !m.second.value.Evict?
  {
  }

  lemma {:induction false} SameSkeleton(limit: nat, moves: seq<Move>, ip: Ip, gap: nat)
    requires Lockstep(limit, moves, ip, gap)
    ensures Skeleton(Firsts(moves)) == Skeleton(Seconds(moves)) && WithoutEvictions(Seconds(moves))
  {
    if moves != [] {
      var front, m := moves[..|moves| - 1], moves[|moves| - 1];
      SameSkeleton(limit, front, ip, gap);
      SameBones(After(Start(limit), Firsts(front)), After(Start(limit), Seconds(front)), m, ip);
      BonesTaken(Firsts(front), m.first);
      BonesTaken(Seconds(front), m.second);
    }
  }

  /** Runs in lockstep differ in cleanup only. */
  lemma LockstepIsPaired(limit: nat, moves: seq<Move>, ip: Ip, gap: nat)
    requires Lockstep(limit, moves, ip, gap)
    ensures Paired(limit, Firsts(moves), Seconds(moves), gap)
  {
    LockstepRuns(limit, moves, ip, gap);
    SameSkeleton(limit, moves, ip, gap);
  }

  /**
   Cumulative dominance with interleaved requests and any limit changes: at every moment of
   two runs in lockstep, the one with evictions has admitted the address at least as often.
   */
  lemma EvictionNeverCostsAdmissions(limit: nat, moves: seq<Move>, ip: Ip, gap: nat, upTo: nat)
    requires Lockstep(limit, moves, ip, gap) && gap <= 300_000_000_000 && upTo <= |moves|
    ensures Admissions(Start(limit), Seconds(moves[..upTo]), ip) <= Admissions(Start(limit), Firsts(moves[..upTo]), ip)
  {
    LockstepPrefix(limit, moves, ip, gap, upTo);
    AheadAlways(limit, moves[..upTo], ip, gap);
  }
}
