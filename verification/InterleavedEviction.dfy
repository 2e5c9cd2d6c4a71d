/**
 When a client can notice that its idle bucket was deleted, with requests interleaved step by
 step: as soon as any reload changes the limit at all, or Allow may lag too long behind
 getLimiter. A lower limit hides nothing here, for requests that read the configuration before
 the reload may bring the old limit back, to a bucket that was clamped meanwhile or to a fresh
 one.
 */
module InterleavedEviction {
  import opened AtomicRefinement
  import opened InterleavedLimiter
  import opened LimiterTuning
  import opened LimiterWindow
  import opened PairedRuns
  import opened RateLimiter
  import opened TokenBucket
  import opened UnfoldingPairs
  import Atomic = AtomicRuns
  import PrivateBuckets
  import VisibleEviction

  // ----- when nothing is noticed -----

  ghost predicate AllAre(reloads: seq<nat>, limit: nat) {
    forall m | m in reloads :: m == limit
  }

  lemma NoReloads(limit: nat, run: seq<Step>)
    requires AllAre(Reloads(run), limit)
    ensures PrivateBuckets.NeverReloaded(run, limit)
  {
    forall step | step in run && step.Publish? ensures step.limit == limit {
      PublishedIsAReload(run, step);
    }
  }

  /** At a fixed limit both runs give the verdicts of the same private bucket. */
  lemma UnseenAtAFixedLimit(limit: nat, run: seq<Step>, bare: seq<Step>, gap: nat, ip: Ip)
    requires Paired(limit, run, bare, gap) && gap <= SAFE_GAP && AllAre(Reloads(run), limit)
    ensures Verdicts(Start(limit), run, ip) == Verdicts(Start(limit), bare, ip)
  {
    PairedAgree(limit, run, bare, gap, ip);
    NoReloads(limit, run);
    NoReloads(limit, bare);
    PrivateBuckets.ActsPrivateWithin(limit, run, ip, gap);
    PrivateBuckets.ActsPrivateWithin(limit, bare, ip, gap);
  }

  /** At a limit of zero nobody is served at all. */
  lemma {:induction false} ZeroServesNobody(run: seq<Step>, gap: nat, ip: Ip)
    requires Run(Start(0), run, gap) && PrivateBuckets.NeverReloaded(run, 0)
    ensures |Verdicts(Start(0), run, ip)| == |CallTimes(Start(0), run, ip)|
    ensures forall served | served in Verdicts(Start(0), run, ip) :: !served
  {
    if run != [] {
      var front := run[..|run| - 1];
      assert forall step | step in front :: step in run;
      ZeroServesNobody(front, gap, ip);
      PrivateBuckets.FixedAlways(0, front, gap);
    }
  }

  lemma UnseenAtZero(run: seq<Step>, bare: seq<Step>, gap: nat, ip: Ip)
    requires Paired(0, run, bare, gap) && AllAre(Reloads(run), 0)
    ensures Verdicts(Start(0), run, ip) == Verdicts(Start(0), bare, ip)
  {
    PairedAgree(0, run, bare, gap, ip);
    NoReloads(0, run);
    NoReloads(0, bare);
    ZeroServesNobody(run, gap, ip);
    ZeroServesNobody(bare, gap, ip);
    var x, y := Verdicts(Start(0), run, ip), Verdicts(Start(0), bare, ip);
    forall i | 0 <= i < |x| ensures x[i] == y[i] {
      assert x[i] in x && y[i] in y;
    }
  }

  // ----- a request too many -----

  /** A request of "a" that read this limit would find this much in its bucket. */
  ghost predicate WouldFind(s: State, read: nat, units: nat) {
    VisibleEviction.Finds(Atomic.World(read, View(s)), units, s.now)
  }

  /** One request of those waiting. */
  lemma AskNext(p: Pair, read: nat, first: Pid, n: nat, unitsS: nat, unitsT: nat) returns (p': Pair)
    requires Aligned(p) && n >= 1 && read >= 1 && BothWaiting(p, read, first, n)
    requires WouldFind(p.s, read, unitsS) && WouldFind(p.t, read, unitsT)
    ensures Aligned(p') && Continues(p, p') && BothWaiting(p', read, first + 1, n - 1)
    ensures p'.inRun == p.inRun + [TOKEN <= unitsS] && p'.inBare == p.inBare + [TOKEN <= unitsT]
    ensures TOKEN <= unitsS ==> WouldFind(p'.s, read, unitsS - TOKEN)
    ensures TOKEN <= unitsT ==> WouldFind(p'.t, read, unitsT - TOKEN)
  {
    p' := AskBoth(p, first);
    VisibleEviction.RequestTakes(Atomic.World(read, View(p.s)), unitsS, p.s.now);
    VisibleEviction.RequestTakes(Atomic.World(read, View(p.t)), unitsT, p.s.now);
  }

  /** The first run has tokens for all of these requests, the second has not. */
  lemma {:induction false} OneTooMany(p: Pair, read: nat, first: Pid, n: nat, unitsS: nat, unitsT: nat)
    returns (p': Pair)
    requires Aligned(p) && read >= 1 && BothWaiting(p, read, first, n) && unitsT < n * TOKEN <= unitsS
    requires WouldFind(p.s, read, unitsS) && WouldFind(p.t, read, unitsT)
    ensures Aligned(p') && Continues(p, p') && p'.inRun != p'.inBare
    decreases n
  {
    MulMonotone(1, n, TOKEN);
    p' := AskNext(p, read, first, n, unitsS, unitsT);
    if TOKEN <= unitsT {
      p' := OneTooMany(p', read, first + 1, n - 1, unitsS - TOKEN, unitsT - TOKEN);
    } else {
      assert p'.inRun[|p'.inRun| - 1] && !p'.inBare[|p'.inBare| - 1];
    }
  }

  // ----- reloads -----

  lemma {:induction false} PublishSame(limit: nat, least: nat, same: seq<nat>) returns (p: Pair)
    requires AllAre(same, limit)
    ensures Aligned(p) && p.limit == limit && p.least == least && p.reloads == same && p.s == p.t == Start(limit)
  {
    if same == [] {
      p := Pair(limit, least, [], [], [], Start(limit), Start(limit), [], []);
    } else {
      var front := same[..|same| - 1];
      assert same[|same| - 1] in same && forall m | m in front :: m in same;
      p := PublishSame(limit, least, front);
      p := PublishBoth(p, limit);
      assert same == front + [limit];
    }
  }

  lemma PublishOne(p: Pair, value: nat) returns (p': Pair)
    requires Aligned(p)
    ensures Aligned(p') && Continues(p.(reloads := p.reloads + [value]), p')
    ensures p'.inRun == p.inRun && p'.inBare == p.inBare
  {
    p' := PublishBoth(p, value);
  }

  lemma {:induction false} PublishRest(p: Pair, more: seq<nat>) returns (p': Pair)
    requires Aligned(p)
    ensures Aligned(p') && Continues(p.(reloads := p.reloads + more), p')
    ensures p'.inRun == p.inRun && p'.inBare == p.inBare
  {
    p' := p;
    if more == [] {
      assert p.reloads + more == p.reloads;
    } else {
      var front, last := more[..|more| - 1], more[|more| - 1];
      p' := PublishRest(p, front);
      p' := PublishOne(p', last);
      assert p.reloads + more == (p.reloads + front) + [last];
    }
  }

  // ----- a reload that changes the limit is noticed -----

  /** "a" came once under this limit, long ago, and has been evicted in the first run only. */
  ghost predicate Parted(p: Pair) {
    && Aligned(p) && p.s.now == Atomic.STALE && p.s.published == p.limit && Below(p.s, 1)
    && View(p.s) == Table(p.limit, map[])
    && View(p.t) == Table(p.limit, map["a" := VisibleEviction.Used(p.limit)])
  }

  lemma FirstComes(limit: nat, same: seq<nat>) returns (p: Pair)
    requires AllAre(same, limit)
    ensures Aligned(p) && p.limit == limit && p.least == 0 && p.reloads == same
    ensures p.s.now == 0 && p.s.published == limit && Below(p.s, 1)
    ensures View(p.s) == View(p.t) == Table(limit, map["a" := VisibleEviction.Used(limit)])
  {
    p := PublishSame(limit, 0, same);
    p := ReadBoth(p, 0, "a");
    assert View(Start(limit)) == Table(limit, map[]);
    p := AskBoth(p, 0);
    VisibleEviction.FirstRequestUses(Table(limit, map[]), limit);
  }

  lemma ThenParts(limit: nat, same: seq<nat>) returns (p: Pair)
    requires AllAre(same, limit)
    ensures Parted(p) && p.limit == limit && p.least == 0 && p.reloads == same
  {
    p := FirstComes(limit, same);
    p := WaitBoth(p, Atomic.STALE);
    assert "a" in View(p.s).clients && View(p.s).clients["a"].lastSeen == 0;
    p := EvictFirst(p);
    assert map["a" := VisibleEviction.Used(limit)] - {"a"} == map[];
  }

  /** A higher limit: new requests read it, and find a full bucket or a retuned one. */
  lemma RiseIsNoticed(p: Pair, high: nat) returns (p': Pair)
    requires Parted(p) && p.limit < high
    ensures Aligned(p') && Continues(p.(reloads := p.reloads + [high]), p') && p'.inRun != p'.inBare
  {
    p' := PublishBoth(p, high);
    p' := ReadAll(p', 1, p.limit + 1);
    VisibleEviction.RaisedTokens(p.limit, high);
    MulMonotone(p.limit + 1, high, TOKEN);
    p' := OneTooMany(p', high, 1, p.limit + 1, high * TOKEN, p.limit * TOKEN);
  }

  /** This request of "b" has read this limit. */
  predicate Reads(s: State, pid: Pid, limit: nat) {
    pid in s.workers && s.workers[pid] == Worker("b", Snapped(limit))
  }

  lemma ReadOldAndNew(p: Pair, low: nat) returns (p': Pair)
    requires Parted(p) && low < p.limit
    ensures Aligned(p') && Continues(p.(reloads := p.reloads + [low]), p') && Silent(p, p') && p'.s.now == Atomic.STALE
    ensures BothWaiting(p', p.limit, 1, low + 1) && Reads(p'.s, low + 2, low) && Reads(p'.t, low + 2, low)
  {
    p' := ReadAll(p, 1, low + 1);
    p' := PublishBoth(p', low);
    p' := ReadBoth(p', low + 2, "b");
  }

  /** The request of "b" passes with the new limit, while those of "a" still hold the old one. */
  lemma PassWithNew(p: Pair, read: nat, stale: nat, n: nat) returns (p': Pair)
    requires Aligned(p) && BothWaiting(p, stale, 1, n) && Reads(p.s, n + 1, read) && Reads(p.t, n + 1, read)
    ensures Aligned(p') && Continues(p, p') && p'.s.now == p.s.now && BothWaiting(p', stale, 1, n)
    ensures var e := Atomic.Request("b", p.s.now);
            && View(p'.s) == Atomic.Next(Atomic.World(read, View(p.s)), e).table
            && View(p'.t) == Atomic.Next(Atomic.World(read, View(p.t)), e).table
  {
    p' := AskBoth(p, n + 1);
  }

  lemma FlippedTokens(low: nat, high: nat)
    requires low < high
    ensures var e, now := Atomic.Request("b", Atomic.STALE), Atomic.STALE;
            var evicted := Atomic.Next(Atomic.World(low, Table(high, map[])), e).table;
            var kept := Atomic.Next(Atomic.World(low, Table(high, map["a" := VisibleEviction.Used(high)])), e).table;
            && VisibleEviction.Has(Atomic.World(high, evicted), high, now)
            && VisibleEviction.Has(Atomic.World(high, kept), low, now)
  {
    var used := VisibleEviction.Used(high);
    FullAfterAMinute(used.bucket, Atomic.STALE);
    RetuneClamps(used.bucket, low, Atomic.STALE);
    MulMonotone(low, high, TOKEN);
    RetuneClamps(Retune(used.bucket, low, Atomic.STALE), high, Atomic.STALE);
  }

  /** A lower limit: requests that read the old one find a full bucket or one that was clamped. */
  lemma FallIsNoticed(p: Pair, low: nat) returns (p': Pair)
    requires Parted(p) && low < p.limit
    ensures Aligned(p') && Continues(p.(reloads := p.reloads + [low]), p') && p'.inRun != p'.inBare
  {
    p' := ReadOldAndNew(p, low);
    p' := PassWithNew(p', low, p.limit, low + 1);
    FlippedTokens(low, p.limit);
    MulMonotone(low + 1, p.limit, TOKEN);
    p' := OneTooMany(p', p.limit, 1, low + 1, p.limit * TOKEN, low * TOKEN);
  }

  /** Paired runs with these reloads that tell "a" different things. */
  ghost predicate Noticed(limit: nat, reloads: seq<nat>, run: seq<Step>, bare: seq<Step>, gap: nat) {
    && Paired(limit, run, bare, gap) && Reloads(run) == reloads
    && Verdicts(Start(limit), run, "a") != Verdicts(Start(limit), bare, "a")
  }

  lemma AlignedIsPaired(p: Pair, gap: nat)
    requires Aligned(p) && p.least <= gap && p.inRun != p.inBare
    ensures Noticed(p.limit, p.reloads, p.run, p.bare, gap)
  {
    assert Reaches(Start(p.limit), p.run, gap, p.s) && Reaches(Start(p.limit), p.bare, gap, p.t);
  }

  lemma FirstChange(limit: nat, reloads: seq<nat>) returns (i: nat)
    requires !AllAre(reloads, limit)
    ensures i < |reloads| && reloads[i] != limit && AllAre(reloads[..i], limit)
  {
    i := 0;
    while reloads[i] == limit
      invariant i < |reloads| && forall j | 0 <= j < i :: reloads[j] == limit
      invariant exists j :: i <= j < |reloads| && reloads[j] != limit
      decreases |reloads| - i
    {
      i := i + 1;
    }
  }

  /** After reloads that change nothing comes one that does. */
  lemma FirstChangeIsNoticed(limit: nat, same: seq<nat>, changed: nat) returns (p: Pair)
    requires AllAre(same, limit) && changed != limit
    ensures Aligned(p) && p.limit == limit && p.least == 0 && p.reloads == same + [changed] && p.inRun != p.inBare
  {
    p := ThenParts(limit, same);
    if limit < changed {
      p := RiseIsNoticed(p, changed);
    } else {
      p := FallIsNoticed(p, changed);
    }
  }

  lemma ChangeIsNoticed(limit: nat, reloads: seq<nat>, gap: nat) returns (run: seq<Step>, bare: seq<Step>)
    requires !AllAre(reloads, limit)
    ensures Noticed(limit, reloads, run, bare, gap)
  {
    var i := FirstChange(limit, reloads);
    var same, changed, more := reloads[..i], reloads[i], reloads[i + 1..];
    assert same + [changed] + more == reloads;
    var p := FirstChangeIsNoticed(limit, same, changed);
    p := PublishRest(p, more);
    AlignedIsPaired(p, gap);
    run, bare := p.run, p.bare;
  }

  // ----- a late Allow is noticed -----

  /** Both runs are still the same. */
  ghost predicate Same(p: Pair) {
    Aligned(p) && p.s == p.t
  }

  /** The first `n` requests of "a" were handed the bucket it has in the table at time 0. */
  ghost predicate Held(s: State, n: nat) {
    "a" in s.clients && forall pid | 0 <= pid < n ::
      pid in s.workers && s.workers[pid] == Worker("a", Holding(s.clients["a"].ref, 0))
  }

  /** "a" is alone in the table, with a bucket of this limit that was last handed out at time 0. */
  ghost predicate AloneWith(s: State, limit: nat, units: nat) {
    && s.currentLimit == s.published == limit && View(s).clients.Keys == {"a"}
    && var c := View(s).clients["a"];
       && c.lastSeen == 0 && c.bucket.limit == c.bucket.burst == limit && c.bucket.last <= s.now
       && Tokens(c.bucket, s.now) == units
  }

  lemma PassSame(p: Pair, pid: Pid) returns (p': Pair)
    requires Same(p) && Enabled(p.s, Enter(pid))
    ensures Same(p') && Continues(p, p') && p'.s.now == p.s.now && p'.s.published == p.s.published
    ensures var w := p.s.workers[pid];
            && View(p'.s) == AfterLookup(View(p.s), w.ip, w.phase.limit, p.s.now) && w.ip in p'.s.clients
            && p'.s.workers == p.s.workers[pid := Worker(w.ip, Holding(p'.s.clients[w.ip].ref, p.s.now))]
  {
    InShape(p);
    var passage, s' := PassThrough(p.s, pid);
    PassageLeads(p.s, passage, s', pid, p.least);
    var x := Stretch(passage, s', []);
    Join(p, x, x, [Enter(pid), Leave(pid, 0)], []);
    assert p.reloads + [] == p.reloads;
    p' := Joined(p, x, x, []);
  }

  /** Nothing has been evicted at time 0, so whoever holds a bucket holds the one in the table. */
  lemma HoldersHoldTheTables(p: Pair, pid: Pid)
    requires Same(p) && p.least <= IDLE_LIMIT && p.s.now == 0
    requires pid in p.s.workers && p.s.workers[pid].phase.Holding? && p.s.workers[pid].phase.since == 0
    ensures var w := p.s.workers[pid]; w.ip in p.s.clients && p.s.clients[w.ip].ref == w.phase.ref
  {
    assert Reaches(Start(p.limit), p.run, p.least, p.s);
    HoldersCurrentAlways(p.limit, p.run, p.least);
  }

  lemma HandedOut(p: Pair, n: nat) returns (p': Pair)
    requires Same(p) && p.s.now == 0 && p.s.published == p.limit && Below(p.s, n)
    ensures Same(p') && Continues(p, p') && p'.s.now == 0 && p'.s.published == p.limit && Below(p'.s, n + 1)
    ensures View(p'.s) == AfterLookup(View(p.s), "a", p.limit, 0) && "a" in p'.s.clients
    ensures p'.s.workers == p.s.workers[n := Worker("a", Holding(p'.s.clients["a"].ref, 0))]
  {
    var p1 := ReadBoth(p, n, "a");
    p' := PassSame(p1, n);
    WorkerTwice(p.s.workers, n, p1.s.workers[n], p'.s.workers[n]);
  }

  lemma AllHold(p: Pair, n: nat, workers: map<Pid, Worker>)
    requires Same(p) && p.least <= IDLE_LIMIT && p.s.now == 0 && "a" in p.s.clients
    requires p.s.workers == workers[n := Worker("a", Holding(p.s.clients["a"].ref, 0))]
    requires forall pid | 0 <= pid < n ::
               pid in workers && workers[pid].ip == "a" && workers[pid].phase.Holding? && workers[pid].phase.since == 0
    ensures Held(p.s, n + 1)
  {
    forall pid | 0 <= pid < n + 1
      ensures pid in p.s.workers && p.s.workers[pid] == Worker("a", Holding(p.s.clients["a"].ref, 0))
    {
      HoldersHoldTheTables(p, pid);
    }
  }

  lemma HoldOne(p: Pair, n: nat) returns (p': Pair)
    requires Same(p) && p.least <= IDLE_LIMIT && p.s.now == 0 && Below(p.s, n)
    requires if n > 0 then Held(p.s, n) && AloneWith(p.s, p.limit, p.limit * TOKEN) else p.s == Start(p.limit)
    ensures Same(p') && Continues(p, p') && p'.s.now == 0 && Below(p'.s, n + 1)
    ensures Held(p'.s, n + 1) && AloneWith(p'.s, p.limit, p.limit * TOKEN)
  {
    p' := HandedOut(p, n);
    AllHold(p', n, p.s.workers);
  }

  lemma {:induction false} HoldAll(limit: nat, same: seq<nat>, n: nat) returns (p: Pair)
    requires AllAre(same, limit) && n > 0
    ensures Same(p) && p.limit == limit && p.least == LATE && p.reloads == same && p.s.now == 0 && Below(p.s, n)
    ensures Held(p.s, n) && AloneWith(p.s, limit, limit * TOKEN)
  {
    if n == 1 {
      p := PublishSame(limit, LATE, same);
    } else {
      p := HoldAll(limit, same, n - 1);
    }
    p := HoldOne(p, n - 1);
  }

  /** One of the requests that hold the bucket calls Allow, as late as it may. */
  lemma CallLate(p: Pair, n: nat, units: nat) returns (p': Pair)
    requires Same(p) && p.s.now == p.least && n > 0 && Held(p.s, n) && AloneWith(p.s, p.limit, units)
    requires TOKEN <= units && p.limit > 0
    ensures Same(p') && Continues(p, p') && p'.s.now == p.s.now && p'.s.workers.Keys == p.s.workers.Keys
    ensures Held(p'.s, n - 1) && AloneWith(p'.s, p.limit, units - TOKEN)
  {
    InShape(p);
    var call := Allow(n - 1);
    assert p.s.clients["a"].ref in Refs(p.s);
    AllowIsAtomic(p.s, n - 1);
    OneStep(p.s, call, p.least);
    var x := Stretch([call], Apply(p.s, call), Told(p.s, call));
    Join(p, x, x, Bones(call), Reload(call));
    assert p.reloads + [] == p.reloads;
    p' := Joined(p, x, x, []);
  }

  lemma {:induction false} CallAll(p: Pair, n: nat) returns (p': Pair)
    requires Same(p) && p.s.now == p.least && Held(p.s, n) && AloneWith(p.s, p.limit, n * TOKEN) && n <= p.limit
    ensures Same(p') && Continues(p, p') && p'.s.now == p.s.now && p'.s.workers.Keys == p.s.workers.Keys
    ensures AloneWith(p'.s, p.limit, 0)
    decreases n
  {
    p' := p;
    if n > 0 {
      MulMonotone(1, n, TOKEN);
      p' := CallLate(p, n, n * TOKEN);
      p' := CallAll(p', n - 1);
    }
  }

  /** As many requests as the limit hold a bucket until LATE, and then empty it. */
  lemma EmptiedLate(limit: nat, same: seq<nat>) returns (p: Pair)
    requires AllAre(same, limit) && limit > 0
    ensures Same(p) && p.limit == limit && p.least == LATE && p.reloads == same && p.s.now == LATE && Below(p.s, limit)
    ensures AloneWith(p.s, limit, 0)
  {
    p := HoldAll(limit, same, limit);
    FullStays(View(p.s).clients["a"].bucket, LATE);
    p := WaitBoth(p, LATE);
    p := CallAll(p, limit);
  }

  lemma FullStays(b: Bucket, later: nat)
    requires b.last == 0 && Tokens(b, 0) == b.burst * TOKEN
    ensures Tokens(b, later) == b.burst * TOKEN
  {
    AdvanceComposes(b, 0, later);
    MulMonotone(0, later, b.limit);
  }

  /** When the entry becomes idle the bucket is a nanosecond's refill short of full. */
  lemma AlmostFull(limit: nat, same: seq<nat>) returns (p: Pair)
    requires AllAre(same, limit) && limit > 0
    ensures Same(p) && p.limit == limit && p.least == LATE && p.reloads == same && p.s.now == EVICTED
    ensures Below(p.s, limit) && AloneWith(p.s, limit, limit * (TOKEN - 1))
  {
    p := EmptiedLate(limit, same);
    var b := View(p.s).clients["a"].bucket;
    AdvanceComposes(b, LATE, EVICTED);
    MulMonotone(TOKEN - 1, TOKEN, limit);
    p := WaitBoth(p, EVICTED - LATE);
  }

  lemma LateAllowIsNoticed(limit: nat, reloads: seq<nat>, gap: nat) returns (run: seq<Step>, bare: seq<Step>)
    requires AllAre(reloads, limit) && limit > 0 && gap > SAFE_GAP
    ensures Noticed(limit, reloads, run, bare, gap)
  {
    var p := AlmostFull(limit, reloads);
    p := EvictFirst(p);
    p := ReadAll(p, limit, limit);
    MulMonotone(TOKEN - 1, TOKEN, limit);
    p := OneTooMany(p, limit, limit, limit, limit * TOKEN, limit * (TOKEN - 1));
    AlignedIsPaired(p, gap);
    run, bare := p.run, p.bare;
  }

  // ----- the exact condition -----

  /** Cleanup changes no verdict in any run with these reloads. */
  ghost predicate Unnoticed(limit: nat, reloads: seq<nat>, gap: nat) {
    forall run, bare, ip | Paired(limit, run, bare, gap) && Reloads(run) == reloads ::
      Verdicts(Start(limit), run, ip) == Verdicts(Start(limit), bare, ip)
  }

  /**
   The exact condition with interleaved requests, known before the reloads are made: of any two
   runs that differ in cleanup only both give every address the same verdicts, if and only if
   no reload changes the limit, and Allow follows getLimiter within four minutes and a
   nanosecond or the limit is 0.
   */
  lemma EvictionIsUnseenExactlyAtAFixedLimit(limit: nat, reloads: seq<nat>, gap: nat)
    ensures Unnoticed(limit, reloads, gap) <==> AllAre(reloads, limit) && (gap <= 240_000_000_001 || limit == 0)
  {
    if !AllAre(reloads, limit) {
      var run, bare := ChangeIsNoticed(limit, reloads, gap);
    } else if gap > SAFE_GAP && limit > 0 {
      var run, bare := LateAllowIsNoticed(limit, reloads, gap);
    } else {
      forall run, bare, ip | Paired(limit, run, bare, gap) && Reloads(run) == reloads
        ensures Verdicts(Start(limit), run, ip) == Verdicts(Start(limit), bare, ip)
      {
        if gap <= SAFE_GAP {
          UnseenAtAFixedLimit(limit, run, bare, gap, ip);
        } else {
          UnseenAtZero(run, bare, gap, ip);
        }
      }
    }
  }
}
