/**
 Whole runs of the rate limiter in which every request, reload and cleanup pass is one
 atomic event. The theorems compare such a run with simpler ones: the same run without
 cleanup, and one private bucket per address.
 */
module AtomicRuns {
  import opened Options
  import opened RateLimiter
  import opened TokenBucket

  datatype Event =
    | Request(ip: Ip, at: nat)
    | Publish(limit: nat, at: nat)
    | CleanupPass(at: nat)

  /** The published limit and the limiter's table. */
  datatype World = World(limit: nat, table: Table)

  function Start(limit: nat): World {
    World(limit, Table(limit, map[]))
  }

  function Next(w: World, e: Event): World {
    match e
    case Request(ip, at) => w.(table := AfterAllow(AfterLookup(w.table, ip, w.limit, at), ip, at))
    case Publish(limit, _) => w.(limit := limit)
    case CleanupPass(at) => w.(table := AfterCleanup(w.table, at))
  }

  predicate Served(w: World, e: Event)
    requires e.Request?
  {
    Admits(AfterLookup(w.table, e.ip, w.limit, e.at).clients[e.ip].bucket, e.at)
  }

  function After(w: World, run: seq<Event>): World {
    if run == [] then w else Next(After(w, run[..|run| - 1]), run[|run| - 1])
  }

  predicate Ordered(run: seq<Event>) {
    forall i, j | 0 <= i < j < |run| :: run[i].at <= run[j].at
  }

  function Clock(run: seq<Event>): nat {
    if run == [] then 0 else run[|run| - 1].at
  }

  /** The answers `ip` gets, in order. */
  function Decisions(w: World, run: seq<Event>, ip: Ip): seq<bool> {
    if run == [] then [] else
    var front, e := run[..|run| - 1], run[|run| - 1];
    Decisions(w, front, ip) + if e.Request? && e.ip == ip then [Served(After(w, front), e)] else []
  }

  function Admissions(w: World, run: seq<Event>, ip: Ip): nat {
    if run == [] then 0 else
    var front, e := run[..|run| - 1], run[|run| - 1];
    Admissions(w, front, ip) + if e.Request? && e.ip == ip && Served(After(w, front), e) then 1 else 0
  }

  // ----- eviction never costs a client an admission -----

  function WithoutCleanup(run: seq<Event>): seq<Event> {
    if run == [] then [] else
    var front, e := run[..|run| - 1], run[|run| - 1];
    WithoutCleanup(front) + if e.CleanupPass? then [] else [e]
  }

  predicate BucketTuned(t: Table, ip: Ip, now: nat) {
    ip in t.clients ==>
      var b := t.clients[ip].bucket;
      b.limit == b.burst == t.currentLimit && b.last <= now
  }

  /**
   World `a` has cleanup, `b` does not, and so far they served `ip` `na` and `nb` times.
   Counts plus tokens in hand keep `a` ahead; an address `a` has evicted is owed a full bucket.
   */
  ghost predicate Ahead(a: World, b: World, na: nat, nb: nat, ip: Ip, now: nat) {
    && a.limit == b.limit && a.table.currentLimit == b.table.currentLimit
    && BucketTuned(a.table, ip, now) && BucketTuned(b.table, ip, now)
    && nb <= na
    && (ip in a.table.clients ==> ip in b.table.clients)
    && (ip in a.table.clients ==>
          nb * TOKEN + Tokens(b.table.clients[ip].bucket, now) <= na * TOKEN + Tokens(a.table.clients[ip].bucket, now))
  }

  lemma AheadLater(a: World, b: World, na: nat, nb: nat, ip: Ip, now: nat, later: nat)
    requires Ahead(a, b, na, nb, ip, now) && now <= later
    ensures Ahead(a, b, na, nb, ip, later)
  {
    if ip in a.table.clients {
      AdvanceComposes(a.table.clients[ip].bucket, now, later);
      AdvanceComposes(b.table.clients[ip].bucket, now, later);
    }
  }

  /** What a request by `client` does to the bucket of `ip` before any token is spent. */
  lemma LookupTokens(t: Table, client: Ip, limit: nat, now: nat, ip: Ip)
    requires BucketTuned(t, ip, now)
    ensures var t' := AfterLookup(t, client, limit, now);
            && BucketTuned(t', ip, now) && t'.currentLimit == limit
            && (ip in t'.clients <==> ip in t.clients || ip == client)
            && (ip in t.clients ==>
                  Tokens(t'.clients[ip].bucket, now) == Min(Tokens(t.clients[ip].bucket, now), limit * TOKEN))
            && (ip !in t.clients && ip == client ==> Tokens(t'.clients[ip].bucket, now) == limit * TOKEN)
  {
    if ip in t.clients {
      RetuneClamps(t.clients[ip].bucket, limit, now);
    }
  }

  lemma AheadLookup(a: World, b: World, na: nat, nb: nat, ip: Ip, client: Ip, now: nat)
    requires Ahead(a, b, na, nb, ip, now)
    ensures Ahead(a.(table := AfterLookup(a.table, client, a.limit, now)),
                  b.(table := AfterLookup(b.table, client, b.limit, now)), na, nb, ip, now)
  {
    LookupTokens(a.table, client, a.limit, now, ip);
    LookupTokens(b.table, client, b.limit, now, ip);
    if ip in AfterLookup(a.table, client, a.limit, now).clients && nb < na {
      MulMonotone(nb + 1, na, TOKEN);
    }
  }

  /** Both worlds spend a token, or one of them does, or neither. */
  lemma AheadAllow(a: World, b: World, na: nat, nb: nat, ip: Ip, now: nat)
    requires Ahead(a, b, na, nb, ip, now) && ip in a.table.clients
    ensures Ahead(a.(table := AfterAllow(a.table, ip, now)), b.(table := AfterAllow(b.table, ip, now)),
                  na + (if Admits(a.table.clients[ip].bucket, now) then 1 else 0),
                  nb + (if Admits(b.table.clients[ip].bucket, now) then 1 else 0), ip, now)
  {
  }

  lemma AheadStep(a: World, b: World, na: nat, nb: nat, ip: Ip, e: Event)
    requires Ahead(a, b, na, nb, ip, e.at)
    ensures !e.CleanupPass? ==>
              Ahead(Next(a, e), Next(b, e),
                    na + (if e.Request? && e.ip == ip && Served(a, e) then 1 else 0),
                    nb + (if e.Request? && e.ip == ip && Served(b, e) then 1 else 0), ip, e.at)
    ensures e.CleanupPass? ==> Ahead(Next(a, e), b, na, nb, ip, e.at)
  {
    if e.Request? {
      AheadLookup(a, b, na, nb, ip, e.ip, e.at);
      if e.ip == ip {
        AheadAllow(a.(table := AfterLookup(a.table, ip, a.limit, e.at)),
                   b.(table := AfterLookup(b.table, ip, b.limit, e.at)), na, nb, ip, e.at);
      }
    }
  }

  lemma {:induction false} AheadAlways(limit: nat, run: seq<Event>, ip: Ip)
    requires Ordered(run)
    ensures Ahead(After(Start(limit), run), After(Start(limit), WithoutCleanup(run)),
                  Admissions(Start(limit), run, ip), Admissions(Start(limit), WithoutCleanup(run), ip),
                  ip, Clock(run))
  {
    if run != [] {
      var front, e := run[..|run| - 1], run[|run| - 1];
      var w := Start(limit);
      AheadAlways(limit, front, ip);
      var a, b := After(w, front), After(w, WithoutCleanup(front));
      var na, nb := Admissions(w, front, ip), Admissions(w, WithoutCleanup(front), ip);
      AheadLater(a, b, na, nb, ip, Clock(front), e.at);
      AheadStep(a, b, na, nb, ip, e);
      if e.CleanupPass? {
        assert WithoutCleanup(run) == WithoutCleanup(front);
      } else {
        assert WithoutCleanup(run)[..|WithoutCleanup(run)| - 1] == WithoutCleanup(front);
      }
    }
  }

  /**
   Cumulative dominance. Whatever limits are published and however often the table is
   cleaned, at every moment each address has been served at least as often as it would
   have been in the same run without cleanup.
   */
  lemma CleanupNeverCostsAdmissions(limit: nat, run: seq<Event>, ip: Ip, upTo: nat)
    requires Ordered(run) && upTo <= |run|
    ensures Admissions(Start(limit), WithoutCleanup(run[..upTo]), ip) <= Admissions(Start(limit), run[..upTo], ip)
  {
    AheadAlways(limit, run[..upTo], ip);
  }

  // ----- but single decisions may go either way -----

  /** From this limit on the run leads to `w`, answering `answers` to "a". */
  ghost predicate At(limit: nat, run: seq<Event>, w: World, answers: seq<bool>) {
    After(Start(limit), run) == w && Decisions(Start(limit), run, "a") == answers
  }

  lemma OneMore(limit: nat, run: seq<Event>, w: World, answers: seq<bool>, e: Event)
    requires At(limit, run, w, answers)
    ensures At(limit, run + [e], Next(w, e), answers + if e.Request? && e.ip == "a" then [Served(w, e)] else [])
    ensures WithoutCleanup(run + [e]) == WithoutCleanup(run) + if e.CleanupPass? then [] else [e]
  {
    assert (run + [e])[..|run|] == run;
  }

  /** One client, with this bucket, under the limit the bucket is tuned to. */
  function Only(b: Bucket, seen: nat): World {
    World(b.limit, Table(b.limit, map["a" := Client(b, seen)]))
  }

  lemma Ask(run: seq<Event>, b: Bucket, seen: nat, answers: seq<bool>, at: nat)
    requires At(1, run, Only(b, seen), answers)
    ensures At(1, run + [Request("a", at)], Only(Spend(b, at), at), answers + [Admits(b, at)])
    ensures WithoutCleanup(run + [Request("a", at)]) == WithoutCleanup(run) + [Request("a", at)]
  {
    OneMore(1, run, Only(b, seen), answers, Request("a", at));
    assert Next(Only(b, seen), Request("a", at)) == Only(Spend(b, at), at);
  }

  const STALE: nat := IDLE_LIMIT + 1
  const SECOND: nat := NANOS_PER_MINUTE / 60

  const USED: Client := Client(Bucket(1, 1, 0, 0), 0)

  /** Spend the only token at time 0. */
  lemma FirstRequest()
    ensures At(1, [Request("a", 0)], Only(USED.bucket, 0), [true])
    ensures WithoutCleanup([Request("a", 0)]) == [Request("a", 0)]
  {
    var e := Request("a", 0);
    OneMore(1, [], Start(1), [], e);
    assert [] + [e] == [e];
    assert AfterLookup(Start(1).table, "a", 1, 0).clients == map["a" := Client(NewBucket(1, 1), 0)];
    assert Next(Start(1), e).table.clients == map["a" := USED];
  }

  lemma ThenEvicted()
    ensures At(1, [Request("a", 0), CleanupPass(STALE)], World(1, Table(1, map[])), [true])
    ensures WithoutCleanup([Request("a", 0), CleanupPass(STALE)]) == [Request("a", 0)]
  {
    FirstRequest();
    OneMore(1, [Request("a", 0)], Only(USED.bucket, 0), [true], CleanupPass(STALE));
    assert [Request("a", 0)] + [CleanupPass(STALE)] == [Request("a", 0), CleanupPass(STALE)];
    assert AfterCleanup(Table(1, map["a" := USED]), STALE).clients == map[];
  }

  /** The limit goes from 1 to 2 before the next request. */
  function Reloaded(run: seq<Event>): seq<Event> {
    run + [Publish(2, STALE)] + [Request("a", STALE)]
  }

  lemma AfterReloaded(run: seq<Event>, clients: map<Ip, Client>, b: Bucket)
    requires At(1, run, World(1, Table(1, clients)), [true])
    requires AfterLookup(Table(1, clients), "a", 2, STALE) == Only(b, STALE).table && b.limit == 2 && Admits(b, STALE)
    ensures At(1, Reloaded(run), Only(Spend(b, STALE), STALE), [true, true])
    ensures WithoutCleanup(Reloaded(run)) == Reloaded(WithoutCleanup(run))
  {
    OneMore(1, run, World(1, Table(1, clients)), [true], Publish(2, STALE));
    var w := World(2, Table(1, clients));
    assert At(1, run + [Publish(2, STALE)], w, [true]);
    OneMore(1, run + [Publish(2, STALE)], w, [true], Request("a", STALE));
    assert Next(w, Request("a", STALE)) == Only(Spend(b, STALE), STALE);
  }

  /** Evicted, the client starts again from a full bucket and keeps one token. */
  lemma OneTokenWhenEvicted(run: seq<Event>)
    requires At(1, run, World(1, Table(1, map[])), [true])
    ensures At(1, Reloaded(run), Only(Bucket(2, 2, TOKEN, STALE), STALE), [true, true])
    ensures WithoutCleanup(Reloaded(run)) == Reloaded(WithoutCleanup(run))
  {
    assert AfterLookup(Table(1, map[]), "a", 2, STALE).clients == map["a" := Client(NewBucket(2, 2), STALE)];
    AfterReloaded(run, map[], NewBucket(2, 2));
  }

  /** Retuned in place, the bucket holds just the one token the request spends. */
  lemma NoTokenWhenRetuned(run: seq<Event>)
    requires At(1, run, Only(USED.bucket, 0), [true])
    ensures At(1, Reloaded(run), Only(Bucket(2, 2, 0, STALE), STALE), [true, true])
  {
    var b, clients := Bucket(2, 2, TOKEN, STALE), map["a" := USED];
    assert Retune(USED.bucket, 2, STALE) == b;
    assert AfterLookup(Table(1, clients), "a", 2, STALE).clients == map["a" := Client(b, STALE)];
    AfterReloaded(run, clients, b);
  }

  /** Two more requests at `t` and one at `u`. */
  function Continued(run: seq<Event>, t: nat, u: nat): seq<Event> {
    run + [Request("a", t)] + [Request("a", t)] + [Request("a", u)]
  }

  /** What a bucket answers to those three requests. */
  ghost predicate Replies(b: Bucket, t: nat, u: nat, x: bool, y: bool, z: bool) {
    && x == Admits(b, t)
    && y == Admits(Spend(b, t), t)
    && z == Admits(Spend(Spend(b, t), t), u)
  }

  lemma AfterContinued(run: seq<Event>, b: Bucket, w: seq<bool>, t: nat, u: nat, x: bool, y: bool, z: bool)
    requires At(1, run, Only(b, STALE), w) && Replies(b, t, u, x, y, z)
    ensures Decisions(Start(1), Continued(run, t, u), "a") == w + [x, y, z]
    ensures WithoutCleanup(Continued(run, t, u)) == Continued(WithoutCleanup(run), t, u)
  {
    Ask(run, b, STALE, w, t);
    Ask(run + [Request("a", t)], Spend(b, t), t, w + [x], t);
    Ask(run + [Request("a", t)] + [Request("a", t)], Spend(Spend(b, t), t), t, w + [x] + [y], u);
    assert w + [x] + [y] + [z] == w + [x, y, z];
  }

  const SOON: nat := STALE + 45 * SECOND
  const LATER: nat := STALE + 60 * SECOND

  /** A token in hand buys the second answer, at the price of the third. */
  lemma ATokenMovesAnAnswer()
    ensures Replies(Bucket(2, 2, TOKEN, STALE), SOON, LATER, true, true, false)
    ensures Replies(Bucket(2, 2, 0, STALE), SOON, LATER, true, false, true)
  {
  }

  /** One run is served where the other is not, and the other way round. */
  ghost predicate Differ(run: seq<Event>, other: seq<Event>) {
    && Decisions(Start(1), run, "a") == [true, true] + [true, true, false]
    && Decisions(Start(1), other, "a") == [true, true] + [true, false, true]
  }

  lemma ContinuationsDiffer(run: seq<Event>, other: seq<Event>)
    requires At(1, run, Only(Bucket(2, 2, TOKEN, STALE), STALE), [true, true])
    requires At(1, other, Only(Bucket(2, 2, 0, STALE), STALE), [true, true])
    requires WithoutCleanup(run) == other
    ensures Differ(Continued(run, SOON, LATER), WithoutCleanup(Continued(run, SOON, LATER)))
  {
    ATokenMovesAnAnswer();
    AfterContinued(run, Bucket(2, 2, TOKEN, STALE), [true, true], SOON, LATER, true, true, false);
    AfterContinued(other, Bucket(2, 2, 0, STALE), [true, true], SOON, LATER, true, false, true);
  }

  lemma InOrder()
    ensures Ordered(Continued(Reloaded([Request("a", 0), CleanupPass(STALE)]), SOON, LATER))
  {
    assert Continued(Reloaded([Request("a", 0), CleanupPass(STALE)]), SOON, LATER) ==
      [Request("a", 0), CleanupPass(STALE), Publish(2, STALE), Request("a", STALE),
       Request("a", SOON), Request("a", SOON), Request("a", LATER)];
  }

  /**
   Dominance is about counts only. In this run the fourth request is served only thanks to
   the eviction, and the fifth only without it.
   */
  lemma SingleDecisionsMayDiffer()
    ensures exists run :: Ordered(run) && Differ(run, WithoutCleanup(run))
  {
    var kept, cleaned := [Request("a", 0)], [Request("a", 0), CleanupPass(STALE)];
    FirstRequest();
    NoTokenWhenRetuned(kept);
    ThenEvicted();
    OneTokenWhenEvicted(cleaned);
    InOrder();
    ContinuationsDiffer(Reloaded(cleaned), Reloaded(kept));
  }

  // ----- at a fixed limit eviction is unobservable -----

  function Times(run: seq<Event>, ip: Ip): seq<nat> {
    if run == [] then [] else
    var front, e := run[..|run| - 1], run[|run| - 1];
    Times(front, ip) + if e.Request? && e.ip == ip then [e.at] else []
  }

  /** One bucket that is never shared, retuned or deleted, fed with these request times. */
  function Private(limit: nat, times: seq<nat>): Bucket {
    if times == [] then NewBucket(limit, limit)
    else Spend(Private(limit, times[..|times| - 1]), times[|times| - 1])
  }

  function PrivateDecisions(limit: nat, times: seq<nat>): seq<bool> {
    if times == [] then [] else
    var front, at := times[..|times| - 1], times[|times| - 1];
    PrivateDecisions(limit, front) + [Admits(Private(limit, front), at)]
  }

  /** The shared table and the private bucket hold the same tokens, now and later. */
  ghost predicate Matches(w: World, b: Bucket, limit: nat, ip: Ip, now: nat) {
    && w.limit == w.table.currentLimit == limit == b.limit == b.burst && b.last <= now
    && if ip in w.table.clients then
         var c := w.table.clients[ip];
         && c.bucket.limit == c.bucket.burst == limit && c.bucket.last <= c.lastSeen <= now
         && Tokens(c.bucket, now) == Tokens(b, now)
       else Tokens(b, now) == limit * TOKEN
  }

  lemma MatchesLater(w: World, b: Bucket, limit: nat, ip: Ip, now: nat, later: nat)
    requires Matches(w, b, limit, ip, now) && now <= later
    ensures Matches(w, b, limit, ip, later)
  {
    AdvanceComposes(b, now, later);
    if ip in w.table.clients {
      AdvanceComposes(w.table.clients[ip].bucket, now, later);
    }
  }

  lemma MatchesStep(w: World, b: Bucket, limit: nat, ip: Ip, e: Event)
    requires Matches(w, b, limit, ip, e.at)
    requires e.Publish? ==> e.limit == limit
    ensures e.Request? && e.ip == ip ==>
              Served(w, e) == Admits(b, e.at) && Matches(Next(w, e), Spend(b, e.at), limit, ip, e.at)
    ensures !(e.Request? && e.ip == ip) ==> Matches(Next(w, e), b, limit, ip, e.at)
  {
    if e.CleanupPass? && ip in w.table.clients && Idle(w.table.clients[ip].lastSeen, e.at) {
      FullAfterAMinute(w.table.clients[ip].bucket, e.at);
    }
  }

  lemma {:induction false} MatchesAlways(limit: nat, run: seq<Event>, ip: Ip)
    requires Ordered(run)
    requires forall e | e in run && e.Publish? :: e.limit == limit
    ensures Matches(After(Start(limit), run), Private(limit, Times(run, ip)), limit, ip, Clock(run))
    ensures Decisions(Start(limit), run, ip) == PrivateDecisions(limit, Times(run, ip))
  {
    if run != [] {
      var front, e := run[..|run| - 1], run[|run| - 1];
      MatchesAlways(limit, front, ip);
      var w, b := After(Start(limit), front), Private(limit, Times(front, ip));
      MatchesLater(w, b, limit, ip, Clock(front), e.at);
      MatchesStep(w, b, limit, ip, e);
      if e.Request? && e.ip == ip {
        assert Times(run, ip)[..|Times(run, ip)| - 1] == Times(front, ip);
      } else {
        assert Times(run, ip) == Times(front, ip);
      }
    }
  }

  /**
   Refinement at a fixed limit. Every address gets exactly the decisions of a private,
   never deleted bucket that sees only its own request times: neither the other clients
   nor any schedule of cleanup passes can be observed.
   */
  lemma SharedTableActsAsPrivateBuckets(limit: nat, run: seq<Event>)
    requires Ordered(run)
    requires forall e | e in run && e.Publish? :: e.limit == limit
    ensures forall ip :: Decisions(Start(limit), run, ip) == PrivateDecisions(limit, Times(run, ip))
  {
    forall ip ensures Decisions(Start(limit), run, ip) == PrivateDecisions(limit, Times(run, ip)) {
      MatchesAlways(limit, run, ip);
    }
  }

  // ----- what the table contains -----

  function LastRequest(run: seq<Event>, ip: Ip): Option<nat> {
    if run == [] then None else
    var e := run[|run| - 1];
    if e.Request? && e.ip == ip then Some(e.at) else LastRequest(run[..|run| - 1], ip)
  }

  /** The time of the last cleanup pass; the ticker starts at time 0. */
  function LastPass(run: seq<Event>): nat {
    if run == [] then 0 else
    var e := run[|run| - 1];
    if e.CleanupPass? then e.at else LastPass(run[..|run| - 1])
  }

  /**
   Exactly which addresses the table holds, for any schedule of passes: those whose last
   request was not yet more than five minutes old at the last pass.
   */
  lemma {:induction false} TableContents(limit: nat, run: seq<Event>, ip: Ip)
    requires Ordered(run)
    ensures LastPass(run) <= Clock(run)
    ensures var clients := After(Start(limit), run).table.clients;
            && (ip in clients <==>
                  LastRequest(run, ip).Some? && LastPass(run) <= LastRequest(run, ip).value + 300_000_000_000)
            && (ip in clients ==> clients[ip].lastSeen == LastRequest(run, ip).value)
    ensures LastRequest(run, ip).Some? ==> LastRequest(run, ip).value <= Clock(run)
  {
    if run != [] {
      TableContents(limit, run[..|run| - 1], ip);
    }
  }

  /** No event, and no moment up to `now`, is more than a period after the pass before it. */
  predicate CleanedEveryMinute(run: seq<Event>, now: nat) {
    && now <= LastPass(run) + 60_000_000_000
    && (run != [] ==> CleanedEveryMinute(run[..|run| - 1], run[|run| - 1].at))
  }

  /**
   With a pass every minute the table holds, at all times, every address seen in the last
   five minutes and only addresses seen in the last six.
   */
  lemma TableHoldsTheLastFiveToSixMinutes(limit: nat, run: seq<Event>, ip: Ip, now: nat)
    requires Ordered(run) && Clock(run) <= now && CleanedEveryMinute(run, now)
    ensures LastRequest(run, ip).Some? && now <= LastRequest(run, ip).value + 300_000_000_000 ==>
              ip in After(Start(limit), run).table.clients
    ensures ip in After(Start(limit), run).table.clients ==>
              LastRequest(run, ip).Some? && now <= LastRequest(run, ip).value + 360_000_000_000
  {
    TableContents(limit, run, ip);
  }
}
