/**
 When a client whose requests run alone can notice that its idle bucket was deleted: exactly
 when some reload raises the limit. An idle bucket is full, and a lower limit clamps it to what
 a fresh one holds. Requests that interleave can notice more, see InterleavedEviction.
 */
module VisibleEviction {
  import opened AtomicRuns
  import opened RateLimiter
  import opened TokenBucket

  /** The limits published in the run, in order. */
  function Reloads(run: seq<Event>): seq<nat> {
    if run == [] then [] else
    var front, e := run[..|run| - 1], run[|run| - 1];
    Reloads(front) + if e.Publish? then [e.limit] else []
  }

  predicate NeverRises(limits: seq<nat>) {
    forall i, j | 0 <= i < j < |limits| :: limits[j] <= limits[i]
  }

  // ----- while the limit never rises -----

  /** Since it was last seen the client's bucket has been refilled, if not full before. */
  ghost predicate Refilled(c: Client, now: nat) {
    && c.bucket.last <= now && c.lastSeen <= now
    && Min(c.bucket.limit * (now - c.lastSeen), c.bucket.limit * TOKEN) <= Tokens(c.bucket, now)
  }

  /** World `a` has cleanup, `b` does not: equal tokens while `ip` is in both, a full bucket where it was evicted. */
  ghost predicate InStep(a: World, b: World, ip: Ip, now: nat) {
    && a.limit == b.limit <= a.table.currentLimit == b.table.currentLimit
    && BucketTuned(a.table, ip, now) && BucketTuned(b.table, ip, now)
    && (ip in a.table.clients ==>
          && ip in b.table.clients && a.table.clients[ip].lastSeen == b.table.clients[ip].lastSeen
          && Tokens(a.table.clients[ip].bucket, now) == Tokens(b.table.clients[ip].bucket, now)
          && Refilled(b.table.clients[ip], now))
    && (ip in b.table.clients && ip !in a.table.clients ==>
          Tokens(b.table.clients[ip].bucket, now) == b.table.currentLimit * TOKEN)
  }

  lemma MinGrows(x: nat, y: nat, cap: nat, more: nat)
    requires Min(x, cap) <= y
    ensures Min(x + more, cap) <= Min(y + more, cap)
  {
  }

  lemma Distributes(limit: nat, x: nat, y: nat)
    ensures limit * (x + y) == limit * x + limit * y
  {
  }

  lemma RefilledLater(c: Client, now: nat, later: nat)
    requires Refilled(c, now) && c.bucket.limit == c.bucket.burst && now <= later
    ensures Refilled(c, later)
  {
    var limit := c.bucket.limit;
    AdvanceComposes(c.bucket, now, later);
    Distributes(limit, now - c.lastSeen, later - now);
    MinGrows(limit * (now - c.lastSeen), Tokens(c.bucket, now), limit * TOKEN, limit * (later - now));
  }

  /** A lower limit needs less to count as refilled. */
  lemma RefilledRetuned(c: Client, limit: nat, now: nat)
    requires Refilled(c, now) && limit <= c.bucket.limit == c.bucket.burst
    ensures Refilled(c.(bucket := Retune(c.bucket, limit, now)), now)
  {
    RetuneClamps(c.bucket, limit, now);
    MulMonotone(limit, c.bucket.limit, now - c.lastSeen);
    MulMonotone(limit, c.bucket.limit, TOKEN);
  }

  lemma IdleIsFull(c: Client, now: nat)
    requires Refilled(c, now) && c.bucket.limit == c.bucket.burst && Idle(c.lastSeen, now)
    ensures Tokens(c.bucket, now) == c.bucket.burst * TOKEN
  {
    MulMonotone(TOKEN, now - c.lastSeen, c.bucket.limit);
  }

  lemma InStepLater(a: World, b: World, ip: Ip, now: nat, later: nat)
    requires InStep(a, b, ip, now) && now <= later
    ensures InStep(a, b, ip, later)
  {
    if ip in b.table.clients {
      AdvanceComposes(b.table.clients[ip].bucket, now, later);
      if ip in a.table.clients {
        AdvanceComposes(a.table.clients[ip].bucket, now, later);
        RefilledLater(b.table.clients[ip], now, later);
      }
    }
  }

  function LookedUp(w: World, client: Ip, now: nat): World {
    w.(table := AfterLookup(w.table, client, w.limit, now))
  }

  lemma InStepLookup(a: World, b: World, ip: Ip, client: Ip, now: nat)
    requires InStep(a, b, ip, now)
    ensures InStep(LookedUp(a, client, now), LookedUp(b, client, now), ip, now)
    ensures client == ip ==> LookedUp(b, client, now).table.clients[ip].lastSeen == now
  {
    LookupTokens(a.table, client, a.limit, now, ip);
    LookupTokens(b.table, client, b.limit, now, ip);
    if ip in b.table.clients {
      MulMonotone(b.limit, b.table.currentLimit, TOKEN);
      if ip in a.table.clients && ip != client {
        RefilledRetuned(b.table.clients[ip], b.limit, now);
      }
    }
  }

  lemma InStepAllow(a: World, b: World, ip: Ip, now: nat)
    requires InStep(a, b, ip, now) && ip in a.table.clients && b.table.clients[ip].lastSeen == now
    ensures InStep(a.(table := AfterAllow(a.table, ip, now)), b.(table := AfterAllow(b.table, ip, now)), ip, now)
    ensures Admits(a.table.clients[ip].bucket, now) == Admits(b.table.clients[ip].bucket, now)
  {
  }

  lemma InStepNext(a: World, b: World, ip: Ip, e: Event)
    requires InStep(a, b, ip, e.at) && (e.Publish? ==> e.limit <= a.limit)
    ensures InStep(Next(a, e), if e.CleanupPass? then b else Next(b, e), ip, e.at)
    ensures e.Request? && e.ip == ip ==> Served(a, e) == Served(b, e)
  {
    match e
    case Request(client, now) =>
      InStepLookup(a, b, ip, client, now);
      if client == ip {
        InStepAllow(LookedUp(a, ip, now), LookedUp(b, ip, now), ip, now);
      }
    case Publish(_, _) =>
    case CleanupPass(now) =>
      if ip in a.table.clients && Idle(a.table.clients[ip].lastSeen, now) {
        IdleIsFull(b.table.clients[ip], now);
      }
  }

  lemma {:induction false} PublishedLast(limit: nat, run: seq<Event>)
    ensures After(Start(limit), run).limit == ([limit] + Reloads(run))[|Reloads(run)|]
  {
    if run != [] {
      PublishedLast(limit, run[..|run| - 1]);
    }
  }

  lemma {:induction false} InStepAlways(limit: nat, run: seq<Event>, ip: Ip)
    requires Ordered(run) && NeverRises([limit] + Reloads(run))
    ensures InStep(After(Start(limit), run), After(Start(limit), WithoutCleanup(run)), ip, Clock(run))
    ensures Decisions(Start(limit), run, ip) == Decisions(Start(limit), WithoutCleanup(run), ip)
  {
    if run != [] {
      var front, e := run[..|run| - 1], run[|run| - 1];
      FallsSoFar(limit, front, e);
      InStepAlways(limit, front, ip);
      var a, b := After(Start(limit), front), After(Start(limit), WithoutCleanup(front));
      InStepLater(a, b, ip, Clock(front), e.at);
      InStepNext(a, b, ip, e);
      if e.CleanupPass? {
        assert WithoutCleanup(run) == WithoutCleanup(front);
      } else {
        assert WithoutCleanup(run)[..|WithoutCleanup(run)| - 1] == WithoutCleanup(front);
      }
    }
  }

  lemma FallsSoFar(limit: nat, front: seq<Event>, e: Event)
    requires NeverRises([limit] + Reloads(front + [e]))
    ensures NeverRises([limit] + Reloads(front)) && (e.Publish? ==> e.limit <= After(Start(limit), front).limit)
  {
    assert (front + [e])[..|front|] == front;
    var before, after := [limit] + Reloads(front), [limit] + Reloads(front + [e]);
    assert forall i | 0 <= i < |before| :: before[i] == after[i];
    if e.Publish? {
      PublishedLast(limit, front);
      assert after == before + [e.limit];
      assert after[|before|] <= after[|before| - 1];
    }
  }

  /** If no reload ever raises the limit, cleanup changes no decision on atomic requests. */
  lemma EvictionIsUnseen(limit: nat, run: seq<Event>, ip: Ip)
    requires Ordered(run) && NeverRises([limit] + Reloads(run))
    ensures Decisions(Start(limit), run, ip) == Decisions(Start(limit), WithoutCleanup(run), ip)
  {
    InStepAlways(limit, run, ip);
  }

  // ----- if it rises -----

  /** A run as it unfolds with cleanup and without, and the answers to "a" in both. */
  datatype Twin = Twin(run: seq<Event>, a: World, b: World, inA: seq<bool>, inB: seq<bool>)

  ghost predicate Tracks(t: Twin, limit: nat, reloads: seq<nat>, now: nat) {
    && Ordered(t.run) && Clock(t.run) <= now && Reloads(t.run) == reloads
    && At(limit, t.run, t.a, t.inA) && At(limit, WithoutCleanup(t.run), t.b, t.inB)
  }

  function Answer(w: World, e: Event): seq<bool> {
    if e.Request? && e.ip == "a" then [Served(w, e)] else []
  }

  function Stepped(t: Twin, e: Event): Twin {
    if e.CleanupPass? then t.(run := t.run + [e], a := Next(t.a, e))
    else Twin(t.run + [e], Next(t.a, e), Next(t.b, e), t.inA + Answer(t.a, e), t.inB + Answer(t.b, e))
  }

  lemma TwinStep(t: Twin, limit: nat, reloads: seq<nat>, now: nat, e: Event)
    requires Tracks(t, limit, reloads, now) && now <= e.at
    ensures Tracks(Stepped(t, e), limit, reloads + if e.Publish? then [e.limit] else [], e.at)
  {
    assert (t.run + [e])[..|t.run|] == t.run;
    OneMore(limit, t.run, t.a, t.inA, e);
    if e.CleanupPass? {
      assert t.inA + [] == t.inA && WithoutCleanup(t.run) + [] == WithoutCleanup(t.run);
    } else {
      OneMore(limit, WithoutCleanup(t.run), t.b, t.inB, e);
    }
  }

  /** Reloads in a row, all at one moment. */
  lemma {:induction false} PublishAll(t: Twin, limit: nat, reloads: seq<nat>, now: nat, more: seq<nat>)
    returns (t': Twin)
    requires Tracks(t, limit, reloads, now)
    ensures Tracks(t', limit, reloads + more, now) && t'.inA == t.inA && t'.inB == t.inB
    ensures t'.a == t.a.(limit := if more == [] then t.a.limit else more[|more| - 1])
    ensures t'.b == t.b.(limit := if more == [] then t.b.limit else more[|more| - 1])
  {
    if more == [] {
      assert reloads + more == reloads;
      t' := t;
    } else {
      var front, e := more[..|more| - 1], Publish(more[|more| - 1], now);
      t' := PublishAll(t, limit, reloads, now, front);
      TwinStep(t', limit, reloads + front, now, e);
      assert reloads + more == (reloads + front) + [e.limit];
      assert t'.inA + [] == t'.inA && t'.inB + [] == t'.inB;
      t' := Stepped(t', e);
    }
  }

  /** A request of "a" would find this much in its bucket. */
  ghost predicate Finds(w: World, units: nat, now: nat) {
    var b := LookedUp(w, "a", now).table.clients["a"].bucket;
    b.burst == w.limit && Tokens(b, now) == units
  }

  lemma RequestTakes(w: World, units: nat, now: nat)
    requires Finds(w, units, now) && 1 <= w.limit
    ensures Served(w, Request("a", now)) == (TOKEN <= units) && Next(w, Request("a", now)).limit == w.limit
    ensures TOKEN <= units ==> Finds(Next(w, Request("a", now)), units - TOKEN, now)
  {
  }

  /** The same in whole tokens. */
  ghost predicate Has(w: World, tokens: nat, now: nat) {
    Finds(w, tokens * TOKEN, now)
  }

  lemma RequestSpends(w: World, tokens: nat, now: nat)
    requires Has(w, tokens, now) && 1 <= w.limit
    ensures Served(w, Request("a", now)) == (1 <= tokens)
    ensures 1 <= tokens ==> Has(Next(w, Request("a", now)), tokens - 1, now)
    ensures Next(w, Request("a", now)).limit == w.limit
  {
    RequestTakes(w, tokens * TOKEN, now);
    if 1 <= tokens {
      MulMonotone(1, tokens, TOKEN);
    }
  }

  /** Requests in a row, all at one moment and all served. */
  lemma {:induction false} AskAll(t: Twin, limit: nat, reloads: seq<nat>, now: nat, tokensA: nat, tokensB: nat, n: nat)
    returns (t': Twin)
    requires Tracks(t, limit, reloads, now) && Has(t.a, tokensA, now) && Has(t.b, tokensB, now)
    requires 1 <= t.a.limit && 1 <= t.b.limit && n <= tokensA && n <= tokensB
    ensures Tracks(t', limit, reloads, now) && Has(t'.a, tokensA - n, now) && Has(t'.b, tokensB - n, now)
    ensures t'.a.limit == t.a.limit && t'.b.limit == t.b.limit
  {
    t' := t;
    if n > 0 {
      t' := AskAll(t, limit, reloads, now, tokensA, tokensB, n - 1);
      RequestSpends(t'.a, tokensA - (n - 1), now);
      RequestSpends(t'.b, tokensB - (n - 1), now);
      TwinStep(t', limit, reloads, now, Request("a", now));
      assert reloads + [] == reloads;
      t' := Stepped(t', Request("a", now));
    }
  }

  /** What is left of the bucket of a client that came once, at time 0. */
  function Used(limit: nat): Client {
    Client(Spend(NewBucket(limit, limit), 0), 0)
  }

  lemma FirstRequestUses(table: Table, low: nat)
    requires table.clients == map[]
    ensures Next(World(low, table), Request("a", 0)) == World(low, Table(low, map["a" := Used(low)]))
  {
    assert AfterLookup(table, "a", low, 0).clients == map["a" := Client(NewBucket(low, low), 0)];
    assert Next(World(low, table), Request("a", 0)).table.clients == map["a" := Used(low)];
  }

  lemma UseOnce(t: Twin, limit: nat, reloads: seq<nat>, low: nat, table: Table) returns (t': Twin)
    requires Tracks(t, limit, reloads, 0) && t.a == t.b == World(low, table) && table.clients == map[]
    ensures Tracks(t', limit, reloads, 0)
    ensures t'.a == t'.b == World(low, Table(low, map["a" := Used(low)]))
  {
    TwinStep(t, limit, reloads, 0, Request("a", 0));
    t' := Stepped(t, Request("a", 0));
    FirstRequestUses(table, low);
    assert reloads + [] == reloads;
  }

  lemma Evict(t: Twin, limit: nat, reloads: seq<nat>, low: nat) returns (t': Twin)
    requires Tracks(t, limit, reloads, 0) && t.a == World(low, Table(low, map["a" := Used(low)]))
    ensures Tracks(t', limit, reloads, STALE) && t'.a == World(low, Table(low, map[])) && t'.b == t.b
  {
    TwinStep(t, limit, reloads, 0, CleanupPass(STALE));
    t' := Stepped(t, CleanupPass(STALE));
    assert t'.a.table.clients == map[];
    assert reloads + [] == reloads;
  }

  /** "a" comes once under the limit `low`, and is evicted in one of the two runs. */
  lemma UsedAndEvicted(limit: nat, reloads: seq<nat>, low: nat) returns (t: Twin)
    requires low == ([limit] + reloads)[|reloads|]
    ensures Tracks(t, limit, reloads, STALE) && t.a == World(low, Table(low, map[]))
    ensures t.b == World(low, Table(low, map["a" := Used(low)]))
  {
    t := PublishAll(Twin([], Start(limit), Start(limit), [], []), limit, [], 0, reloads);
    assert [] + reloads == reloads;
    t := UseOnce(t, limit, reloads, low, Table(limit, map[]));
    t := Evict(t, limit, reloads, low);
  }

  /** After a reload to a higher limit an evicted client has more to spend than one that was kept. */
  lemma RaisedTokens(low: nat, high: nat)
    requires low < high
    ensures Has(World(high, Table(low, map[])), high, STALE)
    ensures Has(World(high, Table(low, map["a" := Used(low)])), low, STALE)
  {
    var kept := Used(low);
    FullAfterAMinute(kept.bucket, STALE);
    RetuneClamps(kept.bucket, high, STALE);
    MulMonotone(low, high, TOKEN);
  }

  lemma EvictedBeforeTheRise(limit: nat, reloads: seq<nat>, more: seq<nat>, low: nat, high: nat) returns (t: Twin)
    requires low == ([limit] + reloads)[|reloads|] && more != [] && high == more[|more| - 1] && low < high
    ensures Tracks(t, limit, reloads + more, STALE) && t.a.limit == t.b.limit == high
    ensures Has(t.a, high, STALE) && Has(t.b, low, STALE)
  {
    t := UsedAndEvicted(limit, reloads, low);
    RaisedTokens(low, high);
    t := PublishAll(t, limit, reloads, STALE, more);
  }

  /** One request more than `b` has tokens, all at once: `a` serves the last one too. */
  lemma OneTooMany(t: Twin, limit: nat, reloads: seq<nat>, now: nat, tokensA: nat, tokensB: nat) returns (t': Twin)
    requires Tracks(t, limit, reloads, now) && Has(t.a, tokensA, now) && Has(t.b, tokensB, now)
    requires t.a.limit == t.b.limit && 1 <= t.a.limit && tokensB < tokensA
    ensures Tracks(t', limit, reloads, now) && t'.inA != t'.inB
  {
    t' := AskAll(t, limit, reloads, now, tokensA, tokensB, tokensB);
    RequestSpends(t'.a, tokensA - tokensB, now);
    RequestSpends(t'.b, 0, now);
    TwinStep(t', limit, reloads, now, Request("a", now));
    assert reloads + [] == reloads;
    t' := Stepped(t', Request("a", now));
    assert t'.inA[|t'.inA| - 1] && !t'.inB[|t'.inB| - 1];
  }

  lemma RiseIsSeen(limit: nat, reloads: seq<nat>, i: nat, j: nat) returns (run: seq<Event>)
    requires i < j <= |reloads| && ([limit] + reloads)[i] < reloads[j - 1]
    ensures Ordered(run) && Reloads(run) == reloads
    ensures Decisions(Start(limit), run, "a") != Decisions(Start(limit), WithoutCleanup(run), "a")
  {
    var low, high := ([limit] + reloads)[i], reloads[j - 1];
    var t := EvictedBeforeTheRise(limit, reloads[..i], reloads[i..j], low, high);
    assert reloads[..i] + reloads[i..j] == reloads[..j];
    t := OneTooMany(t, limit, reloads[..j], STALE, high, low);
    t := PublishAll(t, limit, reloads[..j], STALE, reloads[j..]);
    assert reloads[..j] + reloads[j..] == reloads;
    run := t.run;
  }

  /**
   The exact condition for atomic requests, known before the reloads are made: cleanup changes
   no decision in any run with these reloads if and only if none goes above an earlier limit.
   */
  lemma EvictionIsUnseenExactlyIfNoLimitRises(limit: nat, reloads: seq<nat>)
    ensures (forall run, ip | Ordered(run) && Reloads(run) == reloads ::
               Decisions(Start(limit), run, ip) == Decisions(Start(limit), WithoutCleanup(run), ip))
            <==> NeverRises([limit] + reloads)
  {
    if NeverRises([limit] + reloads) {
      forall run, ip | Ordered(run) && Reloads(run) == reloads
        ensures Decisions(Start(limit), run, ip) == Decisions(Start(limit), WithoutCleanup(run), ip)
      {
        EvictionIsUnseen(limit, run, ip);
      }
    } else {
      var i, j :| 0 <= i < j <= |reloads| && ([limit] + reloads)[i] < ([limit] + reloads)[j];
      var run := RiseIsSeen(limit, reloads, i, j);
    }
  }
}
