/**
 The per-IP rate limiter. `Table` and the functions on it say what each critical section
 does to the limiter's state; the class below does the same in place, bucket by bucket.
 */
module RateLimiter {
  import opened Options
  import opened TokenBucket
  import Config

  type Ip = string

  const IDLE_LIMIT: nat := 5 * NANOS_PER_MINUTE

  datatype Client = Client(bucket: Bucket, lastSeen: nat)
  datatype Table = Table(currentLimit: nat, clients: map<Ip, Client>)

  predicate Idle(lastSeen: nat, now: nat) {
    now > lastSeen + IDLE_LIMIT
  }

  /** Every client still in the table survives a pass exactly when it is not idle. */
  function AfterCleanup(t: Table, now: nat): Table {
    t.(clients := map ip | ip in t.clients && !Idle(t.clients[ip].lastSeen, now) :: t.clients[ip])
  }

  function RetuneAll(clients: map<Ip, Client>, limit: nat, now: nat): map<Ip, Client> {
    map ip | ip in clients :: clients[ip].(bucket := Retune(clients[ip].bucket, limit, now))
  }

  /** The critical section of a request: follow the limit, then find or create the client. */
  function AfterLookup(t: Table, ip: Ip, limit: nat, now: nat): (t': Table)
    ensures ip in t'.clients
  {
    var clients := if t.currentLimit != limit then RetuneAll(t.clients, limit, now) else t.clients;
    var client := if ip in clients
                  then clients[ip].(lastSeen := now)
                  else Client(NewBucket(limit, limit), now);
    Table(limit, clients[ip := client])
  }

  /**
   What a lookup does to the table, field by field: a changed limit retunes every bucket and
   keeps its tokens, a new address starts with a full bucket, and only its own entry is touched.
   */
  lemma LookupEffects(t: Table, ip: Ip, limit: nat, now: nat)
    ensures var t' := AfterLookup(t, ip, limit, now);
            && t'.currentLimit == limit && t'.clients.Keys == t.clients.Keys + {ip} && t'.clients[ip].lastSeen == now
            && (forall other | other in t.clients && other != ip ::
                  t'.clients[other].lastSeen == t.clients[other].lastSeen)
            && (forall c | c in t.clients && t.currentLimit == limit :: t'.clients[c].bucket == t.clients[c].bucket)
            && (forall c | c in t.clients && t.currentLimit != limit ::
                  t'.clients[c].bucket == Bucket(limit, limit, Tokens(t.clients[c].bucket, now), now))
            && (ip !in t.clients ==> t'.clients[ip].bucket == Bucket(limit, limit, limit * 60_000_000_000, 0))
  {
  }

  function AfterAllow(t: Table, ip: Ip, now: nat): Table
    requires ip in t.clients
  {
    t.(clients := t.clients[ip := t.clients[ip].(bucket := Spend(t.clients[ip].bucket, now))])
  }

  class ClientLimiter {
    const limiter: Limiter
    var lastSeen: nat

    constructor (limiter: Limiter, lastSeen: nat)
      ensures this.limiter == limiter && this.lastSeen == lastSeen
    {
      this.limiter, this.lastSeen := limiter, lastSeen;
    }
  }

  class IPRateLimiter {
    var clients: map<Ip, ClientLimiter>
    const mgr: Config.Manager
    var currentLimit: nat

    ghost function Limiters(): set<Limiter>
      reads this`clients
    {
      set ip | ip in clients :: clients[ip].limiter
    }

    /** No two addresses share a client record or a bucket. */
    ghost predicate Valid()
      reads this`clients
    {
      forall ip, ip' | ip in clients && ip' in clients && ip != ip' ::
        clients[ip] != clients[ip'] && clients[ip].limiter != clients[ip'].limiter
    }

    ghost function Records(): map<Ip, Client>
      reads this`clients, clients.Values, Limiters()
    {
      map ip | ip in clients :: Client(clients[ip].limiter.View(), clients[ip].lastSeen)
    }

    ghost function View(): Table
      reads this, clients.Values, Limiters()
    {
      Table(currentLimit, Records())
    }

    constructor (mgr: Config.Manager)
      ensures Valid() && this.mgr == mgr
      ensures View() == Table(mgr.settings.rateLimit, map[])
    {
      this.mgr := mgr;
      clients := map[];
      currentLimit := mgr.settings.rateLimit;
    }

    /** One pass of the cleanup loop. The addresses are visited in an arbitrary order. */
    method Cleanup(now: nat)
      requires Valid()
      modifies this`clients
      ensures Valid() && View() == AfterCleanup(old(View()), now)
      ensures forall ip | ip in old(clients) ::
                ip in clients <==> now <= old(clients[ip].lastSeen) + 300_000_000_000
      ensures forall ip | ip in clients :: ip in old(clients) && clients[ip] == old(clients[ip])
    {
      var todo := clients.Keys;
      while todo != {}
        invariant todo <= old(clients.Keys)
        invariant todo <= clients.Keys <= old(clients.Keys)
        invariant forall ip | ip in clients :: clients[ip] == old(clients)[ip]
        invariant forall ip | ip in old(clients) && ip !in todo ::
          ip in clients <==> !Idle(old(clients)[ip].lastSeen, now)
        decreases todo
      {
        var ip :| ip in todo;
        if now > clients[ip].lastSeen + IDLE_LIMIT {
          clients := clients - {ip};
        }
        todo := todo - {ip};
      }
    }

    /** Retunes every bucket in place, in an arbitrary order. */
    method RetuneClients(limit: nat, now: nat)
      requires Valid()
      modifies Limiters()
      ensures Records() == RetuneAll(old(Records()), limit, now)
    {
      var todo := clients.Keys;
      while todo != {}
        invariant todo <= clients.Keys
        invariant forall ip | ip in todo :: clients[ip].limiter.View() == old(clients[ip].limiter.View())
        invariant forall ip | ip in clients.Keys - todo ::
          clients[ip].limiter.View() == Retune(old(clients[ip].limiter.View()), limit, now)
        decreases todo
      {
        var ip :| ip in todo;
        clients[ip].limiter.SetLimit(limit, now);
        clients[ip].limiter.SetBurst(limit, now);
        todo := todo - {ip};
      }
    }

    /** Creates the record of an address that has none. */
    method AddClient(ip: Ip, now: nat)
      requires Valid() && ip !in clients
      modifies this`clients
      ensures Valid() && ip in clients && fresh(clients[ip].limiter)
      ensures Records() == old(Records())[ip := Client(NewBucket(currentLimit, currentLimit), now)]
    {
      var limiter := new Limiter(currentLimit, currentLimit);
      var client := new ClientLimiter(limiter, now);
      clients := clients[ip := client];
    }

    method Touch(client: ClientLimiter, ghost ip: Ip, now: nat)
      requires Valid() && ip in clients && client == clients[ip]
      modifies client`lastSeen
      ensures Records() == old(Records())[ip := old(Records())[ip].(lastSeen := now)]
    {
      client.lastSeen := now;
    }

    method FollowLimit(limit: nat, now: nat)
      requires Valid()
      modifies this`currentLimit, Limiters()
      ensures currentLimit == limit
      ensures Records() == if old(currentLimit) != limit then RetuneAll(old(Records()), limit, now)
                           else old(Records())
    {
      if currentLimit != limit {
        currentLimit := limit;
        RetuneClients(limit, now);
      }
    }

    method GetLimiter(ip: Ip, rateLimit: nat, now: nat) returns (limiter: Limiter)
      requires Valid()
      modifies this`clients, this`currentLimit, clients.Values, Limiters()
      ensures Valid() && View() == AfterLookup(old(View()), ip, rateLimit, now)
      ensures ip in clients && limiter == clients[ip].limiter
      ensures limiter in old(Limiters()) || fresh(limiter)
    {
      FollowLimit(rateLimit, now);
      assert ip in clients <==> ip in Records();
      if ip !in clients {
        AddClient(ip, now);
      } else {
        Touch(clients[ip], ip, now);
      }
      limiter := clients[ip].limiter;
    }

    /** Allow on the bucket of an address changes that address's bucket and no other. */
    method AllowOn(limiter: Limiter, ghost ip: Ip, now: nat) returns (ok: bool)
      requires Valid() && ip in clients && limiter == clients[ip].limiter
      modifies limiter
      ensures ok == Admits(old(View()).clients[ip].bucket, now)
      ensures View() == AfterAllow(old(View()), ip, now)
    {
      ok := limiter.Allow(now);
    }

    /**
     The middleware for a request that runs alone, with the clock read once in getLimiter and
     again in Allow: 429 if it is rejected, and otherwise `next` is called.
     */
    method Handle(ip: Ip, entered: nat, called: nat) returns (rejection: Option<nat>)
      requires Valid()
      modifies this`clients, this`currentLimit, clients.Values, Limiters()
      ensures Valid()
      ensures var t := AfterLookup(old(View()), ip, mgr.settings.rateLimit, entered);
              && rejection == (if Admits(t.clients[ip].bucket, called) then None else Some(429))
              && View() == AfterAllow(t, ip, called)
    {
      var settings := mgr.Get();
      var limiter := GetLimiter(ip, settings.rateLimit, entered);
      ghost var t := View();
      assert t == AfterLookup(old(View()), ip, mgr.settings.rateLimit, entered);
      var ok := AllowOn(limiter, ip, called);
      if !ok {
        return Some(429);
      }
      return None;
    }
  }
}
