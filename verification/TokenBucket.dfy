/**
 The token bucket of golang.org/x/time/rate, reduced to the contract the rate limiter
 relies on, in exact integer arithmetic.

 Time is in nanoseconds. Tokens are counted in units of 1/(60 * 10^9) of a token, so a
 limit of L requests a minute refills exactly L units every nanosecond, and a whole
 token is TOKEN units.
 */
module TokenBucket {

  const NANOS_PER_MINUTE: nat := 60_000_000_000
  const TOKEN: nat := NANOS_PER_MINUTE

  datatype Bucket = Bucket(limit: nat, burst: nat, tokens: nat, last: nat)

  function Min(x: nat, y: nat): nat {
    if x <= y then x else y
  }

  /** The tokens in the bucket at time `now`: refilled since `last`, clamped to the burst. */
  function Tokens(b: Bucket, now: nat): (tokens: nat)
  {
    var elapsed := if now < b.last then 0 else now - b.last;
    Min(b.tokens + b.limit * elapsed, b.burst * TOKEN)
  }

  /** A new limiter starts full; its `last` is the zero time. */
  function NewBucket(limit: nat, burst: nat): Bucket {
    Bucket(limit, burst, burst * TOKEN, 0)
  }

  predicate Admits(b: Bucket, now: nat) {
    1 <= b.burst && TOKEN <= Tokens(b, now)
  }

  /** The bucket after Allow: one token poorer when the request is admitted, untouched otherwise. */
  function Spend(b: Bucket, now: nat): Bucket {
    if Admits(b, now) then b.(tokens := Tokens(b, now) - TOKEN, last := now) else b
  }

  /** SetLimit advances the bucket under the old settings first. */
  function WithLimit(b: Bucket, limit: nat, now: nat): Bucket {
    Bucket(limit, b.burst, Tokens(b, now), now)
  }

  /** SetBurst too; it leaves tokens above the new burst for the next advance to clamp. */
  function WithBurst(b: Bucket, burst: nat, now: nat): Bucket {
    Bucket(b.limit, burst, Tokens(b, now), now)
  }

  function Retune(b: Bucket, limit: nat, now: nat): Bucket {
    WithBurst(WithLimit(b, limit, now), limit, now)
  }

  /** The bucket as an object, as the gateway shares it between goroutines. */
  class Limiter {
    var limit: nat
    var burst: nat
    var tokens: nat
    var last: nat

    function View(): Bucket
      reads this
    {
      Bucket(limit, burst, tokens, last)
    }

    constructor (limit: nat, burst: nat)
      ensures View() == NewBucket(limit, burst)
      ensures this.limit == limit && this.burst == burst && tokens == burst * 60_000_000_000
    {
      this.limit, this.burst, this.tokens, this.last := limit, burst, burst * TOKEN, 0;
    }

    /** The tokens at `now`: so much a nanosecond since `last`, at most the burst. */
    function Available(now: nat): nat
      reads this
    {
      var refilled := tokens + limit * if now < last then 0 else now - last;
      if refilled <= burst * 60_000_000_000 then refilled else burst * 60_000_000_000
    }

    method Advance(now: nat)
      modifies this`tokens, this`last
      ensures View() == old(View()).(tokens := Tokens(old(View()), now), last := now)
    {
      var elapsed := if now < last then 0 else now - last;
      tokens := tokens + limit * elapsed;
      if tokens > burst * TOKEN {
        tokens := burst * TOKEN;
      }
      last := now;
    }

    method SetLimit(limit: nat, now: nat)
      modifies this
      ensures View() == WithLimit(old(View()), limit, now)
      ensures this.limit == limit && burst == old(burst) && tokens == old(Available(now)) && last == now
    {
      Advance(now);
      this.limit := limit;
    }

    method SetBurst(burst: nat, now: nat)
      modifies this
      ensures View() == WithBurst(old(View()), burst, now)
      ensures limit == old(limit) && this.burst == burst && tokens == old(Available(now)) && last == now
    {
      Advance(now);
      this.burst := burst;
    }

    method Allow(now: nat) returns (ok: bool)
      modifies this`tokens, this`last
      ensures ok == Admits(old(View()), now)
      ensures View() == Spend(old(View()), now)
      ensures ok <==> 60_000_000_000 <= old(Available(now))
      ensures ok ==> tokens == old(Available(now)) - 60_000_000_000 && last == now
      ensures !ok ==> tokens == old(tokens) && last == old(last)
    {
      var available := Tokens(View(), now);
      ok := 1 <= burst && TOKEN <= available;
      if ok {
        tokens, last := available - TOKEN, now;
      }
    }
  }

  lemma MulMonotone(x: nat, y: nat, k: nat)
    requires x <= y
    ensures x * k <= y * k && k * x <= k * y
  {
  }

  /**
   Advancing is composable: what a bucket holds at `u` is what it held at `t`, refilled
   for u - t and clamped. This is why a rejected request may leave the bucket untouched.
   */
  lemma AdvanceComposes(b: Bucket, t: nat, u: nat)
    requires b.last <= t <= u
    ensures Tokens(b, u) == Min(Tokens(b, t) + b.limit * (u - t), b.burst * TOKEN)
  {
    assert b.limit * (u - b.last) == b.limit * (t - b.last) + b.limit * (u - t);
  }

  /** Retuning never adds tokens, whichever way the limit moves: it clamps to the new burst. */
  lemma RetuneClamps(b: Bucket, limit: nat, now: nat)
    ensures Tokens(Retune(b, limit, now), now) == Min(Tokens(b, now), limit * TOKEN)
  {
  }

  /** A bucket tuned to L requests a minute is full again after a minute without use, for every L. */
  lemma FullAfterAMinute(b: Bucket, now: nat)
    requires b.burst == b.limit && b.last + 60_000_000_000 <= now
    ensures Tokens(b, now) == b.limit * 60_000_000_000
  {
    MulMonotone(NANOS_PER_MINUTE, now - b.last, b.limit);
  }
}
