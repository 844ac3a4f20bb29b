/**
 Token buckets (src/rate_limit.rs).

 `Bucket` is the value of one bucket and `Full`, `Refill`, `Consume`, `Retune` say what
 each operation makes of it; class `TokenBucket` is the bucket that is updated in place.
 Times and token counts are `real`.
 */
module TokenBuckets {

  import opened Numbers

  datatype Bucket = Bucket(tokens: real, last: real, capacity: real, rate: real)

  function Min(a: real, b: real): real {
    if a <= b then a else b
  }

  function Max(a: real, b: real): real {
    if a <= b then b else a
  }

  /** Multiplication under a name, so that equal factors are seen to give equal products. */
  function Times(x: real, y: real): real {
    x * y
  }

  lemma TimesNonNegative(x: real, y: real)
    requires 0.0 <= x && 0.0 <= y
    ensures 0.0 <= Times(x, y)
  {
  }

  function Full(perMin: U32, now: real): Bucket {
    Bucket(perMin as real, now, perMin as real, perMin as real / 60.0)
  }

  function Refill(b: Bucket, now: real): Bucket {
    if now <= b.last then b
    else b.(tokens := Min(b.tokens + Times(now - b.last, b.rate), b.capacity), last := now)
  }

  function Consume(b: Bucket, now: real): (Bucket, bool) {
    var r := Refill(b, now);
    if r.tokens >= 1.0 then (r.(tokens := r.tokens - 1.0), true) else (r, false)
  }

  function Retune(b: Bucket, perMin: U32, now: real): Bucket {
    var r := Refill(b, now);
    Bucket(Min(r.tokens, perMin as real), r.last, perMin as real, perMin as real / 60.0)
  }

  /** What every bucket built by `Full` keeps: never negative, never over capacity, rate tied to capacity. */
  ghost predicate Sound(b: Bucket) {
    && 0.0 <= b.tokens <= b.capacity
    && b.rate == b.capacity / 60.0
  }

  lemma SoundKept(b: Bucket, perMin: U32, now: real)
    requires Sound(b)
    ensures Sound(Refill(b, now)) && Sound(Consume(b, now).0) && Sound(Retune(b, perMin, now))
    ensures Sound(Full(perMin, now))
  {
    if b.last < now {
      TimesNonNegative(now - b.last, b.rate);
    }
  }

  /**
   A new limit takes effect at once: whatever the bucket was, it now has that capacity and a sixtieth of it
   as its rate, and the tokens it has earned so far as far as they fit both limits.
   */
  lemma RetuneExact(b: Bucket, perMin: U32, now: real)
    requires Sound(b)
    ensures var c := Retune(b, perMin, now);
            && c.capacity == perMin as real && c.rate == perMin as real / 60.0 && c.last == Max(b.last, now)
            && c.tokens == Min(Min(b.tokens + Times(Max(b.last, now) - b.last, b.rate), b.capacity), perMin as real)
  {
    TimesNonNegative(Max(b.last, now) - b.last, b.rate);
  }

  /** Two refills are one refill at the later time, whichever comes first. */
  lemma RefillTwice(b: Bucket, s: real, t: real)
    requires Sound(b)
    ensures Refill(Refill(b, s), t) == Refill(b, Max(s, t))
  {
    if b.last < s < t {
      TimesNonNegative(t - s, b.rate);
      assert (s - b.last) * b.rate + (t - s) * b.rate == (t - b.last) * b.rate;
    }
  }

  function RefillAll(b: Bucket, ts: seq<real>): Bucket
    decreases |ts|
  {
    if ts == [] then b else RefillAll(Refill(b, ts[0]), ts[1..])
  }

  function MaxOf(ts: seq<real>): real
    requires ts != []
  {
    if |ts| == 1 then ts[0] else Max(ts[0], MaxOf(ts[1..]))
  }

  /** Path independence: refilling at any list of times is one refill at their maximum. */
  lemma {:induction false} RefillPathIndependent(b: Bucket, ts: seq<real>)
    requires Sound(b) && ts != []
    ensures RefillAll(b, ts) == Refill(b, MaxOf(ts))
    decreases |ts|
  {
    if |ts| == 1 {
      assert ts[1..] == [];
    } else {
      SoundKept(b, 0, ts[0]);
      RefillPathIndependent(Refill(b, ts[0]), ts[1..]);
      RefillTwice(b, ts[0], MaxOf(ts[1..]));
    }
  }

  class TokenBucket {
    var tokens: real
    var lastRefillUnix: real
    var capacity: real
    var refillPerSec: real

    function Value(): Bucket
      reads this
    {
      Bucket(tokens, lastRefillUnix, capacity, refillPerSec)
    }

    constructor (perMin: U32, now: real)
      ensures Value() == Full(perMin, now)
      ensures tokens == capacity == perMin as real && lastRefillUnix == now && refillPerSec == perMin as real / 60.0
    {
      capacity := perMin as real;
      tokens := perMin as real;
      lastRefillUnix := now;
      refillPerSec := perMin as real / 60.0;
    }

    /** The bucket that sits at a place of the limiter's map. */
    constructor At(b: Bucket)
      ensures Value() == b
    {
      tokens, lastRefillUnix, capacity, refillPerSec := b.tokens, b.last, b.capacity, b.rate;
    }

    method RefillAt(now: real) returns (count: real)
      modifies this
      ensures Value() == Refill(old(Value()), now)
      ensures count == tokens
    {
      if now <= lastRefillUnix {
        return tokens;
      }
      var elapsed := now - lastRefillUnix;
      tokens := Min(tokens + Times(elapsed, refillPerSec), capacity);
      lastRefillUnix := now;
      return tokens;
    }

    method TryConsume(now: real) returns (allowed: bool)
      modifies this
      ensures (Value(), allowed) == Consume(old(Value()), now)
    {
      var _ := RefillAt(now);
      allowed := tokens >= 1.0;
      if allowed {
        tokens := tokens - 1.0;
      }
    }

    method RetuneTo(perMin: U32, now: real)
      modifies this
      ensures Value() == Retune(old(Value()), perMin, now)
    {
      var _ := RefillAt(now);
      capacity := perMin as real;
      refillPerSec := capacity / 60.0;
      tokens := Min(tokens, capacity);
    }
  }
}
