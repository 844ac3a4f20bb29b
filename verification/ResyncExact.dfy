/**
 Exactly when re-applying an unchanged limit shows (src/rate_limit.rs:78-83).

 `ResyncIsInvisible` has every re-sync stamped no later than the attempts that follow. Here one
 re-sync may be stamped at any time `s`, and the attempts that follow may carry any timestamps: none
 of them can tell if and only if `s` is not past the bucket's clock, or the time up to `s` completes no
 whole token in a bucket that is not full.
 */
module ResyncExact {
  import opened Numbers
  import opened TokenBuckets
  import opened BucketWindow
  import opened LimiterWindow

  /** A bucket tuned to `perMin`, of at least one token a minute. */
  ghost predicate Tuned(b: Bucket, perMin: U32) {
    Sound(b) && b.capacity == perMin as real && 1 <= perMin
  }

  /** What a caller can check before the re-sync. */
  ghost predicate CompletesNoToken(b: Bucket, s: real) {
    s <= b.last || (b.tokens < b.capacity && Refill(b, s).tokens.Floor == b.tokens.Floor)
  }

  lemma RetuneIsRefill(b: Bucket, perMin: U32, s: real)
    requires Tuned(b, perMin)
    ensures Retune(b, perMin, s) == Refill(b, s)
  {
    SoundKept(b, perMin, s);
  }

  // ---------------------------------------------------------------- when it cannot show

  /** `c` is ahead of `u` by the income up to `s`, which completes no token and does not fill it. */
  ghost predicate Ahead(c: Bucket, u: Bucket, s: real) {
    && Sound(u) && Sound(c) && u.last <= s && c == Refill(u, s)
    && c.tokens == u.tokens + Times(s - u.last, u.rate) && c.tokens < u.capacity
    && c.tokens.Floor == u.tokens.Floor
  }

  lemma TimesSplits(a: real, b: real, c: real, rate: real)
    requires a <= b <= c && 0.0 <= rate
    ensures Times(c - a, rate) == Times(b - a, rate) + Times(c - b, rate)
    ensures 0.0 <= Times(b - a, rate) && 0.0 <= Times(c - b, rate)
  {
    TimesNonNegative(b - a, rate);
    TimesNonNegative(c - b, rate);
    assert (c - a) * rate == (b - a) * rate + (c - b) * rate;
  }

  lemma FloorBetween(x: real, y: real, z: real)
    requires x <= y <= z && x.Floor == z.Floor
    ensures y.Floor == x.Floor
  {
  }

  /** Refilling the bucket that is behind, at a time before `s`, leaves it behind in the same way. */
  lemma RefillStaysBehind(c: Bucket, u: Bucket, s: real, t: real)
    requires Ahead(c, u, s) && t < s
    ensures Refill(c, t) == c && Ahead(c, Refill(u, t), s)
  {
    SoundKept(u, 0, t);
    RefillTwice(u, t, s);
    if u.last < t {
      TimesSplits(u.last, t, s, u.rate);
      FloorBetween(u.tokens, u.tokens + Times(t - u.last, u.rate), c.tokens);
    }
  }

  lemma ServeStaysBehind(c: Bucket, u: Bucket, s: real)
    requires Ahead(c, u, s)
    ensures c.tokens >= 1.0 <==> u.tokens >= 1.0
    ensures u.tokens >= 1.0 ==> Ahead(c.(tokens := c.tokens - 1.0), u.(tokens := u.tokens - 1.0), s)
  {
    FloorLessOne(c.tokens);
    FloorLessOne(u.tokens);
    if u.tokens >= 1.0 {
      RefillOneLess(u, s);
    }
  }

  lemma FloorLessOne(x: real)
    ensures (x - 1.0).Floor == x.Floor - 1
  {
  }

  /** Where the clamp is not reached, one token less before the refill is one token less after it. */
  lemma RefillOneLess(u: Bucket, s: real)
    requires u.last <= s && u.tokens + Times(s - u.last, u.rate) < u.capacity
    ensures Refill(u.(tokens := u.tokens - 1.0), s)
         == if u.last < s then u.(tokens := u.tokens + Times(s - u.last, u.rate) - 1.0, last := s)
            else u.(tokens := u.tokens - 1.0)
  {
  }

  lemma {:induction false} AheadDecidesAlike(c: Bucket, u: Bucket, s: real, ts: seq<real>)
    requires Ahead(c, u, s)
    ensures Decisions(c, ts) == Decisions(u, ts)
    decreases |ts|
  {
    if ts != [] {
      var t := ts[0];
      DecisionsShift(c, ts);
      DecisionsShift(u, ts);
      if s <= t {
        RefillTwice(u, s, t);
      } else {
        RefillStaysBehind(c, u, s, t);
        ServeStaysBehind(c, Refill(u, t), s);
        AheadDecidesAlike(Consume(c, t).0, Consume(u, t).0, s, ts[1..]);
      }
    }
  }

  /** Below a whole capacity with no token completed, the refill does not reach the clamp. */
  lemma UnclampedIsAhead(b: Bucket, perMin: U32, s: real)
    requires Tuned(b, perMin) && b.last < s && CompletesNoToken(b, s)
    ensures Ahead(Refill(b, s), b, s)
  {
    SoundKept(b, 0, s);
    assert b.tokens.Floor < perMin;
    assert Refill(b, s).tokens < b.capacity;
  }

  // ---------------------------------------------------------------- when it shows

  /** n attempts at times not past the clock take n tokens. */
  lemma {:induction false} Drain(b: Bucket, ts: seq<real>, n: nat)
    requires n <= |ts| && n as real <= b.tokens && forall i: nat | i < n :: ts[i] <= b.last
    ensures StateAt(b, ts, n) == b.(tokens := b.tokens - n as real)
  {
    if 0 < n {
      Drain(b, ts, n - 1);
    }
  }

  /** A completed token is found by asking once more than the old level allows. */
  lemma CompletedTokenShows(b: Bucket, perMin: U32, s: real) returns (ts: seq<real>)
    requires Tuned(b, perMin) && b.last < s && Refill(b, s).tokens.Floor != b.tokens.Floor
    ensures Decisions(Refill(b, s), ts) != Decisions(b, ts)
  {
    var c, n := Refill(b, s), b.tokens.Floor;
    RefillGrows(b, s);
    ts := seq(n + 1, _ => b.last);
    Drain(b, ts, n);
    Drain(c, ts, n);
    assert !Decisions(b, ts)[n] && Decisions(c, ts)[n];
  }

  lemma RefillGrows(b: Bucket, s: real)
    requires Sound(b)
    ensures b.tokens <= Refill(b, s).tokens
  {
    if b.last < s {
      TimesNonNegative(s - b.last, b.rate);
    }
  }

  /** After the full bucket is drained, its next token is due earlier if its clock was not moved on. */
  lemma NextTokenIsDue(b: Bucket, perMin: U32, s: real) returns (t: real)
    requires Tuned(b, perMin) && b.last < s
    ensures s <= t && Times(t - b.last, b.rate) >= 1.0 && Times(t - s, b.rate) < 1.0
  {
    var period := 60.0 / b.capacity;
    PeriodTimesRate(b.capacity, b.rate);
    if s <= b.last + period {
      t := b.last + period;
      assert t - b.last == period;
      TimesSplits(b.last, s, t, b.rate);
      TimesPositive(s - b.last, b.rate);
    } else {
      t := s;
      assert b.last + period - b.last == period && t - s == 0.0;
      TimesSplits(b.last, b.last + period, s, b.rate);
    }
  }

  lemma TimesPositive(x: real, y: real)
    requires 0.0 < x && 0.0 < y
    ensures 0.0 < Times(x, y)
  {
  }

  lemma PeriodTimesRate(capacity: real, rate: real)
    requires 0.0 < capacity && rate == capacity / 60.0
    ensures Times(60.0 / capacity, rate) == 1.0 && 0.0 < 60.0 / capacity
  {
    var period := 60.0 / capacity;
    assert period * capacity == 60.0;
    assert period * (capacity / 60.0) == (period * capacity) / 60.0;
  }

  /** A full bucket whose clock was moved on is found by draining it and asking when its next token is due. */
  lemma MovedClockShows(b: Bucket, perMin: U32, s: real) returns (ts: seq<real>)
    requires Tuned(b, perMin) && b.last < s && b.tokens == b.capacity
    ensures Decisions(Refill(b, s), ts) != Decisions(b, ts)
  {
    var c := Refill(b, s);
    RefillGrows(b, s);
    assert c == b.(last := s);
    var t := NextTokenIsDue(b, perMin, s);
    ts := seq(perMin, _ => b.last) + [t];
    Drain(b, ts, perMin);
    Drain(c, ts, perMin);
    DrainedDecides(b, t);
    DrainedDecides(c, t);
    assert Decisions(b, ts)[perMin] && !Decisions(c, ts)[perMin];
  }

  lemma DrainedDecides(b: Bucket, t: real)
    requires Sound(b) && 1.0 <= b.capacity && b.last <= t
    ensures Consume(b.(tokens := 0.0), t).1 <==> Times(t - b.last, b.rate) >= 1.0
  {
  }

  /**
   One re-sync at any time: no attempts that follow, at whatever times, can tell it from none, if and
   only if it completes no token.
   */
  lemma ResyncInvisibleIff(b: Bucket, perMin: U32, s: real)
    requires Tuned(b, perMin)
    ensures (forall ts :: Decisions(Retune(b, perMin, s), ts) == Decisions(b, ts)) <==> CompletesNoToken(b, s)
  {
    RetuneIsRefill(b, perMin, s);
    if b.last < s {
      if CompletesNoToken(b, s) {
        UnclampedIsAhead(b, perMin, s);
        forall ts ensures Decisions(Refill(b, s), ts) == Decisions(b, ts) {
          AheadDecidesAlike(Refill(b, s), b, s, ts);
        }
      } else if b.tokens == b.capacity {
        var ts := MovedClockShows(b, perMin, s);
      } else {
        var ts := CompletedTokenShows(b, perMin, s);
      }
    }
  }
}
