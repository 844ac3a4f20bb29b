/**
 The lazy bucket against the full history (src/rate_limit.rs:42-73).

 A fresh bucket is asked for a token at the times `ts`, in that order and in any numerical
 order. The reference is a sliding-window test that looks at every earlier attempt; the
 bucket keeps two numbers. They decide alike, and no conforming policy admits more.

 The argument is linear once the income rate * clock of each attempt is a number of its own,
 so it is made first for arbitrary sequences of incomes and of capacities (module Windows) and then
 read off for the bucket (module BucketWindow).
 */
module Windows {

  /** How many attempts of j..k-1 are admitted. */
  function Admitted(ds: seq<bool>, j: nat, k: nat): nat
    requires j <= k <= |ds|
  {
    if j == k then 0 else Admitted(ds, j, k - 1) + if ds[k - 1] then 1 else 0
  }

  lemma {:induction false} AdmittedSplits(ds: seq<bool>, i: nat, j: nat, k: nat)
    requires i <= j <= k <= |ds|
    ensures Admitted(ds, i, k) == Admitted(ds, i, j) + Admitted(ds, j, k)
  {
    if j < k {
      AdmittedSplits(ds, i, j, k - 1);
    }
  }

  /**
   A clamped account over a run of operations: it starts at caps[0], earns inc[k] - inc[k-1] between
   operations, never exceeds caps[k] at operation k, and pays one for each operation that asks and that
   it can pay for. lv[k] is the level when operation k is served.
   */
  ghost predicate Account(caps: seq<real>, inc: seq<real>, lv: seq<real>, asks: seq<bool>, ds: seq<bool>) {
    && |caps| == |inc| == |lv| == |asks| == |ds|
    && (lv != [] ==> lv[0] == caps[0])
    && (forall k: nat | 0 < k < |lv| :: lv[k] == NextLevel(caps[k], lv[k - 1], ds[k - 1], inc[k - 1], inc[k]))
    && (forall k: nat | k < |ds| :: ds[k] <==> asks[k] && lv[k] >= 1.0)
  }

  function NextLevel(cap: real, level: real, paid: bool, i0: real, i1: real): real {
    var raised := (if paid then level - 1.0 else level) + (i1 - i0);
    if raised <= cap then raised else cap
  }

  /** What the window that starts at operation j leaves for operation k. */
  function Headroom(caps: seq<real>, inc: seq<real>, ds: seq<bool>, j: nat, k: nat): real
    requires j <= k < |caps| == |inc| == |ds|
  {
    caps[j] + (inc[k] - inc[j]) - Admitted(ds, j, k) as real
  }

  ghost predicate Nondecreasing(inc: seq<real>) {
    forall k: nat | 0 < k < |inc| :: inc[k - 1] <= inc[k]
  }

  ghost predicate NonNegative(caps: seq<real>) {
    forall k: nat | k < |caps| :: 0.0 <= caps[k]
  }

  /** Every window j..k admits at most caps[j] plus its income. */
  ghost predicate Conforming(caps: seq<real>, inc: seq<real>, ds: seq<bool>)
    requires |caps| == |inc| == |ds|
  {
    forall j: nat, k: nat | j <= k < |inc| ::
      (if ds[k] then 1.0 else 0.0) <= Headroom(caps, inc, ds, j, k)
  }

  /** Only operations that ask are admitted. */
  ghost predicate OnlyAsked(asks: seq<bool>, es: seq<bool>)
    requires |asks| == |es|
  {
    forall k: nat | k < |es| :: es[k] ==> asks[k]
  }

  /** The level is the least headroom over all windows: a bound on each, attained by one. */
  lemma {:induction false} LevelIsLeastHeadroom(caps: seq<real>, inc: seq<real>, lv: seq<real>, asks: seq<bool>,
                                                ds: seq<bool>, k: nat) returns (w: nat)
    requires Account(caps, inc, lv, asks, ds) && k < |inc|
    ensures w <= k && lv[k] == Headroom(caps, inc, ds, w, k)
    ensures forall j: nat | j <= k :: lv[k] <= Headroom(caps, inc, ds, j, k)
  {
    if k == 0 {
      w := 0;
    } else {
      var v := LevelIsLeastHeadroom(caps, inc, lv, asks, ds, k - 1);
      w := if lv[k] == caps[k] then k else v;
      forall j: nat | j < k
        ensures lv[k] <= Headroom(caps, inc, ds, j, k)
      {
        assert lv[k - 1] <= Headroom(caps, inc, ds, j, k - 1);
      }
    }
  }

  lemma {:induction false} LevelNonNegative(caps: seq<real>, inc: seq<real>, lv: seq<real>, asks: seq<bool>,
                                            ds: seq<bool>, k: nat)
    requires Account(caps, inc, lv, asks, ds) && NonNegative(caps) && Nondecreasing(inc) && k < |inc|
    ensures 0.0 <= lv[k]
  {
    if 0 < k {
      LevelNonNegative(caps, inc, lv, asks, ds, k - 1);
      assert inc[k - 1] <= inc[k];
    }
  }

  lemma AccountIsWindowTest(caps: seq<real>, inc: seq<real>, lv: seq<real>, asks: seq<bool>, ds: seq<bool>, k: nat)
    requires Account(caps, inc, lv, asks, ds) && k < |inc|
    ensures ds[k] <==> asks[k] && forall j: nat | j <= k :: 1.0 <= Headroom(caps, inc, ds, j, k)
  {
    var w := LevelIsLeastHeadroom(caps, inc, lv, asks, ds, k);
    assert lv[k] == Headroom(caps, inc, ds, w, k);
  }

  lemma AccountConforms(caps: seq<real>, inc: seq<real>, lv: seq<real>, asks: seq<bool>, ds: seq<bool>)
    requires Account(caps, inc, lv, asks, ds) && NonNegative(caps) && Nondecreasing(inc)
    ensures Conforming(caps, inc, ds)
  {
    forall j: nat, k: nat | j <= k < |inc|
      ensures (if ds[k] then 1.0 else 0.0) <= Headroom(caps, inc, ds, j, k)
    {
      var w := LevelIsLeastHeadroom(caps, inc, lv, asks, ds, k);
      LevelNonNegative(caps, inc, lv, asks, ds, k);
    }
  }

  /** No conforming choice is ahead on any prefix: it would overfill the window that made the account refuse. */
  lemma {:induction false} AccountIsOptimal(caps: seq<real>, inc: seq<real>, lv: seq<real>, asks: seq<bool>,
                                            ds: seq<bool>, es: seq<bool>, k: nat)
    requires Account(caps, inc, lv, asks, ds)
    requires |es| == |inc| && k <= |inc| && OnlyAsked(asks, es) && Conforming(caps, inc, es)
    ensures Admitted(es, 0, k) <= Admitted(ds, 0, k)
  {
    if 0 < k {
      var m := k - 1;
      AccountIsOptimal(caps, inc, lv, asks, ds, es, m);
      if es[m] && !ds[m] {
        var j := LevelIsLeastHeadroom(caps, inc, lv, asks, ds, m);
        AccountIsOptimal(caps, inc, lv, asks, ds, es, j);
        AdmittedSplits(es, 0, j, m);
        AdmittedSplits(ds, 0, j, m);
        assert 1.0 <= Headroom(caps, inc, es, j, m);
      }
    }
  }
}

module BucketWindow {
  import opened Numbers
  import opened TokenBuckets
  import opened Windows

  /** The bucket before attempt k. */
  function StateAt(b: Bucket, ts: seq<real>, k: nat): Bucket
    requires k <= |ts|
  {
    if k == 0 then b else Consume(StateAt(b, ts, k - 1), ts[k - 1]).0
  }

  predicate Passes(b: Bucket, ts: seq<real>, k: nat)
    requires k < |ts|
  {
    Consume(StateAt(b, ts, k), ts[k]).1
  }

  function Decisions(b: Bucket, ts: seq<real>): seq<bool> {
    seq(|ts|, k requires 0 <= k < |ts| => Passes(b, ts, k))
  }

  /** The bucket's clock at attempt k: the running maximum of the start time and the timestamps. */
  function Clock(t0: real, ts: seq<real>, k: nat): real
    requires k < |ts|
  {
    Max(if k == 0 then t0 else Clock(t0, ts, k - 1), ts[k])
  }

  /** A bucket as `Full` builds it, and as any long enough quiet period leaves it. */
  ghost predicate Fresh(b: Bucket) {
    Sound(b) && b.tokens == b.capacity
  }

  lemma FullIsFresh(perMin: U32, now: real)
    ensures Fresh(Full(perMin, now))
  {
  }

  /** What burst + rate * length grants the window j..k. */
  function Allowance(b: Bucket, ts: seq<real>, j: nat, k: nat): real
    requires j <= k < |ts|
  {
    b.capacity + Times(b.rate, Clock(b.last, ts, k) - Clock(b.last, ts, j))
  }

  /** Every window of attempts admits at most burst + rate * length. */
  ghost predicate KeepsEveryWindow(b: Bucket, ts: seq<real>, ds: seq<bool>)
    requires |ts| == |ds|
  {
    forall j: nat, k: nat | j <= k < |ts| :: Admitted(ds, j, k + 1) as real <= Allowance(b, ts, j, k)
  }

  /** The level the refilled bucket shows to attempt k. */
  function LevelAt(b: Bucket, ts: seq<real>, k: nat): real
    requires k < |ts|
  {
    Refill(StateAt(b, ts, k), ts[k]).tokens
  }

  function IncomeAt(b: Bucket, ts: seq<real>, k: nat): real
    requires k < |ts|
  {
    Times(b.rate, Clock(b.last, ts, k))
  }

  function Levels(b: Bucket, ts: seq<real>): seq<real> {
    seq(|ts|, k requires 0 <= k < |ts| => LevelAt(b, ts, k))
  }

  function Incomes(b: Bucket, ts: seq<real>): seq<real> {
    seq(|ts|, k requires 0 <= k < |ts| => IncomeAt(b, ts, k))
  }

  function Caps(b: Bucket, ts: seq<real>): seq<real> {
    seq(|ts|, k => b.capacity)
  }

  function Asks(ts: seq<real>): seq<bool> {
    seq(|ts|, k => true)
  }

  lemma Distribute(rate: real, a: real, b: real)
    ensures Times(rate, b - a) == Times(b - a, rate) == Times(rate, b) - Times(rate, a)
    ensures 0.0 <= rate && a <= b ==> Times(rate, a) <= Times(rate, b)
  {
    if 0.0 <= rate && a <= b {
      TimesNonNegative(rate, b - a);
    }
  }

  lemma RefillByIncome(c: Bucket, t: real)
    requires 0.0 <= c.rate && c.tokens <= c.capacity
    ensures var clock := Max(c.last, t);
            Refill(c, t) == c.(tokens := Min(c.tokens + (Times(c.rate, clock) - Times(c.rate, c.last)), c.capacity), last := clock)
  {
    if c.last < t {
      Distribute(c.rate, c.last, t);
    } else {
      assert Max(c.last, t) == c.last;
    }
  }

  lemma {:induction false} StateAtKeeps(b: Bucket, ts: seq<real>, k: nat)
    requires Sound(b) && k <= |ts|
    ensures var c := StateAt(b, ts, k);
            && Sound(c) && c.capacity == b.capacity && c.rate == b.rate
            && c.last == if k == 0 then b.last else Clock(b.last, ts, k - 1)
  {
    if 0 < k {
      StateAtKeeps(b, ts, k - 1);
      SoundKept(StateAt(b, ts, k - 1), 0, ts[k - 1]);
    }
  }

  lemma LevelAfter(p: Bucket, s: real, t: real)
    requires Sound(p)
    ensures Refill(Consume(p, s).0, t).tokens
         == NextLevel(p.capacity, Refill(p, s).tokens, Consume(p, s).1,
                      Times(p.rate, Max(p.last, s)), Times(p.rate, Max(Max(p.last, s), t)))
  {
    SoundKept(p, 0, s);
    RefillByIncome(Consume(p, s).0, t);
  }

  lemma FreshStaysFull(b: Bucket, t: real)
    requires Fresh(b)
    ensures Refill(b, t).tokens == b.capacity
  {
    Distribute(b.rate, b.last, t);
  }

  /** The lazy bucket keeps a clamped account of its income rate * clock. */
  lemma {:induction false} LevelStep(b: Bucket, ts: seq<real>, k: nat)
    requires Fresh(b) && k < |ts|
    ensures LevelAt(b, ts, k) == if k == 0 then b.capacity
            else NextLevel(b.capacity, LevelAt(b, ts, k - 1), Passes(b, ts, k - 1), IncomeAt(b, ts, k - 1), IncomeAt(b, ts, k))
  {
    if k == 0 {
      FreshStaysFull(b, ts[0]);
    } else {
      StateAtKeeps(b, ts, k - 1);
      LevelAfter(StateAt(b, ts, k - 1), ts[k - 1], ts[k]);
    }
  }

  lemma BucketIsAccount(b: Bucket, ts: seq<real>)
    requires Fresh(b)
    ensures Account(Caps(b, ts), Incomes(b, ts), Levels(b, ts), Asks(ts), Decisions(b, ts))
  {
    forall k: nat | k < |ts|
      ensures LevelAt(b, ts, k) == if k == 0 then b.capacity
              else NextLevel(b.capacity, LevelAt(b, ts, k - 1), Passes(b, ts, k - 1), IncomeAt(b, ts, k - 1), IncomeAt(b, ts, k))
    {
      LevelStep(b, ts, k);
    }
  }

  lemma IncomesGrow(b: Bucket, ts: seq<real>)
    requires Sound(b)
    ensures Nondecreasing(Incomes(b, ts))
  {
    forall k: nat | 0 < k < |ts|
      ensures IncomeAt(b, ts, k - 1) <= IncomeAt(b, ts, k)
    {
      Distribute(b.rate, Clock(b.last, ts, k - 1), Clock(b.last, ts, k));
    }
  }

  lemma AllowanceIsHeadroom(b: Bucket, ts: seq<real>, ds: seq<bool>, j: nat, k: nat)
    requires j <= k < |ts| == |ds|
    ensures Headroom(Caps(b, ts), Incomes(b, ts), ds, j, k) == Allowance(b, ts, j, k) - Admitted(ds, j, k) as real
  {
    Distribute(b.rate, Clock(b.last, ts, j), Clock(b.last, ts, k));
    assert Incomes(b, ts)[j] == IncomeAt(b, ts, j) && Incomes(b, ts)[k] == IncomeAt(b, ts, k);
  }

  lemma ConformingIsKeepsEveryWindow(b: Bucket, ts: seq<real>, ds: seq<bool>)
    requires |ts| == |ds|
    ensures KeepsEveryWindow(b, ts, ds) <==> Conforming(Caps(b, ts), Incomes(b, ts), ds)
  {
    forall j: nat, k: nat | j <= k < |ts|
      ensures Admitted(ds, j, k + 1) as real - Allowance(b, ts, j, k)
           == (if ds[k] then 1.0 else 0.0) - Headroom(Caps(b, ts), Incomes(b, ts), ds, j, k)
    {
      AllowanceIsHeadroom(b, ts, ds, j, k);
    }
  }

  /** The bucket admits attempt k exactly when every window ending at k has room for one more. */
  lemma LazyBucketIsWindowTest(b: Bucket, ts: seq<real>, k: nat)
    requires Fresh(b) && k < |ts|
    ensures var ds := Decisions(b, ts);
            ds[k] <==> forall j: nat | j <= k :: Admitted(ds, j, k) as real + 1.0 <= Allowance(b, ts, j, k)
  {
    var ds := Decisions(b, ts);
    BucketIsAccount(b, ts);
    AccountIsWindowTest(Caps(b, ts), Incomes(b, ts), Levels(b, ts), Asks(ts), ds, k);
    forall j: nat | j <= k
      ensures 1.0 <= Headroom(Caps(b, ts), Incomes(b, ts), ds, j, k)
         <==> Admitted(ds, j, k) as real + 1.0 <= Allowance(b, ts, j, k)
    {
      AllowanceIsHeadroom(b, ts, ds, j, k);
    }
  }

  /** The bucket's own choice keeps every window. */
  lemma BucketKeepsEveryWindow(b: Bucket, ts: seq<real>)
    requires Fresh(b)
    ensures KeepsEveryWindow(b, ts, Decisions(b, ts))
  {
    BucketIsAccount(b, ts);
    IncomesGrow(b, ts);
    AccountConforms(Caps(b, ts), Incomes(b, ts), Levels(b, ts), Asks(ts), Decisions(b, ts));
    ConformingIsKeepsEveryWindow(b, ts, Decisions(b, ts));
  }

  /** Greedy optimality: on every prefix, no choice that keeps every window admits more than the bucket. */
  lemma BucketIsOptimal(b: Bucket, ts: seq<real>, es: seq<bool>, k: nat)
    requires Fresh(b) && |es| == |ts| && k <= |ts| && KeepsEveryWindow(b, ts, es)
    ensures Admitted(es, 0, k) <= Admitted(Decisions(b, ts), 0, k)
  {
    BucketIsAccount(b, ts);
    ConformingIsKeepsEveryWindow(b, ts, es);
    AccountIsOptimal(Caps(b, ts), Incomes(b, ts), Levels(b, ts), Asks(ts), Decisions(b, ts), es, k);
  }
}
