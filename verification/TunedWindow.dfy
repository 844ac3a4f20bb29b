/**
 The window test when limits change (src/rate_limit.rs:54-83).

 A bucket goes through attempts and limit changes, stamped with any times in any order. Between two
 operations it earns at the rate in force there, and at each it is cut to the capacity in force. What it
 admits is again decided by a test on all windows of the history, and no policy that keeps every window
 admits more.
 */
module TunedWindow {
  import opened TokenBuckets
  import opened Windows
  import opened BucketWindow
  import opened RateLimiters

  function Apply(b: Bucket, op: Op): Bucket {
    match op
    case Attempt(_, now) => Consume(b, now).0
    case SetLimit(_, perMin, now) => Retune(b, Effective(perMin), now)
  }

  /** The bucket before operation k. */
  function Before(b: Bucket, ops: seq<Op>, k: nat): Bucket
    requires k <= |ops|
  {
    if k == 0 then b else Apply(Before(b, ops, k - 1), ops[k - 1])
  }

  /** The level an operation finds, or for a limit change leaves. */
  function Shown(b: Bucket, op: Op): real {
    match op
    case Attempt(_, now) => Refill(b, now).tokens
    case SetLimit(_, perMin, now) => Retune(b, Effective(perMin), now).tokens
  }

  /** The limit in force before operation k: the last one set, or the one at the start. */
  function InForce(b: Bucket, ops: seq<Op>, k: nat): real
    requires k <= |ops|
  {
    if k == 0 then b.capacity
    else if ops[k - 1].SetLimit? then LimitOf(ops[k - 1].perMin)
    else InForce(b, ops, k - 1)
  }

  /** What an operation cuts the level to: the limit, or the smaller of the old and the new one. */
  function Cut(limit: real, op: Op): real {
    match op
    case Attempt(_, _) => limit
    case SetLimit(_, perMin, _) => Min(limit, LimitOf(perMin))
  }

  /** The clock at operation k: the latest of the start and all stamps up to it. */
  function ClockAt(b: Bucket, ops: seq<Op>, k: nat): real
    requires k < |ops|
  {
    Max(if k == 0 then b.last else ClockAt(b, ops, k - 1), ops[k].now)
  }

  /** The burst of a window that starts at operation j: the limit there, or what there was at the very start. */
  function Burst(b: Bucket, ops: seq<Op>, j: nat): real
    requires j < |ops|
  {
    if j == 0 then Min(b.tokens + Times(b.rate, ClockAt(b, ops, 0) - b.last), Cut(b.capacity, ops[0]))
    else Cut(InForce(b, ops, j), ops[j])
  }

  /** All income from the first operation to operation k: a sixtieth of the limit in force * clock advance, added up. */
  function Earned(b: Bucket, ops: seq<Op>, k: nat): real
    requires k < |ops|
  {
    if k == 0 then 0.0
    else Earned(b, ops, k - 1) + Times(InForce(b, ops, k) / 60.0, ClockAt(b, ops, k) - ClockAt(b, ops, k - 1))
  }

  predicate Admits(b: Bucket, ops: seq<Op>, k: nat)
    requires k < |ops|
  {
    ops[k].Attempt? && Consume(Before(b, ops, k), ops[k].now).1
  }

  /** Which operations are attempts that pass. */
  function Outcomes(b: Bucket, ops: seq<Op>): seq<bool> {
    seq(|ops|, k requires 0 <= k < |ops| => Admits(b, ops, k))
  }

  function Bursts(b: Bucket, ops: seq<Op>): seq<real> {
    seq(|ops|, k requires 0 <= k < |ops| => Burst(b, ops, k))
  }

  function Earnings(b: Bucket, ops: seq<Op>): seq<real> {
    seq(|ops|, k requires 0 <= k < |ops| => Earned(b, ops, k))
  }

  function ShownAt(b: Bucket, ops: seq<Op>): seq<real> {
    seq(|ops|, k requires 0 <= k < |ops| => Shown(Before(b, ops, k), ops[k]))
  }

  function Attempts(ops: seq<Op>): seq<bool> {
    seq(|ops|, k requires 0 <= k < |ops| => ops[k].Attempt?)
  }

  /** What the window j..k may admit: its burst, and the income of every stretch of it. */
  function Granted(b: Bucket, ops: seq<Op>, j: nat, k: nat): real
    requires j <= k < |ops|
  {
    Burst(b, ops, j) + (Earned(b, ops, k) - Earned(b, ops, j))
  }

  /** Every window of operations admits at most what it is granted. */
  ghost predicate KeepsEveryGrant(b: Bucket, ops: seq<Op>, ds: seq<bool>)
    requires |ops| == |ds|
  {
    forall j: nat, k: nat | j <= k < |ops| :: Admitted(ds, j, k + 1) as real <= Granted(b, ops, j, k)
  }

  // ---------------------------------------------------------------- the bucket keeps an account

  lemma ApplyKeeps(b: Bucket, op: Op)
    requires Sound(b)
    ensures var c := Apply(b, op);
            && Sound(c) && c.last == Max(b.last, op.now)
            && c.tokens == Shown(b, op) - (if op.Attempt? && Consume(b, op.now).1 then 1.0 else 0.0)
  {
    SoundKept(b, if op.Attempt? then 0 else Effective(op.perMin), op.now);
  }

  lemma {:induction false} BeforeKeeps(b: Bucket, ops: seq<Op>, k: nat)
    requires Sound(b) && k <= |ops|
    ensures var c := Before(b, ops, k);
            && Sound(c) && c.capacity == InForce(b, ops, k) && c.rate == InForce(b, ops, k) / 60.0
            && c.last == if k == 0 then b.last else ClockAt(b, ops, k - 1)
  {
    if 0 < k {
      BeforeKeeps(b, ops, k - 1);
      ApplyKeeps(Before(b, ops, k - 1), ops[k - 1]);
    }
  }

  /** The level an operation shows is the old one plus the income, cut. */
  lemma ShownByIncome(b: Bucket, op: Op)
    requires Sound(b)
    ensures Shown(b, op) == Min(b.tokens + Times(b.rate, Max(b.last, op.now) - b.last), Cut(b.capacity, op))
  {
    RefillByIncome(b, op.now);
    Distribute(b.rate, b.last, Max(b.last, op.now));
  }

  lemma ShownStep(b: Bucket, ops: seq<Op>, k: nat)
    requires Sound(b) && 0 < k < |ops|
    ensures Shown(Before(b, ops, k), ops[k])
         == NextLevel(Burst(b, ops, k), Shown(Before(b, ops, k - 1), ops[k - 1]), Admits(b, ops, k - 1),
                      Earned(b, ops, k - 1), Earned(b, ops, k))
  {
    BeforeKeeps(b, ops, k - 1);
    BeforeKeeps(b, ops, k);
    ApplyKeeps(Before(b, ops, k - 1), ops[k - 1]);
    ShownByIncome(Before(b, ops, k), ops[k]);
  }

  /** Through any operations, the bucket keeps a clamped account of its income. */
  lemma TunedBucketIsAccount(b: Bucket, ops: seq<Op>)
    requires Sound(b)
    ensures Account(Bursts(b, ops), Earnings(b, ops), ShownAt(b, ops), Attempts(ops), Outcomes(b, ops))
  {
    if ops != [] {
      ShownByIncome(b, ops[0]);
    }
    forall k: nat | 0 < k < |ops|
      ensures Shown(Before(b, ops, k), ops[k])
           == NextLevel(Burst(b, ops, k), Shown(Before(b, ops, k - 1), ops[k - 1]), Admits(b, ops, k - 1),
                        Earned(b, ops, k - 1), Earned(b, ops, k))
    {
      ShownStep(b, ops, k);
    }
  }

  lemma EarningsGrow(b: Bucket, ops: seq<Op>)
    requires Sound(b)
    ensures Nondecreasing(Earnings(b, ops)) && NonNegative(Bursts(b, ops))
  {
    forall k: nat | k < |ops| ensures 0.0 <= Burst(b, ops, k) {
      BurstNonNegative(b, ops, k);
    }
    forall k: nat | 0 < k < |ops| ensures Earned(b, ops, k - 1) <= Earned(b, ops, k) {
      BeforeKeeps(b, ops, k);
      TimesNonNegative(InForce(b, ops, k) / 60.0, ClockAt(b, ops, k) - ClockAt(b, ops, k - 1));
    }
  }

  lemma BurstNonNegative(b: Bucket, ops: seq<Op>, k: nat)
    requires k < |ops| && Sound(b)
    ensures 0.0 <= Burst(b, ops, k)
  {
    BeforeKeeps(b, ops, k);
    TimesNonNegative(b.rate, ClockAt(b, ops, 0) - b.last);
  }

  lemma GrantedIsHeadroom(b: Bucket, ops: seq<Op>, ds: seq<bool>, j: nat, k: nat)
    requires j <= k < |ops| == |ds|
    ensures Headroom(Bursts(b, ops), Earnings(b, ops), ds, j, k) == Granted(b, ops, j, k) - Admitted(ds, j, k) as real
  {
  }

  // ---------------------------------------------------------------- what it admits

  /**
   Attempt k passes exactly when every window that ends at it has room for one more, where a window
   starts at any operation and may run through any changes of the limit.
   */
  lemma TunedBucketIsWindowTest(b: Bucket, ops: seq<Op>, k: nat)
    requires Sound(b) && k < |ops| && ops[k].Attempt?
    ensures var ds := Outcomes(b, ops);
            ds[k] <==> forall j: nat | j <= k :: Admitted(ds, j, k) as real + 1.0 <= Granted(b, ops, j, k)
  {
    var ds := Outcomes(b, ops);
    TunedBucketIsAccount(b, ops);
    AccountIsWindowTest(Bursts(b, ops), Earnings(b, ops), ShownAt(b, ops), Attempts(ops), ds, k);
    forall j: nat | j <= k
      ensures 1.0 <= Headroom(Bursts(b, ops), Earnings(b, ops), ds, j, k)
         <==> Admitted(ds, j, k) as real + 1.0 <= Granted(b, ops, j, k)
    {
      GrantedIsHeadroom(b, ops, ds, j, k);
    }
  }

  lemma ConformingIsKeepsEveryGrant(b: Bucket, ops: seq<Op>, ds: seq<bool>)
    requires |ops| == |ds|
    ensures KeepsEveryGrant(b, ops, ds) <==> Conforming(Bursts(b, ops), Earnings(b, ops), ds)
  {
    forall j: nat, k: nat | j <= k < |ops|
      ensures Admitted(ds, j, k + 1) as real - Granted(b, ops, j, k)
           == (if ds[k] then 1.0 else 0.0) - Headroom(Bursts(b, ops), Earnings(b, ops), ds, j, k)
    {
      GrantedIsHeadroom(b, ops, ds, j, k);
    }
  }

  /** The bucket keeps every window through all changes of its limit. */
  lemma TunedBucketKeepsEveryGrant(b: Bucket, ops: seq<Op>)
    requires Sound(b)
    ensures KeepsEveryGrant(b, ops, Outcomes(b, ops))
  {
    TunedBucketIsAccount(b, ops);
    EarningsGrow(b, ops);
    AccountConforms(Bursts(b, ops), Earnings(b, ops), ShownAt(b, ops), Attempts(ops), Outcomes(b, ops));
    ConformingIsKeepsEveryGrant(b, ops, Outcomes(b, ops));
  }

  /** No choice of attempts that keeps every window is ahead of the bucket on any prefix. */
  lemma TunedBucketIsOptimal(b: Bucket, ops: seq<Op>, es: seq<bool>, k: nat)
    requires Sound(b) && |es| == |ops| && k <= |ops|
    requires OnlyAsked(Attempts(ops), es) && KeepsEveryGrant(b, ops, es)
    ensures Admitted(es, 0, k) <= Admitted(Outcomes(b, ops), 0, k)
  {
    TunedBucketIsAccount(b, ops);
    ConformingIsKeepsEveryGrant(b, ops, es);
    AccountIsOptimal(Bursts(b, ops), Earnings(b, ops), ShownAt(b, ops), Attempts(ops), Outcomes(b, ops), es, k);
  }

  /** A full bucket's first window has a whole burst. */
  lemma FreshBurst(b: Bucket, ops: seq<Op>)
    requires Fresh(b) && ops != []
    ensures Burst(b, ops, 0) == Cut(b.capacity, ops[0])
  {
    TimesNonNegative(b.rate, ClockAt(b, ops, 0) - b.last);
  }
}
