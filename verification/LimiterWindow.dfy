/**
 The window test read off the shared limiter (src/rate_limit.rs:144-157): what `BucketWindow` says of a
 lone bucket holds for every node of every mixed run.
 */
module LimiterWindow {
  import opened Wrappers
  import opened Nodes
  import opened Numbers
  import opened TokenBuckets
  import opened Windows
  import opened BucketWindow
  import opened RateLimiters
  import opened TunedWindow

  function TimesOf(ops: seq<Op>): seq<real> {
    seq(|ops|, i requires 0 <= i < |ops| => ops[i].now)
  }

  ghost predicate OnlyAttempts(ops: seq<Op>) {
    forall i: nat | i < |ops| :: ops[i].Attempt?
  }

  /** The bucket after k + 1 attempts is the once-asked bucket after the k that follow. */
  lemma {:induction false} StateAtShift(b: Bucket, ts: seq<real>, k: nat)
    requires k < |ts|
    ensures StateAt(b, ts, k + 1) == StateAt(Consume(b, ts[0]).0, ts[1..], k)
  {
    if k == 0 {
      assert StateAt(b, ts, 0) == b;
    } else {
      StateAtShift(b, ts, k - 1);
      assert ts[1..][k - 1] == ts[k];
    }
  }

  lemma DecisionShift(b: Bucket, ts: seq<real>, k: nat)
    requires 0 < k < |ts|
    ensures Decisions(b, ts)[k] == Decisions(Consume(b, ts[0]).0, ts[1..])[k - 1]
  {
    StateAtShift(b, ts, k - 1);
    assert ts[1..][k - 1] == ts[k];
  }

  lemma DecisionsShift(b: Bucket, ts: seq<real>)
    requires ts != []
    ensures Decisions(b, ts) == [Consume(b, ts[0]).1] + Decisions(Consume(b, ts[0]).0, ts[1..])
  {
    var ds, rest := Decisions(b, ts), Decisions(Consume(b, ts[0]).0, ts[1..]);
    assert StateAt(b, ts, 0) == b;
    forall k: nat | 0 < k < |ts| ensures ds[k] == rest[k - 1] {
      DecisionShift(b, ts, k);
    }
  }

  lemma {:induction false} LoneRunIsDecisions(default: U32, b: Bucket, ops: seq<Op>)
    requires OnlyAttempts(ops)
    ensures LoneRun(default, Some(b), ops).1 == Decisions(b, TimesOf(ops))
    decreases |ops|
  {
    if ops != [] {
      var ts := TimesOf(ops);
      assert TimesOf(ops[1..]) == ts[1..];
      DecisionsShift(b, ts);
      LoneRunIsDecisions(default, Consume(b, ts[0]).0, ops[1..]);
    }
  }

  // ---------------------------------------------------------------- any operations

  /** The outcomes of the attempts among the operations. */
  function OfAttempts(ops: seq<Op>, ds: seq<bool>): seq<bool>
    requires |ops| == |ds|
    decreases |ops|
  {
    if ops == [] then [] else (if ops[0].Attempt? then [ds[0]] else []) + OfAttempts(ops[1..], ds[1..])
  }

  lemma {:induction false} BeforeShift(b: Bucket, ops: seq<Op>, k: nat)
    requires k < |ops|
    ensures Before(b, ops, k + 1) == Before(Apply(b, ops[0]), ops[1..], k)
  {
    if k == 0 {
      assert Before(b, ops, 0) == b;
    } else {
      BeforeShift(b, ops, k - 1);
      assert ops[1..][k - 1] == ops[k];
    }
  }

  lemma OutcomesShift(b: Bucket, ops: seq<Op>)
    requires ops != []
    ensures Outcomes(b, ops)[1..] == Outcomes(Apply(b, ops[0]), ops[1..])
  {
    var rest := ops[1..];
    forall k: nat | k < |rest| ensures Admits(b, ops, k + 1) == Admits(Apply(b, ops[0]), rest, k) {
      BeforeShift(b, ops, k);
      assert rest[k] == ops[k + 1];
    }
  }

  lemma {:induction false} LoneRunIsOutcomes(default: U32, b: Bucket, ops: seq<Op>)
    ensures LoneRun(default, Some(b), ops).1 == OfAttempts(ops, Outcomes(b, ops))
    decreases |ops|
  {
    if ops != [] {
      OutcomesShift(b, ops);
      LoneRunIsOutcomes(default, Apply(b, ops[0]), ops[1..]);
      assert Outcomes(b, ops)[0] == Admits(b, ops, 0);
    }
  }

  /** The bucket a node has, or the one that its first operation will seed. */
  function Start(default: U32, m: Buckets, node: NodeId, first: Op): Bucket {
    if node in m then m[node] else Seed(default, first)
  }

  /**
   In any mixed run, whatever limits are set and however the operations are stamped, every node is
   answered by the window test on its own operations: an attempt passes exactly when every window of
   them that ends there has room for one more. A new node starts with a whole burst.
   */
  lemma LimiterIsWindowTest(default: U32, m: Buckets, ops: seq<Op>, node: NodeId, k: nat)
    requires SoundBuckets(m) && k < |OpsOf(ops, node)| && OpsOf(ops, node)[k].Attempt?
    ensures var own := OpsOf(ops, node);
            var b := Start(default, m, node, own[0]);
            var ds := Outcomes(b, own);
            && AnswersOf(Run(default, m, ops).1, node) == OfAttempts(own, ds)
            && (node !in m ==> Burst(b, own, 0) == b.capacity)
            && (ds[k] <==> forall j: nat | j <= k :: Admitted(ds, j, k) as real + 1.0 <= Granted(b, own, j, k))
  {
    var own := OpsOf(ops, node);
    var b := Start(default, m, node, own[0]);
    NodesDoNotInterfere(default, m, ops, node);
    SeededByFirst(default, own);
    SeedIsSound(default, own[0]);
    LoneRunIsOutcomes(default, b, own);
    if node !in m {
      FreshBurst(b, own);
    }
    TunedBucketIsWindowTest(b, own, k);
  }

  // ---------------------------------------------------------------- one limit throughout

  /** The bucket that a new node's first operation seeds. */
  function Seed(default: U32, first: Op): Bucket {
    var limit := if first.SetLimit? then LimitOf(first.perMin) else default as real;
    Bucket(limit, first.now, limit, limit / 60.0)
  }

  /** A node's operations when it is new, and when every limit it is given later is the one it has. */
  ghost predicate KeepsOneLimit(default: U32, own: seq<Op>) {
    own != [] && OnlyResyncs(Seed(default, own[0]), own) && ResyncsPrecede(own)
  }

  /**
   With one limit the test is simpler: in any mixed run, a node that is new to the limiter is answered by
   the window test on its attempts alone, with the burst plus the rate times the window's length. The
   limit is the one its first operation sets, or the default; re-syncs to that limit, stamped no later
   than the attempts that follow them, do not matter.
   */
  lemma SteadyLimitIsWindowTest(default: U32, m: Buckets, ops: seq<Op>, node: NodeId, k: nat)
    requires node !in m && KeepsOneLimit(default, OpsOf(ops, node))
    requires k < |WithoutLimits(OpsOf(ops, node), node)|
    ensures var own := OpsOf(ops, node);
            var asked := WithoutLimits(own, node);
            var answers := AnswersOf(Run(default, m, ops).1, node);
            var b, ts := Seed(default, own[0]), TimesOf(asked);
            && |answers| == |asked|
            && (answers[k] <==> forall j: nat | j <= k ::
                                  Admitted(answers, j, k) as real + 1.0 <= Allowance(b, ts, j, k))
  {
    var own := OpsOf(ops, node);
    var asked, b := WithoutLimits(own, node), Seed(default, own[0]);
    NodesDoNotInterfere(default, m, ops, node);
    OpsOfWithoutLimits(ops, node, node);
    SeededByFirst(default, own);
    SeedIsSound(default, own[0]);
    ResyncInvisibleFrom(default, b, b, 0.0, own, node);
    AttemptsStay(own, node);
    LoneRunIsDecisions(default, b, asked);
    LazyBucketIsWindowTest(b, TimesOf(asked), k);
  }

  lemma SeededByFirst(default: U32, own: seq<Op>)
    requires own != []
    ensures LoneRun(default, None, own) == LoneRun(default, Some(Seed(default, own[0])), own)
  {
  }

  lemma SeedIsSound(default: U32, first: Op)
    ensures Sound(Seed(default, first)) && Fresh(Seed(default, first))
  {
    FullIsFresh(if first.SetLimit? then Effective(first.perMin) else default, first.now);
  }

  lemma {:induction false} AttemptsStay(ops: seq<Op>, node: NodeId)
    requires forall i: nat | i < |ops| :: ops[i].node == node
    ensures OnlyAttempts(WithoutLimits(ops, node))
    decreases |ops|
  {
    if ops != [] {
      assert forall i: nat | i < |ops[1..]| :: ops[1..][i] == ops[i + 1];
      AttemptsStay(ops[1..], node);
    }
  }
}
