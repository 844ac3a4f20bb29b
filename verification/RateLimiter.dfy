/**
 The per-node rate limiter (src/rate_limit.rs).

 `ConsumeIn` and `SetLimitIn` say what a call makes of the map of buckets; class `RateLimiter`
 holds the map and the counters and updates them in place.
 */
module RateLimiters {
  import opened Wrappers
  import opened Nodes
  import opened Numbers
  import opened TokenBuckets

  type Buckets = map<NodeId, Bucket>

  const DEFAULT_RATE_PER_MIN: U32 := 100

  function Effective(perMin: U32): U32 {
    if perMin == 0 then DEFAULT_RATE_PER_MIN else perMin
  }

  function Lookup(m: Buckets, node: NodeId): Option<Bucket> {
    if node in m then Some(m[node]) else None
  }

  function ConsumeIn(default: U32, m: Buckets, node: NodeId, now: real): (Buckets, bool) {
    var (b, allowed) := Consume(if node in m then m[node] else Full(default, now), now);
    (m[node := b], allowed)
  }

  function SetLimitIn(m: Buckets, node: NodeId, perMin: U32, now: real): Buckets {
    var b := if node in m then m[node] else Full(Effective(perMin), now);
    m[node := Retune(b, Effective(perMin), now)]
  }

  /** The limit a rate per minute stands for: zero means 100. */
  function LimitOf(perMin: U32): real {
    if perMin == 0 then 100.0 else perMin as real
  }

  /** The bucket of a node whose limit was set: seeded full at the new limit, or cut to it. */
  ghost predicate TunedTo(before: Buckets, after: Bucket, node: NodeId, limit: real, now: real) {
    && after.capacity == limit && after.rate == limit / 60.0
    && if node !in before then after.tokens == limit && after.last == now
       else
         var b := before[node];
         var clock := Max(b.last, now);
         && after.last == clock
         && after.tokens == Min(Min(b.tokens + Times(clock - b.last, b.rate), b.capacity), limit)
  }

  /** Setting a limit tunes that node's bucket to it and touches no other. */
  lemma SetLimitApplies(m: Buckets, node: NodeId, perMin: U32, now: real)
    requires SoundBuckets(m)
    ensures var m' := SetLimitIn(m, node, perMin, now);
            && node in m' && TunedTo(m, m'[node], node, LimitOf(perMin), now)
            && m' == m[node := m'[node]]
  {
    if node in m {
      RetuneExact(m[node], Effective(perMin), now);
    }
  }

  ghost predicate SoundBuckets(m: Buckets) {
    forall n | n in m :: Sound(m[n])
  }

  // ---------------------------------------------------------------- runs over many nodes

  datatype Op =
    | Attempt(node: NodeId, now: real)
    | SetLimit(node: NodeId, perMin: U32, now: real)

  /** A run of the limiter: the final buckets, and who got which answer, in order. */
  function Run(default: U32, m: Buckets, ops: seq<Op>): (Buckets, seq<(NodeId, bool)>)
    decreases |ops|
  {
    if ops == [] then (m, [])
    else match ops[0]
      case Attempt(n, now) =>
        var (m1, allowed) := ConsumeIn(default, m, n, now);
        var (m2, answers) := Run(default, m1, ops[1..]);
        (m2, [(n, allowed)] + answers)
      case SetLimit(n, perMin, now) => Run(default, SetLimitIn(m, n, perMin, now), ops[1..])
  }

  /** A run of a lone bucket, absent until its first operation. */
  function LoneRun(default: U32, b: Option<Bucket>, ops: seq<Op>): (Option<Bucket>, seq<bool>)
    decreases |ops|
  {
    if ops == [] then (b, [])
    else match ops[0]
      case Attempt(_, now) =>
        var (b1, allowed) := Consume(if b.Some? then b.value else Full(default, now), now);
        var (b2, answers) := LoneRun(default, Some(b1), ops[1..]);
        (b2, [allowed] + answers)
      case SetLimit(_, perMin, now) =>
        var seeded := if b.Some? then b.value else Full(Effective(perMin), now);
        LoneRun(default, Some(Retune(seeded, Effective(perMin), now)), ops[1..])
  }

  function OpsOf(ops: seq<Op>, node: NodeId): seq<Op>
    decreases |ops|
  {
    if ops == [] then []
    else if ops[0].node == node then [ops[0]] + OpsOf(ops[1..], node)
    else OpsOf(ops[1..], node)
  }

  function AnswersOf(answers: seq<(NodeId, bool)>, node: NodeId): seq<bool>
    decreases |answers|
  {
    if answers == [] then []
    else if answers[0].0 == node then [answers[0].1] + AnswersOf(answers[1..], node)
    else AnswersOf(answers[1..], node)
  }

  /** Non-interference: what a node sees of any mixed run is a lone bucket fed that node's operations. */
  lemma {:induction false} NodesDoNotInterfere(default: U32, m: Buckets, ops: seq<Op>, node: NodeId)
    ensures var (m', answers) := Run(default, m, ops);
            var (b', own) := LoneRun(default, Lookup(m, node), OpsOf(ops, node));
            Lookup(m', node) == b' && AnswersOf(answers, node) == own
    decreases |ops|
  {
    if ops != [] {
      var op, rest := ops[0], ops[1..];
      var m1 := if op.Attempt? then ConsumeIn(default, m, op.node, op.now).0
                else SetLimitIn(m, op.node, op.perMin, op.now);
      NodesDoNotInterfere(default, m1, rest, node);
      assert ([op] + OpsOf(rest, node))[1..] == OpsOf(rest, node);
      if op.Attempt? {
        var a, answers := ConsumeIn(default, m, op.node, op.now).1, Run(default, m1, rest).1;
        assert ([(op.node, a)] + answers)[1..] == answers;
      }
    }
  }

  // ---------------------------------------------------------------- repeated limit syncs

  /** `ops` without the limit changes of `node`. */
  function WithoutLimits(ops: seq<Op>, node: NodeId): seq<Op>
    decreases |ops|
  {
    if ops == [] then []
    else if ops[0].SetLimit? && ops[0].node == node then WithoutLimits(ops[1..], node)
    else [ops[0]] + WithoutLimits(ops[1..], node)
  }

  /** Every limit change in `ops` sets the limit the bucket already has. */
  ghost predicate OnlyResyncs(b: Bucket, ops: seq<Op>) {
    forall i: nat | i < |ops| && ops[i].SetLimit? :: Effective(ops[i].perMin) as real == b.capacity
  }

  /** No limit change is stamped later than an attempt that follows it. */
  ghost predicate ResyncsPrecede(ops: seq<Op>) {
    forall i: nat, j: nat | i < j < |ops| && ops[i].SetLimit? && ops[j].Attempt? :: ops[i].now <= ops[j].now
  }

  ghost predicate NoAttemptBefore(ops: seq<Op>, s: real) {
    forall j: nat | j < |ops| && ops[j].Attempt? :: s <= ops[j].now
  }

  /** `b` has been refilled up to `s` by re-syncs that `c` never saw, and every attempt left is at `s` or later. */
  lemma {:induction false} ResyncInvisibleFrom(default: U32, b: Bucket, c: Bucket, s: real, ops: seq<Op>, node: NodeId)
    requires Sound(b) && Sound(c) && OnlyResyncs(b, ops) && ResyncsPrecede(ops)
    requires forall i: nat | i < |ops| :: ops[i].node == node
    requires b == c || (b == Refill(c, s) && NoAttemptBefore(ops, s))
    ensures LoneRun(default, Some(b), ops).1 == LoneRun(default, Some(c), WithoutLimits(ops, node)).1
    decreases |ops|
  {
    if ops != [] {
      var op, rest := ops[0], ops[1..];
      assert forall i: nat | i < |rest| :: rest[i] == ops[i + 1];
      match op
      case Attempt(_, now) =>
        RefillTwice(c, s, now);
        assert Refill(b, now) == Refill(c, now);
        SoundKept(b, 0, now);
        ResyncInvisibleFrom(default, Consume(b, now).0, Consume(b, now).0, s, rest, node);
        assert ([op] + WithoutLimits(rest, node))[1..] == WithoutLimits(rest, node);
      case SetLimit(_, perMin, now) =>
        assert Effective(ops[0].perMin) as real == b.capacity;
        SoundKept(b, Effective(perMin), now);
        assert Retune(b, Effective(perMin), now) == Refill(b, now);
        RefillTwice(c, s, now);
        assert forall j: nat | j < |rest| && rest[j].Attempt? :: ops[0].now <= ops[j + 1].now;
        ResyncInvisibleFrom(default, Refill(b, now), c, if b == c then now else Max(s, now), rest, node);
    }
  }

  lemma {:induction false} OpsOfWithoutLimits(ops: seq<Op>, node: NodeId, other: NodeId)
    ensures OpsOf(WithoutLimits(ops, node), other)
         == if other == node then WithoutLimits(OpsOf(ops, node), node) else OpsOf(ops, other)
    ensures forall i: nat | i < |OpsOf(ops, node)| :: OpsOf(ops, node)[i].node == node
    decreases |ops|
  {
    if ops != [] {
      var op, rest := ops[0], ops[1..];
      OpsOfWithoutLimits(rest, node, other);
      assert ([op] + WithoutLimits(rest, node))[1..] == WithoutLimits(rest, node);
      assert ([op] + OpsOf(rest, node))[1..] == OpsOf(rest, node);
    }
  }

  /** Re-applying to a node the limit it already has changes no later answer, to that node or any other. */
  lemma ResyncIsInvisible(default: U32, m: Buckets, ops: seq<Op>, node: NodeId, other: NodeId)
    requires node in m && Sound(m[node])
    requires OnlyResyncs(m[node], OpsOf(ops, node)) && ResyncsPrecede(OpsOf(ops, node))
    ensures AnswersOf(Run(default, m, ops).1, other) == AnswersOf(Run(default, m, WithoutLimits(ops, node)).1, other)
  {
    NodesDoNotInterfere(default, m, ops, other);
    NodesDoNotInterfere(default, m, WithoutLimits(ops, node), other);
    OpsOfWithoutLimits(ops, node, other);
    if other == node {
      ResyncInvisibleFrom(default, m[node], m[node], 0.0, OpsOf(ops, node), node);
    }
  }

  lemma OneAttempt(default: U32, b: Bucket, node: NodeId, now: real)
    ensures LoneRun(default, Some(b), [Attempt(node, now)]).1 == [Consume(b, now).1]
  {
    assert [Attempt(node, now)][1..] == [];
    assert LoneRun(default, Some(Consume(b, now).0), []).1 == [];
  }

  lemma LateResyncRun(default: U32, b: Bucket, node: NodeId, perMin: U32, late: real, now: real)
    ensures var ops := [SetLimit(node, perMin, late), Attempt(node, now)];
            && LoneRun(default, Some(b), ops).1 == [Consume(Retune(b, Effective(perMin), late), now).1]
            && WithoutLimits(ops, node) == [Attempt(node, now)]
  {
    var ops := [SetLimit(node, perMin, late), Attempt(node, now)];
    assert ops[1..] == [Attempt(node, now)] && ops[1..][1..] == [];
    OneAttempt(default, Retune(b, Effective(perMin), late), node, now);
    assert WithoutLimits(ops[1..], node) == [Attempt(node, now)];
  }

  /** A re-sync stamped later than the next attempt can let through an attempt the bucket would have refused. */
  lemma LateResyncShows(default: U32)
    ensures var b := Bucket(0.0, 0.0, 60.0, 1.0);
            var ops := [SetLimit("n", 60, 1.0), Attempt("n", 0.0)];
            && Sound(b) && OnlyResyncs(b, ops) && !ResyncsPrecede(ops)
            && LoneRun(default, Some(b), ops).1 == [true]
            && LoneRun(default, Some(b), WithoutLimits(ops, "n")).1 == [false]
  {
    var b := Bucket(0.0, 0.0, 60.0, 1.0);
    var ops := [SetLimit("n", 60, 1.0), Attempt("n", 0.0)];
    assert !ResyncsPrecede(ops) by {
      assert ops[0].SetLimit? && ops[1].Attempt? && ops[0].now > ops[1].now;
    }
    LateResyncRun(default, b, "n", 60, 1.0, 0.0);
    OneAttempt(default, b, "n", 0.0);
    assert Retune(b, 60, 1.0) == Bucket(1.0, 1.0, 60.0, 1.0);
  }

  // ---------------------------------------------------------------- the limiter object

  class RateLimiter {
    var buckets: Buckets
    const defaultPerMin: U32
    var totalTryConsumeCalls: nat
    var totalAllowed: nat
    var totalDenied: nat
    var totalSetLimitCalls: nat

    constructor (perMin: U32)
      ensures buckets == map[] && defaultPerMin == if perMin == 0 then 100 else perMin
      ensures totalTryConsumeCalls == totalAllowed == totalDenied == totalSetLimitCalls == 0
    {
      buckets := map[];
      defaultPerMin := Effective(perMin);
      totalTryConsumeCalls, totalAllowed, totalDenied, totalSetLimitCalls := 0, 0, 0, 0;
    }

    method TryConsume(node: NodeId, now: real) returns (allowed: bool)
      modifies this
      ensures (buckets, allowed) == ConsumeIn(defaultPerMin, old(buckets), node, now)
      ensures totalTryConsumeCalls == old(totalTryConsumeCalls) + 1
      ensures totalAllowed == old(totalAllowed) + (if allowed then 1 else 0)
      ensures totalDenied == old(totalDenied) + (if allowed then 0 else 1)
      ensures totalSetLimitCalls == old(totalSetLimitCalls)
    {
      totalTryConsumeCalls := totalTryConsumeCalls + 1;
      var bucket := new TokenBucket.At(if node in buckets then buckets[node] else Full(defaultPerMin, now));
      allowed := bucket.TryConsume(now);
      buckets := buckets[node := bucket.Value()];
      if allowed {
        totalAllowed := totalAllowed + 1;
      } else {
        totalDenied := totalDenied + 1;
      }
    }

    method SetLimit(node: NodeId, perMin: U32, now: real)
      modifies this
      ensures buckets == SetLimitIn(old(buckets), node, perMin, now)
      ensures totalSetLimitCalls == old(totalSetLimitCalls) + 1
      ensures totalTryConsumeCalls == old(totalTryConsumeCalls)
      ensures totalAllowed == old(totalAllowed) && totalDenied == old(totalDenied)
    {
      totalSetLimitCalls := totalSetLimitCalls + 1;
      var effective := Effective(perMin);
      var bucket := new TokenBucket.At(if node in buckets then buckets[node] else Full(effective, now));
      bucket.RetuneTo(effective, now);
      buckets := buckets[node := bucket.Value()];
    }
  }
}
