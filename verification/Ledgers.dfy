/**
 The traffic counters under concurrent calls (src/rate_limit.rs:144-180, src/nonce_store.rs:119-160).

 Any number of threads call into one limiter, or one replay store. A step moves one thread past one
 atomic action: bumping a counter, taking or releasing the lock, one action under it. A schedule names
 the thread that moves and, for an idle thread, the call it makes; a thread that waits for the lock
 stays where it is. Every schedule is allowed, so what holds after each holds at every point.
 */
module LimiterLedger {
  import opened Wrappers
  import opened Nodes
  import opened Numbers
  import opened Counting
  import opened RateLimiters

  /** The actions of one call, in order; `Inside`, `Decided` and `Leaving` are under the lock. */
  datatype Pc = Idle | Called(call: Op) | Inside(call: Op) | Decided(allowed: bool) | Leaving

  /** `log` lists the calls in the order in which they went under the lock. */
  datatype State = State(
    pcs: seq<Pc>, holder: Option<nat>, buckets: Buckets,
    calls: nat, allowed: nat, denied: nat, setLimits: nat, log: seq<Op>)

  function Init(threads: nat, m: Buckets): State {
    State(seq(threads, _ => Idle), None, m, 0, 0, 0, 0, [])
  }

  function Next(default: U32, s: State, i: nat, call: Op): State {
    if i >= |s.pcs| then s
    else match s.pcs[i]
      case Idle =>
        var t := s.(pcs := s.pcs[i := Called(call)]);
        if call.Attempt? then t.(calls := s.calls + 1) else t.(setLimits := s.setLimits + 1)
      case Called(op) =>
        if s.holder.Some? then s else s.(pcs := s.pcs[i := Inside(op)], holder := Some(i))
      case Inside(Attempt(n, now)) =>
        var (m, ok) := ConsumeIn(default, s.buckets, n, now);
        s.(pcs := s.pcs[i := Decided(ok)], buckets := m, log := s.log + [Attempt(n, now)])
      case Inside(SetLimit(n, perMin, now)) =>
        s.(pcs := s.pcs[i := Leaving], buckets := SetLimitIn(s.buckets, n, perMin, now),
           log := s.log + [SetLimit(n, perMin, now)])
      case Decided(ok) =>
        var t := s.(pcs := s.pcs[i := Leaving]);
        if ok then t.(allowed := s.allowed + 1) else t.(denied := s.denied + 1)
      case Leaving => s.(pcs := s.pcs[i := Idle], holder := None)
  }

  function Exec(default: U32, s: State, schedule: seq<(nat, Op)>): State
    decreases |schedule|
  {
    if schedule == [] then s
    else
      var (i, call) := schedule[|schedule| - 1];
      Next(default, Exec(default, s, schedule[..|schedule| - 1]), i, call)
  }

  /** A consume that is counted as a call but has no outcome counted yet. */
  predicate Pending(pc: Pc) {
    (pc.Called? && pc.call.Attempt?) || (pc.Inside? && pc.call.Attempt?) || pc.Decided?
  }

  predicate Critical(pc: Pc) {
    pc.Inside? || pc.Decided? || pc.Leaving?
  }

  function InFlight(pcs: seq<Pc>): nat {
    CountIf(pcs, Pending)
  }

  ghost predicate Balanced(s: State) {
    s.calls == s.allowed + s.denied + InFlight(s.pcs)
  }

  /** Exactly the holder of the lock is in the critical section. */
  ghost predicate Exclusive(s: State) {
    forall i: nat | i < |s.pcs| :: Critical(s.pcs[i]) <==> s.holder == Some(i)
  }

  /** A limit change that is counted and not yet made. */
  predicate Changing(pc: Pc) {
    (pc.Called? || pc.Inside?) && pc.call.SetLimit?
  }

  function Changes(log: seq<Op>): nat
    decreases |log|
  {
    if log == [] then 0 else Changes(log[..|log| - 1]) + if log[|log| - 1].SetLimit? then 1 else 0
  }

  ghost predicate ChangesCounted(s: State) {
    s.setLimits == Changes(s.log) + CountIf(s.pcs, Changing)
  }

  lemma StepCountsChanges(default: U32, s: State, i: nat, call: Op)
    requires ChangesCounted(s)
    ensures ChangesCounted(Next(default, s, i, call))
  {
    if i < |s.pcs| {
      CountUpdate(s.pcs, Changing, i, Next(default, s, i, call).pcs[i]);
      if s.pcs[i].Inside? {
        assert (s.log + [s.pcs[i].call])[..|s.log|] == s.log;
      }
    }
  }

  /**
   At every point of every schedule: calls = allowed + denied + in flight, limit changes counted = made + in
   flight, and one thread at most under the lock.
   */
  lemma {:induction false} LimiterLedgerBalances(default: U32, threads: nat, m: Buckets, schedule: seq<(nat, Op)>)
    ensures var s := Exec(default, Init(threads, m), schedule); Balanced(s) && Exclusive(s) && ChangesCounted(s)
    decreases |schedule|
  {
    if schedule == [] {
      CountNone(seq(threads, _ => Idle), Pending);
      CountNone(seq(threads, _ => Idle), Changing);
    } else {
      var (i, call) := schedule[|schedule| - 1];
      var s := Exec(default, Init(threads, m), schedule[..|schedule| - 1]);
      LimiterLedgerBalances(default, threads, m, schedule[..|schedule| - 1]);
      StepKeepsBalance(default, s, i, call);
      StepKeepsExclusion(default, s, i, call);
      StepCountsChanges(default, s, i, call);
    }
  }

  lemma StepKeepsBalance(default: U32, s: State, i: nat, call: Op)
    requires Balanced(s)
    ensures Balanced(Next(default, s, i, call))
  {
    if i < |s.pcs| {
      CountUpdate(s.pcs, Pending, i, Next(default, s, i, call).pcs[i]);
    }
  }

  lemma StepKeepsExclusion(default: U32, s: State, i: nat, call: Op)
    requires Exclusive(s)
    ensures Exclusive(Next(default, s, i, call))
  {
  }

  // ---------------------------------------------------------------- as if one call came after the other

  /** How many answers are `ok`. */
  function Told(answers: seq<(NodeId, bool)>, ok: bool): nat
    decreases |answers|
  {
    if answers == [] then 0
    else Told(answers[..|answers| - 1], ok) + if answers[|answers| - 1].1 == ok then 1 else 0
  }

  lemma {:induction false} RunOneMore(default: U32, m: Buckets, ops: seq<Op>, op: Op)
    ensures var (m1, answers) := Run(default, m, ops);
            Run(default, m, ops + [op])
            == if op.Attempt? then
                 var (m2, ok) := ConsumeIn(default, m1, op.node, op.now);
                 (m2, answers + [(op.node, ok)])
               else (SetLimitIn(m1, op.node, op.perMin, op.now), answers)
    decreases |ops|
  {
    if ops == [] {
      assert ops + [op] == [op] && [op][1..] == [];
      RunOne(default, m, op);
    } else {
      assert (ops + [op])[0] == ops[0] && (ops + [op])[1..] == ops[1..] + [op];
      match ops[0]
      case Attempt(n, now) =>
        var (m0, first) := ConsumeIn(default, m, n, now);
        RunOneMore(default, m0, ops[1..], op);
        if op.Attempt? {
          var answers := Run(default, m0, ops[1..]).1;
          var last := ConsumeIn(default, Run(default, m0, ops[1..]).0, op.node, op.now).1;
          assert [(n, first)] + (answers + [(op.node, last)]) == ([(n, first)] + answers) + [(op.node, last)];
        }
      case SetLimit(n, perMin, now) =>
        RunOneMore(default, SetLimitIn(m, n, perMin, now), ops[1..], op);
    }
  }

  lemma RunOne(default: U32, m: Buckets, op: Op)
    ensures Run(default, m, [op])
         == if op.Attempt? then
              var (m1, ok) := ConsumeIn(default, m, op.node, op.now);
              (m1, [] + [(op.node, ok)])
            else (SetLimitIn(m, op.node, op.perMin, op.now), [])
  {
    assert [op][1..] == [];
    if op.Attempt? {
      var answer := [(op.node, ConsumeIn(default, m, op.node, op.now).1)];
      assert answer + [] == answer == [] + answer;
    }
  }

  lemma ToldOneMore(answers: seq<(NodeId, bool)>, a: (NodeId, bool), ok: bool)
    ensures Told(answers + [a], ok) == Told(answers, ok) + if a.1 == ok then 1 else 0
  {
    assert (answers + [a])[..|answers|] == answers;
  }

  /** The lock's holder has the answer `ok` and has not counted it yet. */
  ghost predicate Uncounted(s: State, ok: bool) {
    s.holder.Some? && s.holder.value < |s.pcs| && s.pcs[s.holder.value] == Decided(ok)
  }

  /** Buckets and outcome counters are those of the sequential run of the log. */
  ghost predicate Sequential(default: U32, m: Buckets, s: State) {
    var (buckets, answers) := Run(default, m, s.log);
    && s.buckets == buckets
    && s.allowed + (if Uncounted(s, true) then 1 else 0) == Told(answers, true)
    && s.denied + (if Uncounted(s, false) then 1 else 0) == Told(answers, false)
  }

  lemma OuterStepKeepsSequence(default: U32, m: Buckets, s: State, i: nat, call: Op)
    requires Exclusive(s) && Sequential(default, m, s) && (i < |s.pcs| ==> !s.pcs[i].Inside?)
    ensures Sequential(default, m, Next(default, s, i, call))
  {
    if i < |s.pcs| {
      assert Critical(s.pcs[i]) <==> s.holder == Some(i);
    }
  }

  lemma InnerStepKeepsSequence(default: U32, m: Buckets, s: State, i: nat, call: Op)
    requires Exclusive(s) && Sequential(default, m, s) && i < |s.pcs| && s.pcs[i].Inside?
    ensures Sequential(default, m, Next(default, s, i, call))
  {
    assert Critical(s.pcs[i]) && s.holder == Some(i);
    var op := s.pcs[i].call;
    RunOneMore(default, m, s.log, op);
    if op.Attempt? {
      var ok := ConsumeIn(default, s.buckets, op.node, op.now).1;
      ToldOneMore(Run(default, m, s.log).1, (op.node, ok), true);
      ToldOneMore(Run(default, m, s.log).1, (op.node, ok), false);
    }
  }

  lemma {:induction false} SequentialThroughout(default: U32, threads: nat, m: Buckets, schedule: seq<(nat, Op)>)
    ensures Sequential(default, m, Exec(default, Init(threads, m), schedule))
    decreases |schedule|
  {
    if schedule != [] {
      var init := schedule[..|schedule| - 1];
      var (i, call) := schedule[|schedule| - 1];
      var s := Exec(default, Init(threads, m), init);
      SequentialThroughout(default, threads, m, init);
      LimiterLedgerBalances(default, threads, m, init);
      if i < |s.pcs| && s.pcs[i].Inside? {
        InnerStepKeepsSequence(default, m, s, i, call);
      } else {
        OuterStepKeepsSequence(default, m, s, i, call);
      }
    }
  }

  /**
   Concurrent calls act as if one came after the other: whenever the lock is free, the buckets are those of the
   sequential run of the calls in the order they took the lock, and the two outcome counters count its answers.
   */
  lemma LimiterIsSequential(default: U32, threads: nat, m: Buckets, schedule: seq<(nat, Op)>)
    ensures var s := Exec(default, Init(threads, m), schedule);
            var (buckets, answers) := Run(default, m, s.log);
            s.holder.None? ==> s.buckets == buckets && s.allowed == Told(answers, true) && s.denied == Told(answers, false)
  {
    SequentialThroughout(default, threads, m, schedule);
  }
}

module NonceLedger {
  import opened Wrappers
  import opened Numbers
  import opened Counting
  import opened NonceStores

  /** The actions of one call, in order; all but `Idle` and `Called` are under the lock. */
  datatype Pc =
    | Idle
    | Called(call: Op)
    | Inside(call: Op)
    | Recording(nonce: Nonce, now: I64, first: bool)   // counted as accepted, not yet in the map
    | Leaving

  /** `removed` sums the counts returned by the cleanups; `log` lists the calls in the order they went under the lock. */
  datatype State = State(
    pcs: seq<Pc>, holder: Option<nat>, seen: Seen,
    calls: nat, accepted: nat, afterTtl: nat, replays: nat, removed: nat, log: seq<Op>)

  function Init(threads: nat, loaded: Seen): State {
    State(seq(threads, _ => Idle), None, loaded, 0, 0, 0, 0, 0, [])
  }

  function Next(ttl: I64, s: State, i: nat, call: Op): State {
    if i >= |s.pcs| then s
    else match s.pcs[i]
      case Idle =>
        s.(pcs := s.pcs[i := Called(call)], calls := s.calls + if call.CheckAt? then 1 else 0)
      case Called(op) =>
        if s.holder.Some? then s else s.(pcs := s.pcs[i := Inside(op)], holder := Some(i))
      case Inside(CheckAt(n, now)) =>
        var t := s.(log := s.log + [CheckAt(n, now)]);
        if !Accepts(ttl, s.seen, n, now) then t.(pcs := s.pcs[i := Leaving], replays := s.replays + 1)
        else if n in s.seen then t.(pcs := s.pcs[i := Recording(n, now, false)], afterTtl := s.afterTtl + 1)
        else t.(pcs := s.pcs[i := Recording(n, now, true)], accepted := s.accepted + 1)
      case Inside(CleanupAt(now)) =>
        var kept := Cleanup(ttl, s.seen, now);
        var gone := if |kept| <= |s.seen| then |s.seen| - |kept| else 0;
        s.(pcs := s.pcs[i := Leaving], seen := kept, removed := s.removed + gone, log := s.log + [CleanupAt(now)])
      case Recording(n, now, _) => s.(pcs := s.pcs[i := Leaving], seen := s.seen[n := now])
      case Leaving => s.(pcs := s.pcs[i := Idle], holder := None)
  }

  function Exec(ttl: I64, s: State, schedule: seq<(nat, Op)>): State
    decreases |schedule|
  {
    if schedule == [] then s
    else
      var (i, call) := schedule[|schedule| - 1];
      Next(ttl, Exec(ttl, s, schedule[..|schedule| - 1]), i, call)
  }

  predicate Pending(pc: Pc) {
    (pc.Called? || pc.Inside?) && pc.call.CheckAt?
  }

  predicate Critical(pc: Pc) {
    pc.Inside? || pc.Recording? || pc.Leaving?
  }

  function InFlight(pcs: seq<Pc>): nat {
    CountIf(pcs, Pending)
  }

  /** A first sighting that is counted and not yet in the map. */
  ghost function Unrecorded(s: State): nat {
    if s.holder.Some? && s.holder.value < |s.pcs|
       && s.pcs[s.holder.value].Recording? && s.pcs[s.holder.value].first then 1 else 0
  }

  ghost predicate Counted(s: State) {
    s.calls == s.accepted + s.afterTtl + s.replays + InFlight(s.pcs)
  }

  /** Exactly the holder of the lock is in the critical section. */
  ghost predicate Exclusive(s: State) {
    forall i: nat | i < |s.pcs| :: Critical(s.pcs[i]) <==> s.holder == Some(i)
  }

  ghost predicate Sized(s: State, loaded: nat) {
    && (forall i: nat | i < |s.pcs| && s.pcs[i].Recording? :: s.pcs[i].first <==> s.pcs[i].nonce !in s.seen)
    && loaded + s.accepted == |s.seen| + s.removed + Unrecorded(s)
  }

  lemma StepKeepsCount(ttl: I64, s: State, i: nat, call: Op)
    requires Counted(s)
    ensures Counted(Next(ttl, s, i, call))
  {
    if i < |s.pcs| {
      CountUpdate(s.pcs, Pending, i, Next(ttl, s, i, call).pcs[i]);
    }
  }

  lemma StepKeepsExclusion(ttl: I64, s: State, i: nat, call: Op)
    requires Exclusive(s)
    ensures Exclusive(Next(ttl, s, i, call))
  {
  }

  /** A thread outside the critical section moves without touching the map or the first sightings. */
  lemma OuterStepKeepsSize(ttl: I64, s: State, i: nat, call: Op, loaded: nat)
    requires Exclusive(s) && Sized(s, loaded) && i < |s.pcs| && !Critical(s.pcs[i])
    ensures Sized(Next(ttl, s, i, call), loaded)
  {
    assert s.holder != Some(i);
  }

  /** Under the lock no other thread has a first sighting to record. */
  lemma InnerStepKeepsSize(ttl: I64, s: State, i: nat, call: Op, loaded: nat)
    requires Exclusive(s) && Sized(s, loaded) && i < |s.pcs| && Critical(s.pcs[i])
    ensures Sized(Next(ttl, s, i, call), loaded)
  {
    assert s.holder == Some(i);
    assert forall j: nat | j < |s.pcs| && j != i :: !Critical(s.pcs[j]);
    match s.pcs[i]
    case Inside(CleanupAt(now)) => SmallerMap(Cleanup(ttl, s.seen, now), s.seen);
    case Recording(n, now, first) => SizeOfInsert(s.seen, n, now);
    case _ =>
  }

  lemma SizeOfInsert(m: Seen, n: Nonce, now: I64)
    ensures |m[n := now]| == |m| + if n in m then 0 else 1
  {
    assert m[n := now].Keys == m.Keys + {n};
    assert |m[n := now]| == |m[n := now].Keys| && |m| == |m.Keys|;
  }

  lemma StepKeepsSize(ttl: I64, s: State, i: nat, call: Op, loaded: nat)
    requires Exclusive(s) && Sized(s, loaded)
    ensures Sized(Next(ttl, s, i, call), loaded)
  {
    if i < |s.pcs| {
      if Critical(s.pcs[i]) {
        InnerStepKeepsSize(ttl, s, i, call, loaded);
      } else {
        OuterStepKeepsSize(ttl, s, i, call, loaded);
      }
    }
  }

  lemma {:induction false} BalancedThroughout(ttl: I64, threads: nat, loaded: Seen, schedule: seq<(nat, Op)>)
    ensures var s := Exec(ttl, Init(threads, loaded), schedule);
            Counted(s) && Exclusive(s) && Sized(s, |loaded|)
    decreases |schedule|
  {
    if schedule == [] {
      CountNone(seq(threads, _ => Idle), Pending);
    } else {
      var init := schedule[..|schedule| - 1];
      var (i, call) := schedule[|schedule| - 1];
      BalancedThroughout(ttl, threads, loaded, init);
      var s := Exec(ttl, Init(threads, loaded), init);
      StepKeepsCount(ttl, s, i, call);
      StepKeepsExclusion(ttl, s, i, call);
      StepKeepsSize(ttl, s, i, call, |loaded|);
    }
  }

  /**
   At every point of every schedule: calls = accepted + after ttl + replays + in flight. Whenever the
   lock is free: loaded size + accepted = current size + all that cleanups removed.
   */
  lemma NonceLedgerBalances(ttl: I64, threads: nat, loaded: Seen, schedule: seq<(nat, Op)>)
    ensures var s := Exec(ttl, Init(threads, loaded), schedule);
            && s.calls == s.accepted + s.afterTtl + s.replays + InFlight(s.pcs)
            && (s.holder.None? ==> |loaded| + s.accepted == |s.seen| + s.removed)
  {
    BalancedThroughout(ttl, threads, loaded, schedule);
  }

  // ---------------------------------------------------------------- as if one call came after the other

  /** A map and three counts: first acceptances, later ones, replays. */
  datatype Tally = Tally(seen: Seen, accepted: nat, again: nat, replays: nat)

  function Apply(ttl: I64, t: Tally, op: Op): Tally {
    match op
    case CleanupAt(now) => t.(seen := Cleanup(ttl, t.seen, now))
    case CheckAt(n, now) =>
      if !Accepts(ttl, t.seen, n, now) then t.(replays := t.replays + 1)
      else if n in t.seen then t.(seen := t.seen[n := now], again := t.again + 1)
      else t.(seen := t.seen[n := now], accepted := t.accepted + 1)
  }

  /** One call after the other. */
  function After(ttl: I64, t: Tally, ops: seq<Op>): Tally
    decreases |ops|
  {
    if ops == [] then t else After(ttl, Apply(ttl, t, ops[0]), ops[1..])
  }

  lemma {:induction false} AfterOneMore(ttl: I64, t: Tally, ops: seq<Op>, op: Op)
    ensures After(ttl, t, ops + [op]) == Apply(ttl, After(ttl, t, ops), op)
    decreases |ops|
  {
    if ops == [] {
      assert ops + [op] == [op] && [op][1..] == [];
      assert After(ttl, Apply(ttl, t, op), []) == Apply(ttl, t, op);
    } else {
      assert (ops + [op])[0] == ops[0] && (ops + [op])[1..] == ops[1..] + [op];
      AfterOneMore(ttl, Apply(ttl, t, ops[0]), ops[1..], op);
    }
  }

  /** What the calls add are the acceptance counters and the refusals of the sequential run. */
  lemma {:induction false} AfterCounts(ttl: I64, t: Tally, ops: seq<Op>)
    ensures var u := After(ttl, t, ops);
            && (u.accepted - t.accepted, u.again - t.again) == Accepted(ttl, t.seen, ops)
            && Yes(Answers(ttl, t.seen, ops)) + (u.replays - t.replays) == |Answers(ttl, t.seen, ops)|
    decreases |ops|
  {
    if ops != [] {
      var t' := Apply(ttl, t, ops[0]);
      AfterCounts(ttl, t', ops[1..]);
      if ops[0].CheckAt? {
        var ok := Accepts(ttl, t.seen, ops[0].nonce, ops[0].now);
        assert t'.seen == Check(ttl, t.seen, ops[0].nonce, ops[0].now).0;
        assert ([ok] + Answers(ttl, t'.seen, ops[1..]))[1..] == Answers(ttl, t'.seen, ops[1..]);
      }
    }
  }

  function Start(loaded: Seen): Tally {
    Tally(loaded, 0, 0, 0)
  }

  /** The map as it will be once the lock's holder has recorded what it accepted. */
  ghost function Settled(s: State): Seen {
    if s.holder.Some? && s.holder.value < |s.pcs| && s.pcs[s.holder.value].Recording?
    then s.seen[s.pcs[s.holder.value].nonce := s.pcs[s.holder.value].now] else s.seen
  }

  ghost function TallyOf(s: State): Tally {
    Tally(Settled(s), s.accepted, s.afterTtl, s.replays)
  }

  ghost predicate Sequential(ttl: I64, loaded: Seen, s: State) {
    After(ttl, Start(loaded), s.log) == TallyOf(s)
  }

  lemma OuterStepKeepsSequence(ttl: I64, loaded: Seen, s: State, i: nat, call: Op)
    requires Exclusive(s) && Sequential(ttl, loaded, s) && (i < |s.pcs| ==> !s.pcs[i].Inside?)
    ensures Sequential(ttl, loaded, Next(ttl, s, i, call))
  {
    if i < |s.pcs| {
      assert Critical(s.pcs[i]) <==> s.holder == Some(i);
      assert TallyOf(Next(ttl, s, i, call)) == TallyOf(s);
    }
  }

  lemma InnerStepIsApply(ttl: I64, s: State, i: nat, call: Op)
    requires i < |s.pcs| && s.holder == Some(i) && s.pcs[i].Inside?
    ensures TallyOf(Next(ttl, s, i, call)) == Apply(ttl, TallyOf(s), s.pcs[i].call)
    ensures Next(ttl, s, i, call).log == s.log + [s.pcs[i].call]
  {
  }

  lemma InnerStepKeepsSequence(ttl: I64, loaded: Seen, s: State, i: nat, call: Op)
    requires Exclusive(s) && Sequential(ttl, loaded, s) && i < |s.pcs| && s.pcs[i].Inside?
    ensures Sequential(ttl, loaded, Next(ttl, s, i, call))
  {
    assert Critical(s.pcs[i]) && s.holder == Some(i);
    InnerStepIsApply(ttl, s, i, call);
    AfterOneMore(ttl, Start(loaded), s.log, s.pcs[i].call);
  }

  lemma {:induction false} SequentialThroughout(ttl: I64, threads: nat, loaded: Seen, schedule: seq<(nat, Op)>)
    ensures Sequential(ttl, loaded, Exec(ttl, Init(threads, loaded), schedule))
    decreases |schedule|
  {
    if schedule != [] {
      var init := schedule[..|schedule| - 1];
      var (i, call) := schedule[|schedule| - 1];
      var s := Exec(ttl, Init(threads, loaded), init);
      SequentialThroughout(ttl, threads, loaded, init);
      BalancedThroughout(ttl, threads, loaded, init);
      if i < |s.pcs| && s.pcs[i].Inside? {
        InnerStepKeepsSequence(ttl, loaded, s, i, call);
      } else {
        OuterStepKeepsSequence(ttl, loaded, s, i, call);
      }
    }
  }

  /**
   Concurrent calls act as if one came after the other: at every point the counters are those of the sequential run
   of the calls in the order they took the lock, and whenever the lock is free the map is the one it leaves.
   */
  lemma StoreIsSequential(ttl: I64, threads: nat, loaded: Seen, schedule: seq<(nat, Op)>)
    ensures var s := Exec(ttl, Init(threads, loaded), schedule);
            && Accepted(ttl, loaded, s.log) == (s.accepted, s.afterTtl)
            && Yes(Answers(ttl, loaded, s.log)) + s.replays == |Answers(ttl, loaded, s.log)|
            && (s.holder.None? ==> s.seen == After(ttl, Start(loaded), s.log).seen)
  {
    SequentialThroughout(ttl, threads, loaded, schedule);
    AfterCounts(ttl, Start(loaded), Exec(ttl, Init(threads, loaded), schedule).log);
  }
}
