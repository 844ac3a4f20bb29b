/**
 The byte budget of a peer over interleaved connections (src/relay/mod.rs:107-223).

 Many `handle_connection` runs share one limiter and one trust store. A step is one action of one
 connection, a change of the trust store, or some other use of the limiter; a run is any sequence
 of steps, so every interleaving is a run. A step that is not possible in a state leaves it alone.
 */
module RelayBudget {
  import opened Nodes
  import opened Numbers
  import opened Pieces
  import opened TokenBuckets
  import opened RateLimiters
  import opened TrustStores
  import opened Streams
  import opened Relays

  /** Where a connection is in `handle_connection`. */
  datatype Phase =
    | Arriving                 // nothing checked yet
    | Checked                  // found trusted
    | Synced                   // limit applied from the trust store, if it still has the peer
    | Reading                  // past the entry token
    | Holding(n: nat)          // n bytes read, no token for them yet
    | Cleared(n: nat)          // n bytes to write, token paid
    | Ended

  /**
   `bytesOut` is what the connection will log, `put` all that its writes have put out, a failed one's part
   among it. `tokens` counts the yes answers it got from the limiter.
   */
  datatype Conn = Conn(peer: NodeId, phase: Phase, bytesOut: nat, put: nat, tokens: nat)

  datatype State = State(trust: Registry, buckets: Buckets, conns: seq<Conn>)

  datatype Step =
    | Trust(node: NodeId, entry: TrustEntry)
    | Distrust(node: NodeId)
    | Elsewhere(op: Op)
    | Open(peer: NodeId)
    | Check(c: nat)
    | Sync(c: nat, now: real)
    | Enter(c: nat, now: real)
    | Read(c: nat, n: nat)
    | Ask(c: nat, now: real)
    | Write(c: nat)
    | Break(c: nat, part: nat) // a read fails, or a write after putting out a part

  function Next(default: U32, s: State, step: Step): State {
    match step
    case Trust(node, entry) => s.(trust := s.trust[node := entry])
    case Distrust(node) => s.(trust := s.trust - {node})
    case Elsewhere(Attempt(node, now)) => s.(buckets := ConsumeIn(default, s.buckets, node, now).0)
    case Elsewhere(SetLimit(node, perMin, now)) => s.(buckets := SetLimitIn(s.buckets, node, perMin, now))
    case Open(peer) => s.(conns := s.conns + [Conn(peer, Arriving, 0, 0, 0)])
    case _ =>
      if step.c >= |s.conns| then s
      else
        var (buckets, conn) := ConnStep(default, s, s.conns[step.c], step);
        s.(buckets := buckets, conns := s.conns[step.c := conn])
  }

  predicate OfConn(step: Step) {
    !step.Trust? && !step.Distrust? && !step.Elsewhere? && !step.Open?
  }

  /** What one connection's action does to the limiter and to the connection. */
  function ConnStep(default: U32, s: State, conn: Conn, step: Step): (Buckets, Conn)
    requires OfConn(step)
  {
    match (step, conn.phase)
    case (Check(_), Arriving) =>
      (s.buckets, conn.(phase := if conn.peer in s.trust then Checked else Ended))
    case (Sync(_, now), Checked) =>
      (SyncNodeLimit(s.trust, s.buckets, conn.peer, now), conn.(phase := Synced))
    case (Enter(_, now), Synced) =>
      var (buckets, allowed) := ConsumeIn(default, s.buckets, conn.peer, now);
      (buckets, if allowed then conn.(phase := Reading, tokens := conn.tokens + 1) else conn.(phase := Ended))
    case (Read(_, n), Reading) =>
      (s.buckets, if n == 0 then conn.(phase := Ended) else if n <= BUFFER then conn.(phase := Holding(n)) else conn)
    case (Ask(_, now), Holding(n)) =>
      var (buckets, allowed) := ConsumeIn(default, s.buckets, conn.peer, now);
      (buckets, if allowed then conn.(phase := Cleared(n), tokens := conn.tokens + 1) else conn.(phase := Ended))
    case (Write(_), Cleared(n)) =>
      (s.buckets, conn.(phase := Reading, bytesOut := conn.bytesOut + n, put := conn.put + n))
    case (Break(_, _), Reading) => (s.buckets, conn.(phase := Ended))
    case (Break(_, part), Cleared(n)) => (s.buckets, conn.(phase := Ended, put := conn.put + Least(part, n)))
    case _ => (s.buckets, conn)
  }

  function Exec(default: U32, s: State, steps: seq<Step>): State
    decreases |steps|
  {
    if steps == [] then s else Next(default, Exec(default, s, steps[..|steps| - 1]), steps[|steps| - 1])
  }

  // ---------------------------------------------------------------- the budget

  /** What a step grants the peer: its seed when the bucket appears, else rate in force * clock advance. */
  function Grant(before: Buckets, after: Buckets, p: NodeId): real {
    if p !in after then 0.0
    else if p !in before then after[p].capacity
    else Times(before[p].rate, after[p].last - before[p].last)
  }

  /** What the peer has at the start, plus all that the steps grant it. */
  function Budget(default: U32, s: State, steps: seq<Step>, p: NodeId): real
    decreases |steps|
  {
    if steps == [] then (if p in s.buckets then s.buckets[p].tokens else 0.0)
    else
      var init := steps[..|steps| - 1];
      Budget(default, s, init, p)
      + Grant(Exec(default, s, init).buckets, Exec(default, s, steps).buckets, p)
  }

  /** What the connections of `p` have put out. */
  function BytesPut(conns: seq<Conn>, p: NodeId): nat
    decreases |conns|
  {
    if conns == [] then 0 else (if conns[0].peer == p then conns[0].put else 0) + BytesPut(conns[1..], p)
  }

  /** What they have logged, or will log, as sent. */
  function BytesOut(conns: seq<Conn>, p: NodeId): nat
    decreases |conns|
  {
    if conns == [] then 0 else (if conns[0].peer == p then conns[0].bytesOut else 0) + BytesOut(conns[1..], p)
  }

  function Tokens(conns: seq<Conn>, p: NodeId): nat
    decreases |conns|
  {
    if conns == [] then 0 else (if conns[0].peer == p then conns[0].tokens else 0) + Tokens(conns[1..], p)
  }

  /** The connections of `p` that got past the entry token. */
  function Entered(conns: seq<Conn>, p: NodeId): nat
    decreases |conns|
  {
    if conns == [] then 0
    else (if conns[0].peer == p && 0 < conns[0].tokens then 1 else 0) + Entered(conns[1..], p)
  }

  /** Every token but the entry token pays for at most one buffer, and no more is logged than was put out. */
  ghost predicate Paid(c: Conn) {
    && c.bytesOut <= c.put
    && match c.phase
       case Arriving => c.tokens == c.put == 0
       case Checked => c.tokens == c.put == 0
       case Synced => c.tokens == c.put == 0
       case Reading => 1 <= c.tokens && c.put <= BUFFER * (c.tokens - 1)
       case Holding(n) => 1 <= n <= BUFFER && 1 <= c.tokens && c.put <= BUFFER * (c.tokens - 1)
       case Cleared(n) => 1 <= c.tokens && c.put + n <= BUFFER * (c.tokens - 1)
       case Ended => c.put <= BUFFER * (if c.tokens == 0 then 0 else c.tokens - 1)
  }

  ghost predicate AllPaid(conns: seq<Conn>) {
    forall i: nat | i < |conns| :: Paid(conns[i])
  }

  lemma {:induction false} OutWithinTokens(conns: seq<Conn>, p: NodeId)
    requires AllPaid(conns)
    ensures BytesOut(conns, p) <= BytesPut(conns, p) <= BUFFER * (Tokens(conns, p) - Entered(conns, p))
    decreases |conns|
  {
    if conns != [] {
      assert Paid(conns[0]);
      assert AllPaid(conns[1..]);
      OutWithinTokens(conns[1..], p);
    }
  }

  lemma {:induction false} TokensOfUpdate(conns: seq<Conn>, i: nat, c: Conn, p: NodeId)
    requires i < |conns| && c.peer == conns[i].peer
    ensures Tokens(conns[i := c], p)
         == Tokens(conns, p) + (if c.peer == p then c.tokens - conns[i].tokens else 0)
    decreases |conns|
  {
    var updated := conns[i := c];
    if i == 0 {
      assert updated[1..] == conns[1..];
    } else {
      assert updated[1..] == conns[1..][i - 1 := c];
      TokensOfUpdate(conns[1..], i - 1, c, p);
    }
  }

  lemma {:induction false} TokensOfOpen(conns: seq<Conn>, c: Conn, p: NodeId)
    requires c.tokens == 0
    ensures Tokens(conns + [c], p) == Tokens(conns, p)
    decreases |conns|
  {
    if conns == [] {
      assert (conns + [c])[1..] == [];
    } else {
      assert (conns + [c])[1..] == conns[1..] + [c];
      TokensOfOpen(conns[1..], c, p);
    }
  }

  function Level(m: Buckets, p: NodeId): real {
    if p in m then m[p].tokens else 0.0
  }

  /** A refill adds at most the rate in force times the clock's advance. */
  lemma RefillWithinGrant(b: Bucket, now: real)
    requires Sound(b)
    ensures Sound(Refill(b, now))
    ensures Refill(b, now).tokens <= b.tokens + Times(b.rate, Refill(b, now).last - b.last)
  {
    SoundKept(b, 0, now);
    assert Times(b.rate, Refill(b, now).last - b.last) == Times(Refill(b, now).last - b.last, b.rate);
  }

  /** A bucket that did not change was granted nothing. */
  lemma NothingGranted(before: Buckets, after: Buckets, p: NodeId)
    requires p in before <==> p in after
    requires p in before ==> before[p] == after[p]
    ensures Grant(before, after, p) == 0.0
  {
  }

  lemma ConsumeBound(b: Bucket, now: real)
    requires Sound(b)
    ensures var (c, allowed) := Consume(b, now);
            && Sound(c) && c.capacity == b.capacity
            && c.tokens + (if allowed then 1.0 else 0.0) <= c.capacity
            && c.tokens + (if allowed then 1.0 else 0.0) <= b.tokens + Times(b.rate, c.last - b.last)
  {
    RefillWithinGrant(b, now);
  }

  lemma RetuneBound(b: Bucket, perMin: U32, now: real)
    requires Sound(b)
    ensures var c := Retune(b, perMin, now);
            Sound(c) && c.capacity == perMin as real && c.tokens <= b.tokens + Times(b.rate, c.last - b.last)
  {
    RefillWithinGrant(b, now);
  }

  lemma ConsumeWithinGrant(default: U32, m: Buckets, node: NodeId, now: real, p: NodeId)
    requires SoundBuckets(m)
    ensures var (m', allowed) := ConsumeIn(default, m, node, now);
            && SoundBuckets(m')
            && Level(m', p) + (if node == p && allowed then 1.0 else 0.0) <= Level(m, p) + Grant(m, m', p)
  {
    ConsumeBound(if node in m then m[node] else Full(default, now), now);
    if node != p {
      NothingGranted(m, ConsumeIn(default, m, node, now).0, p);
    }
  }

  lemma SetLimitWithinGrant(m: Buckets, node: NodeId, perMin: U32, now: real, p: NodeId)
    requires SoundBuckets(m)
    ensures var m' := SetLimitIn(m, node, perMin, now);
            SoundBuckets(m') && Level(m', p) <= Level(m, p) + Grant(m, m', p)
  {
    RetuneBound(if node in m then m[node] else Full(Effective(perMin), now), Effective(perMin), now);
    if node != p {
      NothingGranted(m, SetLimitIn(m, node, perMin, now), p);
    }
  }

  /** One action of a connection spends what it takes, keeps every chunk paid for, and stays within its grant. */
  lemma ConnStepWithinGrant(default: U32, s: State, conn: Conn, step: Step, p: NodeId)
    requires OfConn(step) && SoundBuckets(s.buckets) && Paid(conn)
    ensures var (m, c) := ConnStep(default, s, conn, step);
            && SoundBuckets(m) && Paid(c) && c.peer == conn.peer
            && Level(m, p) + (if c.peer == p then (c.tokens - conn.tokens) as real else 0.0)
               <= Level(s.buckets, p) + Grant(s.buckets, m, p)
  {
    match (step, conn.phase)
    case (Sync(_, now), Checked) =>
      NothingGranted(s.buckets, s.buckets, p);
      if conn.peer in s.trust {
        SetLimitWithinGrant(s.buckets, conn.peer, s.trust[conn.peer].rateLimitPerMin, now, p);
      }
    case (Enter(_, now), Synced) => ConsumeWithinGrant(default, s.buckets, conn.peer, now, p);
    case (Ask(_, now), Holding(n)) => ConsumeWithinGrant(default, s.buckets, conn.peer, now, p);
    case _ => NothingGranted(s.buckets, s.buckets, p);
  }

  ghost predicate WithinBudget(s: State, p: NodeId, budget: real) {
    && SoundBuckets(s.buckets)
    && AllPaid(s.conns)
    && Level(s.buckets, p) + Tokens(s.conns, p) as real <= budget
  }

  lemma ConnNextWithinBudget(default: U32, s: State, step: Step, p: NodeId, budget: real)
    requires WithinBudget(s, p, budget) && OfConn(step) && step.c < |s.conns|
    ensures var (m, c) := ConnStep(default, s, s.conns[step.c], step);
            WithinBudget(s.(buckets := m, conns := s.conns[step.c := c]), p, budget + Grant(s.buckets, m, p))
  {
    assert Paid(s.conns[step.c]);
    ConnStepWithinGrant(default, s, s.conns[step.c], step, p);
    TokensOfUpdate(s.conns, step.c, ConnStep(default, s, s.conns[step.c], step).1, p);
  }

  lemma NextWithinBudget(default: U32, s: State, step: Step, p: NodeId, budget: real)
    requires WithinBudget(s, p, budget)
    ensures var s' := Next(default, s, step); WithinBudget(s', p, budget + Grant(s.buckets, s'.buckets, p))
  {
    NothingGranted(s.buckets, s.buckets, p);
    if OfConn(step) {
      if step.c < |s.conns| {
        ConnNextWithinBudget(default, s, step, p, budget);
      }
    } else if step.Open? {
      TokensOfOpen(s.conns, Conn(step.peer, Arriving, 0, 0, 0), p);
    } else if step.Elsewhere? {
      match step.op
      case Attempt(node, now) => ConsumeWithinGrant(default, s.buckets, node, now, p);
      case SetLimit(node, perMin, now) => SetLimitWithinGrant(s.buckets, node, perMin, now, p);
    }
  }

  lemma {:induction false} RunWithinBudget(default: U32, s: State, steps: seq<Step>, p: NodeId)
    requires SoundBuckets(s.buckets) && s.conns == []
    ensures WithinBudget(Exec(default, s, steps), p, Budget(default, s, steps, p))
    decreases |steps|
  {
    if steps != [] {
      var init := steps[..|steps| - 1];
      RunWithinBudget(default, s, init, p);
      NextWithinBudget(default, Exec(default, s, init), steps[|steps| - 1], p, Budget(default, s, init, p));
    }
  }

  /**
   The byte budget: however the connections interleave and however limits change, what they have
   put out for a peer, in writes that succeeded or failed, is at most one buffer for each token of its
   budget that no entry used up; and what they log as sent is no more than that.
   */
  lemma BytesWithinBudget(default: U32, s: State, steps: seq<Step>, p: NodeId)
    requires SoundBuckets(s.buckets) && s.conns == []
    ensures var t := Exec(default, s, steps);
            && BytesOut(t.conns, p) <= BytesPut(t.conns, p)
            && BytesPut(t.conns, p) as real
               <= 8192.0 * (Budget(default, s, steps, p) - Entered(t.conns, p) as real)
  {
    var t := Exec(default, s, steps);
    RunWithinBudget(default, s, steps, p);
    OutWithinTokens(t.conns, p);
    assert 0.0 <= Level(t.buckets, p);
  }

  // ---------------------------------------------------------------- one connection served alone

  lemma {:induction false} ExecAppends(default: U32, s: State, a: seq<Step>, b: seq<Step>)
    ensures Exec(default, s, a + b) == Exec(default, Exec(default, s, a), b)
    decreases |b|
  {
    if b == [] {
      assert a + b == a;
    } else {
      assert (a + b)[..|a + b| - 1] == a + b[..|b| - 1];
      ExecAppends(default, s, a, b[..|b| - 1]);
    }
  }

  /** The steps of one turn of connection c's loop, which asks at `now` if it gets that far. */
  function TurnSteps(c: nat, turn: Turn, now: real): seq<Step> {
    match turn
    case Forwards(chunk) => [Read(c, |chunk|), Ask(c, now), Write(c)]
    case Ends(n, Closed, _, _, _) => [Read(c, 0)]
    case Ends(n, RateLimited, _, _, _) => [Read(c, n), Ask(c, now)]
    case Ends(n, _, put, _, asked) => if asked == 0 then [Break(c, 0)] else [Read(c, n), Ask(c, now), Break(c, |put|)]
  }

  function PumpSteps(c: nat, ok: nat -> bool, input: seq<Arrival>, output: seq<Streams.Write>,
                     clock: nat -> real, tick: nat): seq<Step>
    decreases Pending(input)
  {
    var turn := TurnSpec(input, output, ok(tick));
    TurnSteps(c, turn, clock(tick))
    + if turn.Forwards? then PumpSteps(c, ok, ReadFrom(input, BUFFER).1, RestWrites(output), clock, tick + 1) else []
  }

  /** The state with connection c where the pump would have it. */
  function At(s: State, c: nat, m: Buckets, phase: Phase, bytesOut: nat, put: nat, tokens: nat): State
    requires c < |s.conns|
  {
    s.(buckets := m, conns := s.conns[c := Conn(s.conns[c].peer, phase, bytesOut, put, tokens)])
  }

  lemma ExecFew(default: U32, s: State, a: Step, b: Step, c: Step)
    ensures Exec(default, s, [a]) == Next(default, s, a)
    ensures Exec(default, s, [a, b]) == Next(default, Next(default, s, a), b)
    ensures Exec(default, s, [a, b, c]) == Next(default, Next(default, Next(default, s, a), b), c)
  {
    assert [a][..0] == [] && [a, b][..1] == [a] && [a, b, c][..2] == [a, b];
  }

  /** What a turn can be when the limiter's answer is `ok`. */
  ghost predicate Bounded(turn: Turn, ok: bool) {
    match turn
    case Forwards(chunk) => ok && 1 <= |chunk| <= BUFFER
    case Ends(n, outcome, put, offered, asked) =>
      && asked <= 1 && !outcome.TrustRejected?
      && (asked == 1 ==> 1 <= n <= BUFFER && !outcome.Closed? && (ok <==> offered == 1) && (ok <==> !outcome.RateLimited?))
      && (asked == 0 ==> n == offered == 0 && !outcome.RateLimited?)
      && offered <= asked && |put| <= n && (!ok ==> put == [])
  }

  lemma TurnBounds(input: seq<Arrival>, output: seq<Streams.Write>, ok: bool)
    ensures Bounded(TurnSpec(input, output, ok), ok)
  {
  }

  /** Reading n bytes and asking for them, from inside the loop, when the limiter says `ok` and becomes `m`. */
  lemma ReadAndAsk(default: U32, s: State, c: nat, n: nat, now: real, m: Buckets, ok: bool)
    requires c < |s.conns| && s.conns[c].phase.Reading? && 1 <= n <= BUFFER
    requires (m, ok) == ConsumeIn(default, s.buckets, s.conns[c].peer, now)
    ensures var conn := s.conns[c];
            Next(default, Next(default, s, Read(c, n)), Ask(c, now))
            == if ok then At(s, c, m, Cleared(n), conn.bytesOut, conn.put, conn.tokens + 1)
               else At(s, c, m, Ended, conn.bytesOut, conn.put, conn.tokens)
  {
    var conn := s.conns[c];
    assert Next(default, s, Read(c, n)) == At(s, c, s.buckets, Holding(n), conn.bytesOut, conn.put, conn.tokens);
  }

  lemma LastStep(default: U32, s: State, c: nat, n: nat, part: nat, m: Buckets, bytesOut: nat, put: nat, tokens: nat)
    requires c < |s.conns| && part <= n
    ensures var held := At(s, c, m, Cleared(n), bytesOut, put, tokens);
            && Next(default, held, Write(c)) == At(s, c, m, Reading, bytesOut + n, put + n, tokens)
            && Next(default, held, Break(c, part)) == At(s, c, m, Ended, bytesOut, put + part, tokens)
  {
  }

  /** Where a turn leaves the connection. */
  function AfterTurn(s: State, c: nat, turn: Turn, m: Buckets): State
    requires c < |s.conns|
  {
    var conn := s.conns[c];
    match turn
    case Forwards(chunk) => At(s, c, m, Reading, conn.bytesOut + |chunk|, conn.put + |chunk|, conn.tokens + 1)
    case Ends(_, _, put, offered, asked) =>
      At(s, c, if asked == 0 then s.buckets else m, Ended, conn.bytesOut, conn.put + |put|, conn.tokens + offered)
  }

  /** A chunk read and granted, then written, or cut short by a failed write. */
  lemma GrantedRuns(default: U32, s: State, c: nat, n: nat, part: nat, now: real, m: Buckets)
    requires c < |s.conns| && s.conns[c].phase.Reading? && 1 <= n <= BUFFER && part <= n
    requires (m, true) == ConsumeIn(default, s.buckets, s.conns[c].peer, now)
    ensures var conn := s.conns[c];
            && Exec(default, s, [Read(c, n), Ask(c, now), Write(c)])
               == At(s, c, m, Reading, conn.bytesOut + n, conn.put + n, conn.tokens + 1)
            && Exec(default, s, [Read(c, n), Ask(c, now), Break(c, part)])
               == At(s, c, m, Ended, conn.bytesOut, conn.put + part, conn.tokens + 1)
  {
    ExecFew(default, s, Read(c, n), Ask(c, now), Write(c));
    ExecFew(default, s, Read(c, n), Ask(c, now), Break(c, part));
    ReadAndAsk(default, s, c, n, now, m, true);
    LastStep(default, s, c, n, part, m, s.conns[c].bytesOut, s.conns[c].put, s.conns[c].tokens + 1);
  }

  lemma RefusedRuns(default: U32, s: State, c: nat, n: nat, now: real, m: Buckets)
    requires c < |s.conns| && s.conns[c].phase.Reading? && 1 <= n <= BUFFER
    requires (m, false) == ConsumeIn(default, s.buckets, s.conns[c].peer, now)
    ensures Exec(default, s, [Read(c, n), Ask(c, now)])
         == At(s, c, m, Ended, s.conns[c].bytesOut, s.conns[c].put, s.conns[c].tokens)
  {
    ExecFew(default, s, Read(c, n), Ask(c, now), Write(c));
    ReadAndAsk(default, s, c, n, now, m, false);
  }

  lemma EndRuns(default: U32, s: State, c: nat, step: Step)
    requires c < |s.conns| && s.conns[c].phase.Reading? && (step == Read(c, 0) || step == Break(c, 0))
    ensures Exec(default, s, [step])
         == At(s, c, s.buckets, Ended, s.conns[c].bytesOut, s.conns[c].put, s.conns[c].tokens)
  {
    ExecFew(default, s, step, step, step);
    assert ConnStep(default, s, s.conns[c], step) == (s.buckets, s.conns[c].(phase := Ended));
  }

  /** The steps of a turn take the connection where the turn says. */
  lemma TurnRuns(default: U32, s: State, c: nat, input: seq<Arrival>, output: seq<Streams.Write>, now: real,
                 m: Buckets, ok: bool)
    requires c < |s.conns| && s.conns[c].phase.Reading?
    requires (m, ok) == ConsumeIn(default, s.buckets, s.conns[c].peer, now)
    ensures var turn := TurnSpec(input, output, ok);
            Exec(default, s, TurnSteps(c, turn, now)) == AfterTurn(s, c, turn, m)
  {
    TurnBounds(input, output, ok);
    TurnStepsRun(default, s, c, TurnSpec(input, output, ok), now, m, ok);
  }

  /** What `TurnBounds` says of a turn is enough. */
  lemma TurnStepsRun(default: U32, s: State, c: nat, turn: Turn, now: real, m: Buckets, ok: bool)
    requires c < |s.conns| && s.conns[c].phase.Reading?
    requires (m, ok) == ConsumeIn(default, s.buckets, s.conns[c].peer, now)
    requires Bounded(turn, ok)
    ensures Exec(default, s, TurnSteps(c, turn, now)) == AfterTurn(s, c, turn, m)
  {
    if turn.Forwards? {
      GrantedRuns(default, s, c, |turn.chunk|, 0, now, m);
    } else if turn.asked == 0 {
      EndRuns(default, s, c, if turn.outcome.Closed? then Read(c, 0) else Break(c, 0));
    } else if ok {
      FailedTurnRuns(default, s, c, turn, now, m);
    } else {
      RefusedTurnRuns(default, s, c, turn, now, m);
    }
  }

  lemma FailedTurnRuns(default: U32, s: State, c: nat, turn: Turn, now: real, m: Buckets)
    requires c < |s.conns| && s.conns[c].phase.Reading?
    requires (m, true) == ConsumeIn(default, s.buckets, s.conns[c].peer, now)
    requires turn.Ends? && turn.asked == 1 && Bounded(turn, true)
    ensures Exec(default, s, TurnSteps(c, turn, now)) == AfterTurn(s, c, turn, m)
  {
    GrantedRuns(default, s, c, turn.bytesIn, |turn.put|, now, m);
  }

  lemma RefusedTurnRuns(default: U32, s: State, c: nat, turn: Turn, now: real, m: Buckets)
    requires c < |s.conns| && s.conns[c].phase.Reading?
    requires (m, false) == ConsumeIn(default, s.buckets, s.conns[c].peer, now)
    requires turn.Ends? && turn.asked == 1 && Bounded(turn, false)
    ensures Exec(default, s, TurnSteps(c, turn, now)) == AfterTurn(s, c, turn, m)
  {
    RefusedRuns(default, s, c, turn.bytesIn, now, m);
  }

  /** Where a pump that ended with the figures of `e` leaves the connection. */
  function Finish(s: State, c: nat, e: Served, m: Buckets): State
    requires c < |s.conns|
  {
    var conn := s.conns[c];
    At(s, c, m, Ended, conn.bytesOut + e.bytesOut, conn.put + |e.written|, conn.tokens + e.offers)
  }

  lemma FinishAfterTurn(s: State, c: nat, chunk: seq<U8>, later: Served, m1: Buckets, m: Buckets)
    requires c < |s.conns|
    ensures Finish(AfterTurn(s, c, Forwards(chunk), m1), c, later, m) == Finish(s, c, After(chunk, later), m)
  {
    var s1, conn := AfterTurn(s, c, Forwards(chunk), m1), s.conns[c];
    var end := Conn(conn.peer, Ended, conn.bytesOut + |chunk| + later.bytesOut, conn.put + |chunk| + |later.written|,
                    conn.tokens + 1 + later.offers);
    assert s1.conns[c := end] == s.conns[c := end];
  }

  /**
   Served alone, a connection's steps end with the figures that the relay's own loop reports, and
   leave the limiter as that loop does.
   */
  lemma {:induction false} PumpRuns(default: U32, s: State, c: nat, input: seq<Arrival>, output: seq<Streams.Write>,
                                    clock: nat -> real, tick: nat, after: imap<nat, Buckets>, ok: nat -> bool)
    requires c < |s.conns| && s.conns[c].phase.Reading?
    requires Follows(default, s.conns[c].peer, clock, after, ok) && s.buckets == after[tick]
    ensures var e := Pump(ok, input, output, tick);
            Exec(default, s, PumpSteps(c, ok, input, output, clock, tick)) == Finish(s, c, e, after[e.ticks])
    decreases Pending(input)
  {
    var turn := TurnSpec(input, output, ok(tick));
    var first := TurnSteps(c, turn, clock(tick));
    TurnRuns(default, s, c, input, output, clock(tick), after[tick + 1], ok(tick));
    match turn
    case Forwards(chunk) =>
      var rest, writes := ReadFrom(input, BUFFER).1, RestWrites(output);
      var later := Pump(ok, rest, writes, tick + 1);
      PumpRuns(default, AfterTurn(s, c, turn, after[tick + 1]), c, rest, writes, clock, tick + 1, after, ok);
      ExecAppends(default, s, first, PumpSteps(c, ok, rest, writes, clock, tick + 1));
      FinishAfterTurn(s, c, chunk, later, after[tick + 1], after[later.ticks]);
    case Ends(_, _, _, _, _) =>
      assert first + [] == first;
  }

  /** The steps of connection c from its arrival to its end, when nothing else happens. */
  function ConnectionSteps(default: U32, trust: Registry, m: Buckets, c: nat, peer: NodeId, input: seq<Arrival>,
                           output: seq<Streams.Write>, startedAt: real, clock: nat -> real): seq<Step> {
    if peer !in trust then [Open(peer), Check(c)]
    else
      var ok := Answers(default, SyncNodeLimit(trust, m, peer, startedAt), peer, clock);
      [Open(peer), Check(c)] + [Sync(c, startedAt), Enter(c, clock(0))]
      + if ok(0) then PumpSteps(c, ok, input, output, clock, 1) else []
  }

  function Joined(s: State, m: Buckets, peer: NodeId, phase: Phase, tokens: nat): State {
    s.(buckets := m, conns := s.conns + [Conn(peer, phase, 0, 0, tokens)])
  }

  lemma ArrivalRuns(default: U32, s: State, peer: NodeId)
    ensures Exec(default, s, [Open(peer), Check(|s.conns|)])
         == Joined(s, s.buckets, peer, if peer in s.trust then Checked else Ended, 0)
  {
    var c := |s.conns|;
    ExecFew(default, s, Open(peer), Check(c), Check(c));
    var s1 := Joined(s, s.buckets, peer, Arriving, 0);
    var end := Conn(peer, if peer in s.trust then Checked else Ended, 0, 0, 0);
    assert Next(default, s, Open(peer)) == s1;
    assert s1.conns[c := end] == s.conns + [end];
  }

  lemma EntryRuns(default: U32, s: State, peer: NodeId, startedAt: real, now: real, m: Buckets, ok: bool)
    requires (m, ok) == ConsumeIn(default, SyncNodeLimit(s.trust, s.buckets, peer, startedAt), peer, now)
    ensures Exec(default, Joined(s, s.buckets, peer, Checked, 0), [Sync(|s.conns|, startedAt), Enter(|s.conns|, now)])
         == Joined(s, m, peer, if ok then Reading else Ended, if ok then 1 else 0)
  {
    var c, s0 := |s.conns|, Joined(s, s.buckets, peer, Checked, 0);
    ExecFew(default, s0, Sync(c, startedAt), Enter(c, now), Check(c));
    var s1 := Joined(s, SyncNodeLimit(s.trust, s.buckets, peer, startedAt), peer, Synced, 0);
    var synced := Conn(peer, Synced, 0, 0, 0);
    var end := Conn(peer, if ok then Reading else Ended, 0, 0, if ok then 1 else 0);
    assert s0.conns[c := synced] == s.conns + [synced] && s1.conns[c := end] == s.conns + [end];
    assert Next(default, s0, Sync(c, startedAt)) == s1;
  }

  /**
   The machine does what the relay's method does: a connection served alone puts out as many bytes as
   `HandleSpec` writes, logs as many as it reports, and leaves the limiter as it says.
   */
  lemma ConnectionRuns(default: U32, s: State, peer: NodeId, input: seq<Arrival>, output: seq<Streams.Write>,
                       startedAt: real, clock: nat -> real)
    ensures var (e, m) := HandleSpec(default, s.trust, s.buckets, peer, input, output, startedAt, clock);
            var t := Exec(default, s, ConnectionSteps(default, s.trust, s.buckets, |s.conns|, peer, input, output, startedAt, clock));
            && t.buckets == m && |t.conns| == |s.conns| + 1
            && t.conns[|s.conns|].phase.Ended?
            && t.conns[|s.conns|].bytesOut == e.bytesOut && t.conns[|s.conns|].put == |e.written|
  {
    var c := |s.conns|;
    ArrivalRuns(default, s, peer);
    if peer in s.trust {
      var m0 := SyncNodeLimit(s.trust, s.buckets, peer, startedAt);
      var after, ok := States(default, m0, peer, clock), Answers(default, m0, peer, clock);
      AskingFollows(default, m0, peer, clock);
      assert (after[1], ok(0)) == ConsumeIn(default, after[0], peer, clock(0));
      EntryRuns(default, s, peer, startedAt, clock(0), after[1], ok(0));
      var arrival, entry := [Open(peer), Check(c)], [Sync(c, startedAt), Enter(c, clock(0))];
      ExecAppends(default, s, arrival, entry);
      if ok(0) {
        var s1 := Joined(s, after[1], peer, Reading, 1);
        ExecAppends(default, s, arrival + entry, PumpSteps(c, ok, input, output, clock, 1));
        PumpRuns(default, s1, c, input, output, clock, 1, after, ok);
      } else {
        assert (arrival + entry) + [] == arrival + entry;
      }
    }
  }
}
