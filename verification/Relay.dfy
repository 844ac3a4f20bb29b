/**
 The relay's handling of one connection (src/relay/mod.rs:107-223).

 `Pump` says what the read / consume / write loop does to the limiter and the streams, and
 `HandleSpec` puts the trust check, the limit sync and the entry token in front of it. Class
 `Relay` runs them on objects.
 */
module Relays {
  import opened Wrappers
  import opened Nodes
  import opened Numbers
  import opened Pieces
  import opened RateLimiters
  import opened TrustStores
  import opened Streams

  datatype Outcome = Closed | RateLimited | TrustRejected | Error(message: string)

  /** What a connection leaves behind; `ticks` counts its questions to the limiter. */
  datatype Served = Served(
    bytesIn: nat,
    bytesOut: nat,
    outcome: Outcome,
    written: seq<U8>,
    offers: nat,
    ticks: nat)

  /** One turn of the loop: it forwards a chunk, or it is the last and leaves these figures. */
  datatype Turn =
    | Forwards(chunk: seq<U8>)
    | Ends(bytesIn: nat, outcome: Outcome, put: seq<U8>, offered: nat, asked: nat)

  /** A turn when the limiter's answer, if asked, is `ok`. */
  function TurnSpec(input: seq<Arrival>, output: seq<Write>, ok: bool): (t: Turn)
    ensures t.Ends? ==> t.asked <= 1
    ensures t.Forwards? ==> Pending(ReadFrom(input, BUFFER).1) < Pending(input)
  {
    ReadShrinks(input, BUFFER);
    var got := ReadFrom(input, BUFFER).0;
    if got.Err? then Ends(0, Error(got.error), [], 0, 0)
    else if got.value == [] then Ends(0, Closed, [], 0, 0)
    else if !ok then Ends(|got.value|, RateLimited, [], 0, 1)
    else match NextWrite(output)
      case Failed(message, _) => Ends(|got.value|, Error(message), PutOut(NextWrite(output), got.value), 1, 1)
      case Clean => Forwards(got.value)
  }

  /** The read / consume / write loop, when the limiter's answer to question i is ok(i). */
  function Pump(ok: nat -> bool, input: seq<Arrival>, output: seq<Write>, tick: nat): Served
    decreases Pending(input)
  {
    match TurnSpec(input, output, ok(tick))
    case Forwards(chunk) => After(chunk, Pump(ok, ReadFrom(input, BUFFER).1, RestWrites(output), tick + 1))
    case Ends(bytesIn, outcome, put, offered, asked) => Served(bytesIn, 0, outcome, put, offered, tick + asked)
  }

  /** `later`, with one more chunk read, offered and written before it. */
  function After(chunk: seq<U8>, later: Served): Served {
    later.(bytesIn := |chunk| + later.bytesIn,
           bytesOut := |chunk| + later.bytesOut,
           written := chunk + later.written,
           offers := 1 + later.offers)
  }

  function SyncNodeLimit(trust: Registry, m: Buckets, peer: NodeId, now: real): Buckets {
    if peer in trust then SetLimitIn(m, peer, trust[peer].rateLimitPerMin, now) else m
  }

  /**
   The sync tunes the peer's bucket to the rate of its trust entry, seeding it full if it is new, and touches
   no other bucket; a peer without an entry changes nothing.
   */
  lemma SyncApplies(trust: Registry, m: Buckets, peer: NodeId, now: real)
    requires SoundBuckets(m)
    ensures var m' := SyncNodeLimit(trust, m, peer, now);
            if peer !in trust then m' == m
            else
              && peer in m' && TunedTo(m, m'[peer], peer, LimitOf(trust[peer].rateLimitPerMin), now)
              && m' == m[peer := m'[peer]]
  {
    if peer in trust {
      SetLimitApplies(m, peer, trust[peer].rateLimitPerMin, now);
    }
  }

  /** The limiter after the connection's first k questions. */
  function AfterAsking(default: U32, m: Buckets, peer: NodeId, clock: nat -> real, k: nat): Buckets {
    if k == 0 then m else ConsumeIn(default, AfterAsking(default, m, peer, clock, k - 1), peer, clock(k - 1)).0
  }

  function Answer(default: U32, m: Buckets, peer: NodeId, clock: nat -> real, k: nat): bool {
    ConsumeIn(default, AfterAsking(default, m, peer, clock, k), peer, clock(k)).1
  }

  function Answers(default: U32, m: Buckets, peer: NodeId, clock: nat -> real): nat -> bool {
    (k: nat) => Answer(default, m, peer, clock, k)
  }

  /** A connection once trusted and synced: the entry token, then the loop. */
  function Admit(ok: nat -> bool, input: seq<Arrival>, output: seq<Write>): Served {
    if !ok(0) then Served(0, 0, RateLimited, [], 0, 1) else Pump(ok, input, output, 1)
  }

  /** A whole connection, and the limiter it leaves. */
  function HandleSpec(default: U32, trust: Registry, m: Buckets, peer: NodeId, input: seq<Arrival>,
                      output: seq<Write>, startedAt: real, clock: nat -> real): (Served, Buckets) {
    if peer !in trust then (Served(0, 0, TrustRejected, [], 0, 0), m)
    else
      var m0 := SyncNodeLimit(trust, m, peer, startedAt);
      var e := Admit(Answers(default, m0, peer, clock), input, output);
      (e, AfterAsking(default, m0, peer, clock, e.ticks))
  }

  // ---------------------------------------------------------------- what one connection can do

  /**
   Of the chunks `cs` to be read, `read` were taken in and `sent` went out entirely: all that were
   read, or all but the last. Nothing else went out except, on a failed write, the start of the last.
   */
  ghost predicate Forwarded(e: Served, cs: seq<seq<U8>>, read: nat, sent: nat) {
    && sent <= read <= |cs| && read <= sent + 1
    && e.bytesIn == |Concat(cs[..read])| && e.bytesOut == |Concat(cs[..sent])|
    && Concat(cs[..sent]) <= e.written <= Concat(cs[..read])
    && (e.outcome.Closed? ==> sent == |cs|)
    && (e.outcome.RateLimited? ==> read == sent + 1)
    && (!e.outcome.Error? ==> e.written == Concat(cs[..sent]))
    && !e.outcome.TrustRejected?
    && e.offers == sent + (if read == sent + 1 && e.outcome.Error? then 1 else 0)
  }

  lemma ConcatOfOneMore(chunk: seq<U8>, cs: seq<seq<U8>>, k: nat)
    requires k <= |cs|
    ensures Concat(([chunk] + cs)[..k + 1]) == chunk + Concat(cs[..k])
  {
    assert ([chunk] + cs)[..k + 1] == [chunk] + cs[..k];
    assert ([chunk] + cs[..k])[1..] == cs[..k];
  }

  lemma ForwardedAfter(chunk: seq<U8>, e: Served, cs: seq<seq<U8>>, read: nat, sent: nat)
    requires Forwarded(e, cs, read, sent)
    ensures Forwarded(After(chunk, e), [chunk] + cs, read + 1, sent + 1)
  {
    ConcatOfOneMore(chunk, cs, read);
    ConcatOfOneMore(chunk, cs, sent);
  }

  /** The pump forwards whole chunks, in order. */
  lemma {:induction false} PumpForwards(ok: nat -> bool, input: seq<Arrival>, output: seq<Write>, tick: nat)
    returns (read: nat, sent: nat)
    ensures Forwarded(Pump(ok, input, output, tick), Chunks(input), read, sent)
    decreases Pending(input)
  {
    ReadShrinks(input, BUFFER);
    var (got, rest) := ReadFrom(input, BUFFER);
    read, sent := 0, 0;
    if got.Ok? && got.value != [] {
      if TurnSpec(input, output, ok(tick)).Forwards? {
        read, sent := PumpForwards(ok, rest, RestWrites(output), tick + 1);
        ForwardedAfter(got.value, Pump(ok, rest, RestWrites(output), tick + 1), Chunks(rest), read, sent);
        read, sent := read + 1, sent + 1;
      } else {
        ConcatOfOneMore(got.value, Chunks(rest), 0);
        read := 1;
      }
    }
  }

  /** One token per chunk offered for writing, and a refusal only as the last answer. */
  lemma {:induction false} PumpTokens(ok: nat -> bool, input: seq<Arrival>, output: seq<Write>, tick: nat)
    ensures var e := Pump(ok, input, output, tick);
            && e.ticks == tick + e.offers + (if e.outcome.RateLimited? then 1 else 0)
            && (forall k | tick <= k < tick + e.offers :: ok(k))
            && (e.outcome.RateLimited? ==> !ok(tick + e.offers))
    decreases Pending(input)
  {
    if TurnSpec(input, output, ok(tick)).Forwards? {
      PumpTokens(ok, ReadFrom(input, BUFFER).1, RestWrites(output), tick + 1);
    }
  }

  /** The questions of a connection, as limiter operations. */
  function Questions(peer: NodeId, clock: nat -> real, k: nat): seq<Op> {
    if k == 0 then [] else Questions(peer, clock, k - 1) + [Attempt(peer, clock(k - 1))]
  }

  function Replies(peer: NodeId, k: nat, refused: bool): seq<(NodeId, bool)> {
    if k == 0 then [] else Replies(peer, k - 1, false) + [(peer, !refused)]
  }

  /** Asking k times is a run of the limiter, answered yes each time except, when `refused`, the last. */
  lemma {:induction false} AskingIsALimiterRun(default: U32, m: Buckets, peer: NodeId, clock: nat -> real,
                                               k: nat, refused: bool)
    requires refused ==> 0 < k && !Answer(default, m, peer, clock, k - 1)
    requires forall i: nat | i < (if refused then k - 1 else k) :: Answer(default, m, peer, clock, i)
    ensures Run(default, m, Questions(peer, clock, k))
         == (AfterAsking(default, m, peer, clock, k), Replies(peer, k, refused))
  {
    if 0 < k {
      AskingIsALimiterRun(default, m, peer, clock, k - 1, false);
      RunAppends(default, m, Questions(peer, clock, k - 1), Attempt(peer, clock(k - 1)));
      assert Answer(default, m, peer, clock, k - 1) == !refused;
    }
  }

  /**
   A trusted connection's questions are a run of the limiter on the synced limits: it is told yes for
   the entry and for each chunk it offers for writing, and no exactly when it ends rate limited.
   */
  lemma HandleTokens(default: U32, trust: Registry, m: Buckets, peer: NodeId, input: seq<Arrival>,
                     output: seq<Write>, startedAt: real, clock: nat -> real)
    requires peer in trust
    ensures var (e, m') := HandleSpec(default, trust, m, peer, input, output, startedAt, clock);
            var yes := e.ticks - (if e.outcome.RateLimited? then 1 else 0);
            && (yes == 0 || yes == 1 + e.offers) && (yes == 0 ==> e.outcome.RateLimited? && e.bytesIn == 0)
            && Run(default, SyncNodeLimit(trust, m, peer, startedAt), Questions(peer, clock, e.ticks))
               == (m', Replies(peer, e.ticks, e.outcome.RateLimited?))
  {
    var m0 := SyncNodeLimit(trust, m, peer, startedAt);
    var ok := Answers(default, m0, peer, clock);
    var e := Admit(ok, input, output);
    if ok(0) {
      PumpTokens(ok, input, output, 1);
    }
    forall i: nat | i < e.ticks
      ensures Answer(default, m0, peer, clock, i) == !(e.outcome.RateLimited? && i == e.ticks - 1)
    {
      assert ok(i) == Answer(default, m0, peer, clock, i);
    }
    AskingIsALimiterRun(default, m0, peer, clock, e.ticks, e.outcome.RateLimited?);
  }

  lemma {:induction false} RunAppends(default: U32, m: Buckets, ops: seq<Op>, op: Op)
    requires op.Attempt?
    ensures var (m1, answers) := Run(default, m, ops);
            var (m2, allowed) := ConsumeIn(default, m1, op.node, op.now);
            Run(default, m, ops + [op]) == (m2, answers + [(op.node, allowed)])
    decreases |ops|
  {
    if ops == [] {
      var answer := [(op.node, ConsumeIn(default, m, op.node, op.now).1)];
      assert ops + [op] == [op] && [op][1..] == [];
      assert answer + [] == [] + answer;
    } else {
      assert (ops + [op])[0] == ops[0] && (ops + [op])[1..] == ops[1..] + [op];
      match ops[0]
      case Attempt(n, now) =>
        var (m1, first) := ConsumeIn(default, m, n, now);
        RunAppends(default, m1, ops[1..], op);
        var answers := Run(default, m1, ops[1..]).1;
        var last := ConsumeIn(default, Run(default, m1, ops[1..]).0, op.node, op.now).1;
        assert [(n, first)] + (answers + [(op.node, last)]) == ([(n, first)] + answers) + [(op.node, last)];
      case SetLimit(n, perMin, now) =>
        RunAppends(default, SetLimitIn(m, n, perMin, now), ops[1..], op);
    }
  }

  /** One connection: the peer gets a prefix of what arrived, and all of it when the outcome is Closed. */
  lemma AdmitForwardsAPrefix(ok: nat -> bool, input: seq<Arrival>, output: seq<Write>)
    ensures var e := Admit(ok, input, output);
            && e.bytesOut <= |e.written| && e.written <= Payload(input)
            && e.bytesOut <= e.bytesIn <= e.bytesOut + BUFFER
            && (e.outcome.Closed? ==> e.written == Payload(input) && e.bytesIn == e.bytesOut == |e.written|)
            && (!e.outcome.Error? ==> |e.written| == e.bytesOut)
  {
    if ok(0) {
      var read, sent := PumpForwards(ok, input, output, 1);
      ChunksArePayload(input);
      ForwardedIsAPrefix(Pump(ok, input, output, 1), Chunks(input), read, sent);
    }
  }

  lemma ForwardedIsAPrefix(e: Served, cs: seq<seq<U8>>, read: nat, sent: nat)
    requires Forwarded(e, cs, read, sent) && forall c | c in cs :: |c| <= BUFFER
    ensures e.bytesOut <= |e.written| && e.written <= Concat(cs)
    ensures e.bytesOut <= e.bytesIn <= e.bytesOut + BUFFER
    ensures e.outcome.Closed? ==> e.written == Concat(cs) && e.bytesIn == e.bytesOut == |e.written|
    ensures !e.outcome.Error? ==> |e.written| == e.bytesOut
  {
    PrefixOfConcat(cs, read);
    if sent < read {
      assert cs[..read] == cs[..sent] + [cs[sent]];
      ConcatAppends(cs[..sent], [cs[sent]]);
      ConcatOfOneMore(cs[sent], [], 0);
      assert cs[sent] in cs;
    }
    if sent == |cs| {
      assert cs[..sent] == cs;
    }
  }

  lemma PrefixOfConcat(cs: seq<seq<U8>>, k: nat)
    requires k <= |cs|
    ensures Concat(cs[..k]) <= Concat(cs)
  {
    assert cs == cs[..k] + cs[k..];
    ConcatAppends(cs[..k], cs[k..]);
  }

  // ---------------------------------------------------------------- the relay object

  datatype ConnectionLog = ConnectionLog(
    srcNode: NodeId,
    dstNode: Option<NodeId>,
    bytesIn: nat,
    bytesOut: nat,
    startedAtUnix: real,
    durationMs: U64,
    outcome: Outcome)

  /** Whole milliseconds from start to end, none if the clock went back, saturating as the cast does. */
  function Milliseconds(startedAt: real, ended: real): (ms: U64)
    ensures ended <= startedAt ==> ms == 0
    ensures ms < U64_MAX && startedAt <= ended ==> ms as real <= (ended - startedAt) * 1000.0 < ms as real + 1.0
    ensures ms == U64_MAX ==> U64_MAX as real <= (ended - startedAt) * 1000.0
  {
    if ended <= startedAt then 0
    else
      var ms := ((ended - startedAt) * 1000.0).Floor;
      if ms > U64_MAX then U64_MAX else ms
  }

  /** A connection that got past the entry token is timed up to the clock's next reading; any other logs zero. */
  function LoggedMs(e: Served, startedAt: real, clock: nat -> real): U64 {
    if e.ticks == 0 || (e.ticks == 1 && e.outcome.RateLimited?) then 0 else Milliseconds(startedAt, clock(e.ticks))
  }

  class Relay {
    const trust: TrustStore
    const limiter: RateLimiter

    constructor (trust: TrustStore, limiter: RateLimiter)
      ensures this.trust == trust && this.limiter == limiter
    {
      this.trust, this.limiter := trust, limiter;
    }

    method SyncLimit(node: NodeId, now: real) returns (found: bool)
      modifies limiter
      ensures limiter.buckets == SyncNodeLimit(trust.entries, old(limiter.buckets), node, now)
      ensures found <==> node in trust.entries
      ensures !found ==> limiter.buckets == old(limiter.buckets)
      ensures found && old(SoundBuckets(limiter.buckets)) ==>
                && node in limiter.buckets
                && TunedTo(old(limiter.buckets), limiter.buckets[node], node, LimitOf(trust.entries[node].rateLimitPerMin), now)
                && limiter.buckets == old(limiter.buckets)[node := limiter.buckets[node]]
    {
      if SoundBuckets(limiter.buckets) {
        SyncApplies(trust.entries, limiter.buckets, node, now);
      }
      var entry := trust.Get(node);
      found := entry.Some?;
      if found {
        limiter.SetLimit(node, entry.value.rateLimitPerMin, now);
      }
    }

    method HandleConnection(peer: NodeId, incoming: ByteStream, outgoing: ByteStream,
                            startedAt: real, clock: nat -> real) returns (log: ConnectionLog)
      requires incoming != outgoing
      modifies limiter, incoming, outgoing
      ensures var (e, m) := HandleSpec(limiter.defaultPerMin, trust.entries, old(limiter.buckets), peer,
                                       old(incoming.arrivals), old(outgoing.outcomes), startedAt, clock);
              && log == ConnectionLog(peer, None, e.bytesIn, e.bytesOut, startedAt, LoggedMs(e, startedAt, clock), e.outcome)
              && outgoing.written == old(outgoing.written) + e.written
              && outgoing.offers == old(outgoing.offers) + e.offers
              && limiter.buckets == m
    {
      var trusted := trust.IsTrusted(peer);
      if !trusted {
        return ConnectionLog(peer, None, 0, 0, startedAt, 0, TrustRejected);
      }
      var _ := SyncLimit(peer, startedAt);
      ghost var default, m0 := limiter.defaultPerMin, limiter.buckets;
      ghost var after, ok := States(default, m0, peer, clock), Answers(default, m0, peer, clock);
      AskingFollows(default, m0, peer, clock);
      assert (after[1], ok(0)) == ConsumeIn(default, after[0], peer, clock(0));
      var allowed := limiter.TryConsume(peer, clock(0));
      if !allowed {
        return ConnectionLog(peer, None, 0, 0, startedAt, 0, RateLimited);
      }
      PumpTokens(ok, incoming.arrivals, outgoing.outcomes, 1);
      var bytesIn, bytesOut, outcome, ticks := PumpStreams(peer, incoming, outgoing, clock, after, ok, Ahead(ok));
      var durationMs := Milliseconds(startedAt, clock(ticks));
      log := ConnectionLog(peer, None, bytesIn, bytesOut, startedAt, durationMs, outcome);
    }

    /** The read / consume / write loop, after the entry token, given the limiter's states and answers to come. */
    method PumpStreams(peer: NodeId, incoming: ByteStream, outgoing: ByteStream, clock: nat -> real,
                       ghost after: imap<nat, Buckets>, ghost ok: nat -> bool, ghost ahead: imap<Place, Served>)
      returns (bytesIn: nat, bytesOut: nat, outcome: Outcome, ticks: nat)
      requires incoming != outgoing && Foresees(ahead, ok)
      requires Follows(limiter.defaultPerMin, peer, clock, after, ok) && limiter.buckets == after[1]
      modifies limiter, incoming, outgoing
      ensures var e := Pump(ok, old(incoming.arrivals), old(outgoing.outcomes), 1);
              && e == Served(bytesIn, bytesOut, outcome, e.written, e.offers, ticks)
              && outgoing.written == old(outgoing.written) + e.written
              && outgoing.offers == old(outgoing.offers) + e.offers
              && limiter.buckets == after[e.ticks]
    {
      ghost var all := ahead[Place(incoming.arrivals, outgoing.outcomes, 1)];
      ghost var whole := Before(0, 0, outgoing.written, outgoing.offers, all);
      var buf := new U8[BUFFER];
      var tick := 1;
      bytesIn, bytesOut := 0, 0;
      while true
        invariant limiter.buckets == after[tick]
        invariant whole == Before(bytesIn, bytesOut, outgoing.written, outgoing.offers,
                                  ahead[Place(incoming.arrivals, outgoing.outcomes, tick)])
        decreases Pending(incoming.arrivals)
      {
        var turn := TakeTurn(peer, incoming, outgoing, buf, clock, tick, after, ok, ahead, bytesIn, bytesOut);
        match turn
        case Ends(last, why, _, _, asked) =>
          bytesIn, outcome, ticks := bytesIn + last, why, tick + asked;
          TotalsOf(old(outgoing.written), old(outgoing.offers), all,
                   Served(bytesIn, bytesOut, outcome, outgoing.written, outgoing.offers, ticks));
          return;
        case Forwards(chunk) =>
          bytesIn, bytesOut, tick := bytesIn + |chunk|, bytesOut + |chunk|, tick + 1;
      }
    }

    /** One turn of the loop, which asks the limiter its question number `tick` if it gets that far. */
    method TakeTurn(peer: NodeId, incoming: ByteStream, outgoing: ByteStream, buf: array<U8>, clock: nat -> real, tick: nat,
                    ghost after: imap<nat, Buckets>, ghost ok: nat -> bool, ghost ahead: imap<Place, Served>,
                    ghost bytesIn: nat, ghost bytesOut: nat)
      returns (turn: Turn)
      requires Follows(limiter.defaultPerMin, peer, clock, after, ok) && limiter.buckets == after[tick]
      requires incoming != outgoing && buf.Length == BUFFER && Foresees(ahead, ok)
      modifies limiter, incoming, outgoing, buf
      ensures limiter.buckets == after[tick + if turn.Forwards? then 1 else turn.asked]
      ensures turn.Forwards? ==> Pending(incoming.arrivals) < old(Pending(incoming.arrivals))
      ensures Before(bytesIn, bytesOut, old(outgoing.written), old(outgoing.offers),
                     ahead[old(Place(incoming.arrivals, outgoing.outcomes, tick))])
           == if turn.Forwards?
              then Before(bytesIn + |turn.chunk|, bytesOut + |turn.chunk|, outgoing.written, outgoing.offers,
                          ahead[Place(incoming.arrivals, outgoing.outcomes, tick + 1)])
              else Served(bytesIn + turn.bytesIn, bytesOut, turn.outcome, outgoing.written, outgoing.offers, tick + turn.asked)
    {
      PumpTurn(ok, incoming.arrivals, outgoing.outcomes, tick, bytesIn, bytesOut, outgoing.written, outgoing.offers);
      var r := incoming.Read(buf);
      if r.Err? {
        return Ends(0, Error(r.error), [], 0, 0);
      }
      var n := r.value;
      if n == 0 {
        return Ends(0, Closed, [], 0, 0);
      }
      var allowed := limiter.TryConsume(peer, clock(tick));
      if !allowed {
        return Ends(n, RateLimited, [], 0, 1);
      }
      var chunk := buf[..n];
      var w := outgoing.WriteAll(chunk);
      if w.Failed? {
        return Ends(n, Error(w.message), PutOut(w, chunk), 1, 1);
      }
      return Forwards(chunk);
    }
  }

  /** Where the loop is: what is still to arrive, how the writes to come will end, and its next question. */
  datatype Place = Place(input: seq<Arrival>, output: seq<Write>, tick: nat)

  /** `ahead` tells what `Pump` does from every place. */
  ghost predicate Foresees(ahead: imap<Place, Served>, ok: nat -> bool) {
    && (forall p: Place :: p in ahead)
    && forall input: seq<Arrival>, output: seq<Write>, tick: nat {:trigger Pump(ok, input, output, tick)} ::
         ahead[Place(input, output, tick)] == Pump(ok, input, output, tick)
  }

  ghost function Ahead(ok: nat -> bool): (ahead: imap<Place, Served>)
    ensures Foresees(ahead, ok)
  {
    imap p: Place :: Pump(ok, p.input, p.output, p.tick)
  }

  /** The limiter goes through the states `after`, answering `ok`, when asked at the times of `clock`. */
  ghost predicate Follows(default: U32, peer: NodeId, clock: nat -> real, after: imap<nat, Buckets>, ok: nat -> bool) {
    && (forall k: nat :: k in after)
    && forall k: nat {:trigger ConsumeIn(default, after[k], peer, clock(k))} ::
         (after[k + 1], ok(k)) == ConsumeIn(default, after[k], peer, clock(k))
  }

  ghost function States(default: U32, m: Buckets, peer: NodeId, clock: nat -> real): imap<nat, Buckets> {
    imap k: nat :: AfterAsking(default, m, peer, clock, k)
  }

  lemma AskingFollows(default: U32, m: Buckets, peer: NodeId, clock: nat -> real)
    ensures Follows(default, peer, clock, States(default, m, peer, clock), Answers(default, m, peer, clock))
  {
    var after, ok := States(default, m, peer, clock), Answers(default, m, peer, clock);
    forall k: nat
      ensures (after[k + 1], ok(k)) == ConsumeIn(default, after[k], peer, clock(k))
    {
      assert ok(k) == Answer(default, m, peer, clock, k);
      assert after[k + 1] == AfterAsking(default, m, peer, clock, k + 1);
    }
  }

  /** `later`, with the totals of what came before it added in. */
  ghost function Before(bytesIn: nat, bytesOut: nat, sent: seq<U8>, offered: nat, later: Served): Served {
    later.(bytesIn := bytesIn + later.bytesIn,
           bytesOut := bytesOut + later.bytesOut,
           written := sent + later.written,
           offers := offered + later.offers)
  }

  lemma TotalsOf(sent: seq<U8>, offered: nat, e: Served, whole: Served)
    requires whole == Before(0, 0, sent, offered, e)
    ensures e == Served(whole.bytesIn, whole.bytesOut, whole.outcome, e.written, e.offers, whole.ticks)
    ensures whole.written == sent + e.written && whole.offers == offered + e.offers
  {
  }

  /** One turn of the pump, with the totals of what came before it. */
  lemma PumpTurn(ok: nat -> bool, input: seq<Arrival>, output: seq<Write>, tick: nat,
                 bytesIn: nat, bytesOut: nat, sent: seq<U8>, offered: nat)
    ensures Before(bytesIn, bytesOut, sent, offered, Pump(ok, input, output, tick))
         == match TurnSpec(input, output, ok(tick))
            case Forwards(chunk) =>
              Before(bytesIn + |chunk|, bytesOut + |chunk|, sent + chunk, offered + 1,
                     Pump(ok, ReadFrom(input, BUFFER).1, RestWrites(output), tick + 1))
            case Ends(last, outcome, put, extra, asked) =>
              Served(bytesIn + last, bytesOut, outcome, sent + put, offered + extra, tick + asked)
  {
    match TurnSpec(input, output, ok(tick))
    case Forwards(chunk) =>
      var later := Pump(ok, ReadFrom(input, BUFFER).1, RestWrites(output), tick + 1);
      assert sent + (chunk + later.written) == (sent + chunk) + later.written;
    case Ends(_, _, _, _, _) =>
  }
}
