/**
 What a relayed connection comes to (src/relay/mod.rs:140-223), told from its streams, the limiter's answers,
 the trust entry and the clock alone: how it ends, what it puts out, which of its questions are answered yes.
 */
module RelayLaws {
  import opened Wrappers
  import opened Nodes
  import opened Numbers
  import opened Pieces
  import opened TokenBuckets
  import opened Windows
  import opened BucketWindow
  import opened RateLimiters
  import opened TunedWindow
  import opened TrustStores
  import opened Streams
  import opened Relays

  // ---------------------------------------------------------------- how a connection ends

  predicate Fails(output: seq<Write>, k: nat) {
    k < |output| && output[k].Failed?
  }

  /** Chunk k is granted a token, by answer tick + k, and its write succeeds. */
  predicate Passes(ok: nat -> bool, output: seq<Write>, tick: nat, k: nat) {
    ok(tick + k) && !Fails(output, k)
  }

  /** The first k chunks all go out. */
  ghost predicate Reaches(ok: nat -> bool, output: seq<Write>, tick: nat, k: nat) {
    forall i: nat | i < k :: Passes(ok, output, tick, i)
  }

  /** Chunk k of `cs` is the first that does not go out, or there is none. */
  ghost predicate StopsAt(ok: nat -> bool, cs: seq<seq<U8>>, output: seq<Write>, tick: nat, k: nat) {
    k <= |cs| && Reaches(ok, output, tick, k) && (k < |cs| ==> !Passes(ok, output, tick, k))
  }

  /** The figures of a connection whose loop stops at chunk k. */
  function Stopped(ok: nat -> bool, cs: seq<seq<U8>>, broken: Option<string>, output: seq<Write>, tick: nat, k: nat): Served
    requires k <= |cs| && (k < |cs| ==> !Passes(ok, output, tick, k))
  {
    var out := Concat(cs[..k]);
    if k == |cs| then Served(|out|, |out|, if broken.None? then Closed else Error(broken.value), out, k, tick + k)
    else if !ok(tick + k) then Served(|out| + |cs[k]|, |out|, RateLimited, out, k, tick + k + 1)
    else
      var part := cs[k][..Least(output[k].partial, |cs[k]|)];
      Served(|out| + |cs[k]|, |out|, Error(output[k].message), out + part, k + 1, tick + k + 1)
  }

  lemma PassesShifts(ok: nat -> bool, output: seq<Write>, tick: nat, k: nat)
    ensures Passes(ok, RestWrites(output), tick + 1, k) == Passes(ok, output, tick, k + 1)
    ensures Fails(output, k + 1) ==> k < |RestWrites(output)| && RestWrites(output)[k] == output[k + 1]
  {
  }

  lemma StopsShifts(ok: nat -> bool, chunk: seq<U8>, cs: seq<seq<U8>>, output: seq<Write>, tick: nat, k: nat)
    requires Passes(ok, output, tick, 0) && StopsAt(ok, cs, RestWrites(output), tick + 1, k)
    ensures StopsAt(ok, [chunk] + cs, output, tick, k + 1)
  {
    forall i: nat | i < k + 1 ensures Passes(ok, output, tick, i) {
      if 0 < i {
        PassesShifts(ok, output, tick, i - 1);
      }
    }
    PassesShifts(ok, output, tick, k);
  }

  lemma StoppedShifts(ok: nat -> bool, chunk: seq<U8>, cs: seq<seq<U8>>, broken: Option<string>, output: seq<Write>,
                      tick: nat, k: nat)
    requires k <= |cs| && (k < |cs| ==> !Passes(ok, output, tick, k + 1) && !Passes(ok, RestWrites(output), tick + 1, k))
    ensures Stopped(ok, [chunk] + cs, broken, output, tick, k + 1)
         == After(chunk, Stopped(ok, cs, broken, RestWrites(output), tick + 1, k))
  {
    ConcatOfOneMore(chunk, cs, k);
    PassesShifts(ok, output, tick, k);
    if k < |cs| && ok(tick + 1 + k) {
      var out, part := Concat(cs[..k]), cs[k][..Least(output[k + 1].partial, |cs[k]|)];
      assert (chunk + out) + part == chunk + (out + part);
    }
  }

  /** The loop stops at the first chunk that gets no token or whose write fails, and its figures are those of that stop. */
  lemma {:induction false} PumpStops(ok: nat -> bool, input: seq<Arrival>, output: seq<Write>, tick: nat) returns (k: nat)
    ensures StopsAt(ok, Delivered(input), output, tick, k)
    ensures Pump(ok, input, output, tick) == Stopped(ok, Delivered(input), BreakOf(input), output, tick, k)
    decreases Pending(input)
  {
    ReadShrinks(input, BUFFER);
    ReadTakesTheFirst(input);
    var (got, rest) := ReadFrom(input, BUFFER);
    k := 0;
    var none: seq<U8> := [];
    assert Concat(Delivered(input)[..0]) == none;
    if got.Ok? && got.value != [] {
      assert none + got.value == got.value;
      if TurnSpec(input, output, ok(tick)).Forwards? {
        k := PumpStops(ok, rest, RestWrites(output), tick + 1);
        PassesShifts(ok, output, tick, k);
        StopsShifts(ok, got.value, Delivered(rest), output, tick, k);
        StoppedShifts(ok, got.value, Delivered(rest), BreakOf(rest), output, tick, k);
        k := k + 1;
      } else {
        var put := PutOut(NextWrite(output), got.value);
        assert none + put == put;
      }
    }
  }

  lemma StopIsUnique(ok: nat -> bool, cs: seq<seq<U8>>, output: seq<Write>, tick: nat, k: nat, i: nat)
    requires StopsAt(ok, cs, output, tick, k) && i <= |cs| && Reaches(ok, output, tick, i)
    ensures i <= k && (i < |cs| && !Passes(ok, output, tick, i) ==> i == k)
  {
  }

  /** Chunk k gets no token, though all before it went out. */
  ghost predicate RefusedAt(ok: nat -> bool, output: seq<Write>, tick: nat, k: nat) {
    Reaches(ok, output, tick, k) && !ok(tick + k)
  }

  /** The write of chunk k fails with the message, though it got its token and all before it went out. */
  ghost predicate FailsAt(ok: nat -> bool, output: seq<Write>, tick: nat, k: nat, message: string) {
    Reaches(ok, output, tick, k) && ok(tick + k) && Fails(output, k) && output[k].message == message
  }

  lemma ClosedStops(ok: nat -> bool, cs: seq<seq<U8>>, broken: Option<string>, output: seq<Write>, tick: nat, k: nat)
    requires StopsAt(ok, cs, output, tick, k)
    ensures Stopped(ok, cs, broken, output, tick, k).outcome == Closed
       <==> Reaches(ok, output, tick, |cs|) && broken == None
  {
  }

  lemma RefusedStops(ok: nat -> bool, cs: seq<seq<U8>>, broken: Option<string>, output: seq<Write>, tick: nat, k: nat)
    requires StopsAt(ok, cs, output, tick, k)
    ensures Stopped(ok, cs, broken, output, tick, k).outcome == RateLimited
       <==> exists i: nat :: i < |cs| && RefusedAt(ok, output, tick, i)
  {
    if i: nat :| i < |cs| && RefusedAt(ok, output, tick, i) {
      StopIsUnique(ok, cs, output, tick, k, i);
    }
    assert k < |cs| && !ok(tick + k) ==> RefusedAt(ok, output, tick, k);
  }

  lemma ErrorStops(ok: nat -> bool, cs: seq<seq<U8>>, broken: Option<string>, output: seq<Write>, tick: nat, k: nat,
                   message: string)
    requires StopsAt(ok, cs, output, tick, k)
    ensures Stopped(ok, cs, broken, output, tick, k).outcome == Error(message)
       <==> || (Reaches(ok, output, tick, |cs|) && broken == Some(message))
            || exists i: nat :: i < |cs| && FailsAt(ok, output, tick, i, message)
  {
    if i: nat :| i < |cs| && FailsAt(ok, output, tick, i, message) {
      StopIsUnique(ok, cs, output, tick, k, i);
    }
    if Reaches(ok, output, tick, |cs|) {
      StopIsUnique(ok, cs, output, tick, k, |cs|);
    }
    if k < |cs| && ok(tick + k) && output[k].message == message {
      assert FailsAt(ok, output, tick, k, message);
    }
  }

  /**
   How a trusted connection ends. Closed: the entry and every chunk get their tokens, every write succeeds
   and the input ends without a break. RateLimited: the entry, or the first chunk that does not go out, gets
   no token. Error: all tokens so far were granted, and the message is that of the first failed write, or of
   the break of the input if all chunks went out.
   */
  lemma OutcomeIff(ok: nat -> bool, input: seq<Arrival>, output: seq<Write>, message: string)
    ensures var cs, outcome := Delivered(input), Admit(ok, input, output).outcome;
            && (outcome == Closed <==> ok(0) && Reaches(ok, output, 1, |cs|) && BreakOf(input) == None)
            && (outcome == RateLimited <==> !ok(0) || exists k: nat :: k < |cs| && RefusedAt(ok, output, 1, k))
            && (outcome == Error(message) <==>
                  && ok(0)
                  && ((Reaches(ok, output, 1, |cs|) && BreakOf(input) == Some(message))
                      || exists k: nat :: k < |cs| && FailsAt(ok, output, 1, k, message)))
            && !outcome.TrustRejected?
  {
    if ok(0) {
      var cs := Delivered(input);
      var k := PumpStops(ok, input, output, 1);
      ClosedStops(ok, cs, BreakOf(input), output, 1, k);
      RefusedStops(ok, cs, BreakOf(input), output, 1, k);
      ErrorStops(ok, cs, BreakOf(input), output, 1, k, message);
    }
  }

  /** The answers that a connection of `peer` gets once its limit is synced. */
  function Told(default: U32, trust: Registry, m: Buckets, peer: NodeId, startedAt: real, clock: nat -> real): nat -> bool {
    Answers(default, SyncNodeLimit(trust, m, peer, startedAt), peer, clock)
  }

  /** Who is turned away and why: untrusted peers at once, without a trace in the limiter; all others as `OutcomeIff` says. */
  lemma HandleOutcome(default: U32, trust: Registry, m: Buckets, peer: NodeId, input: seq<Arrival>,
                      output: seq<Write>, startedAt: real, clock: nat -> real)
    ensures var (e, m') := HandleSpec(default, trust, m, peer, input, output, startedAt, clock);
            && (e.outcome.TrustRejected? <==> peer !in trust)
            && (peer !in trust ==> m' == m && e == Served(0, 0, TrustRejected, [], 0, 0))
            && (peer in trust ==> e == Admit(Told(default, trust, m, peer, startedAt, clock), input, output))
  {
    if peer in trust {
      OutcomeIff(Told(default, trust, m, peer, startedAt, clock), input, output, "");
    }
  }

  // ---------------------------------------------------------------- which questions are answered yes

  /** The peer's bucket when the connection starts asking. */
  function Synced(trust: Registry, m: Buckets, peer: NodeId, startedAt: real): Bucket
    requires peer in trust
  {
    SetLimitIn(m, peer, trust[peer].rateLimitPerMin, startedAt)[peer]
  }

  lemma {:induction false} AskingIsBefore(default: U32, m: Buckets, peer: NodeId, clock: nat -> real, n: nat, k: nat)
    requires peer in m && k <= n
    ensures |Questions(peer, clock, n)| == n
    ensures forall i: nat | i < n :: Questions(peer, clock, n)[i] == Attempt(peer, clock(i))
    ensures peer in AfterAsking(default, m, peer, clock, k)
    ensures AfterAsking(default, m, peer, clock, k)[peer] == TunedWindow.Before(m[peer], Questions(peer, clock, n), k)
  {
    QuestionsAt(peer, clock, n);
    if 0 < k {
      AskingIsBefore(default, m, peer, clock, n, k - 1);
    }
  }

  lemma {:induction false} QuestionsAt(peer: NodeId, clock: nat -> real, n: nat)
    ensures |Questions(peer, clock, n)| == n
    ensures forall i: nat | i < n :: Questions(peer, clock, n)[i] == Attempt(peer, clock(i))
  {
    if 0 < n {
      QuestionsAt(peer, clock, n - 1);
    }
  }

  /**
   The questions of a connection are answered by the window test at the rate of the trust entry: after the
   sync, question k is told yes exactly when every window of questions that ends at it has room for one more.
   */
  lemma ConnectionIsWindowTest(default: U32, trust: Registry, m: Buckets, peer: NodeId, startedAt: real,
                               clock: nat -> real, n: nat, k: nat)
    requires peer in trust && SoundBuckets(m) && k < n
    ensures |Questions(peer, clock, n)| == n
    ensures var b, own := Synced(trust, m, peer, startedAt), Questions(peer, clock, n);
            var ds := Outcomes(b, own);
            && TunedTo(m, b, peer, LimitOf(trust[peer].rateLimitPerMin), startedAt)
            && Told(default, trust, m, peer, startedAt, clock)(k) == ds[k]
            && (ds[k] <==> forall j: nat | j <= k :: Admitted(ds, j, k) as real + 1.0 <= Granted(b, own, j, k))
  {
    var m0 := SyncNodeLimit(trust, m, peer, startedAt);
    var b, own := Synced(trust, m, peer, startedAt), Questions(peer, clock, n);
    SyncApplies(trust, m, peer, startedAt);
    SyncedIsSound(m, b, peer, LimitOf(trust[peer].rateLimitPerMin), startedAt);
    AskingIsBefore(default, m0, peer, clock, n, k);
    TunedBucketIsWindowTest(b, own, k);
  }

  lemma SyncedIsSound(m: Buckets, b: Bucket, peer: NodeId, limit: real, now: real)
    requires SoundBuckets(m) && TunedTo(m, b, peer, limit, now) && 0.0 <= limit
    ensures Sound(b)
  {
    if peer in m {
      TimesNonNegative(Max(m[peer].last, now) - m[peer].last, m[peer].rate);
    }
  }

  /** The clock's latest reading among the start and the first n questions. */
  function Latest(startedAt: real, clock: nat -> real, n: nat): real {
    if n == 0 then startedAt else Max(Latest(startedAt, clock, n - 1), clock(n - 1))
  }

  lemma {:induction false} SteadyIncome(b: Bucket, peer: NodeId, clock: nat -> real, n: nat, k: nat)
    requires k < n && Sound(b)
    ensures |Questions(peer, clock, n)| == n
    ensures var own := Questions(peer, clock, n);
            && ClockAt(b, own, k) == Latest(b.last, clock, k + 1) && InForce(b, own, k) == b.capacity
            && Earned(b, own, k) == Times(b.rate, ClockAt(b, own, k) - ClockAt(b, own, 0))
  {
    QuestionsAt(peer, clock, n);
    var own := Questions(peer, clock, n);
    if k == 0 {
      assert Latest(b.last, clock, 0) == b.last;
    } else {
      SteadyIncome(b, peer, clock, n, k - 1);
      Distribute(b.rate, ClockAt(b, own, 0), ClockAt(b, own, k - 1));
      Distribute(b.rate, ClockAt(b, own, k - 1), ClockAt(b, own, k));
      Distribute(b.rate, ClockAt(b, own, 0), ClockAt(b, own, k));
    }
  }

  lemma {:induction false} AllAdmitted(ds: seq<bool>, k: nat)
    requires k <= |ds| && forall i: nat | i < k :: ds[i]
    ensures Admitted(ds, 0, k) == k
  {
    if 0 < k {
      AllAdmitted(ds, k - 1);
    }
  }

  /** Questions to a full bucket that are all granted fit its limit. */
  lemma GrantedFitTheLimit(b: Bucket, peer: NodeId, clock: nat -> real, yes: nat)
    requires Fresh(b) && 0 < yes && |Questions(peer, clock, yes)| == yes
    requires forall i: nat | i < yes :: Outcomes(b, Questions(peer, clock, yes))[i]
    ensures yes as real <= b.capacity + Times(b.rate, Latest(b.last, clock, yes) - Max(b.last, clock(0)))
  {
    var own := Questions(peer, clock, yes);
    QuestionsAt(peer, clock, yes);
    AllAdmitted(Outcomes(b, own), yes);
    TunedBucketKeepsEveryGrant(b, own);
    assert Admitted(Outcomes(b, own), 0, yes - 1 + 1) as real <= Granted(b, own, 0, yes - 1);
    FreshBurst(b, own);
    SteadyIncome(b, peer, clock, yes, yes - 1);
  }

  lemma YesWithinLimit(default: U32, trust: Registry, m: Buckets, peer: NodeId, startedAt: real,
                       clock: nat -> real, yes: nat)
    requires peer in trust && peer !in m && SoundBuckets(m) && 0 < yes
    requires forall i: nat | i < yes :: Told(default, trust, m, peer, startedAt, clock)(i)
    ensures var limit := LimitOf(trust[peer].rateLimitPerMin);
            yes as real <= limit + Times(limit / 60.0, Latest(startedAt, clock, yes) - Max(startedAt, clock(0)))
  {
    var b, own := Synced(trust, m, peer, startedAt), Questions(peer, clock, yes);
    QuestionsAt(peer, clock, yes);
    ConnectionIsWindowTest(default, trust, m, peer, startedAt, clock, yes, 0);
    forall i: nat | i < yes ensures Outcomes(b, own)[i] {
      ConnectionIsWindowTest(default, trust, m, peer, startedAt, clock, yes, i);
    }
    SyncedIsSound(m, b, peer, LimitOf(trust[peer].rateLimitPerMin), startedAt);
    GrantedFitTheLimit(b, peer, clock, yes);
  }

  lemma LongerSpanGrantsMore(limit: real, early: real, late: real, end: real)
    requires 0.0 <= limit && early <= late
    ensures Times(limit / 60.0, end - late) <= Times(limit / 60.0, end - early)
  {
    Distribute(limit / 60.0, late, end);
    Distribute(limit / 60.0, early, end);
    Distribute(limit / 60.0, early, late);
  }

  /**
   A connection of a trusted peer that is new to the limiter gets at most its entry's limit of yes answers, plus
   a sixtieth of it for every second that its clock advances.
   */
  lemma NewPeerWithinLimit(default: U32, trust: Registry, m: Buckets, peer: NodeId, input: seq<Arrival>,
                           output: seq<Write>, startedAt: real, clock: nat -> real)
    requires peer in trust && peer !in m && SoundBuckets(m)
    ensures var e := HandleSpec(default, trust, m, peer, input, output, startedAt, clock).0;
            var yes := e.ticks - (if e.outcome.RateLimited? then 1 else 0);
            var limit := LimitOf(trust[peer].rateLimitPerMin);
            && 0 <= yes && (yes == 0 || yes == 1 + e.offers)
            && yes as real <= limit + Times(limit / 60.0, Latest(startedAt, clock, yes) - startedAt)
  {
    var ok := Told(default, trust, m, peer, startedAt, clock);
    var yes := YesCount(ok, input, output);
    if 0 < yes {
      YesWithinLimit(default, trust, m, peer, startedAt, clock, yes);
      LongerSpanGrantsMore(LimitOf(trust[peer].rateLimitPerMin), startedAt, Max(startedAt, clock(0)),
                           Latest(startedAt, clock, yes));
    }
  }

  /** The yes answers of a trusted connection come first, one for the entry and one for each chunk offered. */
  lemma YesCount(ok: nat -> bool, input: seq<Arrival>, output: seq<Write>) returns (yes: nat)
    ensures var e := Admit(ok, input, output);
            && yes == e.ticks - (if e.outcome.RateLimited? then 1 else 0)
            && (yes == 0 || yes == 1 + e.offers)
    ensures forall i: nat | i < yes :: ok(i)
  {
    var e := Admit(ok, input, output);
    if ok(0) {
      PumpTokens(ok, input, output, 1);
      yes := 1 + e.offers;
      forall i: nat | i < yes ensures ok(i) {
        assert i == 0 || 1 <= i < 1 + e.offers;
      }
    } else {
      yes := 0;
    }
  }

  // ---------------------------------------------------------------- the logged duration

  /**
   The duration in the log: zero for a connection that was refused at the door, and otherwise at least the time
   from the start to each of the clock's readings, when the clock does not go back.
   */
  lemma DurationCoversTheRun(ok: nat -> bool, input: seq<Arrival>, output: seq<Write>, startedAt: real,
                             clock: nat -> real, i: nat)
    requires forall a: nat, b: nat | a <= b :: clock(a) <= clock(b)
    ensures var e := Admit(ok, input, output);
            var ms := LoggedMs(e, startedAt, clock);
            && (!ok(0) ==> ms == 0)
            && (ok(0) && i <= e.ticks && ms < U64_MAX ==> (clock(i) - startedAt) * 1000.0 < ms as real + 1.0)
            && (ok(0) && startedAt <= clock(e.ticks) ==> ms as real <= (clock(e.ticks) - startedAt) * 1000.0)
  {
    if ok(0) {
      PumpTokens(ok, input, output, 1);
    }
  }
}
