/**
 The replay store (src/nonce_store.rs:75-160).

 `Check` and `Cleanup` say what a call makes of the map of nonces; class `NonceStore` holds the
 map and the counters. The reference for a run is the full list of accepted checks.
 */
module NonceStores {
  import opened Numbers

  /** Sixteen bytes. */
  type Nonce = s: seq<U8> | |s| == 16 witness seq(16, _ => 0)

  type Seen = map<Nonce, I64>

  /** The window a store is built with: what was asked for if that is positive, else 60 seconds. */
  function Ttl(secs: I64): (ttl: I64)
    ensures 0 < ttl
    ensures 0 < secs ==> ttl == secs
    ensures secs <= 0 ==> ttl == 60
  {
    if secs > 0 then secs else 60
  }

  function Accepts(ttl: I64, m: Seen, nonce: Nonce, now: I64): bool {
    !(nonce in m && SaturatingSub(now, m[nonce]) < ttl)
  }

  function Check(ttl: I64, m: Seen, nonce: Nonce, now: I64): (Seen, bool) {
    if Accepts(ttl, m, nonce, now) then (m[nonce := now], true) else (m, false)
  }

  function Cleanup(ttl: I64, m: Seen, now: I64): Seen {
    map n | n in m && m[n] >= SaturatingSub(now, ttl) :: m[n]
  }

  /** Saturation never changes a decision: both tests agree with unbounded integers. */
  lemma SaturationIsInvisible(ttl: I64, now: I64, prior: I64)
    requires 0 < ttl
    ensures SaturatingSub(now, prior) < ttl <==> now - prior < ttl
    ensures prior >= SaturatingSub(now, ttl) <==> prior >= now - ttl
  {
  }

  /** Cleanup keeps, unchanged, exactly the entries that are not older than the window. */
  lemma CleanupExact(ttl: I64, m: Seen, now: I64, n: Nonce)
    requires 0 < ttl
    ensures n in Cleanup(ttl, m, now) <==> n in m && now - m[n] <= ttl
    ensures n in Cleanup(ttl, m, now) ==> Cleanup(ttl, m, now)[n] == m[n]
  {
  }

  // ---------------------------------------------------------------- runs and the full history

  datatype Op = CheckAt(nonce: Nonce, now: I64) | CleanupAt(now: I64)

  /** The store's answers, in order; a cleanup gives none. */
  function Answers(ttl: I64, m: Seen, ops: seq<Op>): seq<bool>
    decreases |ops|
  {
    if ops == [] then []
    else match ops[0]
      case CheckAt(n, now) => [Check(ttl, m, n, now).1] + Answers(ttl, Check(ttl, m, n, now).0, ops[1..])
      case CleanupAt(now) => Answers(ttl, Cleanup(ttl, m, now), ops[1..])
  }

  /** No accepted check of the nonce happened less than `ttl` ago. */
  predicate Fresh(ttl: I64, history: set<(Nonce, I64)>, nonce: Nonce, now: I64) {
    forall a | a in history && a.0 == nonce :: now - a.1 >= ttl
  }

  /** The answers of a store that never forgets: it keeps every accepted check. */
  function HistoryAnswers(ttl: I64, history: set<(Nonce, I64)>, ops: seq<Op>): seq<bool>
    decreases |ops|
  {
    if ops == [] then []
    else match ops[0]
      case CheckAt(n, now) =>
        var ok := Fresh(ttl, history, n, now);
        [ok] + HistoryAnswers(ttl, if ok then history + {(n, now)} else history, ops[1..])
      case CleanupAt(_) => HistoryAnswers(ttl, history, ops[1..])
  }

  /** What a cleanup removes. */
  function Removed(ttl: I64, m: Seen, now: I64): Seen {
    map n | n in m && n !in Cleanup(ttl, m, now) :: m[n]
  }

  /**
   Some check is of a nonce that a cleanup has removed, and is stamped less than `ttl` after the
   acceptance that was removed; `lost` holds what cleanups have removed so far.
   */
  ghost predicate Readmits(ttl: I64, m: Seen, lost: Seen, ops: seq<Op>)
    decreases |ops|
  {
    ops != [] &&
    match ops[0]
    case CheckAt(n, now) =>
      || (n !in m && n in lost && now - lost[n] < ttl)
      || Readmits(ttl, Check(ttl, m, n, now).0, lost, ops[1..])
    case CleanupAt(now) => Readmits(ttl, Cleanup(ttl, m, now), lost + Removed(ttl, m, now), ops[1..])
  }

  ghost predicate NeverReadmits(ttl: I64, m: Seen, ops: seq<Op>) {
    !Readmits(ttl, m, map[], ops)
  }

  /** The latest acceptance of a nonce, in the map or removed from it. */
  function Latest(m: Seen, lost: Seen, n: Nonce): I64
    requires n in m || n in lost
  {
    if n in m then m[n] else lost[n]
  }

  /** Map and removed entries together know the latest acceptance of every nonce in the history. */
  ghost predicate Carries(m: Seen, lost: Seen, history: set<(Nonce, I64)>) {
    && (forall n | n in m || n in lost :: (n, Latest(m, lost, n)) in history)
    && (forall a | a in history :: (a.0 in m || a.0 in lost) && a.1 <= Latest(m, lost, a.0))
  }

  lemma CheckKeepsCarried(ttl: I64, m: Seen, lost: Seen, history: set<(Nonce, I64)>, n: Nonce, now: I64)
    requires 0 < ttl && Carries(m, lost, history)
    ensures n !in m && n in lost && now - lost[n] < ttl ==> Accepts(ttl, m, n, now) && !Fresh(ttl, history, n, now)
    ensures !(n !in m && n in lost && now - lost[n] < ttl) ==>
              var ok := Fresh(ttl, history, n, now);
              && Accepts(ttl, m, n, now) == ok
              && Carries(Check(ttl, m, n, now).0, lost, if ok then history + {(n, now)} else history)
  {
    if n in m || n in lost {
      assert (n, Latest(m, lost, n)) in history;
    }
  }

  lemma CleanupKeepsCarried(ttl: I64, m: Seen, lost: Seen, history: set<(Nonce, I64)>, now: I64)
    requires Carries(m, lost, history)
    ensures Carries(Cleanup(ttl, m, now), lost + Removed(ttl, m, now), history)
  {
    var kept, gone := Cleanup(ttl, m, now), lost + Removed(ttl, m, now);
    assert forall n | n in m || n in lost :: (n in kept || n in gone) && Latest(kept, gone, n) == Latest(m, lost, n);
  }

  lemma {:induction false} RunRefinesHistoryIff(ttl: I64, m: Seen, lost: Seen, history: set<(Nonce, I64)>, ops: seq<Op>)
    requires 0 < ttl && Carries(m, lost, history)
    ensures Answers(ttl, m, ops) == HistoryAnswers(ttl, history, ops) <==> !Readmits(ttl, m, lost, ops)
    decreases |ops|
  {
    if ops != [] {
      match ops[0]
      case CheckAt(n, now) =>
        CheckKeepsCarried(ttl, m, lost, history, n, now);
        var ok := Fresh(ttl, history, n, now);
        var history' := if ok then history + {(n, now)} else history;
        var answers, full := Answers(ttl, m, ops), HistoryAnswers(ttl, history, ops);
        assert answers[0] == Accepts(ttl, m, n, now) && full[0] == ok;
        if !(n !in m && n in lost && now - lost[n] < ttl) {
          RunRefinesHistoryIff(ttl, Check(ttl, m, n, now).0, lost, history', ops[1..]);
          assert answers == [ok] + Answers(ttl, Check(ttl, m, n, now).0, ops[1..]);
          SameTails(ok, Answers(ttl, Check(ttl, m, n, now).0, ops[1..]), HistoryAnswers(ttl, history', ops[1..]));
        }
      case CleanupAt(now) =>
        CleanupKeepsCarried(ttl, m, lost, history, now);
        RunRefinesHistoryIff(ttl, Cleanup(ttl, m, now), lost + Removed(ttl, m, now), history, ops[1..]);
    }
  }

  lemma SameTails(head: bool, a: seq<bool>, b: seq<bool>)
    ensures [head] + a == [head] + b <==> a == b
  {
    assert ([head] + a)[1..] == a && ([head] + b)[1..] == b;
  }

  /**
   The store accepts a nonce exactly when no accepted check of it, in this run or loaded at the start, is
   less than `ttl` old, whatever cleanups happen in between and however the calls are stamped, if and only
   if no check comes less than `ttl` after an acceptance that a cleanup has removed.
   */
  lemma StoreIsFullHistoryIff(ttl: I64, m: Seen, ops: seq<Op>)
    requires 0 < ttl
    ensures Answers(ttl, m, ops) == HistoryAnswers(ttl, m.Items, ops) <==> NeverReadmits(ttl, m, ops)
  {
    RunRefinesHistoryIff(ttl, m, map[], m.Items, ops);
  }

  /** No check is stamped earlier than a cleanup that precedes it; checks among themselves may be in any order. */
  ghost predicate ChecksFollowCleanups(ops: seq<Op>) {
    forall i: nat, j: nat | i < j < |ops| && ops[i].CleanupAt? && ops[j].CheckAt? :: ops[i].now <= ops[j].now
  }

  ghost predicate ChecksFrom(ops: seq<Op>, now: int) {
    forall i: nat | i < |ops| && ops[i].CheckAt? :: now <= ops[i].now
  }

  lemma {:induction false} OrderedNeverReadmits(ttl: I64, m: Seen, lost: Seen, ops: seq<Op>, now: int)
    requires 0 < ttl && ChecksFollowCleanups(ops) && ChecksFrom(ops, now) && forall n | n in lost :: now - lost[n] >= ttl
    ensures !Readmits(ttl, m, lost, ops)
    decreases |ops|
  {
    if ops != [] {
      var rest := ops[1..];
      assert forall i: nat | i < |rest| :: rest[i] == ops[i + 1];
      match ops[0]
      case CheckAt(n, t) =>
        assert now <= ops[0].now;
        OrderedNeverReadmits(ttl, Check(ttl, m, n, t).0, lost, rest, now);
      case CleanupAt(t) =>
        assert forall i: nat | i < |rest| && rest[i].CheckAt? :: ops[0].now <= ops[i + 1].now;
        OrderedNeverReadmits(ttl, Cleanup(ttl, m, t), lost + Removed(ttl, m, t), rest, if now <= t then t else now);
    }
  }

  /** So it does whenever no check is stamped earlier than a cleanup before it, as under a clock that does not go back. */
  lemma StoreIsFullHistory(ttl: I64, m: Seen, ops: seq<Op>)
    requires 0 < ttl && ChecksFollowCleanups(ops)
    ensures NeverReadmits(ttl, m, ops) && Answers(ttl, m, ops) == HistoryAnswers(ttl, m.Items, ops)
  {
    OrderedNeverReadmits(ttl, m, map[], ops, I64_MIN);
    StoreIsFullHistoryIff(ttl, m, ops);
  }

  /** A cleanup stamped later than a check that follows it makes the store accept a nonce again too early. */
  lemma EarlyCleanupReadmits(n: Nonce)
    ensures var ops := [CleanupAt(100), CheckAt(n, 60)];
            && Answers(30, map[n := 50], ops) == [true]
            && HistoryAnswers(30, map[n := 50].Items, ops) == [false]
  {
    var m: Seen := map[n := 50];
    var ops := [CleanupAt(100), CheckAt(n, 60)];
    assert Cleanup(30, m, 100) == map[];
    assert ops[1..] == [CheckAt(n, 60)] && ops[1..][1..] == [];
    assert Answers(30, map[n := 60], ops[1..][1..]) == [];
    assert (n, 50) in m.Items;
    assert HistoryAnswers(30, m.Items, ops[1..][1..]) == [];
  }

  /**
   The replay law of a store as it is built for `secs` seconds: it accepts a nonce exactly when no accepted or
   loaded check of it is less than `secs` old, or less than 60 if `secs` is not positive.
   */
  lemma BuiltStoreKeepsItsWindow(secs: I64, loaded: Seen, ops: seq<Op>)
    ensures var window := if 0 < secs then secs else 60;
            && (Answers(Ttl(secs), loaded, ops) == HistoryAnswers(window, loaded.Items, ops)
                <==> NeverReadmits(window, loaded, ops))
            && (ChecksFollowCleanups(ops) ==> NeverReadmits(window, loaded, ops))
  {
    StoreIsFullHistoryIff(Ttl(secs), loaded, ops);
    if ChecksFollowCleanups(ops) {
      StoreIsFullHistory(Ttl(secs), loaded, ops);
    }
  }

  function ChecksOf(ops: seq<Op>): (checks: seq<Op>)
    ensures forall i: nat | i < |checks| :: checks[i].CheckAt?
    decreases |ops|
  {
    if ops == [] then [] else (if ops[0].CheckAt? then [ops[0]] else []) + ChecksOf(ops[1..])
  }

  lemma {:induction false} HistoryIgnoresCleanups(ttl: I64, history: set<(Nonce, I64)>, ops: seq<Op>)
    ensures HistoryAnswers(ttl, history, ops) == HistoryAnswers(ttl, history, ChecksOf(ops))
    decreases |ops|
  {
    if ops != [] {
      match ops[0]
      case CheckAt(n, now) =>
        assert ([ops[0]] + ChecksOf(ops[1..]))[1..] == ChecksOf(ops[1..]);
        var ok := Fresh(ttl, history, n, now);
        HistoryIgnoresCleanups(ttl, if ok then history + {(n, now)} else history, ops[1..]);
      case CleanupAt(_) =>
        assert [] + ChecksOf(ops[1..]) == ChecksOf(ops[1..]);
        HistoryIgnoresCleanups(ttl, history, ops[1..]);
    }
  }

  /**
   Cleanup is invisible, in that a run without its cleanups gets the same answers, exactly when it makes nothing
   acceptable too early.
   */
  lemma CleanupIsInvisibleIff(ttl: I64, m: Seen, ops: seq<Op>)
    requires 0 < ttl
    ensures Answers(ttl, m, ops) == Answers(ttl, m, ChecksOf(ops)) <==> NeverReadmits(ttl, m, ops)
  {
    StoreIsFullHistoryIff(ttl, m, ops);
    HistoryIgnoresCleanups(ttl, m.Items, ops);
    StoreIsFullHistory(ttl, m, ChecksOf(ops));
  }

  /** So it is whenever no check is stamped earlier than a cleanup before it. */
  lemma CleanupIsInvisible(ttl: I64, m: Seen, ops: seq<Op>)
    requires 0 < ttl && ChecksFollowCleanups(ops)
    ensures Answers(ttl, m, ops) == Answers(ttl, m, ChecksOf(ops))
  {
    StoreIsFullHistory(ttl, m, ops);
    CleanupIsInvisibleIff(ttl, m, ops);
  }

  /** In a run of checks only, answer i is about check i, so two acceptances of a nonce are `ttl` apart. */
  lemma AcceptancesAreApart(ttl: I64, m: Seen, ops: seq<Op>, i: nat, j: nat)
    requires 0 < ttl && NeverReadmits(ttl, m, ops)
    requires i < j < |ChecksOf(ops)| && ChecksOf(ops)[i].nonce == ChecksOf(ops)[j].nonce
    ensures var answers := Answers(ttl, m, ops);
            && |answers| == |ChecksOf(ops)|
            && (answers[i] && answers[j] ==> ChecksOf(ops)[j].now - ChecksOf(ops)[i].now >= ttl)
  {
    StoreIsFullHistoryIff(ttl, m, ops);
    HistoryIgnoresCleanups(ttl, m.Items, ops);
    HistoryApart(ttl, m.Items, ChecksOf(ops), i, j);
  }

  lemma {:induction false} HistoryApart(ttl: I64, history: set<(Nonce, I64)>, checks: seq<Op>, i: nat, j: nat)
    requires forall k: nat | k < |checks| :: checks[k].CheckAt?
    requires i < j < |checks| && checks[i].nonce == checks[j].nonce
    ensures var answers := HistoryAnswers(ttl, history, checks);
            |answers| == |checks| && (answers[i] && answers[j] ==> checks[j].now - checks[i].now >= ttl)
    decreases |checks|
  {
    var n, now, rest := checks[0].nonce, checks[0].now, checks[1..];
    var ok := Fresh(ttl, history, n, now);
    var history' := if ok then history + {(n, now)} else history;
    if 0 < i {
      HistoryApart(ttl, history', rest, i - 1, j - 1);
    } else {
      HistoryKeeps(ttl, history', rest, j - 1, (n, now));
    }
  }

  /** An acceptance once in the history bounds every later acceptance of the nonce. */
  lemma {:induction false} HistoryKeeps(ttl: I64, history: set<(Nonce, I64)>, checks: seq<Op>, j: nat, a: (Nonce, I64))
    requires forall k: nat | k < |checks| :: checks[k].CheckAt?
    requires j < |checks| && checks[j].nonce == a.0
    ensures var answers := HistoryAnswers(ttl, history, checks);
            |answers| == |checks| && (a in history && answers[j] ==> checks[j].now - a.1 >= ttl)
    decreases |checks|
  {
    var n, now, rest := checks[0].nonce, checks[0].now, checks[1..];
    var ok := Fresh(ttl, history, n, now);
    var history' := if ok then history + {(n, now)} else history;
    if 0 < j {
      HistoryKeeps(ttl, history', rest, j - 1, a);
    } else {
      HistoryLength(ttl, history', rest);
    }
  }

  lemma {:induction false} HistoryLength(ttl: I64, history: set<(Nonce, I64)>, checks: seq<Op>)
    requires forall k: nat | k < |checks| :: checks[k].CheckAt?
    ensures |HistoryAnswers(ttl, history, checks)| == |checks|
    decreases |checks|
  {
    if checks != [] {
      var ok := Fresh(ttl, history, checks[0].nonce, checks[0].now);
      HistoryLength(ttl, if ok then history + {(checks[0].nonce, checks[0].now)} else history, checks[1..]);
    }
  }

  // ---------------------------------------------------------------- the two acceptance counters

  /** What a run adds to `total_accepted` and to `total_accepted_after_ttl`. */
  function Accepted(ttl: I64, m: Seen, ops: seq<Op>): (nat, nat)
    decreases |ops|
  {
    if ops == [] then (0, 0)
    else match ops[0]
      case CheckAt(n, now) =>
        var (fresh', again) := Accepted(ttl, Check(ttl, m, n, now).0, ops[1..]);
        if !Accepts(ttl, m, n, now) then (fresh', again)
        else if n in m then (fresh', again + 1)
        else (fresh' + 1, again)
      case CleanupAt(now) => Accepted(ttl, Cleanup(ttl, m, now), ops[1..])
  }

  function Yes(answers: seq<bool>): nat
    decreases |answers|
  {
    if answers == [] then 0 else (if answers[0] then 1 else 0) + Yes(answers[1..])
  }

  lemma {:induction false} AcceptedCountsYes(ttl: I64, m: Seen, ops: seq<Op>)
    ensures Accepted(ttl, m, ops).0 + Accepted(ttl, m, ops).1 == Yes(Answers(ttl, m, ops))
    decreases |ops|
  {
    if ops != [] {
      match ops[0]
      case CheckAt(n, now) =>
        var (m', ok) := Check(ttl, m, n, now);
        AcceptedCountsYes(ttl, m', ops[1..]);
        assert ([ok] + Answers(ttl, m', ops[1..]))[1..] == Answers(ttl, m', ops[1..]);
      case CleanupAt(now) => AcceptedCountsYes(ttl, Cleanup(ttl, m, now), ops[1..]);
    }
  }

  /** Leaving out the cleanups keeps the sum of the two acceptance counters. */
  lemma CleanupKeepsAcceptedTotal(ttl: I64, m: Seen, ops: seq<Op>)
    requires 0 < ttl && NeverReadmits(ttl, m, ops)
    ensures var with, without := Accepted(ttl, m, ops), Accepted(ttl, m, ChecksOf(ops));
            with.0 + with.1 == without.0 + without.1
  {
    CleanupIsInvisibleIff(ttl, m, ops);
    AcceptedCountsYes(ttl, m, ops);
    AcceptedCountsYes(ttl, m, ChecksOf(ops));
  }

  /** The split between the two counters is not kept: a cleanup makes an old nonce count as new. */
  lemma CleanupMovesTheSplit(n: Nonce)
    ensures var ops := [CleanupAt(100), CheckAt(n, 100)];
            Accepted(30, map[n := 0], ops) == (1, 0) && Accepted(30, map[n := 0], ChecksOf(ops)) == (0, 1)
  {
    var ops := [CleanupAt(100), CheckAt(n, 100)];
    assert Cleanup(30, map[n := 0], 100) == map[];
    assert ops[1..] == [CheckAt(n, 100)] && ops[1..][1..] == [];
    assert ChecksOf(ops[1..][1..]) == [];
    assert ChecksOf(ops) == [CheckAt(n, 100)];
    assert Accepted(30, map[n := 100], []) == (0, 0);
  }

  ghost predicate Checks(nonces: set<Nonce>, ops: seq<Op>) {
    exists i: nat | i < |ops| :: ops[i].CheckAt? && ops[i].nonce in nonces
  }

  /** Some cleanup of the run removes a nonce that is checked again later. */
  ghost predicate Forgets(ttl: I64, m: Seen, ops: seq<Op>)
    decreases |ops|
  {
    ops != [] &&
    match ops[0]
    case CheckAt(n, now) => Forgets(ttl, Check(ttl, m, n, now).0, ops[1..])
    case CleanupAt(now) =>
      var kept := Cleanup(ttl, m, now);
      Checks(m.Keys - kept.Keys, ops[1..]) || Forgets(ttl, kept, ops[1..])
  }

  lemma ChecksHead(nonces: set<Nonce>, ops: seq<Op>)
    requires ops != []
    ensures Checks(nonces, ops) <==> (ops[0].CheckAt? && ops[0].nonce in nonces) || Checks(nonces, ops[1..])
  {
    assert forall i: nat | i < |ops[1..]| :: ops[1..][i] == ops[i + 1];
    if Checks(nonces, ops) {
      var i: nat :| i < |ops| && ops[i].CheckAt? && ops[i].nonce in nonces;
      assert 0 < i ==> ops[1..][i - 1] == ops[i];
    }
  }

  lemma ChecksEither(a: set<Nonce>, b: set<Nonce>, ops: seq<Op>)
    ensures Checks(a + b, ops) <==> Checks(a, ops) || Checks(b, ops)
  {
  }

  /** What the unswept map holds and the swept one does not. */
  ghost function Missing(swept: Seen, unswept: Seen): set<Nonce> {
    unswept.Keys - swept.Keys
  }

  lemma CheckFillsIn(ttl: I64, swept: Seen, unswept: Seen, n: Nonce, t: I64)
    requires swept.Keys <= unswept.Keys
    ensures var swept', unswept' := Check(ttl, swept, n, t).0, Check(ttl, unswept, n, t).0;
            swept'.Keys <= unswept'.Keys && Missing(swept', unswept') == Missing(swept, unswept) - {n}
  {
  }

  lemma CleanupWidens(ttl: I64, m: Seen, more: Seen, t: I64)
    requires m.Keys <= more.Keys
    ensures var kept := Cleanup(ttl, m, t);
            kept.Keys <= more.Keys && Missing(kept, more) == Missing(m, more) + (m.Keys - kept.Keys)
  {
  }

  /** A check counts as new exactly when its nonce is not in the map. */
  lemma NewCount(ttl: I64, m: Seen, op: Op, rest: seq<Op>)
    requires op.CheckAt?
    ensures Accepted(ttl, m, [op] + rest).0
         == (if op.nonce in m then 0 else 1) + Accepted(ttl, Check(ttl, m, op.nonce, op.now).0, rest).0
  {
    assert ([op] + rest)[1..] == rest;
  }

  /** Sweeping can only add to the first counter, and does so just when a missing nonce comes back. */
  lemma {:induction false} SweptCountsMoreNew(ttl: I64, swept: Seen, unswept: Seen, ops: seq<Op>)
    requires swept.Keys <= unswept.Keys
    ensures var with, without := Accepted(ttl, swept, ops).0, Accepted(ttl, unswept, ChecksOf(ops)).0;
            && without <= with
            && (with == without <==> !Checks(Missing(swept, unswept), ops) && !Forgets(ttl, swept, ops))
    decreases |ops|
  {
    if ops != [] {
      var op, rest, missing := ops[0], ops[1..], Missing(swept, unswept);
      ChecksHead(missing, ops);
      match op
      case CheckAt(n, t) =>
        assert ops == [op] + rest;
        NewCount(ttl, swept, op, rest);
        NewCount(ttl, unswept, op, ChecksOf(rest));
        CheckFillsIn(ttl, swept, unswept, n, t);
        SweptCountsMoreNew(ttl, Check(ttl, swept, n, t).0, Check(ttl, unswept, n, t).0, rest);
        assert n !in missing ==> missing - {n} == missing;
      case CleanupAt(t) =>
        assert [] + ChecksOf(rest) == ChecksOf(rest);
        var kept := Cleanup(ttl, swept, t);
        CleanupWidens(ttl, swept, unswept, t);
        SweptCountsMoreNew(ttl, kept, unswept, rest);
        ChecksEither(missing, swept.Keys - kept.Keys, rest);
    }
  }

  /** A run that checks no removed nonce again readmits none. */
  lemma {:induction false} ForgettingComesFirst(ttl: I64, m: Seen, lost: Seen, ops: seq<Op>)
    requires !Checks(Missing(m, lost), ops) && !Forgets(ttl, m, ops)
    ensures !Readmits(ttl, m, lost, ops)
    decreases |ops|
  {
    if ops != [] {
      var rest, missing := ops[1..], Missing(m, lost);
      ChecksHead(missing, ops);
      match ops[0]
      case CheckAt(n, t) =>
        assert Missing(Check(ttl, m, n, t).0, lost) == missing;
        ForgettingComesFirst(ttl, Check(ttl, m, n, t).0, lost, rest);
      case CleanupAt(t) =>
        var kept, lost' := Cleanup(ttl, m, t), lost + Removed(ttl, m, t);
        assert Missing(kept, lost') == missing + (m.Keys - kept.Keys);
        ChecksEither(missing, m.Keys - kept.Keys, rest);
        ForgettingComesFirst(ttl, kept, lost', rest);
    }
  }

  /** Both counters are kept exactly when no cleanup removes a nonce that is checked again later, however the calls are stamped. */
  lemma CleanupKeepsSplitIff(ttl: I64, m: Seen, ops: seq<Op>)
    requires 0 < ttl
    ensures Accepted(ttl, m, ops) == Accepted(ttl, m, ChecksOf(ops)) <==> !Forgets(ttl, m, ops)
  {
    SweptCountsMoreNew(ttl, m, m, ops);
    assert Missing(m, m) == {} && Missing(m, map[]) == {};
    if !Forgets(ttl, m, ops) {
      ForgettingComesFirst(ttl, m, map[], ops);
      CleanupKeepsAcceptedTotal(ttl, m, ops);
    }
  }

  // ---------------------------------------------------------------- the store object

  class NonceStore {
    var seen: Seen
    const ttlSecs: I64
    var totalCheckCalls: nat
    var totalAccepted: nat
    var totalRejectedReplay: nat
    var totalAcceptedAfterTtl: nat

    constructor (secs: I64, loaded: Seen)
      ensures seen == loaded && ttlSecs == if 0 < secs then secs else 60
      ensures totalCheckCalls == totalAccepted == totalRejectedReplay == totalAcceptedAfterTtl == 0
    {
      seen, ttlSecs := loaded, Ttl(secs);
      totalCheckCalls, totalAccepted, totalRejectedReplay, totalAcceptedAfterTtl := 0, 0, 0, 0;
    }

    method CheckAndRecord(nonce: Nonce, now: I64) returns (accepted: bool)
      modifies this
      ensures (seen, accepted) == Check(ttlSecs, old(seen), nonce, now)
      ensures 0 < ttlSecs ==> (accepted <==> nonce in old(seen) ==> now - old(seen)[nonce] >= ttlSecs)
      ensures seen == if accepted then old(seen)[nonce := now] else old(seen)
      ensures totalCheckCalls == old(totalCheckCalls) + 1
      ensures totalRejectedReplay == old(totalRejectedReplay) + (if accepted then 0 else 1)
      ensures totalAccepted == old(totalAccepted) + (if accepted && nonce !in old(seen) then 1 else 0)
      ensures totalAcceptedAfterTtl == old(totalAcceptedAfterTtl) + (if accepted && nonce in old(seen) then 1 else 0)
      ensures totalAccepted - |seen| == old(totalAccepted) - old(|seen|)
    {
      totalCheckCalls := totalCheckCalls + 1;
      if nonce in seen && SaturatingSub(now, seen[nonce]) < ttlSecs {
        totalRejectedReplay := totalRejectedReplay + 1;
        return false;
      }
      if nonce in seen {
        totalAcceptedAfterTtl := totalAcceptedAfterTtl + 1;
        assert seen[nonce := now].Keys == seen.Keys;
      } else {
        totalAccepted := totalAccepted + 1;
      }
      seen := seen[nonce := now];
      return true;
    }

    method CleanupExpired(now: I64) returns (removed: nat)
      modifies this`seen
      ensures seen == Cleanup(ttlSecs, old(seen), now)
      ensures 0 < ttlSecs ==> forall n :: n in seen <==> n in old(seen) && now - old(seen)[n] <= ttlSecs
      ensures forall n | n in seen :: seen[n] == old(seen)[n]
      ensures |seen| + removed == old(|seen|)
    {
      var before := |seen|;
      assert Cleanup(ttlSecs, seen, now).Keys <= seen.Keys;
      SmallerMap(Cleanup(ttlSecs, seen, now), seen);
      seen := Cleanup(ttlSecs, seen, now);
      removed := before - |seen|;
    }
  }

  lemma SmallerMap(a: Seen, b: Seen)
    requires a.Keys <= b.Keys
    ensures |a| <= |b|
  {
    assert b.Keys == a.Keys + (b.Keys - a.Keys);
    assert |a.Keys| == |a| && |b.Keys| == |b|;
  }
}
