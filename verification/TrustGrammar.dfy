/**
 What the trust file's parser accepts and what it refuses (src/trust.rs:229-276), told from the text alone.

 A line is looked at without the white space around it. `Says` gives, for each possible answer, the lines
 that get it; the parser gives exactly these, and a text is refused for its first refused line.
 */
module TrustGrammar {
  import opened Wrappers
  import opened Nodes
  import opened Numbers
  import opened Text
  import opened TrustStores
  import opened TrustText

  /** Neither blank nor a comment. */
  predicate Speaks(t: string) {
    t != "" && t[0] != '#'
  }

  ghost predicate InQuotes(s: string, inside: string) {
    s == ['"'] + inside + ['"']
  }

  /** `lhs = "payload"`, cut at the first equals sign. */
  ghost predicate Assigns(t: string, lhs: string, rhs: string, payload: string) {
    CutsAt(t, '=', lhs, rhs) && InQuotes(Trim(rhs), payload)
  }

  /** `lhs = "name:rate"`, with the name cut off at the first colon. */
  ghost predicate Names(t: string, lhs: string, rhs: string, payload: string, name: string, rate: string) {
    Assigns(t, lhs, rhs, payload) && CutsAt(payload, ':', name, rate)
  }

  ghost predicate IsU32(s: string) {
    exists n: U32 :: ReadsAs(s, n)
  }

  /** An optional plus and a numeral of at most 32 bits. */
  ghost predicate ReadsAs(s: string, n: U32) {
    Numeral(if s != "" && s[0] == '+' then s[1..] else s, n)
  }

  /** The line gets the answer r. */
  ghost predicate Says(valid: string -> bool, line: string, r: Result<Option<Issuer>, Reason>) {
    var t := Trim(line);
    match r
    case Ok(None) => !Speaks(t)
    case Err(NoEquals) => Speaks(t) && '=' !in t
    case Err(NotQuoted) =>
      Speaks(t) && exists lhs, rhs :: CutsAt(t, '=', lhs, rhs) && forall payload :: !InQuotes(Trim(rhs), payload)
    case Err(NoColon) =>
      Speaks(t) && exists lhs, rhs, payload :: Assigns(t, lhs, rhs, payload) && ':' !in payload
    case Err(BadRate) =>
      Speaks(t) && exists lhs, rhs, payload, name, rate ::
        Names(t, lhs, rhs, payload, name, rate) && !IsU32(Trim(rate))
    case Err(BadNodeId) =>
      Speaks(t) && exists lhs, rhs, payload, name, rate ::
        Names(t, lhs, rhs, payload, name, rate) && IsU32(Trim(rate)) && !valid(Trim(lhs))
    case Ok(Some(e)) =>
      Speaks(t) && exists lhs, rhs, payload, name, rate ::
        && Names(t, lhs, rhs, payload, name, rate)
        && ReadsAs(Trim(rate), e.1.rateLimitPerMin) && valid(Trim(lhs))
        && e.0 == Trim(lhs) && e.1.displayName == Trim(name) && e.1.addedAtUnix == 0
  }

  lemma QuotesUnquote(s: string, inside: string)
    ensures InQuotes(s, inside) <==> Unquote(s) == Some(inside)
  {
    if InQuotes(s, inside) {
      assert s[1..|s| - 1] == inside;
    }
    if Unquote(s) == Some(inside) {
      assert s == ['"'] + s[1..|s| - 1] + ['"'];
    }
  }

  lemma RateReads(s: string)
    ensures ParseU32(s).Some? <==> IsU32(s)
    ensures forall n: U32 :: ReadsAs(s, n) <==> ParseU32(s) == Some(n)
  {
    forall n: U32 ensures ReadsAs(s, n) <==> ParseU32(s) == Some(n) {
      ParseU32Exact(s, n);
    }
    if ParseU32(s).Some? {
      assert ReadsAs(s, ParseU32(s).value);
    }
  }

  lemma AssignsIff(t: string, lhs: string, rhs: string, payload: string)
    ensures Assigns(t, lhs, rhs, payload)
       <==> SplitOnce(t, '=') == Some((lhs, rhs)) && Unquote(Trim(rhs)) == Some(payload)
  {
    CutIsSplit(t, '=', lhs, rhs);
    QuotesUnquote(Trim(rhs), payload);
  }

  lemma NamesIff(t: string, lhs: string, rhs: string, payload: string, name: string, rate: string)
    ensures Names(t, lhs, rhs, payload, name, rate)
       <==> && SplitOnce(t, '=') == Some((lhs, rhs)) && Unquote(Trim(rhs)) == Some(payload)
            && SplitOnce(payload, ':') == Some((name, rate))
  {
    AssignsIff(t, lhs, rhs, payload);
    CutIsSplit(payload, ':', name, rate);
  }

  /** The parser's answer is one that the line gets. */
  lemma AnswerIsSaid(valid: string -> bool, line: string)
    ensures Says(valid, line, ParseLine(valid, line))
  {
    var t := Trim(line);
    if Speaks(t) && '=' in t {
      var (lhs, rhs) := SplitOnce(t, '=').value;
      CutIsSplit(t, '=', lhs, rhs);
      if Unquote(Trim(rhs)).None? {
        forall payload ensures !InQuotes(Trim(rhs), payload) {
          QuotesUnquote(Trim(rhs), payload);
        }
      } else {
        QuotedIsSaid(valid, line, t, lhs, rhs, Unquote(Trim(rhs)).value);
      }
    }
  }

  lemma QuotedIsSaid(valid: string -> bool, line: string, t: string, lhs: string, rhs: string, payload: string)
    requires t == Trim(line) && Speaks(t) && SplitOnce(t, '=') == Some((lhs, rhs)) && Unquote(Trim(rhs)) == Some(payload)
    ensures Says(valid, line, ParseLine(valid, line))
  {
    AssignsIff(t, lhs, rhs, payload);
    if ':' in payload {
      var (name, rate) := SplitOnce(payload, ':').value;
      NamesIff(t, lhs, rhs, payload, name, rate);
      RateReads(Trim(rate));
    }
  }

  lemma NamedLine(valid: string -> bool, line: string, lhs: string, rhs: string, payload: string, name: string, rate: string)
    requires Speaks(Trim(line)) && Names(Trim(line), lhs, rhs, payload, name, rate)
    ensures ParseLine(valid, line)
         == match ParseU32(Trim(rate))
            case None => Err(BadRate)
            case Some(n) =>
              if !valid(Trim(lhs)) then Err(BadNodeId) else Ok(Some((Trim(lhs), TrustEntry(Trim(name), 0, n))))
  {
    NamesIff(Trim(line), lhs, rhs, payload, name, rate);
  }

  /** And a line gets no other answer. */
  lemma SaidIsAnswer(valid: string -> bool, line: string, r: Result<Option<Issuer>, Reason>)
    requires Says(valid, line, r)
    ensures ParseLine(valid, line) == r
  {
    var t := Trim(line);
    match r
    case Ok(None) =>
    case Err(NoEquals) =>
    case Err(NotQuoted) =>
      var lhs, rhs :| CutsAt(t, '=', lhs, rhs) && forall payload :: !InQuotes(Trim(rhs), payload);
      CutIsSplit(t, '=', lhs, rhs);
      if Unquote(Trim(rhs)).Some? {
        QuotesUnquote(Trim(rhs), Unquote(Trim(rhs)).value);
      }
    case Err(NoColon) =>
      var lhs, rhs, payload :| Assigns(t, lhs, rhs, payload) && ':' !in payload;
      AssignsIff(t, lhs, rhs, payload);
    case Err(BadRate) =>
      var lhs, rhs, payload, name, rate :| Names(t, lhs, rhs, payload, name, rate) && !IsU32(Trim(rate));
      NamedLine(valid, line, lhs, rhs, payload, name, rate);
      RateReads(Trim(rate));
    case Err(BadNodeId) =>
      var lhs, rhs, payload, name, rate :|
        Names(t, lhs, rhs, payload, name, rate) && IsU32(Trim(rate)) && !valid(Trim(lhs));
      NamedLine(valid, line, lhs, rhs, payload, name, rate);
      RateReads(Trim(rate));
    case Ok(Some(e)) => SaidEntryIsAnswer(valid, line, e);
  }

  lemma SaidEntryIsAnswer(valid: string -> bool, line: string, e: Issuer)
    requires Says(valid, line, Ok(Some(e)))
    ensures ParseLine(valid, line) == Ok(Some(e))
  {
    var lhs, rhs, payload, name, rate :|
      && Names(Trim(line), lhs, rhs, payload, name, rate)
      && ReadsAs(Trim(rate), e.1.rateLimitPerMin) && valid(Trim(lhs))
      && e.0 == Trim(lhs) && e.1.displayName == Trim(name) && e.1.addedAtUnix == 0;
    NamedLine(valid, line, lhs, rhs, payload, name, rate);
    ParseU32Exact(Trim(rate), e.1.rateLimitPerMin);
    assert e == (e.0, TrustEntry(e.1.displayName, e.1.addedAtUnix, e.1.rateLimitPerMin));
  }

  /** Each answer, acceptance, silence or refusal, is given to exactly the lines that `Says` names. */
  lemma LineAnswerIff(valid: string -> bool, line: string, r: Result<Option<Issuer>, Reason>)
    ensures ParseLine(valid, line) == r <==> Says(valid, line, r)
  {
    AnswerIsSaid(valid, line);
    if Says(valid, line, r) {
      SaidIsAnswer(valid, line, r);
    }
  }

  // ---------------------------------------------------------------- whole texts

  ghost predicate RefusedFor(valid: string -> bool, line: string, reason: Reason) {
    Says(valid, line, Err(reason))
  }

  ghost predicate Refused(valid: string -> bool, line: string) {
    exists reason :: RefusedFor(valid, line, reason)
  }

  lemma RefusedIff(valid: string -> bool, line: string)
    ensures Refused(valid, line) <==> ParseLine(valid, line).Err?
  {
    AnswerIsSaid(valid, line);
    if reason :| RefusedFor(valid, line, reason) {
      SaidIsAnswer(valid, line, Err(reason));
    }
    assert ParseLine(valid, line).Err? ==> RefusedFor(valid, line, ParseLine(valid, line).error);
  }

  /** Line n, counted from one, is the first that is refused, and this is why. */
  ghost predicate FirstRefused(valid: string -> bool, lines: seq<string>, n: nat, reason: Reason) {
    && 1 <= n <= |lines| && RefusedFor(valid, lines[n - 1], reason)
    && forall i: nat | i < n - 1 :: !Refused(valid, lines[i])
  }

  ghost predicate NoneRefused(valid: string -> bool, lines: seq<string>) {
    forall i: nat | i < |lines| :: !Refused(valid, lines[i])
  }

  lemma FirstStaysFirst(valid: string -> bool, init: seq<string>, line: string, n: nat, reason: Reason)
    requires FirstRefused(valid, init, n, reason)
    ensures FirstRefused(valid, init + [line], n, reason)
  {
    var lines := init + [line];
    assert lines[n - 1] == init[n - 1];
    assert forall i: nat | i < n - 1 :: lines[i] == init[i];
  }

  lemma OneMoreLine(valid: string -> bool, init: seq<string>, line: string)
    requires NoneRefused(valid, init)
    ensures match ParseLine(valid, line)
            case Err(reason) => FirstRefused(valid, init + [line], |init| + 1, reason)
            case Ok(_) => NoneRefused(valid, init + [line])
  {
    var lines := init + [line];
    RefusedIff(valid, line);
    AnswerIsSaid(valid, line);
    assert lines[|init|] == line && forall i: nat | i < |init| :: lines[i] == init[i];
  }

  lemma {:induction false} ErrorIsFirst(valid: string -> bool, lines: seq<string>)
    ensures match ParseLines(valid, lines)
            case Err(e) => FirstRefused(valid, lines, e.lineNo, e.reason)
            case Ok(_) => NoneRefused(valid, lines)
    decreases |lines|
  {
    if lines != [] {
      var init, line := lines[..|lines| - 1], lines[|lines| - 1];
      assert lines == init + [line];
      ErrorIsFirst(valid, init);
      if ParseLines(valid, init).Err? {
        FirstStaysFirst(valid, init, line, ParseLines(valid, init).error.lineNo, ParseLines(valid, init).error.reason);
      } else {
        OneMoreLine(valid, init, line);
      }
    }
  }

  lemma {:induction false} NoneRefusedIsOk(valid: string -> bool, lines: seq<string>)
    requires NoneRefused(valid, lines)
    ensures ParseLines(valid, lines).Ok?
    decreases |lines|
  {
    if lines != [] {
      var init := lines[..|lines| - 1];
      assert forall i: nat | i < |init| :: init[i] == lines[i];
      NoneRefusedIsOk(valid, init);
      RefusedIff(valid, lines[|lines| - 1]);
    }
  }

  lemma RefusalIsError(valid: string -> bool, init: seq<string>, line: string, reason: Reason)
    requires NoneRefused(valid, init) && RefusedFor(valid, line, reason)
    ensures ParseLines(valid, init + [line]) == Err(Malformed(|init| + 1, reason))
  {
    NoneRefusedIsOk(valid, init);
    SaidIsAnswer(valid, line, Err(reason));
    assert (init + [line])[..|init|] == init;
  }

  lemma FirstIsError(valid: string -> bool, lines: seq<string>, n: nat, reason: Reason)
    requires FirstRefused(valid, lines, n, reason)
    ensures ParseLines(valid, lines) == Err(Malformed(n, reason))
  {
    var init := lines[..n - 1];
    assert lines[..n] == init + [lines[n - 1]];
    RefusalIsError(valid, init, lines[n - 1], reason);
    ErrorsStay(valid, lines, n);
  }

  /** A text is refused with a line number and a reason exactly when that is its first refused line and the reason why. */
  lemma TextRefusedIff(valid: string -> bool, raw: string, n: nat, reason: Reason)
    ensures Parse(valid, raw) == Err(Malformed(n, reason)) <==> FirstRefused(valid, Lines(raw), n, reason)
  {
    var lines := Lines(raw);
    ErrorIsFirst(valid, lines);
    if FirstRefused(valid, lines, n, reason) {
      FirstIsError(valid, lines, n, reason);
    }
  }

  /** What is given to each line of an accepted text. */
  function Given(valid: string -> bool, lines: seq<string>): (given: seq<Option<Issuer>>)
    requires ParseLines(valid, lines).Ok?
    ensures |given| == |lines|
    decreases |lines|
  {
    if lines == [] then [] else Given(valid, lines[..|lines| - 1]) + [ParseLine(valid, lines[|lines| - 1]).value]
  }

  function Registered(given: seq<Option<Issuer>>): Registry
    decreases |given|
  {
    if given == [] then map[]
    else
      var m, last := Registered(given[..|given| - 1]), given[|given| - 1];
      if last.None? then m else m[last.value.0 := last.value.1]
  }

  lemma {:induction false} ParsedIsRegistered(valid: string -> bool, lines: seq<string>)
    requires ParseLines(valid, lines).Ok?
    ensures ParseLines(valid, lines).value == Registered(Given(valid, lines))
    decreases |lines|
  {
    if lines != [] {
      var given := Given(valid, lines);
      assert given[..|given| - 1] == Given(valid, lines[..|lines| - 1]);
      ParsedIsRegistered(valid, lines[..|lines| - 1]);
    }
  }

  lemma {:induction false} GivenIsAnswer(valid: string -> bool, lines: seq<string>, i: nat)
    requires ParseLines(valid, lines).Ok? && i < |lines|
    ensures ParseLine(valid, lines[i]) == Ok(Given(valid, lines)[i])
    decreases |lines|
  {
    if i < |lines| - 1 {
      GivenIsAnswer(valid, lines[..|lines| - 1], i);
    }
  }

  predicate GivesId(o: Option<Issuer>, id: NodeId) {
    o.Some? && o.value.0 == id
  }

  /** Place i is the last that gives the id. */
  ghost predicate LastFor(given: seq<Option<Issuer>>, i: nat, id: NodeId) {
    i < |given| && GivesId(given[i], id) && forall j: nat | i < j < |given| :: !GivesId(given[j], id)
  }

  lemma {:induction false} RegisteredIsLast(given: seq<Option<Issuer>>, id: NodeId)
    ensures var m := Registered(given);
            if id in m then exists i: nat :: LastFor(given, i, id) && given[i].value.1 == m[id]
            else forall i: nat | i < |given| :: !GivesId(given[i], id)
    decreases |given|
  {
    if given != [] {
      var init, last := given[..|given| - 1], |given| - 1;
      RegisteredIsLast(init, id);
      assert forall i: nat | i < |init| :: init[i] == given[i];
      if GivesId(given[last], id) {
        assert LastFor(given, last, id);
      } else if id in Registered(init) {
        var i: nat :| LastFor(init, i, id) && init[i].value.1 == Registered(init)[id];
        assert LastFor(given, i, id);
      }
    }
  }

  /**
   An accepted text is the registry of its lines, and the last line for an id stands: an id has an entry exactly
   if a line gives it one, and the entry is the one that the last such line gives.
   */
  lemma AcceptedTextExact(valid: string -> bool, raw: string, id: NodeId)
    requires Parse(valid, raw).Ok?
    ensures var lines, m := Lines(raw), Parse(valid, raw).value;
            |Given(valid, lines)| == |lines|
            && (forall i: nat | i < |lines| :: Says(valid, lines[i], Ok(Given(valid, lines)[i])))
            && (if id in m then exists i: nat :: LastFor(Given(valid, lines), i, id) && Given(valid, lines)[i].value.1 == m[id]
                else forall i: nat | i < |lines| :: !GivesId(Given(valid, lines)[i], id))
  {
    var lines := Lines(raw);
    forall i: nat | i < |lines| ensures Says(valid, lines[i], Ok(Given(valid, lines)[i])) {
      GivenIsAnswer(valid, lines, i);
      AnswerIsSaid(valid, lines[i]);
    }
    ParsedIsRegistered(valid, lines);
    RegisteredIsLast(Given(valid, lines), id);
  }

  /** A written line, as it looks. */
  lemma WrittenLine()
    ensures LineOf(("peer-1", TrustEntry("Alice", 7, 60))) == "peer-1 = \"Alice:60\""
  {
    assert ShowNat(60) == ShowNat(6) + ['0'] && ShowNat(6) == ['6'];
  }
}
