/**
 What the replay store's loader accepts and what it refuses (src/nonce_store.rs:189-217), told from the text
 alone. A line is looked at without the white space around it.
 */
module NonceGrammar {
  import opened Wrappers
  import opened Numbers
  import opened Text
  import opened NonceStores
  import opened Hex
  import opened NonceText

  /** An optional sign and a numeral, of 64 bits. */
  ghost predicate ReadsAs(s: string, n: I64) {
    s != "" && if s[0] == '-' then Numeral(s[1..], -(n as int)) else Numeral(if s[0] == '+' then s[1..] else s, n)
  }

  /** The line gets the answer r. */
  ghost predicate Says(line: string, r: Result<Option<Entry>, Reason>) {
    var t := Trim(line);
    match r
    case Ok(None) => t == ""
    case Err(MissingColon) => t != "" && ':' !in t
    case Err(BadHex) => exists hex, ts :: CutsAt(t, ':', hex, ts) && forall nonce :: !Spells(hex, nonce)
    case Err(BadTimestamp) =>
      exists hex, ts, nonce :: CutsAt(t, ':', hex, ts) && Spells(hex, nonce) && forall n: I64 :: !ReadsAs(ts, n)
    case Ok(Some(e)) =>
      exists hex, ts :: CutsAt(t, ':', hex, ts) && Spells(hex, e.0) && ReadsAs(ts, e.1)
  }

  lemma HexReads(hex: string)
    ensures forall nonce :: Spells(hex, nonce) <==> HexDecode(hex) == Some(nonce)
  {
    forall nonce ensures Spells(hex, nonce) <==> HexDecode(hex) == Some(nonce) {
      HexDecodeExact(hex, nonce);
    }
  }

  lemma StampReads(ts: string)
    ensures forall n: I64 :: ReadsAs(ts, n) <==> ParseI64(ts) == Some(n)
  {
    forall n: I64 ensures ReadsAs(ts, n) <==> ParseI64(ts) == Some(n) {
      ParseI64Exact(ts, n);
    }
  }

  lemma CutLine(line: string, hex: string, ts: string)
    requires CutsAt(Trim(line), ':', hex, ts)
    ensures ParseLine(line)
         == match HexDecode(hex)
            case None => Err(BadHex)
            case Some(nonce) =>
              match ParseI64(ts)
              case None => Err(BadTimestamp)
              case Some(t) => Ok(Some((nonce, t)))
  {
    CutIsSplit(Trim(line), ':', hex, ts);
  }

  /** Each answer is given to exactly the lines that `Says` names. */
  lemma LineAnswerIff(line: string, r: Result<Option<Entry>, Reason>)
    ensures ParseLine(line) == r <==> Says(line, r)
  {
    AnswerIsSaid(line);
    if Says(line, r) {
      SaidIsAnswer(line, r);
    }
  }

  lemma AnswerIsSaid(line: string)
    ensures Says(line, ParseLine(line))
  {
    var t := Trim(line);
    if ':' in t {
      var (hex, ts) := SplitOnce(t, ':').value;
      CutIsSplit(t, ':', hex, ts);
      CutLine(line, hex, ts);
      HexReads(hex);
      StampReads(ts);
    }
  }

  lemma SaidIsAnswer(line: string, r: Result<Option<Entry>, Reason>)
    requires Says(line, r)
    ensures ParseLine(line) == r
  {
    var t := Trim(line);
    match r
    case Ok(None) =>
    case Err(MissingColon) =>
    case Err(BadHex) =>
      var hex, ts :| CutsAt(t, ':', hex, ts) && forall nonce :: !Spells(hex, nonce);
      CutLine(line, hex, ts);
      HexReads(hex);
    case Err(BadTimestamp) =>
      var hex, ts, nonce :| CutsAt(t, ':', hex, ts) && Spells(hex, nonce) && forall n: I64 :: !ReadsAs(ts, n);
      CutLine(line, hex, ts);
      HexReads(hex);
      StampReads(ts);
    case Ok(Some(e)) =>
      var hex, ts :| CutsAt(t, ':', hex, ts) && Spells(hex, e.0) && ReadsAs(ts, e.1);
      CutLine(line, hex, ts);
      HexReads(hex);
      StampReads(ts);
  }

  // ---------------------------------------------------------------- whole texts

  ghost predicate RefusedFor(line: string, reason: Reason) {
    Says(line, Err(reason))
  }

  ghost predicate Refused(line: string) {
    exists reason :: RefusedFor(line, reason)
  }

  lemma RefusedIff(line: string)
    ensures Refused(line) <==> ParseLine(line).Err?
  {
    AnswerIsSaid(line);
    if reason :| RefusedFor(line, reason) {
      SaidIsAnswer(line, Err(reason));
    }
    assert ParseLine(line).Err? ==> RefusedFor(line, ParseLine(line).error);
  }

  /** Line n, counted from one, is the first that is refused, and this is why. */
  ghost predicate FirstRefused(lines: seq<string>, n: nat, reason: Reason) {
    && 1 <= n <= |lines| && RefusedFor(lines[n - 1], reason)
    && forall i: nat | i < n - 1 :: !Refused(lines[i])
  }

  ghost predicate NoneRefused(lines: seq<string>) {
    forall i: nat | i < |lines| :: !Refused(lines[i])
  }

  lemma FirstStaysFirst(init: seq<string>, line: string, n: nat, reason: Reason)
    requires FirstRefused(init, n, reason)
    ensures FirstRefused(init + [line], n, reason)
  {
    var lines := init + [line];
    assert lines[n - 1] == init[n - 1];
    assert forall i: nat | i < n - 1 :: lines[i] == init[i];
  }

  lemma OneMoreLine(init: seq<string>, line: string)
    requires NoneRefused(init)
    ensures match ParseLine(line)
            case Err(reason) => FirstRefused(init + [line], |init| + 1, reason)
            case Ok(_) => NoneRefused(init + [line])
  {
    var lines := init + [line];
    RefusedIff(line);
    AnswerIsSaid(line);
    assert lines[|init|] == line && forall i: nat | i < |init| :: lines[i] == init[i];
  }

  lemma {:induction false} ErrorIsFirst(lines: seq<string>)
    ensures match ParseLines(lines)
            case Err(e) => FirstRefused(lines, e.lineNo, e.reason)
            case Ok(_) => NoneRefused(lines)
    decreases |lines|
  {
    if lines != [] {
      var init, line := lines[..|lines| - 1], lines[|lines| - 1];
      assert lines == init + [line];
      ErrorIsFirst(init);
      if ParseLines(init).Err? {
        FirstStaysFirst(init, line, ParseLines(init).error.lineNo, ParseLines(init).error.reason);
      } else {
        OneMoreLine(init, line);
      }
    }
  }

  lemma {:induction false} NoneRefusedIsOk(lines: seq<string>)
    requires NoneRefused(lines)
    ensures ParseLines(lines).Ok?
    decreases |lines|
  {
    if lines != [] {
      var init := lines[..|lines| - 1];
      assert forall i: nat | i < |init| :: init[i] == lines[i];
      NoneRefusedIsOk(init);
      RefusedIff(lines[|lines| - 1]);
    }
  }

  lemma RefusalIsError(init: seq<string>, line: string, reason: Reason)
    requires NoneRefused(init) && RefusedFor(line, reason)
    ensures ParseLines(init + [line]) == Err(MalformedLine(|init| + 1, reason))
  {
    NoneRefusedIsOk(init);
    SaidIsAnswer(line, Err(reason));
    assert (init + [line])[..|init|] == init;
  }

  lemma FirstIsError(lines: seq<string>, n: nat, reason: Reason)
    requires FirstRefused(lines, n, reason)
    ensures ParseLines(lines) == Err(MalformedLine(n, reason))
  {
    var init := lines[..n - 1];
    assert lines[..n] == init + [lines[n - 1]];
    RefusalIsError(init, lines[n - 1], reason);
    ErrorsStay(lines, n);
  }

  /** A file is refused with a line number and a reason exactly when that is its first refused line and the reason why. */
  lemma LoadRefusedIff(raw: string, n: nat, reason: Reason)
    ensures Load(raw) == Err(MalformedLine(n, reason)) <==> FirstRefused(Lines(raw), n, reason)
  {
    var lines := Lines(raw);
    ErrorIsFirst(lines);
    if FirstRefused(lines, n, reason) {
      FirstIsError(lines, n, reason);
    }
  }

  /** What is given to each line of an accepted file. */
  function Given(lines: seq<string>): (given: seq<Option<Entry>>)
    requires ParseLines(lines).Ok?
    ensures |given| == |lines|
    decreases |lines|
  {
    if lines == [] then [] else Given(lines[..|lines| - 1]) + [ParseLine(lines[|lines| - 1]).value]
  }

  lemma {:induction false} GivenIsAnswer(lines: seq<string>, i: nat)
    requires ParseLines(lines).Ok? && i < |lines|
    ensures ParseLine(lines[i]) == Ok(Given(lines)[i])
    decreases |lines|
  {
    if i < |lines| - 1 {
      GivenIsAnswer(lines[..|lines| - 1], i);
    }
  }

  function Recorded(given: seq<Option<Entry>>): Seen
    decreases |given|
  {
    if given == [] then map[]
    else
      var m, last := Recorded(given[..|given| - 1]), given[|given| - 1];
      if last.None? then m else m[last.value.0 := last.value.1]
  }

  lemma {:induction false} LoadedIsRecorded(lines: seq<string>)
    requires ParseLines(lines).Ok?
    ensures Insert(map[], ParseLines(lines).value) == Recorded(Given(lines))
    decreases |lines|
  {
    if lines != [] {
      var init, given := lines[..|lines| - 1], Given(lines);
      assert given[..|given| - 1] == Given(init);
      LoadedIsRecorded(init);
      var entries := ParseLines(lines).value;
      if ParseLine(lines[|lines| - 1]).value.Some? {
        assert entries[..|entries| - 1] == ParseLines(init).value;
      }
    }
  }

  predicate GivesNonce(o: Option<Entry>, n: Nonce) {
    o.Some? && o.value.0 == n
  }

  /** Place i is the last that gives the nonce. */
  ghost predicate LastFor(given: seq<Option<Entry>>, i: nat, n: Nonce) {
    i < |given| && GivesNonce(given[i], n) && forall j: nat | i < j < |given| :: !GivesNonce(given[j], n)
  }

  lemma {:induction false} RecordedIsLast(given: seq<Option<Entry>>, n: Nonce)
    ensures var m := Recorded(given);
            if n in m then exists i: nat :: LastFor(given, i, n) && given[i].value.1 == m[n]
            else forall i: nat | i < |given| :: !GivesNonce(given[i], n)
    decreases |given|
  {
    if given != [] {
      var init, last := given[..|given| - 1], |given| - 1;
      RecordedIsLast(init, n);
      assert forall i: nat | i < |init| :: init[i] == given[i];
      if GivesNonce(given[last], n) {
        assert LastFor(given, last, n);
      } else if n in Recorded(init) {
        var i: nat :| LastFor(init, i, n) && init[i].value.1 == Recorded(init)[n];
        assert LastFor(given, i, n);
      }
    }
  }

  /** An accepted file is the map of its lines, and the last line for a nonce stands. */
  lemma LoadedExact(raw: string, n: Nonce)
    requires Load(raw).Ok?
    ensures var lines, m := Lines(raw), Load(raw).value;
            |Given(lines)| == |lines|
            && (forall i: nat | i < |lines| :: Says(lines[i], Ok(Given(lines)[i])))
            && (if n in m then exists i: nat :: LastFor(Given(lines), i, n) && Given(lines)[i].value.1 == m[n]
                else forall i: nat | i < |lines| :: !GivesNonce(Given(lines)[i], n))
  {
    var lines := Lines(raw);
    forall i: nat | i < |lines| ensures Says(lines[i], Ok(Given(lines)[i])) {
      GivenIsAnswer(lines, i);
      AnswerIsSaid(lines[i]);
    }
    LoadedIsRecorded(lines);
    RecordedIsLast(Given(lines), n);
  }
}
