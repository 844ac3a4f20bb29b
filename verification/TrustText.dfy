/**
 The trust store's text form (src/trust.rs:144-159, 229-275): a header of comments, then one line
 `node_id = "name:rate"` per issuer, sorted; read back by a parser that forgives blanks, comments,
 spacing and repeated ids.

 `valid` says which strings are accepted as node ids.
 */
module TrustText {
  import opened Wrappers
  import opened Nodes
  import opened Text
  import opened Sorting
  import opened TrustStores

  type Issuer = (NodeId, TrustEntry)

  datatype Reason = NoEquals | NotQuoted | NoColon | BadRate | BadNodeId

  datatype Malformed = Malformed(lineNo: nat, reason: Reason)

  const HEADER_FORMAT: string :=
    "# SnapPipe trust store: " + "one issuer per line as " + "`node_id = \"name:rate\"`."

  const HEADER_COMMENTS: string :=
    "# Lines beginning with `#` " + "and blank lines are ignored."

  /** The text below is about any header made of comment lines; this is the one that is written. */
  function Header(): seq<string> {
    [HEADER_FORMAT, HEADER_COMMENTS]
  }

  ghost predicate IsHeader(header: seq<string>) {
    forall i: nat | i < |header| :: PlainLine(header[i]) && Trimmed(header[i]) && header[i] != [] && header[i][0] == '#'
  }

  function LineOf(e: Issuer): string {
    e.0 + " = \"" + Payload(e.1.displayName, ShowNat(e.1.rateLimitPerMin)) + ['"']
  }

  function Payload(name: string, rate: string): string {
    name + [':'] + rate
  }

  function LinesFor(entries: seq<Issuer>): (lines: seq<string>)
    ensures |lines| == |entries|
    ensures forall i: nat | i < |entries| :: lines[i] == LineOf(entries[i])
    decreases |entries|
  {
    if entries == [] then [] else LinesFor(entries[..|entries| - 1]) + [LineOf(entries[|entries| - 1])]
  }

  function IdOf(): Issuer -> string {
    (e: Issuer) => e.0
  }

  /** The text written for the entries, listed in any order. */
  function Print(header: seq<string>, entries: seq<Issuer>): string {
    Unlines(header + LinesFor(Sort(entries, IdOf())))
  }

  /** The inside of a double-quoted string. */
  function Unquote(s: string): Option<string> {
    if |s| < 2 || s[0] != '"' || s[|s| - 1] != '"' then None else Some(s[1..|s| - 1])
  }

  /** What one line says: nothing, an issuer, or something malformed. */
  function ParseLine(valid: string -> bool, line: string): Result<Option<Issuer>, Reason> {
    var trimmed := Trim(line);
    if trimmed == [] || trimmed[0] == '#' then Ok(None)
    else match SplitOnce(trimmed, '=')
      case None => Err(NoEquals)
      case Some((lhs, rhs)) =>
        match Unquote(Trim(rhs))
        case None => Err(NotQuoted)
        case Some(payload) =>
          match SplitOnce(payload, ':')
          case None => Err(NoColon)
          case Some((name, rate)) =>
            match ParseU32(Trim(rate))
            case None => Err(BadRate)
            case Some(n) =>
              if !valid(Trim(lhs)) then Err(BadNodeId)
              else Ok(Some((Trim(lhs), TrustEntry(Trim(name), 0, n))))
  }

  /** The registry of all lines, a later line for an id replacing an earlier one; or the first malformed line. */
  function ParseLines(valid: string -> bool, lines: seq<string>): Result<Registry, Malformed>
    decreases |lines|
  {
    if lines == [] then Ok(map[])
    else match ParseLines(valid, lines[..|lines| - 1])
      case Err(e) => Err(e)
      case Ok(m) =>
        match ParseLine(valid, lines[|lines| - 1])
        case Err(reason) => Err(Malformed(|lines|, reason))
        case Ok(None) => Ok(m)
        case Ok(Some(e)) => Ok(m[e.0 := e.1])
  }

  function Parse(valid: string -> bool, raw: string): Result<Registry, Malformed> {
    ParseLines(valid, Lines(raw))
  }

  // ---------------------------------------------------------------- as the source runs them

  method SaveBody(entries: seq<Issuer>) returns (body: string)
    ensures body == Print(Header(), entries)
  {
    body := SaveUnder(Header(), entries);
  }

  method SaveUnder(header: seq<string>, entries: seq<Issuer>) returns (body: string)
    ensures body == Print(header, entries)
  {
    body := "";
    for i := 0 to |header|
      invariant body == Unlines(header[..i])
    {
      UnlinesAppends(header[..i], header[i]);
      assert header[..i + 1] == header[..i] + [header[i]];
      body := body + (header[i] + ['\n']);
    }
    var sorted := Sort(entries, IdOf());
    assert header + LinesFor(sorted[..0]) == header[..|header|];
    for i := 0 to |sorted|
      invariant body == Unlines(header + LinesFor(sorted[..i]))
    {
      LinesForOneMore(sorted, i);
      UnlinesAppends(header + LinesFor(sorted[..i]), LineOf(sorted[i]));
      assert header + LinesFor(sorted[..i + 1]) == (header + LinesFor(sorted[..i])) + [LineOf(sorted[i])];
      body := body + (LineOf(sorted[i]) + ['\n']);
    }
    assert sorted[..|sorted|] == sorted;
  }

  lemma LinesForOneMore(entries: seq<Issuer>, i: nat)
    requires i < |entries|
    ensures LinesFor(entries[..i + 1]) == LinesFor(entries[..i]) + [LineOf(entries[i])]
  {
    assert entries[..i + 1][..i] == entries[..i];
  }

  method ParseText(valid: string -> bool, raw: string) returns (r: Result<Registry, Malformed>)
    ensures r == Parse(valid, raw)
  {
    var lines := Lines(raw);
    var out: Registry := map[];
    for i := 0 to |lines|
      invariant ParseLines(valid, lines[..i]) == Ok(out)
    {
      assert lines[..i + 1][..i] == lines[..i];
      var parsed := ParseLine(valid, lines[i]);
      if parsed.Err? {
        ErrorsStay(valid, lines, i + 1);
        return Err(Malformed(i + 1, parsed.error));
      }
      if parsed.value.Some? {
        out := out[parsed.value.value.0 := parsed.value.value.1];
      }
    }
    assert lines[..|lines|] == lines;
    return Ok(out);
  }

  lemma {:induction false} ErrorsStay(valid: string -> bool, lines: seq<string>, k: nat)
    requires k <= |lines| && ParseLines(valid, lines[..k]).Err?
    ensures ParseLines(valid, lines) == ParseLines(valid, lines[..k])
    decreases |lines|
  {
    if k == |lines| {
      assert lines[..k] == lines;
    } else {
      assert lines[..|lines| - 1][..k] == lines[..k];
      ErrorsStay(valid, lines[..|lines| - 1], k);
    }
  }

  // ---------------------------------------------------------------- one line

  /** A name that survives being written and read: trimmed, on one line, without the separator. */
  predicate Writable(name: string) {
    Trimmed(name) && ':' !in name && '\n' !in name
  }

  /** Everything the parser puts in the registry could have been written by `Print`. */
  lemma ParsedLineIsWritable(valid: string -> bool, line: string)
    requires '\n' !in line
    ensures var r := ParseLine(valid, line);
            r.Ok? && r.value.Some? ==>
              valid(r.value.value.0) && Writable(r.value.value.1.displayName) && r.value.value.1.addedAtUnix == 0
  {
    var r := ParseLine(valid, line);
    if r.Ok? && r.value.Some? {
      var rhs := SplitOnce(Trim(line), '=').value.1;
      assert forall c | c in rhs :: c in Trim(line);
      var payload := Unquote(Trim(rhs)).value;
      assert forall c | c in payload :: c in Trim(rhs);
      var name := SplitOnce(payload, ':').value.0;
      assert forall c | c in name :: c in payload;
      assert forall c | c in Trim(name) :: c in name;
    }
  }

  lemma {:induction false} ParsedIsWritable(valid: string -> bool, lines: seq<string>)
    requires forall i: nat | i < |lines| :: '\n' !in lines[i]
    ensures var r := ParseLines(valid, lines);
            r.Ok? ==> forall id | id in r.value ::
              valid(id) && Writable(r.value[id].displayName) && r.value[id].addedAtUnix == 0
    decreases |lines|
  {
    if lines != [] {
      ParsedIsWritable(valid, lines[..|lines| - 1]);
      ParsedLineIsWritable(valid, lines[|lines| - 1]);
    }
  }

  ghost predicate AllIdChars(id: string) {
    forall i: nat | i < |id| :: IsIdChar(id[i])
  }

  ghost predicate Quoted(quoted: string) {
    2 <= |quoted| && quoted[0] == '"' && quoted[|quoted| - 1] == '"' && '\n' !in quoted
  }

  lemma LineIsPlain(id: string, quoted: string)
    requires AllIdChars(id) && Quoted(quoted)
    ensures PlainLine(id + " = " + quoted)
  {
    var line := id + " = " + quoted;
    assert line[|line| - 1] == '"';
  }

  lemma UnnamedLineTrims(quoted: string)
    requires Quoted(quoted)
    ensures Trim("" + " = " + quoted) == ['='] + ([' '] + quoted)
  {
    var rest := ['='] + ([' '] + quoted);
    assert rest[0] == '=' && rest[|rest| - 1] == '"';
    TrimLeadingSpace(rest);
    assert "" + " = " + quoted == [' '] + rest;
  }

  lemma NamedLineTrims(id: string, quoted: string)
    requires AllIdChars(id) && id != [] && Quoted(quoted)
    ensures Trim(id + " = " + quoted) == id + [' '] + ['='] + ([' '] + quoted)
  {
    var line := id + " = " + quoted;
    assert IsIdChar(id[0]) && line[0] == id[0] && line[|line| - 1] == '"';
    assert line == id + [' '] + ['='] + ([' '] + quoted);
  }

  /** The written line, trimmed: an empty id leaves no left-hand side. */
  lemma LineShape(id: string, quoted: string)
    requires AllIdChars(id) && Quoted(quoted)
    ensures var line := id + " = " + quoted;
            var lhs := if id == [] then [] else id + [' '];
            PlainLine(line) && Trim(line) == lhs + ['='] + ([' '] + quoted)
  {
    LineIsPlain(id, quoted);
    if id == [] {
      UnnamedLineTrims(quoted);
      assert [] + ['='] + ([' '] + quoted) == ['='] + ([' '] + quoted);
    } else {
      NamedLineTrims(id, quoted);
    }
  }

  lemma QuotedShape(payload: string)
    ensures var quoted := ['"'] + payload + ['"'];
            Trim([' '] + quoted) == quoted && Unquote(quoted) == Some(payload)
  {
    var quoted := ['"'] + payload + ['"'];
    TrimLeadingSpace(quoted);
    assert quoted[1..|quoted| - 1] == payload;
  }

  lemma PayloadShape(name: string, rate: string)
    requires Writable(name) && rate != [] && forall i: nat | i < |rate| :: IsDigit(rate[i])
    ensures SplitOnce(Payload(name, rate), ':') == Some((name, rate))
    ensures Trim(rate) == rate && '\n' !in Payload(name, rate)
  {
    SplitOnceAt(name, ':', rate);
    assert IsDigit(rate[0]) && IsDigit(rate[|rate| - 1]);
  }

  lemma LhsShape(id: string)
    requires AllIdChars(id)
    ensures var lhs := if id == [] then [] else id + [' '];
            '=' !in lhs && Trim(lhs) == id && (id != [] ==> lhs[0] != '#')
  {
    assert id != [] ==> IsIdChar(id[0]) && IsIdChar(id[|id| - 1]);
    TrimTrailingSpace(id);
  }

  /** A line that trims and splits into these parts says this. */
  lemma ParseParts(valid: string -> bool, line: string, lhs: string, rhs: string, payload: string, name: string, rate: string)
    requires Trim(line) == lhs + ['='] + rhs && '=' !in lhs && (lhs != [] ==> lhs[0] != '#')
    requires Unquote(Trim(rhs)) == Some(payload) && SplitOnce(payload, ':') == Some((name, rate))
    requires ParseU32(Trim(rate)).Some? && valid(Trim(lhs))
    ensures ParseLine(valid, line) == Ok(Some((Trim(lhs), TrustEntry(Trim(name), 0, ParseU32(Trim(rate)).value))))
  {
    SplitOnceAt(lhs, '=', rhs);
    assert Trim(line)[0] == if lhs == [] then '=' else lhs[0];
  }

  /** A written line reads back as the entry it was written for, with no date. */
  lemma LineRoundTrip(valid: string -> bool, e: Issuer)
    requires IdScheme(valid) && valid(e.0) && Writable(e.1.displayName)
    ensures PlainLine(LineOf(e))
    ensures ParseLine(valid, LineOf(e)) == Ok(Some((e.0, e.1.(addedAtUnix := 0))))
  {
    var id, name, rate := e.0, e.1.displayName, ShowNat(e.1.rateLimitPerMin);
    var payload := Payload(name, rate);
    var quoted := ['"'] + payload + ['"'];
    var lhs := if id == [] then [] else id + [' '];
    assert LineOf(e) == id + " = " + quoted;
    PayloadShape(name, rate);
    QuotedShape(payload);
    LineShape(id, quoted);
    LhsShape(id);
    ParseShowU32(e.1.rateLimitPerMin);
    ParseParts(valid, LineOf(e), lhs, [' '] + quoted, payload, name, rate);
  }

  // ---------------------------------------------------------------- whole texts

  /** `entries` lists the registry, each id once, in some order. */
  ghost predicate Enumerates(entries: seq<Issuer>, m: Registry) {
    && (forall e :: e in entries <==> e.0 in m && m[e.0] == e.1)
    && DistinctKeys(entries, IdOf())
  }

  /** The registry without the dates, which the text does not carry. */
  function Undated(m: Registry): Registry {
    map id | id in m :: m[id].(addedAtUnix := 0)
  }

  function Collect(entries: seq<Issuer>): Registry
    decreases |entries|
  {
    if entries == [] then map[]
    else Collect(entries[..|entries| - 1])[entries[|entries| - 1].0 := entries[|entries| - 1].1.(addedAtUnix := 0)]
  }

  lemma NoNewline(s: string)
    requires forall i: nat | i < |s| :: s[i] != '\n'
    ensures '\n' !in s
  {
  }

  lemma HeaderIsHeader()
    ensures IsHeader(Header())
  {
    NoNewline("# SnapPipe trust store: ");
    NoNewline("one issuer per line as ");
    NoNewline("`node_id = \"name:rate\"`.");
    NoNewline("# Lines beginning with `#` ");
    NoNewline("and blank lines are ignored.");
  }

  /** Comment lines add nothing. */
  lemma {:induction false} HeaderParses(valid: string -> bool, header: seq<string>)
    requires IsHeader(header)
    ensures ParseLines(valid, header) == Ok(map[])
    decreases |header|
  {
    if header != [] {
      HeaderParses(valid, header[..|header| - 1]);
      assert Trim(header[|header| - 1]) == header[|header| - 1];
    }
  }

  lemma {:induction false} LinesParse(valid: string -> bool, header: seq<string>, entries: seq<Issuer>)
    requires IsHeader(header)
    requires IdScheme(valid) && forall e | e in entries :: valid(e.0) && Writable(e.1.displayName)
    ensures ParseLines(valid, header + LinesFor(entries)) == Ok(Collect(entries))
    decreases |entries|
  {
    if entries == [] {
      HeaderParses(valid, header);
      assert header + LinesFor(entries) == header;
    } else {
      var init, e := entries[..|entries| - 1], entries[|entries| - 1];
      assert e in entries;
      assert header + LinesFor(entries) == (header + LinesFor(init)) + [LineOf(e)];
      LinesParse(valid, header, init);
      LineRoundTrip(valid, e);
      ParseOneMore(valid, header + LinesFor(init), LineOf(e), Collect(init), (e.0, e.1.(addedAtUnix := 0)));
    }
  }

  lemma ParseOneMore(valid: string -> bool, lines: seq<string>, line: string, m: Registry, e: Issuer)
    requires ParseLines(valid, lines) == Ok(m) && ParseLine(valid, line) == Ok(Some(e))
    ensures ParseLines(valid, lines + [line]) == Ok(m[e.0 := e.1])
  {
    assert (lines + [line])[..|lines|] == lines;
  }

  lemma {:induction false} CollectIsRegistry(entries: seq<Issuer>, m: Registry)
    requires forall e | e in entries :: e.0 in m && m[e.0] == e.1
    ensures var r := Collect(entries);
            && (forall id | id in r :: id in m && r[id] == m[id].(addedAtUnix := 0))
            && (forall e | e in entries :: e.0 in r)
    decreases |entries|
  {
    if entries != [] {
      var init, e := entries[..|entries| - 1], entries[|entries| - 1];
      assert entries == init + [e];
      CollectIsRegistry(init, m);
    }
  }

  lemma WrittenLinesArePlain(valid: string -> bool, header: seq<string>, entries: seq<Issuer>)
    requires IsHeader(header)
    requires IdScheme(valid) && forall e | e in entries :: valid(e.0) && Writable(e.1.displayName)
    ensures var lines := header + LinesFor(entries); forall i: nat | i < |lines| :: PlainLine(lines[i])
  {
    var lines := header + LinesFor(entries);
    forall i: nat | i < |lines| ensures PlainLine(lines[i]) {
      if |header| <= i {
        LineRoundTrip(valid, entries[i - |header|]);
      }
    }
  }

  lemma CollectEnumeration(entries: seq<Issuer>, m: Registry)
    requires forall e :: e in entries <==> e.0 in m && m[e.0] == e.1
    ensures Collect(entries) == Undated(m)
  {
    CollectIsRegistry(entries, m);
    forall id | id in m ensures id in Collect(entries) {
      assert (id, m[id]) in entries;
      assert (id, m[id]).0 == id;
    }
  }

  lemma PrintedParses(valid: string -> bool, header: seq<string>, m: Registry, entries: seq<Issuer>)
    requires IsHeader(header)
    requires IdScheme(valid) && Enumerates(entries, m)
    requires forall id | id in m :: valid(id) && Writable(m[id].displayName)
    ensures Parse(valid, Print(header, entries)) == Ok(Undated(m))
  {
    var sorted := Sort(entries, IdOf());
    SameElements(sorted, entries);
    LinesParse(valid, header, sorted);
    WrittenLinesArePlain(valid, header, sorted);
    LinesOfUnlines(header + LinesFor(sorted));
    CollectEnumeration(sorted, m);
  }

  /**
   A registry of valid ids survives being written and read, apart from its dates, exactly when every
   name is trimmed and has neither a colon nor a newline in it.
   */
  lemma StoreRoundTripsIffWritable(valid: string -> bool, header: seq<string>, m: Registry, entries: seq<Issuer>)
    requires IsHeader(header)
    requires IdScheme(valid) && Enumerates(entries, m) && forall id | id in m :: valid(id)
    ensures Parse(valid, Print(header, entries)) == Ok(Undated(m))
       <==> forall id | id in m :: Writable(m[id].displayName)
  {
    if forall id | id in m :: Writable(m[id].displayName) {
      PrintedParses(valid, header, m, entries);
    }
    var r := Parse(valid, Print(header, entries));
    if r == Ok(Undated(m)) {
      ParsedIsWritable(valid, Lines(Print(header, entries)));
      forall id | id in m ensures Writable(m[id].displayName) {
        assert id in r.value && r.value[id].displayName == m[id].displayName;
      }
    }
  }

  /** Every text the parser accepts denotes a registry that printing and parsing again gives back unchanged. */
  lemma PrintIsFixpoint(valid: string -> bool, header: seq<string>, raw: string, m: Registry, entries: seq<Issuer>)
    requires IsHeader(header)
    requires IdScheme(valid) && Parse(valid, raw) == Ok(m) && Enumerates(entries, m)
    ensures Parse(valid, Print(header, entries)) == Ok(m)
  {
    ParsedRegistry(valid, raw, m);
    PrintedParses(valid, header, m, entries);
  }

  lemma ParsedRegistry(valid: string -> bool, raw: string, m: Registry)
    requires Parse(valid, raw) == Ok(m)
    ensures Undated(m) == m && forall id | id in m :: valid(id) && Writable(m[id].displayName)
  {
    ParsedIsWritable(valid, Lines(raw));
  }

  /** The text does not depend on the order in which the registry was listed. */
  lemma PrintIsCanonical(header: seq<string>, m: Registry, a: seq<Issuer>, b: seq<Issuer>)
    requires Enumerates(a, m) && Enumerates(b, m)
    ensures Print(header, a) == Print(header, b)
  {
    SortIgnoresOrder(a, b, IdOf());
  }
}
