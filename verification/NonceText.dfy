/** The hex form of a nonce (src/nonce_store.rs:229-258): lowercase base16, section 8 of RFC 4648. */
module Hex {
  import opened Wrappers
  import opened Numbers
  import opened Text
  import opened NonceStores

  function HexDigit(n: nat): char
    requires n < 16
  {
    if n < 10 then (n + 48) as char else (n - 10 + 97) as char
  }

  /** The value of digit i of the encoding. */
  function NibbleAt(bytes: seq<U8>, i: nat): (n: nat)
    requires i < 2 * |bytes|
    ensures n < 16
  {
    if i % 2 == 0 then bytes[i / 2] / 16 else bytes[i / 2] % 16
  }

  /** Character i of the encoding. */
  function HexAt(bytes: seq<U8>, i: nat): char
    requires i < 2 * |bytes|
  {
    HexDigit(NibbleAt(bytes, i))
  }

  function HexOf(bytes: seq<U8>): (s: string) {
    seq(2 * |bytes|, i requires 0 <= i < 2 * |bytes| => HexAt(bytes, i))
  }

  const HEX_DIGITS: string := "0123456789abcdef"

  lemma HexDigitIs(n: nat)
    requires n < 16
    ensures HexDigit(n) == HEX_DIGITS[n]
  {
  }

  /** The value of a hex digit of either case. */
  function Nibble(c: U8): (r: Option<nat>)
    ensures r.Some? ==> r.value < 16 && c < 0x80
  {
    if 48 <= c <= 57 then Some(c - 48)
    else if 97 <= c <= 102 then Some(c - 97 + 10)
    else if 65 <= c <= 70 then Some(c - 65 + 10)
    else None
  }

  predicate AllHex(bytes: seq<U8>) {
    forall i: nat | i < |bytes| :: Nibble(bytes[i]).Some?
  }

  function PairAt(bytes: seq<U8>, i: nat): U8
    requires AllHex(bytes) && 2 * i + 1 < |bytes|
  {
    16 * Nibble(bytes[2 * i]).value + Nibble(bytes[2 * i + 1]).value
  }

  /** `hex_decode`, on the bytes of the string. */
  function HexDecode(s: string): Option<Nonce> {
    var bytes := Utf8(s);
    if |bytes| != 32 || !AllHex(bytes) then None
    else Some(seq(16, i requires 0 <= i < 16 => PairAt(bytes, i)))
  }

  method EncodeHex(nonce: Nonce) returns (out: string)
    ensures out == HexOf(nonce) && |out| == 32
    ensures forall i: nat | i < 16 :: out[2 * i] == HEX_DIGITS[nonce[i] / 16] && out[2 * i + 1] == HEX_DIGITS[nonce[i] % 16]
  {
    out := "";
    for i := 0 to 16
      invariant |out| == 2 * i
      invariant forall k: nat | k < 2 * i :: out[k] == HexAt(nonce, k)
    {
      out := out + [HexDigit(nonce[i] / 16), HexDigit(nonce[i] % 16)];
    }
    forall i: nat | i < 16
      ensures out[2 * i] == HEX_DIGITS[nonce[i] / 16] && out[2 * i + 1] == HEX_DIGITS[nonce[i] % 16]
    {
      assert out[2 * i] == HexAt(nonce, 2 * i) && out[2 * i + 1] == HexAt(nonce, 2 * i + 1);
      HexDigitIs(nonce[i] / 16);
      HexDigitIs(nonce[i] % 16);
    }
  }

  method DecodeHex(s: string) returns (r: Option<Nonce>)
    ensures r == HexDecode(s)
  {
    var bytes := Utf8(s);
    if |bytes| != 32 {
      return None;
    }
    var out := new U8[16](_ => 0);
    for i := 0 to 16
      invariant AllHex(bytes[..2 * i])
      invariant forall k: nat | k < i :: out[k] == PairAt(bytes[..2 * i], k)
    {
      var hi, lo := Nibble(bytes[2 * i]), Nibble(bytes[2 * i + 1]);
      if hi.None? || lo.None? {
        return None;
      }
      out[i] := 16 * hi.value + lo.value;
    }
    assert bytes[..32] == bytes;
    assert out[..] == seq(16, i requires 0 <= i < 16 => PairAt(bytes, i));
    return Some(out[..]);
  }

  predicate Ascii(s: string) {
    forall i: nat | i < |s| :: s[i] as int < 0x80
  }

  lemma {:induction false} Utf8OfAscii(s: string)
    requires Ascii(s)
    ensures |Utf8(s)| == |s| && forall i: nat | i < |s| :: Utf8(s)[i] == s[i] as int
  {
    if s != [] {
      assert forall i: nat | i < |s[1..]| :: s[1..][i] == s[i + 1];
      Utf8OfAscii(s[1..]);
    }
  }

  lemma {:induction false} AsciiOfUtf8(s: string)
    requires forall i: nat | i < |Utf8(s)| :: Utf8(s)[i] < 0x80
    ensures Ascii(s)
  {
    if s != [] {
      var head := EncodeChar(s[0]);
      assert Utf8(s)[0] == head[0];
      forall i: nat | i < |Utf8(s[1..])| ensures Utf8(s[1..])[i] < 0x80 {
        assert Utf8(s)[i + |head|] == Utf8(s[1..])[i];
      }
      AsciiOfUtf8(s[1..]);
      assert forall i: nat | 0 < i < |s| :: s[i] == s[1..][i - 1];
    }
  }

  function Lower(c: char): char {
    if 'A' <= c <= 'F' then (c as int + 32) as char else c
  }

  lemma NibbleOfDigit(c: char, n: nat)
    requires n < 16
    ensures Lower(c) == HexDigit(n) <==> c as int < 0x80 && Nibble(c as int) == Some(n)
  {
  }

  lemma PairOfNibbles(bytes: seq<U8>, i: nat)
    requires AllHex(bytes) && 2 * i + 1 < |bytes|
    ensures PairAt(bytes, i) / 16 == Nibble(bytes[2 * i]).value && PairAt(bytes, i) % 16 == Nibble(bytes[2 * i + 1]).value
  {
  }

  lemma HexDigitsDecode(s: string, nonce: Nonce)
    requires |s| == 32 && forall i: nat | i < 32 :: Lower(s[i]) == HexDigit(NibbleAt(nonce, i))
    ensures HexDecode(s) == Some(nonce)
  {
    forall i: nat | i < 32
      ensures s[i] as int < 0x80 && Nibble(s[i] as int) == Some(NibbleAt(nonce, i))
    {
      NibbleOfDigit(s[i], NibbleAt(nonce, i));
    }
    Utf8OfAscii(s);
    var bytes := Utf8(s);
    assert AllHex(bytes);
    forall i: nat | i < 16 ensures PairAt(bytes, i) == nonce[i] {
      assert NibbleAt(nonce, 2 * i) == nonce[i] / 16 && NibbleAt(nonce, 2 * i + 1) == nonce[i] % 16;
    }
    assert seq(16, i requires 0 <= i < 16 => PairAt(bytes, i)) == nonce;
  }

  lemma DecodedDigits(s: string, nonce: Nonce)
    requires HexDecode(s) == Some(nonce)
    ensures |s| == 32 && forall i: nat | i < 32 :: Lower(s[i]) == HexDigit(NibbleAt(nonce, i))
  {
    var bytes := Utf8(s);
    AsciiOfUtf8(s);
    Utf8OfAscii(s);
    forall i: nat | i < 32 ensures Lower(s[i]) == HexDigit(NibbleAt(nonce, i)) {
      PairOfNibbles(bytes, i / 2);
      assert NibbleAt(nonce, i) == Nibble(bytes[i]).value;
      NibbleOfDigit(s[i], NibbleAt(nonce, i));
    }
  }

  /** Two digits per byte, high nibble first, in either case. */
  ghost predicate Spells(s: string, nonce: Nonce) {
    && |s| == 32
    && forall i: nat | i < 16 ::
         Lower(s[2 * i]) == HEX_DIGITS[nonce[i] / 16] && Lower(s[2 * i + 1]) == HEX_DIGITS[nonce[i] % 16]
  }

  lemma SpellsDigits(s: string, nonce: Nonce)
    ensures Spells(s, nonce) <==> |s| == 32 && forall i: nat | i < 32 :: Lower(s[i]) == HexDigit(NibbleAt(nonce, i))
  {
    if |s| == 32 {
      forall i: nat | i < 16
        ensures NibbleAt(nonce, 2 * i) == nonce[i] / 16 && NibbleAt(nonce, 2 * i + 1) == nonce[i] % 16
        ensures HexDigit(nonce[i] / 16) == HEX_DIGITS[nonce[i] / 16] && HexDigit(nonce[i] % 16) == HEX_DIGITS[nonce[i] % 16]
      {
        HexDigitIs(nonce[i] / 16);
        HexDigitIs(nonce[i] % 16);
      }
      if Spells(s, nonce) {
        forall i: nat | i < 32 ensures Lower(s[i]) == HexDigit(NibbleAt(nonce, i)) {
          assert i == 2 * (i / 2) || i == 2 * (i / 2) + 1;
          assert Lower(s[2 * (i / 2)]) == HEX_DIGITS[nonce[i / 2] / 16];
        }
      }
    }
  }

  /** Decoding accepts exactly what spells a nonce. */
  lemma HexDecodeExact(s: string, nonce: Nonce)
    ensures HexDecode(s) == Some(nonce) <==> Spells(s, nonce)
  {
    SpellsDigits(s, nonce);
    if HexDecode(s) == Some(nonce) {
      DecodedDigits(s, nonce);
    } else if Spells(s, nonce) {
      HexDigitsDecode(s, nonce);
    }
  }

  predicate IsHexChar(c: char) {
    IsDigit(c) || 'a' <= c <= 'f'
  }

  lemma HexRoundTrip(nonce: Nonce)
    ensures HexDecode(HexOf(nonce)) == Some(nonce)
    ensures |HexOf(nonce)| == 32 && forall i: nat | i < 32 :: IsHexChar(HexOf(nonce)[i])
  {
    forall i: nat | i < 32 ensures Lower(HexOf(nonce)[i]) == HexDigit(NibbleAt(nonce, i)) && IsHexChar(HexOf(nonce)[i]) {
    }
    HexDigitsDecode(HexOf(nonce), nonce);
  }
}

/**
 Saving and loading the replay store (src/nonce_store.rs:165-226): one line `hex:timestamp` per nonce.
 The order of the lines is that of a hash map's iteration, so any.
 */
module NonceText {
  import opened Wrappers
  import opened Numbers
  import opened Text
  import opened NonceStores
  import opened Hex

  type Entry = (Nonce, I64)

  datatype Reason = MissingColon | BadHex | BadTimestamp

  datatype MalformedLine = MalformedLine(lineNo: nat, reason: Reason)

  function LineOf(e: Entry): string {
    HexOf(e.0) + [':'] + ShowInt(e.1)
  }

  function LinesFor(entries: seq<Entry>): (lines: seq<string>)
    ensures |lines| == |entries|
    decreases |entries|
  {
    if entries == [] then [] else LinesFor(entries[..|entries| - 1]) + [LineOf(entries[|entries| - 1])]
  }

  function Body(entries: seq<Entry>): string {
    Unlines(LinesFor(entries))
  }

  /** What one line says: nothing, an entry, or something malformed. */
  function ParseLine(line: string): Result<Option<Entry>, Reason> {
    var trimmed := Trim(line);
    if trimmed == [] then Ok(None)
    else match SplitOnce(trimmed, ':')
      case None => Err(MissingColon)
      case Some((hex, ts)) =>
        match HexDecode(hex)
        case None => Err(BadHex)
        case Some(nonce) =>
          match ParseI64(ts)
          case None => Err(BadTimestamp)
          case Some(t) => Ok(Some((nonce, t)))
  }

  /** The entries of all lines, or the first malformed line. */
  function ParseLines(lines: seq<string>): Result<seq<Entry>, MalformedLine>
    decreases |lines|
  {
    if lines == [] then Ok([])
    else match ParseLines(lines[..|lines| - 1])
      case Err(e) => Err(e)
      case Ok(entries) =>
        match ParseLine(lines[|lines| - 1])
        case Err(reason) => Err(MalformedLine(|lines|, reason))
        case Ok(None) => Ok(entries)
        case Ok(Some(e)) => Ok(entries + [e])
  }

  /** Inserting entries in order: the last one for a nonce stays. */
  function Insert(m: Seen, entries: seq<Entry>): Seen
    decreases |entries|
  {
    if entries == [] then m
    else Insert(m, entries[..|entries| - 1])[entries[|entries| - 1].0 := entries[|entries| - 1].1]
  }

  function Load(raw: string): Result<Seen, MalformedLine> {
    match ParseLines(Lines(raw))
    case Err(e) => Err(e)
    case Ok(entries) => Ok(Insert(map[], entries))
  }

  method PersistBody(snapshot: seq<Entry>) returns (body: string)
    ensures body == Body(snapshot)
  {
    body := "";
    for i := 0 to |snapshot|
      invariant body == Body(snapshot[..i])
    {
      var hex := EncodeHex(snapshot[i].0);
      body := body + (hex + [':'] + ShowInt(snapshot[i].1) + ['\n']);
      BodyOfOneMore(snapshot[..i], snapshot[i]);
      assert snapshot[..i + 1] == snapshot[..i] + [snapshot[i]];
    }
    assert snapshot[..|snapshot|] == snapshot;
  }

  method LoadFrom(raw: string) returns (r: Result<Seen, MalformedLine>)
    ensures r == Load(raw)
  {
    var lines := Lines(raw);
    var entries: seq<Entry> := [];
    for i := 0 to |lines|
      invariant ParseLines(lines[..i]) == Ok(entries)
    {
      assert lines[..i + 1][..i] == lines[..i];
      var parsed := ParseLine(lines[i]);
      if parsed.Err? {
        ErrorsStay(lines, i + 1);
        return Err(MalformedLine(i + 1, parsed.error));
      }
      if parsed.value.Some? {
        entries := entries + [parsed.value.value];
      }
    }
    assert lines[..|lines|] == lines;
    var seen := InsertAll(entries);
    return Ok(seen);
  }

  method InsertAll(entries: seq<Entry>) returns (seen: Seen)
    ensures seen == Insert(map[], entries)
  {
    seen := map[];
    for i := 0 to |entries|
      invariant seen == Insert(map[], entries[..i])
    {
      assert entries[..i + 1][..i] == entries[..i];
      seen := seen[entries[i].0 := entries[i].1];
    }
    assert entries[..|entries|] == entries;
  }

  lemma {:induction false} ErrorsStay(lines: seq<string>, k: nat)
    requires k <= |lines| && ParseLines(lines[..k]).Err?
    ensures ParseLines(lines) == ParseLines(lines[..k])
    decreases |lines|
  {
    if k == |lines| {
      assert lines[..k] == lines;
    } else {
      assert lines[..|lines| - 1][..k] == lines[..k];
      ErrorsStay(lines[..|lines| - 1], k);
    }
  }

  // ---------------------------------------------------------------- the round trip

  lemma BodyOfOneMore(entries: seq<Entry>, e: Entry)
    ensures Body(entries + [e]) == Body(entries) + (LineOf(e) + ['\n'])
  {
    assert (entries + [e])[..|entries|] == entries;
    UnlinesAppends(LinesFor(entries), LineOf(e));
  }

  ghost predicate IsHexString(hex: string) {
    hex != [] && forall i: nat | i < |hex| :: IsHexChar(hex[i])
  }

  ghost predicate IsNumeral(ts: string) {
    ts != [] && forall i: nat | i < |ts| :: IsDigit(ts[i]) || ts[i] == '-'
  }

  lemma LineIsPlain(hex: string, ts: string)
    requires IsHexString(hex) && IsNumeral(ts)
    ensures PlainLine(hex + [':'] + ts)
  {
    var line := hex + [':'] + ts;
    assert line[|line| - 1] == ts[|ts| - 1];
    assert '\n' !in hex && '\n' !in ts;
  }

  lemma LineIsTrimmed(hex: string, ts: string)
    requires IsHexString(hex) && IsNumeral(ts)
    ensures Trim(hex + [':'] + ts) == hex + [':'] + ts
  {
    var line := hex + [':'] + ts;
    assert IsHexChar(hex[0]) && line[0] == hex[0];
    assert line[|line| - 1] == ts[|ts| - 1];
  }

  /** A line of hex characters, a colon and a number is plain and trimmed, and splits at that colon. */
  lemma LineShape(hex: string, ts: string)
    requires IsHexString(hex) && IsNumeral(ts)
    ensures var line := hex + [':'] + ts;
            PlainLine(line) && Trim(line) == line && SplitOnce(line, ':') == Some((hex, ts))
  {
    LineIsPlain(hex, ts);
    LineIsTrimmed(hex, ts);
    assert ':' !in hex;
    SplitOnceAt(hex, ':', ts);
  }

  lemma LineRoundTrip(e: Entry)
    ensures PlainLine(LineOf(e)) && ParseLine(LineOf(e)) == Ok(Some(e))
  {
    HexRoundTrip(e.0);
    ParseShowI64(e.1);
    LineShape(HexOf(e.0), ShowInt(e.1));
  }

  lemma ParseOneMore(lines: seq<string>, line: string, entries: seq<Entry>, e: Entry)
    requires ParseLines(lines) == Ok(entries) && ParseLine(line) == Ok(Some(e))
    ensures ParseLines(lines + [line]) == Ok(entries + [e])
  {
    assert (lines + [line])[..|lines|] == lines;
  }

  lemma {:induction false} LinesParse(entries: seq<Entry>)
    ensures ParseLines(LinesFor(entries)) == Ok(entries)
    decreases |entries|
  {
    if entries != [] {
      var init, e := entries[..|entries| - 1], entries[|entries| - 1];
      assert entries == init + [e];
      LinesParse(init);
      LinesParseOneMore(init, e);
    }
  }

  lemma LinesParseOneMore(init: seq<Entry>, e: Entry)
    requires ParseLines(LinesFor(init)) == Ok(init)
    ensures ParseLines(LinesFor(init + [e])) == Ok(init + [e])
  {
    assert (init + [e])[..|init|] == init;
    LineRoundTrip(e);
    ParseOneMore(LinesFor(init), LineOf(e), init, e);
  }

  lemma {:induction false} LinesArePlain(entries: seq<Entry>, i: nat)
    requires i < |entries|
    ensures PlainLine(LinesFor(entries)[i])
    decreases |entries|
  {
    if i == |entries| - 1 {
      LineRoundTrip(entries[i]);
    } else {
      LinesArePlain(entries[..|entries| - 1], i);
    }
  }

  /** `entries` lists the map, in some order. */
  ghost predicate Enumerates(entries: seq<Entry>, m: Seen) {
    && (forall i: nat | i < |entries| :: entries[i].0 in m && m[entries[i].0] == entries[i].1)
    && (forall n | n in m :: exists i: nat :: i < |entries| && entries[i].0 == n)
  }

  lemma {:induction false} InsertKeeps(entries: seq<Entry>, m: Seen)
    requires forall i: nat | i < |entries| :: entries[i].0 in m && m[entries[i].0] == entries[i].1
    ensures var r := Insert(map[], entries);
            && (forall n | n in r :: n in m && r[n] == m[n])
            && (forall i: nat | i < |entries| :: entries[i].0 in r)
    decreases |entries|
  {
    if entries != [] {
      InsertKeeps(entries[..|entries| - 1], m);
    }
  }

  /**
   Whatever order the map is written in, loading the text gives back exactly the map, so every later
   run of checks and cleanups is answered as if the store had never been written out.
   */
  lemma PersistenceRoundTrip(m: Seen, entries: seq<Entry>, ttl: I64, ops: seq<Op>)
    requires Enumerates(entries, m)
    ensures Load(Body(entries)) == Ok(m)
    ensures Answers(ttl, Load(Body(entries)).value, ops) == Answers(ttl, m, ops)
  {
    LinesParse(entries);
    forall i: nat | i < |entries| ensures PlainLine(LinesFor(entries)[i]) {
      LinesArePlain(entries, i);
    }
    LinesOfUnlines(LinesFor(entries));
    InsertKeeps(entries, m);
    assert Insert(map[], entries) == m;
  }
}
