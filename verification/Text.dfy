/** The string operations of the standard library that the text formats rely on. */
module Text {
  import opened Wrappers
  import opened Numbers

  /** `char::is_whitespace`: the White_Space property of Unicode. */
  predicate IsSpace(c: char) {
    var u := c as int;
    9 <= u <= 13 || u == 0x20 || u == 0x85 || u == 0xA0 || u == 0x1680 || 0x2000 <= u <= 0x200A
    || u == 0x2028 || u == 0x2029 || u == 0x202F || u == 0x205F || u == 0x3000
  }

  predicate Trimmed(s: string) {
    s == [] || (!IsSpace(s[0]) && !IsSpace(s[|s| - 1]))
  }

  function TrimStart(s: string): (r: string)
    ensures r == [] || !IsSpace(r[0])
    ensures forall c | c in r :: c in s
    ensures s != [] && r != [] ==> r[|r| - 1] == s[|s| - 1]
  {
    if s != [] && IsSpace(s[0]) then TrimStart(s[1..]) else s
  }

  function TrimEnd(s: string): (r: string)
    ensures r <= s
    ensures r == [] || !IsSpace(r[|r| - 1])
  {
    if s != [] && IsSpace(s[|s| - 1]) then TrimEnd(s[..|s| - 1]) else s
  }

  function Trim(s: string): (r: string)
    ensures Trimmed(r)
    ensures forall c | c in r :: c in s
    ensures Trimmed(s) ==> r == s
  {
    TrimEnd(TrimStart(s))
  }

  lemma TrimLeadingSpace(s: string)
    ensures Trim([' '] + s) == Trim(s)
  {
    assert ([' '] + s)[1..] == s;
  }

  lemma TrimTrailingSpace(s: string)
    requires Trimmed(s)
    ensures Trim(s + [' ']) == s
  {
    assert (s + [' '])[..|s|] == s;
    if s == [] {
      assert s + [' '] == [' '] && [' '][1..] == [];
    } else {
      assert (s + [' '])[0] == s[0];
      assert TrimStart(s + [' ']) == s + [' '] && TrimEnd(s) == s;
    }
  }

  predicate AllSpace(s: string) {
    forall i: nat | i < |s| :: IsSpace(s[i])
  }

  lemma {:induction false} TrimStartExact(s: string)
    ensures var k := |s| - |TrimStart(s)|; 0 <= k && AllSpace(s[..k]) && s[k..] == TrimStart(s)
  {
    if s != [] && IsSpace(s[0]) {
      TrimStartExact(s[1..]);
      var k := |s| - |TrimStart(s)|;
      assert s[..k] == [s[0]] + s[1..][..k - 1] && s[k..] == s[1..][k - 1..];
    }
  }

  lemma {:induction false} TrimEndExact(s: string)
    ensures AllSpace(s[|TrimEnd(s)|..])
  {
    if s != [] && IsSpace(s[|s| - 1]) {
      TrimEndExact(s[..|s| - 1]);
      assert s[|TrimEnd(s)|..] == s[..|s| - 1][|TrimEnd(s)|..] + [s[|s| - 1]];
    }
  }

  /** Trimming takes off white space at both ends, and nothing else. */
  lemma TrimExact(s: string) returns (before: string, after: string)
    ensures s == before + Trim(s) + after && AllSpace(before) && AllSpace(after)
  {
    var start := TrimStart(s);
    TrimStartExact(s);
    TrimEndExact(start);
    before, after := s[..|s| - |start|], start[|Trim(s)|..];
    assert start == Trim(s) + after && s == before + start;
  }

  /** `s` is cut at the first occurrence of `c`. */
  ghost predicate CutsAt(s: string, c: char, a: string, b: string) {
    s == a + [c] + b && c !in a
  }

  lemma CutIsSplit(s: string, c: char, a: string, b: string)
    ensures CutsAt(s, c, a, b) <==> SplitOnce(s, c) == Some((a, b))
  {
    if CutsAt(s, c, a, b) {
      SplitOnceAt(a, c, b);
    }
  }

  /** `split_once`: around the first occurrence of `c`. */
  function SplitOnce(s: string, c: char): (r: Option<(string, string)>)
    ensures r.None? <==> c !in s
    ensures r.Some? ==> s == r.value.0 + [c] + r.value.1 && c !in r.value.0
  {
    if s == [] then None
    else if s[0] == c then Some(([], s[1..]))
    else match SplitOnce(s[1..], c)
      case None => None
      case Some((a, b)) => Some(([s[0]] + a, b))
  }

  lemma {:induction false} SplitOnceAt(a: string, c: char, b: string)
    requires c !in a
    ensures SplitOnce(a + [c] + b, c) == Some((a, b))
  {
    var s := a + [c] + b;
    if a == [] {
      assert s[1..] == b;
    } else {
      assert s[1..] == a[1..] + [c] + b;
      SplitOnceAt(a[1..], c, b);
      assert [a[0]] + a[1..] == a && s[0] == a[0];
    }
  }

  function StripCr(s: string): string {
    if s != [] && s[|s| - 1] == '\r' then s[..|s| - 1] else s
  }

  /** `lines`: a line ends with a newline, or a return and a newline; the last one may lack it. */
  function Lines(s: string): (r: seq<string>)
    ensures forall i: nat | i < |r| :: '\n' !in r[i]
    decreases |s|
  {
    if s == [] then []
    else match SplitOnce(s, '\n')
      case None => [s]
      case Some((a, b)) => [StripCr(a)] + Lines(b)
  }

  /** A line that `lines` gives back as it is. */
  predicate PlainLine(s: string) {
    '\n' !in s && StripCr(s) == s
  }

  /** Every line followed by a newline. */
  function Unlines(lines: seq<string>): string
    decreases |lines|
  {
    if lines == [] then [] else lines[0] + ['\n'] + Unlines(lines[1..])
  }

  lemma {:induction false} UnlinesAppends(lines: seq<string>, line: string)
    ensures Unlines(lines + [line]) == Unlines(lines) + (line + ['\n'])
    decreases |lines|
  {
    if lines == [] {
      assert (lines + [line])[1..] == [];
      assert Unlines([]) == [];
    } else {
      assert (lines + [line])[1..] == lines[1..] + [line];
      UnlinesAppends(lines[1..], line);
    }
  }

  /** Reading lines undoes writing them. */
  lemma {:induction false} LinesOfUnlines(lines: seq<string>)
    requires forall i: nat | i < |lines| :: PlainLine(lines[i])
    ensures Lines(Unlines(lines)) == lines
    decreases |lines|
  {
    if lines != [] {
      assert PlainLine(lines[0]);
      assert forall i: nat | i < |lines[1..]| :: lines[1..][i] == lines[i + 1];
      LinesOfUnlines(lines[1..]);
      SplitOnceAt(lines[0], '\n', Unlines(lines[1..]));
    }
  }

  /** What lines are: up to each newline, without a return before it, and the rest of the text if there is any. */
  lemma LinesExact(a: string, b: string)
    requires '\n' !in a
    ensures Lines([]) == []
    ensures a != [] ==> Lines(a) == [a]
    ensures a == [] || a[|a| - 1] != '\r' ==> Lines(a + ['\n'] + b) == [a] + Lines(b)
    ensures Lines((a + ['\r']) + ['\n'] + b) == [a] + Lines(b)
  {
    SplitOnceAt(a, '\n', b);
    SplitOnceAt(a + ['\r'], '\n', b);
    assert (a + ['\r'])[..|a|] == a;
  }

  // ---------------------------------------------------------------- decimal integers

  predicate IsDigit(c: char) {
    '0' <= c <= '9'
  }

  function ShowNat(n: nat): (s: string)
    ensures s != [] && forall i: nat | i < |s| :: IsDigit(s[i])
    ensures 0 < n ==> s[0] != '0'
  {
    if n < 10 then [(n + 48) as char] else ShowNat(n / 10) + [(n % 10 + 48) as char]
  }

  function ShowInt(n: int): string {
    if n < 0 then ['-'] + ShowNat(-n) else ShowNat(n)
  }

  /** The value of a string of digits; None on the empty string or any other character. */
  function Digits(s: string): Option<nat>
    decreases |s|
  {
    if s == [] || !IsDigit(s[|s| - 1]) then None
    else
      var d := s[|s| - 1] as int - 48;
      if |s| == 1 then Some(d)
      else match Digits(s[..|s| - 1])
        case None => None
        case Some(n) => Some(10 * n + d)
  }

  lemma {:induction false} DigitsOfShow(n: nat)
    ensures Digits(ShowNat(n)) == Some(n)
  {
    var s := ShowNat(n);
    if n >= 10 {
      DigitsOfShow(n / 10);
      assert s[..|s| - 1] == ShowNat(n / 10);
    }
  }

  /** The value of digits read from the left, after `n` was read. */
  function ValueFrom(n: nat, s: string): int
    decreases |s|
  {
    if s == [] then n
    else if '0' <= s[0] then ValueFrom(10 * n + (s[0] as int - '0' as int), s[1..])
    else 0
  }

  /** A nonempty string of decimal digits with the value n; leading zeros are allowed. */
  ghost predicate Numeral(s: string, n: int) {
    s != [] && (forall i: nat | i < |s| :: '0' <= s[i] <= '9') && ValueFrom(0, s) == n
  }

  lemma {:induction false} ValueOfOneMore(n: nat, s: string, c: char)
    requires '0' <= c <= '9' && forall i: nat | i < |s| :: '0' <= s[i] <= '9'
    ensures ValueFrom(n, s + [c]) == 10 * ValueFrom(n, s) + (c as int - '0' as int)
    decreases |s|
  {
    if s == [] {
      assert ([] + [c])[1..] == [];
      assert [] + [c] == [c];
    } else {
      assert (s + [c])[1..] == s[1..] + [c] && (s + [c])[0] == s[0];
      ValueOfOneMore(10 * n + (s[0] as int - '0' as int), s[1..], c);
    }
  }

  lemma {:induction false} DigitsExact(s: string, n: nat)
    ensures Digits(s) == Some(n) <==> Numeral(s, n)
    ensures Digits(s).None? <==> s == [] || exists i: nat :: i < |s| && !('0' <= s[i] <= '9')
    decreases |s|
  {
    if s != [] {
      var init, c := s[..|s| - 1], s[|s| - 1];
      assert s == init + [c];
      if IsDigit(c) {
        assert '0' <= s[|s| - 1] <= '9';
        if |s| == 1 {
          assert init == [] && ValueFrom(0, [c]) == ValueFrom(c as int - 48, [c][1..]) && [c][1..] == [];
        } else {
          var d := c as int - 48;
          DigitsExact(init, if Digits(init).Some? then Digits(init).value else 0);
          if Digits(init).Some? {
            assert forall i: nat | i < |init| :: init[i] == s[i];
            ValueOfOneMore(0, init, c);
          } else {
            var i: nat :| i < |init| && !('0' <= init[i] <= '9');
            assert s[i] == init[i];
          }
        }
      } else {
        assert !('0' <= s[|s| - 1] <= '9');
      }
    }
  }

  /** `str::parse::<i64>`: an optional sign, then digits, within range. */
  function ParseI64(s: string): Option<I64> {
    var digits := if s != [] && (s[0] == '+' || s[0] == '-') then Digits(s[1..]) else Digits(s);
    if digits.None? then None
    else
      var d: int := digits.value;
      var n := if s[0] == '-' then -d else d;
      if I64_MIN <= n <= I64_MAX then Some(n) else None
  }

  /** `str::parse::<u32>`: an optional plus, then digits, within range. */
  function ParseU32(s: string): Option<U32> {
    var digits := if s != [] && s[0] == '+' then Digits(s[1..]) else Digits(s);
    if digits.Some? && digits.value <= U32_MAX then Some(digits.value) else None
  }

  /** A u32 is read from an optional plus and a numeral of at most 4294967295, and from nothing else. */
  lemma ParseU32Exact(s: string, n: U32)
    ensures ParseU32(s) == Some(n) <==> Numeral(if s != [] && s[0] == '+' then s[1..] else s, n)
    ensures ParseU32(s).Some? ==> ParseU32(s).value <= 0xffff_ffff
  {
    DigitsExact(if s != [] && s[0] == '+' then s[1..] else s, n);
  }

  /** An i64 is read from an optional sign and a numeral, and from nothing else; the value is within 64 bits. */
  lemma ParseI64Exact(s: string, n: I64)
    ensures ParseI64(s) == Some(n)
       <==> s != [] && if s[0] == '-' then Numeral(s[1..], -(n as int)) else Numeral(if s[0] == '+' then s[1..] else s, n)
  {
    if s != [] {
      var i: int := n;
      var text := if s[0] == '+' || s[0] == '-' then s[1..] else s;
      DigitsExact(text, if i < 0 then -i else i);
      if Digits(text).Some? {
        DigitsExact(text, Digits(text).value);
      }
    }
  }

  lemma ParseShowI64(n: I64)
    ensures ParseI64(ShowInt(n)) == Some(n)
  {
    var i: int := n;
    DigitsOfShow(if i < 0 then -i else i);
    if i < 0 {
      assert ShowInt(i)[1..] == ShowNat(-i);
    }
  }

  lemma ParseShowU32(n: U32)
    ensures ParseU32(ShowNat(n)) == Some(n)
  {
    DigitsOfShow(n);
  }

  // ---------------------------------------------------------------- UTF-8

  /** The bytes of one character, section 3 of RFC 3629. */
  function EncodeChar(c: char): (r: seq<U8>)
    ensures 1 <= |r| <= 4
    ensures (c as int < 0x80 && r == [c as int]) || (c as int >= 0x80 && r[0] >= 0x80)
  {
    var u := c as int;
    if u < 0x80 then [u]
    else if u < 0x800 then [0xC0 + u / 0x40, 0x80 + u % 0x40]
    else if u < 0x10000 then [0xE0 + u / 0x1000, 0x80 + u / 0x40 % 0x40, 0x80 + u % 0x40]
    else [0xF0 + u / 0x40000 % 8, 0x80 + u / 0x1000 % 0x40, 0x80 + u / 0x40 % 0x40, 0x80 + u % 0x40]
  }

  /** `str::as_bytes`. */
  function Utf8(s: string): seq<U8> {
    if s == [] then [] else EncodeChar(s[0]) + Utf8(s[1..])
  }
}
