/**
 The assumptions of the handshake can be met: a codec that writes every number in unary is a round trip
 on all tickets and responses, and with it there is a handshake that passes every check.
 */
module HandshakeWitness {
  import opened Wrappers
  import opened Numbers
  import opened Tickets
  import opened Handshake

  function Unary(n: nat): seq<U8> {
    if n == 0 then [0] else [1] + Unary(n - 1)
  }

  function Size(i: int): nat {
    if i < 0 then -i else i
  }

  function Signed(i: int): seq<U8> {
    [if i < 0 then 1 else 0] + Unary(Size(i))
  }

  function Letters(s: string): seq<U8> {
    if s == [] then [0] else [1] + (Unary(s[0] as int) + Letters(s[1..]))
  }

  /** The claims, followed by `rest`. */
  function ClaimsThen(c: Claims, rest: seq<U8>): seq<U8> {
    Unary(c.version) + (Letters(c.issuer) + (Letters(c.subject) + (Letters(c.relayUrl) + (Letters(c.alpn)
    + (Signed(c.issuedAt) + (Signed(c.expiresAt) + (Letters(c.nonce) + rest)))))))
  }

  function TicketBytes(t: SignedTicket): seq<U8> {
    ClaimsThen(t.claims, Letters(t.signature))
  }

  function ResponseBytes(r: Response): seq<U8> {
    match r
    case Accept(claims) => [0] + ClaimsThen(claims, [])
    case Refuse(kind) => [1] + Letters(kind)
  }

  lemma {:induction false} UnarySplits(a: nat, b: nat, x: seq<U8>, y: seq<U8>)
    requires Unary(a) + x == Unary(b) + y
    ensures a == b && x == y
  {
    var s := Unary(a) + x;
    assert s[0] == Unary(a)[0] == Unary(b)[0];
    assert a == 0 <==> b == 0;
    if a == 0 {
      assert s[1..] == x && s[1..] == y;
    } else {
      assert s[1..] == Unary(a - 1) + x && s[1..] == Unary(b - 1) + y;
      UnarySplits(a - 1, b - 1, x, y);
    }
  }

  lemma SignedSplits(i: int, j: int, x: seq<U8>, y: seq<U8>)
    requires Signed(i) + x == Signed(j) + y
    ensures i == j && x == y
  {
    SignedTail(i, x);
    SignedTail(j, y);
    UnarySplits(Size(i), Size(j), x, y);
  }

  lemma SignedTail(i: int, x: seq<U8>)
    ensures (Signed(i) + x)[0] == (if i < 0 then 1 else 0) && (Signed(i) + x)[1..] == Unary(Size(i)) + x
  {
  }

  lemma {:induction false} LettersSplit(p: string, q: string, x: seq<U8>, y: seq<U8>)
    requires Letters(p) + x == Letters(q) + y
    ensures p == q && x == y
  {
    var s := Letters(p) + x;
    assert s[0] == Letters(p)[0] == Letters(q)[0];
    assert p == [] <==> q == [];
    if p == [] {
      assert s[1..] == x && s[1..] == y;
    } else {
      assert s[1..] == Unary(p[0] as int) + (Letters(p[1..]) + x);
      assert s[1..] == Unary(q[0] as int) + (Letters(q[1..]) + y);
      UnarySplits(p[0] as int, q[0] as int, Letters(p[1..]) + x, Letters(q[1..]) + y);
      LettersSplit(p[1..], q[1..], x, y);
      assert p == [p[0]] + p[1..] && q == [q[0]] + q[1..];
    }
  }

  /** The second half of the claims, followed by `rest`. */
  function TimesThen(c: Claims, rest: seq<U8>): seq<U8> {
    Signed(c.issuedAt) + (Signed(c.expiresAt) + (Letters(c.nonce) + rest))
  }

  lemma TimesSplit(c: Claims, e: Claims, x: seq<U8>, y: seq<U8>)
    requires TimesThen(c, x) == TimesThen(e, y)
    ensures c.issuedAt == e.issuedAt && c.expiresAt == e.expiresAt && c.nonce == e.nonce && x == y
  {
    SignedSplits(c.issuedAt, e.issuedAt, Signed(c.expiresAt) + (Letters(c.nonce) + x), Signed(e.expiresAt) + (Letters(e.nonce) + y));
    SignedSplits(c.expiresAt, e.expiresAt, Letters(c.nonce) + x, Letters(e.nonce) + y);
    LettersSplit(c.nonce, e.nonce, x, y);
  }

  function NamesThen(c: Claims, rest: seq<U8>): seq<U8> {
    Letters(c.subject) + (Letters(c.relayUrl) + (Letters(c.alpn) + rest))
  }

  lemma NamesSplit(c: Claims, e: Claims, x: seq<U8>, y: seq<U8>)
    requires NamesThen(c, x) == NamesThen(e, y)
    ensures c.subject == e.subject && c.relayUrl == e.relayUrl && c.alpn == e.alpn && x == y
  {
    LettersSplit(c.subject, e.subject, Letters(c.relayUrl) + (Letters(c.alpn) + x), Letters(e.relayUrl) + (Letters(e.alpn) + y));
    LettersSplit(c.relayUrl, e.relayUrl, Letters(c.alpn) + x, Letters(e.alpn) + y);
    LettersSplit(c.alpn, e.alpn, x, y);
  }

  lemma ClaimsSplit(c: Claims, e: Claims, x: seq<U8>, y: seq<U8>)
    requires ClaimsThen(c, x) == ClaimsThen(e, y)
    ensures c == e && x == y
  {
    var u, v := NamesThen(c, TimesThen(c, x)), NamesThen(e, TimesThen(e, y));
    assert ClaimsThen(c, x) == Unary(c.version) + (Letters(c.issuer) + u);
    assert ClaimsThen(e, y) == Unary(e.version) + (Letters(e.issuer) + v);
    UnarySplits(c.version, e.version, Letters(c.issuer) + u, Letters(e.issuer) + v);
    LettersSplit(c.issuer, e.issuer, u, v);
    NamesSplit(c, e, TimesThen(c, x), TimesThen(e, y));
    TimesSplit(c, e, x, y);
  }

  lemma TicketsDiffer(t: SignedTicket, u: SignedTicket)
    requires TicketBytes(t) == TicketBytes(u)
    ensures t == u
  {
    ClaimsSplit(t.claims, u.claims, Letters(t.signature), Letters(u.signature));
    assert Letters(t.signature) + [] == Letters(u.signature) + [];
    LettersSplit(t.signature, u.signature, [], []);
  }

  lemma ResponsesDiffer(r: Response, q: Response)
    requires ResponseBytes(r) == ResponseBytes(q)
    ensures r == q
  {
    var s := ResponseBytes(r);
    match r
    case Accept(c) =>
      assert s[1..] == ClaimsThen(c, []) && q.Accept?;
      assert s[1..] == ClaimsThen(q.claims, []);
      ClaimsSplit(c, q.claims, [], []);
    case Refuse(kind) =>
      assert s[1..] == Letters(kind) && q.Refuse?;
      assert s[1..] == Letters(q.kind);
      assert Letters(kind) + [] == Letters(q.kind) + [];
      LettersSplit(kind, q.kind, [], []);
  }

  ghost function TicketOf(bytes: seq<U8>): Option<SignedTicket> {
    if exists t :: TicketBytes(t) == bytes then (var t :| TicketBytes(t) == bytes; Some(t)) else None
  }

  ghost function ResponseOf(bytes: seq<U8>): Option<Response> {
    if exists r :: ResponseBytes(r) == bytes then (var r :| ResponseBytes(r) == bytes; Some(r)) else None
  }

  ghost function UnaryCodec(): Codec {
    Codec(TicketBytes, TicketOf, ResponseBytes, ResponseOf)
  }

  /** There is a codec that is a round trip on every ticket and every response. */
  lemma UnaryCodecRoundTrips()
    ensures RoundTrips(UnaryCodec())
  {
    forall t ensures TicketOf(TicketBytes(t)) == Some(t) {
      var u := TicketOf(TicketBytes(t)).value;
      TicketsDiffer(t, u);
    }
    forall r ensures ResponseOf(ResponseBytes(r)) == Some(r) {
      var q := ResponseOf(ResponseBytes(r)).value;
      ResponsesDiffer(r, q);
    }
  }

  /** A scheme that verifies everything, and a ticket good until time zero. */
  ghost function PlainSetup(): Setup {
    var scheme := Scheme(
      (sk: SecretKey) => sk, (pk: PublicKey) => "", (c: Claims) => "",
      (sk: SecretKey, text: string) => "", (s: string) => true, (pk: PublicKey, text: string, s: string) => true);
    Setup(Gate(scheme, UnaryCodec(), "", "", n => true, 0),
          SignedTicket(Claims(TICKET_VERSION, "", "", "", "", 0, 0, ""), ""))
  }

  /** The handshake's assumptions hold of a setup whose ticket is acceptable. */
  lemma HandshakeIsPossible()
    ensures var x := PlainSetup();
            Faithful(x) && Correct(x.gate.scheme) && Acceptable(x.gate, x.ticket)
  {
    var x := PlainSetup();
    UnaryCodecRoundTrips();
    var c := x.ticket.claims;
    assert |Letters("")| == 1 && |Signed(0)| == 2 && |Unary(1)| == 2;
    assert |TicketBytes(x.ticket)| <= 20 && |ResponseBytes(Accept(c))| <= 20;
    assert TicketOf(TicketBytes(x.ticket)) == Some(x.ticket);
  }
}
