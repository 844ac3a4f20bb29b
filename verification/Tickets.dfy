/**
 Tickets (src/lib.rs:54-220), over an abstract signature scheme.

 Keys, signatures and payloads are strings. What is used of the scheme is that a signature made with
 a secret key is well encoded and verifies under its public key.
 */
module Tickets {
  import opened Wrappers
  import opened Nodes
  import opened Numbers

  type SecretKey = string
  type PublicKey = string

  const TICKET_VERSION: U8 := 1

  datatype Claims = Claims(
    version: U8, issuer: NodeId, subject: NodeId, relayUrl: string, alpn: string,
    issuedAt: I64, expiresAt: I64, nonce: string)

  datatype SignedTicket = SignedTicket(claims: Claims, signature: string)

  datatype TicketError = InvalidSignatureEncoding | InvalidSignature | Expired | UnsupportedVersion(version: U8)

  datatype Scheme = Scheme(
    publicOf: SecretKey -> PublicKey,
    nodeOf: PublicKey -> NodeId,
    payload: Claims -> string,
    sign: (SecretKey, string) -> string,
    encoded: string -> bool,
    verifies: (PublicKey, string, string) -> bool)

  ghost predicate Correct(x: Scheme) {
    forall sk, text :: x.encoded(x.sign(sk, text)) && x.verifies(x.publicOf(sk), text, x.sign(sk, text))
  }

  function SignTicket(x: Scheme, claims: Claims, sk: SecretKey): SignedTicket {
    SignedTicket(claims, x.sign(sk, x.payload(claims)))
  }

  /** None when the expiry does not fit in 64 bits. */
  function IssueTicket(x: Scheme, sk: SecretKey, subject: Option<PublicKey>, relayUrl: string, alpn: string,
                       ttl: I64, now: I64, nonce: string): Option<SignedTicket> {
    var issuer := x.nodeOf(x.publicOf(sk));
    var about := x.nodeOf(if subject.Some? then subject.value else x.publicOf(sk));
    if I64_MIN <= now + ttl <= I64_MAX
    then Some(SignTicket(x, Claims(TICKET_VERSION, issuer, about, relayUrl, alpn, now, now + ttl, nonce), sk))
    else None
  }

  /** A ticket of this version, within its time, whose signature under the key is on these very claims. */
  ghost predicate Genuine(x: Scheme, t: SignedTicket, key: PublicKey, now: I64) {
    && t.claims.version == 1
    && now <= t.claims.expiresAt
    && x.encoded(t.signature)
    && x.verifies(key, x.payload(t.claims), t.signature)
  }

  /** Exactly genuine tickets verify, and every other one is refused for the first thing wrong with it. */
  function VerifyTicket(x: Scheme, ticket: SignedTicket, key: PublicKey, now: I64): (r: Result<Claims, TicketError>)
    ensures r.Ok? <==> Genuine(x, ticket, key, now)
    ensures r.Ok? ==> r.value == ticket.claims
    ensures r.Err? && r.error.UnsupportedVersion? <==> ticket.claims.version != 1
    ensures r.Err? && r.error.UnsupportedVersion? ==> r.error.version == ticket.claims.version
    ensures r == Err(Expired) <==> ticket.claims.version == 1 && ticket.claims.expiresAt < now
    ensures r == Err(InvalidSignatureEncoding)
       <==> ticket.claims.version == 1 && now <= ticket.claims.expiresAt && !x.encoded(ticket.signature)
  {
    if ticket.claims.version != TICKET_VERSION then Err(UnsupportedVersion(ticket.claims.version))
    else if now > ticket.claims.expiresAt then Err(Expired)
    else if !x.encoded(ticket.signature) then Err(InvalidSignatureEncoding)
    else if !x.verifies(key, x.payload(ticket.claims), ticket.signature) then Err(InvalidSignature)
    else Ok(ticket.claims)
  }

  /**
   An issued ticket names its issuer, its subject and its times, and it verifies under the issuer's key up to
   and including its expiry, and never after.
   */
  lemma IssuedTicketVerifies(x: Scheme, sk: SecretKey, subject: Option<PublicKey>, relayUrl: string, alpn: string,
                             ttl: I64, now: I64, nonce: string, later: I64)
    requires Correct(x)
    ensures var t := IssueTicket(x, sk, subject, relayUrl, alpn, ttl, now, nonce);
            && (t.Some? <==> I64_MIN <= now + ttl <= I64_MAX)
            && (t.Some? ==>
              && t.value.claims == Claims(1, x.nodeOf(x.publicOf(sk)),
                                          x.nodeOf(if subject.None? then x.publicOf(sk) else subject.value),
                                          relayUrl, alpn, now, now + ttl, nonce)
              && (VerifyTicket(x, t.value, x.publicOf(sk), later) == Ok(t.value.claims) <==> later - now <= ttl)
              && (later - now > ttl ==> VerifyTicket(x, t.value, x.publicOf(sk), later) == Err(Expired)))
  {
    var t := IssueTicket(x, sk, subject, relayUrl, alpn, ttl, now, nonce);
    if t.Some? {
      var text := x.payload(t.value.claims);
      assert x.encoded(x.sign(sk, text)) && x.verifies(x.publicOf(sk), text, x.sign(sk, text));
    }
  }
}
