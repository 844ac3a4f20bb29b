/**
 The ticket handshake (src/session.rs:165-261): `client_handshake` and `server_handshake` as two
 processes joined by two byte streams.

 A step lets one side take its next action; a read or a write moves some number of bytes of its
 choosing, so every fragmentation is a run. Either side may also break off at any point, as any
 transport error makes it do. The client writes its ticket as one frame and waits for one frame;
 the server reads a frame, checks the ticket in it, and answers only when every check passed: the
 error replies of the source are futures that are dropped unpolled, so they write nothing.
 */
module Handshake {
  import opened Wrappers
  import opened Nodes
  import opened Numbers
  import opened Pieces
  import opened Tickets
  import opened Frames

  datatype Response = Accept(claims: Claims) | Refuse(kind: string)

  datatype Codec = Codec(
    ticketBytes: SignedTicket -> seq<U8>,
    ticketOf: seq<U8> -> Option<SignedTicket>,
    responseBytes: Response -> seq<U8>,
    responseOf: seq<U8> -> Option<Response>)

  /** Decoding undoes encoding. */
  ghost predicate RoundTrips(c: Codec) {
    && (forall t :: c.ticketOf(c.ticketBytes(t)) == Some(t))
    && (forall r :: c.responseOf(c.responseBytes(r)) == Some(r))
  }

  /** What the server is given. */
  datatype Gate = Gate(
    scheme: Scheme, codec: Codec,
    issuerKey: PublicKey, subjectKey: PublicKey, trusted: NodeId -> bool, now: I64)

  /** What the two sides are given. */
  datatype Setup = Setup(gate: Gate, ticket: SignedTicket)

  /** The codec is a round trip, and the two bodies of this handshake have lengths that a prefix can hold. */
  ghost predicate Faithful(x: Setup) {
    && RoundTrips(x.gate.codec)
    && Fits(x.gate.codec.ticketBytes(x.ticket))
    && Fits(x.gate.codec.responseBytes(Accept(x.ticket.claims)))
  }

  datatype Summary = Summary(issuer: NodeId, subject: NodeId, relayUrl: string, alpn: string, expiresAt: I64)

  datatype Refusal = Malformed | BadTicket(error: TicketError) | IssuerNotTrusted | SubjectMismatch

  function SummaryOf(c: Claims): Summary {
    Summary(c.issuer, c.subject, c.relayUrl, c.alpn, c.expiresAt)
  }

  /** A ticket the server may accept: genuine, from a trusted issuer, and for the peer it expects. */
  ghost predicate Acceptable(g: Gate, t: SignedTicket) {
    && Genuine(g.scheme, t, g.issuerKey, g.now)
    && g.trusted(t.claims.issuer)
    && t.claims.subject == g.scheme.nodeOf(g.subjectKey)
  }

  /** The server's checks on the body it read, in order: exactly acceptable tickets pass, with their own claims. */
  function Verdict(g: Gate, body: seq<U8>): (r: Result<Claims, Refusal>)
    ensures r.Ok? <==> g.codec.ticketOf(body).Some? && Acceptable(g, g.codec.ticketOf(body).value)
    ensures r.Ok? ==> r.value == g.codec.ticketOf(body).value.claims
    ensures r == Err(Malformed) <==> g.codec.ticketOf(body).None?
    ensures r.Err? && r.error.BadTicket?
       <==> g.codec.ticketOf(body).Some? && !Genuine(g.scheme, g.codec.ticketOf(body).value, g.issuerKey, g.now)
    ensures r == Err(IssuerNotTrusted)
       <==> && g.codec.ticketOf(body).Some? && Genuine(g.scheme, g.codec.ticketOf(body).value, g.issuerKey, g.now)
            && !g.trusted(g.codec.ticketOf(body).value.claims.issuer)
  {
    match g.codec.ticketOf(body)
    case None => Err(Malformed)
    case Some(ticket) =>
      match VerifyTicket(g.scheme, ticket, g.issuerKey, g.now)
      case Err(e) => Err(BadTicket(e))
      case Ok(claims) =>
        if !g.trusted(claims.issuer) then Err(IssuerNotTrusted)
        else if claims.subject != g.scheme.nodeOf(g.subjectKey) then Err(SubjectMismatch)
        else Ok(claims)
  }

  // ---------------------------------------------------------------- reading one frame

  datatype Pipe = Pipe(flight: seq<U8>, fin: bool)

  /** Where a side is in reading a frame: in the header, or in a body of known length. */
  datatype Reader = Header(got: seq<U8>) | Body(len: nat, got: seq<U8>)

  datatype Read = Waits | Ended | Goes(reader: Reader, pipe: Pipe) | Complete(body: seq<U8>)

  /** One `read` of the two `read_exact` calls, of about n bytes; it waits for bytes, or ends with the stream. */
  function ReadStep(r: Reader, p: Pipe, n: nat): Read {
    match r
    case Header(got) =>
      if |got| >= 8 then Goes(Body(FromBigEndian(got), []), p)
      else if p.flight == [] then (if p.fin then Ended else Waits)
      else
        var k := Piece(n, Least(8 - |got|, |p.flight|));
        Goes(Header(got + p.flight[..k]), p.(flight := p.flight[k..]))
    case Body(len, got) =>
      if |got| >= len then Complete(got)
      else if p.flight == [] then (if p.fin then Ended else Waits)
      else
        var k := Piece(n, Least(len - |got|, |p.flight|));
        Goes(Body(len, got + p.flight[..k]), p.(flight := p.flight[k..]))
  }

  /** What was read and what is still coming is the start of the frame of `body`; all of it, when `whole`. */
  ghost predicate Reading(r: Reader, coming: seq<U8>, body: seq<U8>, whole: bool) {
    match r
    case Header(got) =>
      |got| <= 8 && got + coming <= Frame(body) && (whole ==> got + coming == Frame(body))
    case Body(len, got) =>
      len == |body| && |got| <= len && got + coming <= body && (whole ==> got + coming == body)
  }

  lemma Taken(got: seq<U8>, flight: seq<U8>, unsent: seq<U8>, k: nat)
    requires k <= |flight|
    ensures (got + flight[..k]) + (flight[k..] + unsent) == got + (flight + unsent)
  {
    assert flight[..k] + flight[k..] == flight;
  }

  lemma Put(flight: seq<U8>, rest: seq<U8>, k: nat)
    requires k <= |rest|
    ensures (flight + rest[..k]) + rest[k..] == flight + rest
  {
    assert rest[..k] + rest[k..] == rest;
  }

  /** Eight bytes of a frame tell the length of the rest. */
  lemma HeaderRead(got: seq<U8>, coming: seq<U8>, body: seq<U8>)
    requires Fits(body) && |got| == 8 && got + coming <= Frame(body)
    ensures FromBigEndian(got) == |body| && coming <= body
    ensures got + coming == Frame(body) ==> coming == body
  {
    var frame := Frame(body);
    assert got == frame[..8] by {
      assert got == (got + coming)[..8];
    }
    PrefixTellsLength(body);
    assert coming == (got + coming)[8..];
    assert frame[8..] == body;
  }

  /** However it is cut up, a frame is read as the body that was sent, and in full. */
  lemma ReadKeeps(r: Reader, p: Pipe, n: nat, unsent: seq<U8>, body: seq<U8>, whole: bool)
    requires Fits(body) && Reading(r, p.flight + unsent, body, whole)
    ensures match ReadStep(r, p, n)
            case Goes(r', p') => Reading(r', p'.flight + unsent, body, whole) && p'.fin == p.fin
            case Complete(b) => b == body
            case Ended => p.flight == [] && p.fin && (unsent == [] ==> !whole)
            case Waits => p.flight == [] && !p.fin && (unsent == [] ==> !whole)
  {
    var coming := p.flight + unsent;
    match r
    case Header(got) =>
      if |got| == 8 {
        HeaderRead(got, coming, body);
        assert [] + coming == coming;
      } else if p.flight != [] {
        Taken(got, p.flight, unsent, Piece(n, Least(8 - |got|, |p.flight|)));
      }
    case Body(len, got) =>
      if |got| == len {
        assert got == (got + coming)[..len];
      } else if p.flight != [] {
        Taken(got, p.flight, unsent, Piece(n, Least(len - |got|, |p.flight|)));
      }
  }

  // ---------------------------------------------------------------- the two sides

  datatype Client =
    | ClientSends(rest: seq<U8>)
    | ClientFinishes
    | ClientReads(reader: Reader)
    | ClientDone(result: Option<Summary>)

  /** `checked` is the summary the server holds once its checks have passed, whatever happens after. */
  datatype Server =
    | ServerReads(reader: Reader)
    | ServerReplies(rest: seq<U8>, summary: Summary)
    | ServerFinishes(summary: Summary)
    | ServerDone(result: Option<Summary>, checked: Option<Summary>)

  datatype State = State(client: Client, server: Server, up: Pipe, down: Pipe)

  datatype Step = ClientMoves(n: nat) | ServerMoves(n: nat) | ClientBreaks | ServerBreaks

  function Init(x: Setup): State {
    State(ClientSends(Frame(x.gate.codec.ticketBytes(x.ticket))), ServerReads(Header([])), Pipe([], false), Pipe([], false))
  }

  /** The client's reading of the response: Ok exactly for an acceptance, with the summary of its claims. */
  function ClientResult(x: Setup, body: seq<U8>): (r: Option<Summary>)
    ensures r.Some? <==> x.gate.codec.responseOf(body).Some? && x.gate.codec.responseOf(body).value.Accept?
    ensures r.Some? ==>
              var c := x.gate.codec.responseOf(body).value.claims;
              r.value == Summary(c.issuer, c.subject, c.relayUrl, c.alpn, c.expiresAt)
  {
    match x.gate.codec.responseOf(body)
    case Some(Accept(claims)) => Some(SummaryOf(claims))
    case _ => None
  }

  function ClientNext(x: Setup, s: State, n: nat): State {
    match s.client
    case ClientSends(rest) =>
      if rest == [] then s.(client := ClientFinishes)
      else
        var k := Piece(n, |rest|);
        s.(client := ClientSends(rest[k..]), up := s.up.(flight := s.up.flight + rest[..k]))
    case ClientFinishes => s.(client := ClientReads(Header([])), up := s.up.(fin := true))
    case ClientReads(reader) =>
      (match ReadStep(reader, s.down, n)
       case Waits => s
       case Ended => s.(client := ClientDone(None))
       case Goes(r, p) => s.(client := ClientReads(r), down := p)
       case Complete(body) => s.(client := ClientDone(ClientResult(x, body))))
    case ClientDone(_) => s
  }

  function ServerNext(g: Gate, s: State, n: nat): State {
    match s.server
    case ServerReads(reader) =>
      (match ReadStep(reader, s.up, n)
       case Waits => s
       case Ended => ServerQuits(s, None)
       case Goes(r, p) => s.(server := ServerReads(r), up := p)
       case Complete(body) =>
         match Verdict(g, body)
         case Err(_) => ServerQuits(s, None)
         case Ok(claims) =>
           s.(server := ServerReplies(Frame(g.codec.responseBytes(Accept(claims))), SummaryOf(claims))))
    case ServerReplies(rest, summary) =>
      if rest == [] then s.(server := ServerFinishes(summary))
      else
        var k := Piece(n, |rest|);
        s.(server := ServerReplies(rest[k..], summary), down := s.down.(flight := s.down.flight + rest[..k]))
    case ServerFinishes(summary) =>
      s.(server := ServerDone(Some(summary), Some(summary)), down := s.down.(fin := true))
    case ServerDone(_, _) => s
  }

  /** The server returns an error and its streams are dropped. */
  function ServerQuits(s: State, checked: Option<Summary>): State {
    s.(server := ServerDone(None, checked), down := s.down.(fin := true))
  }

  function Next(x: Setup, s: State, step: Step): State {
    match step
    case ClientMoves(n) => ClientNext(x, s, n)
    case ServerMoves(n) => ServerNext(x.gate, s, n)
    case ClientBreaks =>
      if s.client.ClientDone? then s else s.(client := ClientDone(None), up := s.up.(fin := true))
    case ServerBreaks =>
      if s.server.ServerDone? then s else ServerQuits(s, Checked(s.server))
  }

  function Exec(x: Setup, steps: seq<Step>): State
    decreases |steps|
  {
    if steps == [] then Init(x) else Next(x, Exec(x, steps[..|steps| - 1]), steps[|steps| - 1])
  }

  /** The summary the server holds, once its checks have passed. */
  function Checked(server: Server): Option<Summary> {
    match server
    case ServerReads(_) => None
    case ServerReplies(_, summary) => Some(summary)
    case ServerFinishes(summary) => Some(summary)
    case ServerDone(_, checked) => checked
  }

  // ---------------------------------------------------------------- what every run keeps

  ghost function TicketBody(x: Setup): seq<U8> {
    x.gate.codec.ticketBytes(x.ticket)
  }

  /** The body of the only response the server ever sends, if its checks pass. */
  ghost function ReplyBody(x: Setup): seq<U8>
    requires Verdict(x.gate, TicketBody(x)).Ok?
  {
    x.gate.codec.responseBytes(Accept(Verdict(x.gate, TicketBody(x)).value))
  }

  ghost function ClientUnsent(c: Client): seq<U8> {
    if c.ClientSends? then c.rest else []
  }

  ghost function ServerUnsent(s: Server): seq<U8> {
    if s.ServerReplies? then s.rest else []
  }

  /** The server is reading the frame of the ticket. */
  ghost predicate UpKept(x: Setup, s: State, clean: bool) {
    s.server.ServerReads? ==> Reading(s.server.reader, s.up.flight + ClientUnsent(s.client), TicketBody(x), clean)
  }

  /** The client's reader, or where it will start. */
  ghost function ClientReader(c: Client): Reader {
    if c.ClientReads? then c.reader else Header([])
  }

  /** Nothing comes down before the checks pass; after that, only the reply to this very ticket. */
  ghost predicate DownKept(x: Setup, s: State, clean: bool) {
    if Checked(s.server).None? then
      s.down.flight == [] && (if s.client.ClientDone? then s.client.result.None? else ClientReader(s.client) == Header([]))
    else
      var v := Verdict(x.gate, TicketBody(x));
      && v.Ok? && Checked(s.server) == Some(SummaryOf(v.value))
      && if s.client.ClientDone? then s.client.result.Some? ==> s.client.result == Some(SummaryOf(v.value))
         else Reading(ClientReader(s.client), s.down.flight + ServerUnsent(s.server), ReplyBody(x), clean)
  }

  ghost predicate Kept(x: Setup, s: State, clean: bool) {
    UpKept(x, s, clean) && DownKept(x, s, clean)
  }

  lemma ClientKeepsUp(x: Setup, s: State, n: nat, clean: bool)
    requires UpKept(x, s, clean)
    ensures UpKept(x, ClientNext(x, s, n), clean)
  {
    if s.client.ClientSends? && s.client.rest != [] {
      Put(s.up.flight, s.client.rest, Piece(n, |s.client.rest|));
    }
  }

  lemma ClientKeepsDown(x: Setup, s: State, n: nat, clean: bool)
    requires Faithful(x) && DownKept(x, s, clean)
    ensures DownKept(x, ClientNext(x, s, n), clean)
  {
    if s.client.ClientReads? && Checked(s.server).Some? {
      ReadKeeps(s.client.reader, s.down, n, ServerUnsent(s.server), ReplyBody(x), clean);
    }
  }

  lemma ServerKeepsUp(x: Setup, s: State, n: nat, clean: bool)
    requires Faithful(x) && UpKept(x, s, clean)
    ensures UpKept(x, ServerNext(x.gate, s, n), clean)
  {
    if s.server.ServerReads? {
      ReadKeeps(s.server.reader, s.up, n, ClientUnsent(s.client), TicketBody(x), clean);
    }
  }

  lemma ServerKeepsDown(x: Setup, s: State, n: nat, clean: bool)
    requires Faithful(x) && Kept(x, s, clean)
    ensures DownKept(x, ServerNext(x.gate, s, n), clean)
  {
    match s.server
    case ServerReads(reader) =>
      ReadKeeps(reader, s.up, n, ClientUnsent(s.client), TicketBody(x), clean);
      if Verdict(x.gate, TicketBody(x)).Ok? {
        var frame := Frame(ReplyBody(x));
        assert [] + frame == frame && [] + ([] + frame) == frame;
      }
    case ServerReplies(rest, _) =>
      if rest != [] {
        Put(s.down.flight, rest, Piece(n, |rest|));
      }
    case _ =>
  }

  lemma ClientBreakKeeps(x: Setup, s: State, clean: bool)
    requires Kept(x, s, clean)
    ensures Kept(x, Next(x, s, ClientBreaks), false)
  {
    if s.server.ServerReads? {
      assert s.up.flight + [] <= s.up.flight + ClientUnsent(s.client);
    }
  }

  lemma ServerBreakKeeps(x: Setup, s: State, clean: bool)
    requires Kept(x, s, clean)
    ensures Kept(x, Next(x, s, ServerBreaks), false)
  {
    assert s.down.flight + [] <= s.down.flight + ServerUnsent(s.server);
  }

  predicate IsMove(step: Step) {
    step.ClientMoves? || step.ServerMoves?
  }

  /** Nobody breaks off. */
  predicate Clean(steps: seq<Step>)
    decreases |steps|
  {
    steps == [] || (Clean(steps[..|steps| - 1]) && IsMove(steps[|steps| - 1]))
  }

  lemma {:induction false} RunKeeps(x: Setup, steps: seq<Step>)
    requires Faithful(x)
    ensures Kept(x, Exec(x, steps), Clean(steps))
    decreases |steps|
  {
    if steps == [] {
      assert [] + ([] + Frame(TicketBody(x))) == Frame(TicketBody(x));
    } else {
      var init, step := steps[..|steps| - 1], steps[|steps| - 1];
      RunKeeps(x, init);
      match step
      case ClientMoves(n) =>
        ClientKeepsUp(x, Exec(x, init), n, Clean(init));
        ClientKeepsDown(x, Exec(x, init), n, Clean(init));
      case ServerMoves(n) =>
        ServerKeepsUp(x, Exec(x, init), n, Clean(init));
        ServerKeepsDown(x, Exec(x, init), n, Clean(init));
      case ClientBreaks => ClientBreakKeeps(x, Exec(x, init), Clean(init));
      case ServerBreaks => ServerBreakKeeps(x, Exec(x, init), Clean(init));
    }
  }

  lemma {:induction false} ResultsAreChecked(x: Setup, steps: seq<Step>)
    ensures var s := Exec(x, steps);
            s.server.ServerDone? && s.server.result.Some? ==> s.server.checked == s.server.result
    decreases |steps|
  {
    if steps != [] {
      ResultsAreChecked(x, steps[..|steps| - 1]);
    }
  }

  /**
   Agreement: in every run, however the streams are cut up and whoever breaks off, a client that has
   returned Ok presented an acceptable ticket, and the server holds the same summary of it. A server that
   has returned Ok did so for the client's own ticket.
   */
  lemma HandshakeAgrees(x: Setup, steps: seq<Step>)
    requires Faithful(x)
    ensures var s := Exec(x, steps);
            s.client.ClientDone? && s.client.result.Some? ==>
              && Acceptable(x.gate, x.ticket)
              && s.client.result == Checked(s.server)
              && var c := x.ticket.claims;
                 s.client.result == Some(Summary(c.issuer, c.subject, c.relayUrl, c.alpn, c.expiresAt))
    ensures var s := Exec(x, steps);
            s.server.ServerDone? && s.server.result.Some? ==>
              && Acceptable(x.gate, x.ticket)
              && var c := x.ticket.claims;
                 s.server.result == Some(Summary(c.issuer, c.subject, c.relayUrl, c.alpn, c.expiresAt))
  {
    RunKeeps(x, steps);
    ResultsAreChecked(x, steps);
    assert x.gate.codec.ticketOf(x.gate.codec.ticketBytes(x.ticket)) == Some(x.ticket);
  }

  // ---------------------------------------------------------------- every clean run can be completed

  /** Streams end exactly when their writers are through. */
  ghost predicate Ends(s: State) {
    && (s.up.fin <==> s.client.ClientReads? || s.client.ClientDone?)
    && (s.down.fin <==> s.server.ServerDone?)
    && (s.server.ServerDone? && s.server.checked.Some? ==> s.server.result == s.server.checked)
  }

  /** In a clean run, a side that gave up did so because a check failed. */
  ghost predicate Honest(x: Setup, s: State) {
    && (s.server.ServerDone? && s.server.checked.None? ==> Verdict(x.gate, TicketBody(x)).Err?)
    && (s.client.ClientDone? && s.client.result.None? ==> Verdict(x.gate, TicketBody(x)).Err?)
  }

  lemma {:induction false} CleanRunIsHonest(x: Setup, steps: seq<Step>)
    requires Faithful(x) && Clean(steps)
    ensures Ends(Exec(x, steps)) && Honest(x, Exec(x, steps))
    decreases |steps|
  {
    if steps != [] {
      var init, step := steps[..|steps| - 1], steps[|steps| - 1];
      CleanRunIsHonest(x, init);
      RunKeeps(x, init);
      MoveIsHonest(x, Exec(x, init), step);
    }
  }

  lemma MoveIsHonest(x: Setup, s: State, step: Step)
    requires Faithful(x) && IsMove(step) && Kept(x, s, true) && Ends(s) && Honest(x, s)
    ensures Ends(Next(x, s, step)) && Honest(x, Next(x, s, step))
  {
    if step.ServerMoves? && s.server.ServerReads? {
      ReadKeeps(s.server.reader, s.up, step.n, ClientUnsent(s.client), TicketBody(x), true);
    }
    if step.ClientMoves? && s.client.ClientReads? && Checked(s.server).Some? {
      ReadKeeps(s.client.reader, s.down, step.n, ServerUnsent(s.server), ReplyBody(x), true);
    }
  }

  /** A state in which neither side can move. */
  ghost predicate Stuck(x: Setup, s: State) {
    forall n: nat :: ClientNext(x, s, n) == s && ServerNext(x.gate, s, n) == s
  }

  /** Work left: every move that changes anything makes it smaller. */
  ghost function Work(x: Setup, s: State): nat {
    var v := Verdict(x.gate, TicketBody(x));
    var reply := if v.Ok? then |Frame(x.gate.codec.responseBytes(Accept(v.value)))| else 0;
    2 * |ClientUnsent(s.client)| + |s.up.flight| + |s.down.flight|
    + 2 * (if s.server.ServerReads? then reply else |ServerUnsent(s.server)|)
    + ClientRank(s.client) + ServerRank(s.server)
  }

  ghost function ReaderRank(r: Reader): nat {
    if r.Header? then 1 else 0
  }

  ghost function ClientRank(c: Client): nat {
    match c
    case ClientSends(_) => 4
    case ClientFinishes => 3
    case ClientReads(r) => 1 + ReaderRank(r)
    case ClientDone(_) => 0
  }

  ghost function ServerRank(s: Server): nat {
    match s
    case ServerReads(r) => 3 + ReaderRank(r)
    case ServerReplies(_, _) => 2
    case ServerFinishes(_) => 1
    case ServerDone(_, _) => 0
  }

  lemma ReadDoesWork(r: Reader, p: Pipe, n: nat)
    ensures var read := ReadStep(r, p, n);
            read.Goes? ==> |read.pipe.flight| + ReaderRank(read.reader) < |p.flight| + ReaderRank(r)
  {
  }

  lemma ClientDoesWork(x: Setup, s: State, n: nat)
    requires ClientNext(x, s, n) != s
    ensures Work(x, ClientNext(x, s, n)) < Work(x, s)
  {
    if s.client.ClientReads? {
      ReadDoesWork(s.client.reader, s.down, n);
    }
  }

  lemma ServerDoesWork(x: Setup, s: State, n: nat, clean: bool)
    requires Faithful(x) && UpKept(x, s, clean) && ServerNext(x.gate, s, n) != s
    ensures Work(x, ServerNext(x.gate, s, n)) < Work(x, s)
  {
    if s.server.ServerReads? {
      ReadDoesWork(s.server.reader, s.up, n);
      ReadKeeps(s.server.reader, s.up, n, ClientUnsent(s.client), TicketBody(x), clean);
    }
  }

  /**
   Completeness: when nobody breaks off, every move that changes anything uses up work, and when no
   move is left the client has returned Ok exactly if the ticket is acceptable.
   */
  lemma HandshakeCompletes(x: Setup, steps: seq<Step>)
    requires Faithful(x) && Clean(steps)
    ensures forall step | IsMove(step) && Next(x, Exec(x, steps), step) != Exec(x, steps) ::
              Work(x, Next(x, Exec(x, steps), step)) < Work(x, Exec(x, steps))
    ensures Stuck(x, Exec(x, steps)) ==>
              && Exec(x, steps).client.ClientDone? && Exec(x, steps).server.ServerDone?
              && (Exec(x, steps).client.result.Some? <==> Acceptable(x.gate, x.ticket))
              && Exec(x, steps).client.result == Exec(x, steps).server.result
  {
    var s := Exec(x, steps);
    RunKeeps(x, steps);
    CleanRunIsHonest(x, steps);
    forall step | IsMove(step) && Next(x, s, step) != s ensures Work(x, Next(x, s, step)) < Work(x, s) {
      match step
      case ClientMoves(n) => ClientDoesWork(x, s, n);
      case ServerMoves(n) => ServerDoesWork(x, s, n, true);
    }
    if Stuck(x, s) {
      StuckIsDone(x, s);
      ResultsAreChecked(x, steps);
    }
  }

  lemma StuckServerIsDone(x: Setup, s: State)
    requires Faithful(x) && UpKept(x, s, true) && Ends(s) && Stuck(x, s)
    ensures s.server.ServerDone?
  {
    assert ClientNext(x, s, 1) == s && ServerNext(x.gate, s, 1) == s;
    if s.server.ServerReads? {
      ReadKeeps(s.server.reader, s.up, 1, ClientUnsent(s.client), TicketBody(x), true);
    }
  }

  lemma StuckIsDone(x: Setup, s: State)
    requires Faithful(x) && Kept(x, s, true) && Ends(s) && Stuck(x, s)
    ensures s.client.ClientDone? && s.server.ServerDone?
  {
    StuckServerIsDone(x, s);
    assert ClientNext(x, s, 1) == s;
    if s.client.ClientReads? && Checked(s.server).Some? {
      ReadKeeps(s.client.reader, s.down, 1, ServerUnsent(s.server), ReplyBody(x), true);
    }
  }
}
