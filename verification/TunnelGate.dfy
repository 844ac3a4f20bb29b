/**
 The tunnel server's gate (src/transport/tunnel.rs:157-284).

 Connections come and go concurrently. Each runs `server_handshake` on the first stream its peer
 opens, fed whatever bytes the peer cares to send; only after it succeeds are further streams
 accepted, and each of those dials the target. A step is one event on one connection, so every
 interleaving is a run. An event that cannot happen in a state leaves it alone.
 */
module TunnelGate {
  import opened Wrappers
  import opened Numbers
  import opened Pieces
  import opened Frames
  import opened Handshake

  datatype Phase =
    | Waiting      // no stream from the peer yet
    | Shaking      // the handshake is running on the first stream
    | Serving      // it succeeded; streams are accepted
    | Over        // the accept loop is over; streams already accepted go on
    | Closed       // the handshake failed, or never began

  /**
   `peer` is all that arrived on the first stream; `server`, `up` and `down` are the handshake's own
   state. `accepted` counts streams accepted and not dialed yet, `dials` the dials to the target.
   */
  datatype Conn = Conn(
    gate: Gate, phase: Phase, server: Server, up: Pipe, down: Pipe,
    peer: seq<U8>, accepted: nat, dials: nat)

  datatype Event =
    | Connects(gate: Gate)
    | Opens(c: nat)                      // the first stream is accepted
    | Feeds(c: nat, bytes: seq<U8>)
    | FeedEnds(c: nat)
    | Handshakes(c: nat, n: nat)         // the handshake takes its next action
    | Breaks(c: nat)                     // a transport error
    | Accepts(c: nat)                    // a further stream
    | Dials(c: nat)
    | Cancels(c: nat)

  function Fresh(gate: Gate): Conn {
    Conn(gate, Waiting, ServerReads(Header([])), Pipe([], false), Pipe([], false), [], 0, 0)
  }

  /** The handshake machine with this connection's server side; the client side plays no part in it. */
  function Shake(c: Conn): State {
    State(ClientDone(None), c.server, c.up, c.down)
  }

  function ConnNext(c: Conn, e: Event): Conn {
    match (c.phase, e)
    case (Waiting, Opens(_)) => c.(phase := Shaking)
    case (Waiting, Breaks(_)) => c.(phase := Closed)
    case (Shaking, Feeds(_, bytes)) =>
      if c.up.fin then c else c.(up := c.up.(flight := c.up.flight + bytes), peer := c.peer + bytes)
    case (Shaking, FeedEnds(_)) => c.(up := c.up.(fin := true))
    case (Shaking, Handshakes(_, n)) =>
      var s := ServerNext(c.gate, Shake(c), n);
      var phase := if !s.server.ServerDone? then Shaking else if s.server.result.Some? then Serving else Closed;
      c.(phase := phase, server := s.server, up := s.up, down := s.down)
    case (Shaking, Breaks(_)) => c.(phase := Closed)
    case (Serving, Accepts(_)) => c.(accepted := c.accepted + 1)
    case (Serving, Breaks(_)) => c.(phase := Over)
    case (Serving, Cancels(_)) => c.(phase := Over)
    case (_, Dials(_)) => if 0 < c.accepted then c.(accepted := c.accepted - 1, dials := c.dials + 1) else c
    case _ => c
  }

  function Next(conns: seq<Conn>, e: Event): seq<Conn> {
    if e.Connects? then conns + [Fresh(e.gate)]
    else if e.c < |conns| then conns[e.c := ConnNext(conns[e.c], e)]
    else conns
  }

  function Exec(conns: seq<Conn>, events: seq<Event>): seq<Conn>
    decreases |events|
  {
    if events == [] then conns else Next(Exec(conns, events[..|events| - 1]), events[|events| - 1])
  }

  // ---------------------------------------------------------------- what a connection keeps

  /** The bytes begin with the frame of a ticket that is acceptable at the gate. */
  ghost predicate Admissible(g: Gate, bytes: seq<U8>) {
    && 8 <= |bytes|
    && var len := FromBigEndian(bytes[..8]);
       && 8 + len <= |bytes|
       && var ticket := g.codec.ticketOf(bytes[8..8 + len]);
          ticket.Some? && Acceptable(g, ticket.value)
  }

  /** The reader has the start of what the peer sent, and the rest is on its way. */
  ghost predicate Follows(r: Reader, flight: seq<U8>, peer: seq<U8>) {
    match r
    case Header(got) => |got| <= 8 && got + flight == peer
    case Body(len, got) =>
      8 <= |peer| && FromBigEndian(peer[..8]) == len && |got| <= len && got + flight == peer[8..]
  }

  ghost predicate Gated(c: Conn) {
    && (c.server.ServerReads? ==> Follows(c.server.reader, c.up.flight, c.peer))
    && (Checked(c.server).Some? ==> Admissible(c.gate, c.peer))
    && (c.server.ServerDone? && c.server.result.Some? ==> c.server.checked.Some?)
    && (c.phase.Serving? || c.phase.Over? ==> c.server.ServerDone? && c.server.result.Some?)
    && (c.phase.Waiting? || c.phase.Shaking? || c.phase.Closed? ==> c.accepted == c.dials == 0)
    && (c.phase.Waiting? ==> c.server == ServerReads(Header([])))
  }

  /** Moving k bytes from what is on its way to what was read changes nothing taken together. */
  lemma Moved(got: seq<U8>, flight: seq<U8>, k: nat)
    requires k <= |flight|
    ensures (got + flight[..k]) + flight[k..] == got + flight
  {
    assert flight[..k] + flight[k..] == flight;
  }

  lemma HeaderFollows(got: seq<U8>, p: Pipe, n: nat, peer: seq<U8>)
    requires Follows(Header(got), p.flight, peer)
    ensures var read := ReadStep(Header(got), p, n);
            !read.Complete? && (read.Goes? ==> Follows(read.reader, read.pipe.flight, peer))
  {
    if |got| == 8 {
      assert peer[..8] == got && peer[8..] == p.flight;
      assert [] + p.flight == p.flight;
    } else if p.flight != [] {
      Moved(got, p.flight, Piece(n, Least(8 - |got|, |p.flight|)));
    }
  }

  lemma BodyFollows(len: nat, got: seq<U8>, p: Pipe, n: nat, peer: seq<U8>)
    requires Follows(Body(len, got), p.flight, peer)
    ensures var read := ReadStep(Body(len, got), p, n);
            && (read.Goes? ==> Follows(read.reader, read.pipe.flight, peer))
            && (read.Complete? ==> 8 + len <= |peer| && read.body == peer[8..8 + len])
  {
    if |got| == len {
      assert got == peer[8..][..len];
      assert peer[8..][..len] == peer[8..8 + len];
    } else if p.flight != [] {
      Moved(got, p.flight, Piece(n, Least(len - |got|, |p.flight|)));
    }
  }

  lemma ReaderFollows(r: Reader, p: Pipe, n: nat, peer: seq<U8>)
    requires Follows(r, p.flight, peer)
    ensures match ReadStep(r, p, n)
            case Goes(r', p') => Follows(r', p'.flight, peer)
            case Complete(body) => r.Body? && 8 + r.len <= |peer| && body == peer[8..8 + r.len]
            case _ => true
  {
    match r
    case Header(got) => HeaderFollows(got, p, n, peer);
    case Body(len, got) => BodyFollows(len, got, p, n, peer);
  }

  /** More bytes after an admissible start keep it admissible. */
  lemma AdmissibleGrows(g: Gate, bytes: seq<U8>, more: seq<U8>)
    requires Admissible(g, bytes)
    ensures Admissible(g, bytes + more)
  {
    var len := FromBigEndian(bytes[..8]);
    assert (bytes + more)[..8] == bytes[..8];
    assert (bytes + more)[8..8 + len] == bytes[8..8 + len];
  }

  lemma FeedKeepsGate(c: Conn, bytes: seq<U8>)
    requires Gated(c)
    ensures Gated(c.(up := c.up.(flight := c.up.flight + bytes), peer := c.peer + bytes))
  {
    if Checked(c.server).Some? {
      AdmissibleGrows(c.gate, c.peer, bytes);
    }
    if c.server.ServerReads? {
      var got := c.server.reader.got;
      assert got + (c.up.flight + bytes) == (got + c.up.flight) + bytes;
      if c.server.reader.Body? {
        assert (c.peer + bytes)[8..] == c.peer[8..] + bytes && (c.peer + bytes)[..8] == c.peer[..8];
      }
    }
  }

  lemma HandshakeKeepsGate(c: Conn, n: nat)
    requires Gated(c) && c.phase.Shaking?
    ensures Gated(ConnNext(c, Handshakes(0, n)))
  {
    if c.server.ServerReads? {
      ReaderFollows(c.server.reader, c.up, n, c.peer);
    }
  }

  lemma ConnKeepsGate(c: Conn, e: Event)
    requires Gated(c) && !e.Connects?
    ensures Gated(ConnNext(c, e)) && ConnNext(c, e).gate == c.gate
  {
    match (c.phase, e)
    case (Shaking, Feeds(_, bytes)) => FeedKeepsGate(c, bytes);
    case (Shaking, Handshakes(_, n)) => HandshakeKeepsGate(c, n);
    case _ =>
  }

  ghost predicate AllGated(conns: seq<Conn>) {
    forall i: nat | i < |conns| :: Gated(conns[i])
  }

  lemma {:induction false} RunKeepsGate(conns: seq<Conn>, events: seq<Event>)
    requires AllGated(conns)
    ensures AllGated(Exec(conns, events))
    decreases |events|
  {
    if events != [] {
      RunKeepsGate(conns, events[..|events| - 1]);
      var before, e := Exec(conns, events[..|events| - 1]), events[|events| - 1];
      if !e.Connects? && e.c < |before| {
        ConnKeepsGate(before[e.c], e);
      }
    }
  }

  /**
   Gating: in every run, a connection that has dialed, or accepted a stream that will, is one on which
   the handshake succeeded; what its peer sent on its first stream begins with an acceptable ticket: genuine
   under the operator's key, from a trusted issuer, for the expected peer. A connection closed by a failed
   handshake has dialed nothing.
   */
  lemma DialsAreGated(events: seq<Event>, c: nat)
    requires c < |Exec([], events)|
    ensures var conn := Exec([], events)[c];
            && (0 < conn.dials + conn.accepted ==>
                  conn.server.ServerDone? && conn.server.result.Some? && Admissible(conn.gate, conn.peer))
            && (conn.phase.Closed? ==> conn.dials == conn.accepted == 0)
  {
    RunKeepsGate([], events);
    assert Gated(Exec([], events)[c]);
  }

  // ---------------------------------------------------------------- who gets through

  /** Short of a transport error, only a peer without an acceptable ticket is turned away. */
  ghost predicate Fair(c: Conn) {
    && (c.phase.Closed? ==> !Admissible(c.gate, c.peer))
    && (c.phase.Shaking? ==> !c.server.ServerDone?)
    && (c.phase.Waiting? ==> !c.server.ServerDone?)
  }

  /** A reader that has not got to the end of a frame has not been sent one. */
  lemma UnreadIsNotAdmissible(g: Gate, r: Reader, peer: seq<U8>)
    requires Follows(r, [], peer) && |r.got| < (if r.Header? then 8 else r.len)
    ensures !Admissible(g, peer)
  {
    assert r.got + [] == r.got;
  }

  lemma HandshakeIsFair(c: Conn, n: nat)
    requires Gated(c) && Fair(c) && c.phase.Shaking?
    ensures Fair(ConnNext(c, Handshakes(0, n)))
  {
    if c.server.ServerReads? {
      var read := ReadStep(c.server.reader, c.up, n);
      ReaderFollows(c.server.reader, c.up, n, c.peer);
      if read.Ended? {
        UnreadIsNotAdmissible(c.gate, c.server.reader, c.peer);
      }
    }
  }

  lemma ConnIsFair(c: Conn, e: Event)
    requires Gated(c) && Fair(c) && !e.Connects? && !e.Breaks?
    ensures Fair(ConnNext(c, e))
  {
    if c.phase.Shaking? && e.Handshakes? {
      HandshakeIsFair(c, e.n);
    }
  }

  /** No transport error hits connection c. */
  ghost predicate Unbroken(events: seq<Event>, c: nat) {
    forall k: nat | k < |events| :: events[k] != Breaks(c)
  }

  lemma {:induction false} RunIsFair(events: seq<Event>, c: nat)
    requires Unbroken(events, c) && c < |Exec([], events)|
    ensures Fair(Exec([], events)[c])
    decreases |events|
  {
    var init, e := events[..|events| - 1], events[|events| - 1];
    assert forall k: nat | k < |init| :: init[k] == events[k];
    var before := Exec([], init);
    RunKeepsGate([], init);
    if c < |before| {
      RunIsFair(init, c);
      assert Gated(before[c]);
      if !e.Connects? && e.c == c {
        ConnIsFair(before[c], e);
      }
    }
  }

  /** The handshake has come to a halt: no move of it changes the connection. */
  ghost predicate Settled(c: Conn) {
    forall n: nat :: ConnNext(c, Handshakes(0, n)) == c
  }

  lemma SettledWaits(c: Conn)
    requires Gated(c) && Fair(c) && c.phase.Shaking? && Settled(c)
    ensures !Admissible(c.gate, c.peer)
  {
    assert ConnNext(c, Handshakes(0, 1)) == c;
    ReaderFollows(c.server.reader, c.up, 1, c.peer);
    UnreadIsNotAdmissible(c.gate, c.server.reader, c.peer);
  }

  /**
   Exactly the peers with an acceptable ticket get through: in every run without a transport error, once a
   connection that has begun its handshake has no move of it left, it is served if and only if what the
   peer sent begins with the frame of an acceptable ticket. A stream accepted while it is served is dialed.
   */
  lemma ServedIffAdmissible(events: seq<Event>, c: nat)
    requires Unbroken(events, c) && c < |Exec([], events)|
    ensures var conn := Exec([], events)[c];
            && (!conn.phase.Waiting? && Settled(conn) ==>
                  (conn.phase.Serving? || conn.phase.Over? <==> Admissible(conn.gate, conn.peer)))
            && (conn.phase.Serving? ==>
                  ConnNext(ConnNext(conn, Accepts(c)), Dials(c)) == conn.(dials := conn.dials + 1))
  {
    var conn := Exec([], events)[c];
    RunKeepsGate([], events);
    assert Gated(conn);
    RunIsFair(events, c);
    if conn.phase.Shaking? && Settled(conn) {
      SettledWaits(conn);
    }
  }

  /** A closed connection stays closed and never dials, whatever happens later. */
  lemma {:induction false} ClosedForGood(conns: seq<Conn>, later: seq<Event>, c: nat)
    requires AllGated(conns) && c < |conns| && conns[c].phase.Closed?
    ensures c < |Exec(conns, later)| && Exec(conns, later)[c].phase.Closed? && Exec(conns, later)[c].dials == 0
    decreases |later|
  {
    if later != [] {
      ClosedForGood(conns, later[..|later| - 1], c);
      RunKeepsGate(conns, later);
      assert Gated(Exec(conns, later)[c]);
    } else {
      assert Gated(conns[c]);
    }
  }
}
