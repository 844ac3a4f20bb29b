/**
 One direction of a tunneled connection (src/transport/tunnel.rs:288-335).

 A tunneled connection has a bridge at each end, and each bridge runs two copy loops: one direction
 of bytes goes from a TCP socket through a copy loop, a QUIC stream and a second copy loop to the
 other TCP socket. Sockets and streams are ordered and reliable until they end or fail (section 2.2
 of RFC 9000 for the stream). A step is one action of a loop or of an application; loops read and
 write pieces of any size, and may fail at any point, as any I/O error makes them do. A bridge that
 returns drops its halves of the connection: what that does here are the two `Dropped` steps.
 */
module Tunnel {
  import opened Numbers
  import opened Pieces

  /** Bytes on their way, whether the writer has ended the stream, and whether the reader has dropped it. */
  datatype Channel = Channel(flight: seq<U8>, fin: bool, gone: bool)

  /** A copy loop; `clean` says that it left its loop on the end of its input, `lost` is what it still held if not. */
  datatype Loop =
    | Reading
    | Writing(buf: seq<U8>)
    | Closing(clean: bool, lost: seq<U8>)
    | Stopped(clean: bool, lost: seq<U8>)

  /** What was sent into the direction, its three channels and two loops, what came out. */
  datatype Direction = Direction(
    sent: seq<U8>,
    entry: Channel, first: Loop, stream: Channel, second: Loop, exit: Channel,
    delivered: seq<U8>, eof: bool)

  datatype Step =
    | Send(bytes: seq<U8>)      // the sending application writes
    | Close                     // and ends its side
    | FirstMoves(n: nat)
    | FirstFails
    | FirstDropped              // the first loop's bridge drops its halves
    | SecondMoves(n: nat)
    | SecondFails
    | SecondDropped
    | Receive(n: nat)           // the receiving application reads

  const EMPTY: Channel := Channel([], false, false)

  function Idle(): Direction {
    Direction([], EMPTY, Reading, EMPTY, Reading, EMPTY, [], false)
  }

  /** The next action of a copy loop between two channels. */
  function LoopNext(input: Channel, loop: Loop, output: Channel, n: nat): (Channel, Loop, Channel) {
    match loop
    case Reading =>
      if input.flight != [] then
        var k := Piece(n, Least(BUFFER, |input.flight|));
        (input.(flight := input.flight[k..]), Writing(input.flight[..k]), output)
      else if input.fin then (input, Closing(true, []), output)
      else (input, Reading, output)
    case Writing(buf) =>
      if buf == [] then (input, Reading, output)
      else if output.gone then (input, Closing(false, buf), output)
      else
        var k := Piece(n, |buf|);
        (input, if k == |buf| then Reading else Writing(buf[k..]), output.(flight := output.flight + buf[..k]))
    case Closing(clean, lost) => (input, Stopped(clean, lost), output.(fin := true))
    case Stopped(_, _) => (input, loop, output)
  }

  /** A failed read or write ends the loop; what it held is lost, and its output is closed all the same. */
  function LoopFails(loop: Loop): Loop {
    match loop
    case Reading => Closing(false, [])
    case Writing(buf) => Closing(false, buf)
    case _ => loop
  }

  /** What becomes of a loop whose bridge returns. */
  function Dropped(loop: Loop): Loop {
    var l := LoopFails(loop);
    Stopped(l.clean, l.lost)
  }

  function Next(d: Direction, step: Step): Direction {
    match step
    case Send(bytes) =>
      if d.entry.fin || d.entry.gone then d
      else d.(sent := d.sent + bytes, entry := d.entry.(flight := d.entry.flight + bytes))
    case Close => d.(entry := d.entry.(fin := true))
    case FirstMoves(n) =>
      var (i, l, o) := LoopNext(d.entry, d.first, d.stream, n);
      d.(entry := i, first := l, stream := o)
    case FirstFails => d.(first := LoopFails(d.first))
    case FirstDropped =>
      d.(entry := d.entry.(gone := true), first := Dropped(d.first), stream := d.stream.(fin := true))
    case SecondMoves(n) =>
      var (i, l, o) := LoopNext(d.stream, d.second, d.exit, n);
      d.(stream := i, second := l, exit := o)
    case SecondFails => d.(second := LoopFails(d.second))
    case SecondDropped =>
      d.(stream := d.stream.(gone := true), second := Dropped(d.second), exit := d.exit.(fin := true))
    case Receive(n) =>
      if d.exit.flight != [] then
        var k := Piece(n, |d.exit.flight|);
        d.(delivered := d.delivered + d.exit.flight[..k], exit := d.exit.(flight := d.exit.flight[k..]))
      else d.(eof := d.eof || d.exit.fin)
  }

  function Exec(steps: seq<Step>): Direction
    decreases |steps|
  {
    if steps == [] then Idle() else Next(Exec(steps[..|steps| - 1]), steps[|steps| - 1])
  }

  lemma ExecAppends(steps: seq<Step>, step: Step)
    ensures Exec(steps + [step]) == Next(Exec(steps), step)
  {
    assert (steps + [step])[..|steps|] == steps;
  }

  // ---------------------------------------------------------------- conservation

  /** What a loop holds, or held when it failed. */
  ghost function Held(loop: Loop): seq<U8> {
    match loop
    case Reading => []
    case Writing(buf) => buf
    case Closing(_, lost) => lost
    case Stopped(_, lost) => lost
  }

  ghost predicate Broken(loop: Loop) {
    (loop.Closing? || loop.Stopped?) && !loop.clean
  }

  /** What is out, or on its way out for certain. */
  ghost function Out(d: Direction): seq<U8> {
    d.delivered + d.exit.flight
  }

  /** Every byte sent is somewhere, in order: out, in a channel, or in the hands of a loop that may have failed with it. */
  ghost predicate Conserved(d: Direction) {
    Out(d) + (Held(d.second) + (d.stream.flight + (Held(d.first) + d.entry.flight))) == d.sent
  }

  /** Nothing is held, left behind or lost between the two sockets. */
  ghost predicate Drained(d: Direction) {
    Held(d.second) == [] && d.stream.flight == [] && Held(d.first) == [] && d.entry.flight == []
  }

  /** A copy loop moves bytes from its input through its buffer to its output, in order. */
  lemma LoopKeepsOrder(input: Channel, loop: Loop, output: Channel, n: nat)
    ensures var (i, l, o) := LoopNext(input, loop, output, n);
            o.flight + (Held(l) + i.flight) == output.flight + (Held(loop) + input.flight)
  {
    match loop
    case Reading =>
      if input.flight != [] {
        var k := Piece(n, Least(BUFFER, |input.flight|));
        assert input.flight == input.flight[..k] + input.flight[k..];
        assert [] + input.flight == input.flight;
      }
    case Writing(buf) =>
      if buf != [] && !output.gone {
        var k := Piece(n, |buf|);
        assert buf == buf[..k] + buf[k..];
        assert (output.flight + buf[..k]) + (buf[k..] + input.flight) == output.flight + (buf + input.flight);
      }
    case _ =>
  }

  lemma Regroup(a: seq<U8>, b: seq<U8>, c: seq<U8>, e: seq<U8>, rest: seq<U8>)
    ensures (a + b) + (c + (e + rest)) == a + ((b + (c + e)) + rest)
  {
  }

  lemma FirstConserves(d: Direction, n: nat)
    requires Conserved(d)
    ensures Conserved(Next(d, FirstMoves(n)))
  {
    LoopKeepsOrder(d.entry, d.first, d.stream, n);
  }

  lemma SecondConserves(d: Direction, n: nat)
    requires Conserved(d)
    ensures Conserved(Next(d, SecondMoves(n)))
  {
    var (i, l, o) := LoopNext(d.stream, d.second, d.exit, n);
    var rest := Held(d.first) + d.entry.flight;
    LoopKeepsOrder(d.stream, d.second, d.exit, n);
    Regroup(d.delivered, d.exit.flight, Held(d.second), d.stream.flight, rest);
    Regroup(d.delivered, o.flight, Held(l), i.flight, rest);
  }

  lemma SendConserves(d: Direction, bytes: seq<U8>)
    requires Conserved(d)
    ensures Conserved(Next(d, Send(bytes)))
  {
    var out, h2, s, h1, e := Out(d), Held(d.second), d.stream.flight, Held(d.first), d.entry.flight;
    assert (out + (h2 + (s + (h1 + e)))) + bytes == out + (h2 + (s + (h1 + (e + bytes))));
  }

  lemma ReceiveConserves(d: Direction, n: nat)
    requires Conserved(d)
    ensures Conserved(Next(d, Receive(n)))
  {
    if d.exit.flight != [] {
      var k := Piece(n, |d.exit.flight|);
      assert d.exit.flight == d.exit.flight[..k] + d.exit.flight[k..];
      assert Out(Next(d, Receive(n))) == Out(d);
    }
  }

  lemma StepConserves(d: Direction, step: Step)
    requires Conserved(d)
    ensures Conserved(Next(d, step))
  {
    match step
    case Send(bytes) => SendConserves(d, bytes);
    case FirstMoves(n) => FirstConserves(d, n);
    case SecondMoves(n) => SecondConserves(d, n);
    case Receive(n) => ReceiveConserves(d, n);
    case _ =>
  }

  /** A loop that left on the end of its input lost nothing and has nothing more to read there. */
  ghost predicate LoopClosed(input: Channel, loop: Loop) {
    && ((loop.Closing? || loop.Stopped?) && loop.clean ==> input.fin && input.flight == [] && loop.lost == [])
    && (input.gone ==> loop.Stopped?)
  }

  /** Channels end when their loops stop, and the receiver sees the end after the last byte. */
  ghost predicate Closed(d: Direction) {
    && LoopClosed(d.entry, d.first) && LoopClosed(d.stream, d.second)
    && (d.stream.fin <==> d.first.Stopped?)
    && (d.exit.fin <==> d.second.Stopped?)
    && (d.eof ==> d.exit.fin && d.exit.flight == [])
    && !d.exit.gone
  }

  lemma StepKeepsClosed(d: Direction, step: Step)
    requires Closed(d)
    ensures Closed(Next(d, step))
  {
  }

  lemma {:induction false} RunKeeps(steps: seq<Step>)
    ensures Conserved(Exec(steps)) && Closed(Exec(steps))
    decreases |steps|
  {
    if steps == [] {
      var none: seq<U8> := [];
      assert none + (none + (none + (none + none))) == none;
    } else {
      RunKeeps(steps[..|steps| - 1]);
      StepKeepsClosed(Exec(steps[..|steps| - 1]), steps[|steps| - 1]);
      StepConserves(Exec(steps[..|steps| - 1]), steps[|steps| - 1]);
    }
  }

  /**
   Conservation, at every point of every run, whatever fails: the bytes that came out, those in the
   channels and those the loops hold or lost are, in this order, what was sent. So what came out is a
   prefix of it.
   */
  lemma BytesAreConserved(steps: seq<Step>)
    ensures var d := Exec(steps);
            && (d.delivered + d.exit.flight)
               + (Held(d.second) + (d.stream.flight + (Held(d.first) + d.entry.flight))) == d.sent
            && d.delivered <= d.sent
  {
    RunKeeps(steps);
    var d := Exec(steps);
    assert d.delivered <= Out(d) <= d.sent;
  }

  lemma TailIsEmpty(out: seq<U8>, tail: seq<U8>)
    ensures out == out + tail <==> tail == []
  {
    if out == out + tail {
      assert |out| == |out| + |tail|;
    }
  }

  lemma {:induction false} NothingLeftIff(d: Direction)
    requires Conserved(d) && Closed(d) && d.eof
    ensures d.delivered == d.sent <==> Drained(d)
  {
    var h1, e := Held(d.first), d.entry.flight;
    var tail := Held(d.second) + (d.stream.flight + (h1 + e));
    assert Out(d) == d.delivered;
    TailIsEmpty(d.delivered, tail);
    assert |tail| == |Held(d.second)| + |d.stream.flight| + |h1| + |e|;
  }

  /**
   When the receiver sees the end of the stream, it has everything exactly if nothing was held by a
   loop that failed, left unread in a channel, or sent after the loop that reads it had failed. That is
   so in particular when both loops left on the end of their inputs.
   */
  lemma EndMeansAllIff(steps: seq<Step>)
    ensures var d := Exec(steps);
            d.eof ==>
              && (d.delivered == d.sent <==> Drained(d))
              && (!Broken(d.first) && !Broken(d.second) ==> d.delivered == d.sent && d.entry.fin)
  {
    RunKeeps(steps);
    var d := Exec(steps);
    if d.eof {
      NothingLeftIff(d);
    }
  }

  /** FIFO: what came out is always a prefix of what was sent, and all of it after a clean end. */
  lemma DirectionIsFifo(steps: seq<Step>)
    ensures var d := Exec(steps);
            && d.delivered <= d.sent
            && (d.eof && !Broken(d.first) && !Broken(d.second) ==> d.delivered == d.sent && d.entry.fin)
  {
    BytesAreConserved(steps);
    EndMeansAllIff(steps);
  }

  /** After a failure the receiver can see a proper end of the stream in the middle of what was sent. */
  lemma FailureLooksLikeTheEnd(b: U8)
    ensures var d := Exec([Send([b]), SecondFails, SecondMoves(1), Receive(1)]);
            d.eof && d.delivered == [] && d.sent == [b]
  {
    var s1 := [Send([b])];
    var s2 := s1 + [SecondFails];
    var s3 := s2 + [SecondMoves(1)];
    assert s3 + [Receive(1)] == [Send([b]), SecondFails, SecondMoves(1), Receive(1)];
    ExecAppends([], Send([b]));
    assert [] + s1 == s1 && [] + [b] == [b];
    ExecAppends(s1, SecondFails);
    ExecAppends(s2, SecondMoves(1));
    ExecAppends(s3, Receive(1));
    assert Exec(s3) == Exec(s1).(second := Stopped(false, []), exit := Channel([], true, false));
  }

  // ---------------------------------------------------------------- every direction gets through

  /** The actions that carry bytes along; the sender's own are left out. */
  predicate Carries(step: Step) {
    step.FirstMoves? || step.SecondMoves? || step.Receive?
  }

  ghost predicate Stuck(d: Direction) {
    forall step | Carries(step) :: Next(d, step) == d
  }

  ghost function LoopWork(loop: Loop, weight: nat): nat {
    match loop
    case Reading => 2
    case Writing(buf) => 3 + weight * |buf|
    case Closing(_, _) => 1
    case Stopped(_, _) => 0
  }

  /** Hops left for the bytes in the direction and turns left for its loops. */
  ghost function Work(d: Direction): nat {
    8 * |d.entry.flight| + LoopWork(d.first, 6) + 4 * |d.stream.flight| + LoopWork(d.second, 2) + |d.exit.flight|
    + (if d.eof then 0 else 1)
  }

  lemma FirstDoesWork(d: Direction, n: nat)
    requires Next(d, FirstMoves(n)) != d
    ensures Work(Next(d, FirstMoves(n))) < Work(d)
  {
  }

  lemma SecondDoesWork(d: Direction, n: nat)
    requires Next(d, SecondMoves(n)) != d
    ensures Work(Next(d, SecondMoves(n))) < Work(d)
  {
  }

  lemma CarryingDoesWork(d: Direction, step: Step)
    requires Carries(step) && Next(d, step) != d
    ensures Work(Next(d, step)) < Work(d)
  {
    match step
    case FirstMoves(n) => FirstDoesWork(d, n);
    case SecondMoves(n) => SecondDoesWork(d, n);
    case Receive(_) =>
  }

  lemma StuckIsStopped(d: Direction)
    requires Closed(d) && Stuck(d) && d.entry.fin
    ensures d.first.Stopped? && d.second.Stopped? && d.eof
  {
    assert Next(d, FirstMoves(1)) == d && Next(d, SecondMoves(1)) == d && Next(d, Receive(1)) == d;
  }

  /**
   Delivery: carrying steps always use up work, so they run out; and when they have run out in a
   direction whose sender has closed, both loops have stopped, the receiver has seen the end, and it
   has everything if no loop failed.
   */
  lemma DirectionDelivers(steps: seq<Step>)
    ensures forall step | Carries(step) && Next(Exec(steps), step) != Exec(steps) ::
              Work(Next(Exec(steps), step)) < Work(Exec(steps))
    ensures var d := Exec(steps);
            Stuck(d) && d.entry.fin ==>
              && d.first.Stopped? && d.second.Stopped? && d.eof
              && (!Broken(d.first) && !Broken(d.second) ==> d.delivered == d.sent)
  {
    var d := Exec(steps);
    forall step | Carries(step) && Next(d, step) != d ensures Work(Next(d, step)) < Work(d) {
      CarryingDoesWork(d, step);
    }
    if Stuck(d) && d.entry.fin {
      RunKeeps(steps);
      StuckIsStopped(d);
      EndMeansAllIff(steps);
    }
  }
}
