/**
 Byte streams as the relay sees them (src/relay/mod.rs:234-286).

 A stream is given by what it will do: the pieces that arrive on its read side, with an error
 or the end of the stream somewhere, and the writes that will fail. `MemoryStream` is the case
 of one piece and no failure.
 */
module Streams {
  import opened Wrappers
  import opened Numbers
  import opened Pieces

  datatype Arrival = Arrived(bytes: seq<U8>) | Broken(message: string)

  /** How one write ends; a failed write may have put out the first `partial` bytes. */
  datatype Write = Clean | Failed(message: string, partial: nat)

  /** One read into a buffer of `size` bytes: what it returns, and what is still to arrive. */
  function ReadFrom(input: seq<Arrival>, size: nat): (Result<seq<U8>, string>, seq<Arrival>) {
    if input == [] then (Ok([]), [])
    else match input[0]
      case Broken(message) => (Err(message), input[1..])
      case Arrived(bytes) =>
        var n := Least(|bytes|, size);
        (Ok(bytes[..n]), if n == |bytes| then input[1..] else [Arrived(bytes[n..])] + input[1..])
  }

  /** What the stream delivers before it ends or breaks: a read of nothing is the end. */
  function Payload(input: seq<Arrival>): seq<U8>
    decreases |input|
  {
    if input == [] || input[0].Broken? || input[0].bytes == [] then []
    else input[0].bytes + Payload(input[1..])
  }

  /** Bytes and pieces still to come; a nonempty read makes it smaller. */
  function Pending(input: seq<Arrival>): nat
    decreases |input|
  {
    if input == [] then 0
    else 1 + (if input[0].Arrived? then |input[0].bytes| else 0) + Pending(input[1..])
  }

  lemma ReadShrinks(input: seq<Arrival>, size: nat)
    requires 0 < size
    ensures var (r, rest) := ReadFrom(input, size);
            r.Ok? && r.value != [] ==> Pending(rest) < Pending(input)
  {
    if input != [] && input[0].Arrived? && |input[0].bytes| > size {
      var rest := [Arrived(input[0].bytes[size..])] + input[1..];
      assert rest[1..] == input[1..];
    }
  }

  /** The successive nonempty reads up to the end of the stream or its break. */
  function Chunks(input: seq<Arrival>): (cs: seq<seq<U8>>)
    ensures forall c | c in cs :: 1 <= |c| <= BUFFER
    decreases Pending(input)
  {
    ReadShrinks(input, BUFFER);
    var (r, rest) := ReadFrom(input, BUFFER);
    if r.Err? || r.value == [] then [] else [r.value] + Chunks(rest)
  }

  function Concat(cs: seq<seq<U8>>): seq<U8>
    decreases |cs|
  {
    if cs == [] then [] else cs[0] + Concat(cs[1..])
  }

  lemma {:induction false} ConcatAppends(a: seq<seq<U8>>, b: seq<seq<U8>>)
    ensures Concat(a + b) == Concat(a) + Concat(b)
    decreases |a|
  {
    if a == [] {
      assert a + b == b;
    } else {
      assert (a + b)[1..] == a[1..] + b;
      ConcatAppends(a[1..], b);
    }
  }

  lemma ReadKeepsPayload(input: seq<Arrival>)
    ensures var (r, rest) := ReadFrom(input, BUFFER);
            r.Ok? && r.value != [] ==> Payload(input) == r.value + Payload(rest)
  {
    if input != [] && input[0].Arrived? {
      var bytes := input[0].bytes;
      if |bytes| > BUFFER {
        var rest := [Arrived(bytes[BUFFER..])] + input[1..];
        assert rest[1..] == input[1..];
        assert bytes == bytes[..BUFFER] + bytes[BUFFER..];
      } else {
        assert bytes[..|bytes|] == bytes;
      }
    }
  }

  /** Reading in buffers loses nothing, whatever the sizes of the pieces. */
  lemma {:induction false} ChunksArePayload(input: seq<Arrival>)
    ensures Concat(Chunks(input)) == Payload(input)
    decreases Pending(input)
  {
    ReadShrinks(input, BUFFER);
    ReadKeepsPayload(input);
    var (r, rest) := ReadFrom(input, BUFFER);
    if r.Ok? && r.value != [] {
      ChunksArePayload(rest);
      assert Chunks(input)[1..] == Chunks(rest);
    }
  }

  /** Bytes cut into buffers of 8192, the last one as long as what is left. */
  function CutUp(bytes: seq<U8>): seq<seq<U8>>
    decreases |bytes|
  {
    if bytes == [] then []
    else if |bytes| <= 8192 then [bytes]
    else [bytes[..8192]] + CutUp(bytes[8192..])
  }

  /** The pieces that arrive before the stream ends or breaks, each cut into buffers. */
  function Delivered(input: seq<Arrival>): seq<seq<U8>>
    decreases |input|
  {
    if input == [] || input[0].Broken? || input[0].bytes == [] then []
    else CutUp(input[0].bytes) + Delivered(input[1..])
  }

  /** The error that a reader gets to, if the stream does not end before it. */
  function BreakOf(input: seq<Arrival>): Option<string>
    decreases |input|
  {
    if input == [] then None
    else match input[0]
      case Broken(message) => Some(message)
      case Arrived(bytes) => if bytes == [] then None else BreakOf(input[1..])
  }

  lemma DeliveredFirst(bytes: seq<U8>, rest: seq<Arrival>)
    requires bytes != []
    ensures Delivered([Arrived(bytes)] + rest) == CutUp(bytes) + Delivered(rest)
    ensures BreakOf([Arrived(bytes)] + rest) == BreakOf(rest)
  {
    assert ([Arrived(bytes)] + rest)[1..] == rest;
  }

  lemma Regroup(a: seq<seq<U8>>, b: seq<seq<U8>>, c: seq<seq<U8>>)
    ensures (a + b) + c == a + (b + c)
  {
  }

  /** A read into a piece that is longer than the buffer leaves the rest of the piece. */
  lemma ReadTakesABuffer(bytes: seq<U8>, rest: seq<Arrival>)
    requires |bytes| > BUFFER
    ensures Delivered([Arrived(bytes)] + rest) == [bytes[..BUFFER]] + Delivered([Arrived(bytes[BUFFER..])] + rest)
    ensures BreakOf([Arrived(bytes)] + rest) == BreakOf([Arrived(bytes[BUFFER..])] + rest)
  {
    DeliveredFirst(bytes, rest);
    DeliveredFirst(bytes[BUFFER..], rest);
    Regroup([bytes[..BUFFER]], CutUp(bytes[BUFFER..]), Delivered(rest));
  }

  /** A read takes the first buffer to come, and finds nothing only at the end, an error only at a break. */
  lemma ReadTakesTheFirst(input: seq<Arrival>)
    ensures var (r, rest) := ReadFrom(input, BUFFER);
            match r
            case Err(message) => Delivered(input) == [] && BreakOf(input) == Some(message)
            case Ok(got) =>
              if got == [] then Delivered(input) == [] && BreakOf(input) == None
              else Delivered(input) == [got] + Delivered(rest) && BreakOf(input) == BreakOf(rest)
  {
    if input != [] && input[0].Arrived? && input[0].bytes != [] {
      var bytes := input[0].bytes;
      assert input == [Arrived(bytes)] + input[1..];
      if |bytes| > BUFFER {
        ReadTakesABuffer(bytes, input[1..]);
      } else {
        assert bytes[..|bytes|] == bytes;
        DeliveredFirst(bytes, input[1..]);
      }
    }
  }

  /** The successive reads of a stream are its pieces cut into buffers. */
  lemma {:induction false} ChunksAreDelivered(input: seq<Arrival>)
    ensures Chunks(input) == Delivered(input)
    decreases Pending(input)
  {
    ReadShrinks(input, BUFFER);
    ReadTakesTheFirst(input);
    var (r, rest) := ReadFrom(input, BUFFER);
    if r.Ok? && r.value != [] {
      ChunksAreDelivered(rest);
    }
  }

  class ByteStream {
    var arrivals: seq<Arrival>
    var outcomes: seq<Write>
    var written: seq<U8>
    var offers: nat

    constructor (arrivals: seq<Arrival>, outcomes: seq<Write>)
      ensures this.arrivals == arrivals && this.outcomes == outcomes && written == [] && offers == 0
    {
      this.arrivals, this.outcomes, written, offers := arrivals, outcomes, [], 0;
    }

    /** `MemoryStream::with_payload`: the payload is there to be read, and no write fails. */
    constructor Memory(payload: seq<U8>)
      ensures Payload(arrivals) == payload && outcomes == [] && written == [] && offers == 0
      ensures forall a | a in arrivals :: a.Arrived?
    {
      arrivals := if payload == [] then [] else [Arrived(payload)];
      outcomes, written, offers := [], [], 0;
      new;
      if payload != [] {
        assert arrivals[1..] == [] && payload + [] == payload;
      }
    }

    method Read(buf: array<U8>) returns (r: Result<nat, string>)
      modifies this`arrivals, buf
      ensures var (got, rest) := ReadFrom(old(arrivals), buf.Length);
              && arrivals == rest
              && (got.Err? ==> r == Err(got.error))
              && (got.Ok? ==> r == Ok(|got.value|) && r.value <= buf.Length && buf[..r.value] == got.value)
    {
      if arrivals == [] {
        return Ok(0);
      }
      match arrivals[0]
      case Broken(message) =>
        arrivals := arrivals[1..];
        r := Err(message);
      case Arrived(bytes) =>
        var n := Least(|bytes|, buf.Length);
        for i := 0 to n
          invariant forall k | 0 <= k < i :: buf[k] == bytes[k]
          invariant arrivals == old(arrivals)
        {
          buf[i] := bytes[i];
        }
        arrivals := if n == |bytes| then arrivals[1..] else [Arrived(bytes[n..])] + arrivals[1..];
        r := Ok(n);
    }

    method WriteAll(bytes: seq<U8>) returns (r: Write)
      modifies this`outcomes, this`written, this`offers
      ensures r == NextWrite(old(outcomes))
      ensures outcomes == RestWrites(old(outcomes)) && offers == old(offers) + 1
      ensures written == old(written) + PutOut(r, bytes)
    {
      r := NextWrite(outcomes);
      outcomes := RestWrites(outcomes);
      offers := offers + 1;
      written := written + PutOut(r, bytes);
    }
  }

  function NextWrite(outcomes: seq<Write>): Write {
    if outcomes == [] then Clean else outcomes[0]
  }

  function RestWrites(outcomes: seq<Write>): seq<Write> {
    if outcomes == [] then [] else outcomes[1..]
  }

  /** The bytes of a write that reach the other side. */
  function PutOut(r: Write, bytes: seq<U8>): seq<U8> {
    if r.Clean? then bytes else bytes[..Least(r.partial, |bytes|)]
  }
}
