/** Length-prefixed frames (src/session.rs:155-157): eight bytes of big-endian length, then the payload. */
module Frames {
  import opened Numbers

  /** The last k base-256 digits of n, most significant first. */
  function BigEndian(n: nat, k: nat): (r: seq<U8>)
    ensures |r| == k
  {
    if k == 0 then [] else BigEndian(n / 256, k - 1) + [n % 256]
  }

  function FromBigEndian(bytes: seq<U8>): nat
    decreases |bytes|
  {
    if bytes == [] then 0 else 256 * FromBigEndian(bytes[..|bytes| - 1]) + bytes[|bytes| - 1]
  }

  function Pow256(k: nat): nat {
    if k == 0 then 1 else 256 * Pow256(k - 1)
  }

  lemma {:induction false} BigEndianRoundTrip(n: nat, k: nat)
    requires n < Pow256(k)
    ensures FromBigEndian(BigEndian(n, k)) == n
  {
    if 0 < k {
      var r := BigEndian(n, k);
      BigEndianRoundTrip(n / 256, k - 1);
      assert r[..k - 1] == BigEndian(n / 256, k - 1);
    }
  }

  /** Eight digits of base 256 by the weights of their places, most significant first. */
  function Weighed(s: seq<int>): int
    requires 8 <= |s|
  {
    0x100_0000_0000_0000 * s[0] + 0x1_0000_0000_0000 * s[1] + 0x100_0000_0000 * s[2] + 0x1_0000_0000 * s[3]
    + 0x100_0000 * s[4] + 0x1_0000 * s[5] + 0x100 * s[6] + s[7]
  }

  lemma LastTwo(s: seq<U8>)
    requires 2 <= |s|
    ensures FromBigEndian(s) == 0x1_0000 * FromBigEndian(s[..|s| - 2]) + 0x100 * s[|s| - 2] as int + s[|s| - 1]
  {
    assert s[..|s| - 1][..|s| - 2] == s[..|s| - 2];
  }

  lemma EightBytes(s: seq<U8>)
    requires |s| == 8
    ensures FromBigEndian(s) == Weighed(s)
  {
    LastTwo(s);
    assert s[..6][..4] == s[..4] && s[..4][..2] == s[..2] && s[..2][..0] == [];
    LastTwo(s[..6]);
    LastTwo(s[..4]);
    LastTwo(s[..2]);
  }

  /** A payload whose length fits in the prefix. */
  ghost predicate Fits(payload: seq<U8>) {
    |payload| < 0x1_0000_0000_0000_0000
  }

  function Frame(payload: seq<U8>): (r: seq<U8>)
    ensures |r| == 8 + |payload| && r[8..] == payload
  {
    BigEndian(|payload|, 8) + payload
  }

  /** The prefix tells exactly how long the payload is, most significant byte first. */
  lemma PrefixTellsLength(payload: seq<U8>)
    requires Fits(payload)
    ensures FromBigEndian(Frame(payload)[..8]) == |payload|
    ensures Weighed(Frame(payload)) == |payload|
  {
    EightBytes(Frame(payload)[..8]);
    assert Frame(payload)[..8] == BigEndian(|payload|, 8);
    assert Pow256(8) == 0x1_0000_0000_0000_0000;
    BigEndianRoundTrip(|payload|, 8);
  }

  /** No frame is a proper prefix of another. */
  lemma FrameSplitsOff(p: seq<U8>, q: seq<U8>, after: seq<U8>, rest: seq<U8>)
    requires Fits(p) && Fits(q) && Frame(p) + after == Frame(q) + rest
    ensures p == q && after == rest
  {
    PrefixTellsLength(p);
    PrefixTellsLength(q);
    var s := Frame(p) + after;
    assert s[..8] == Frame(p)[..8] && s[..8] == Frame(q)[..8];
    assert s[..8 + |p|] == Frame(p) && s[..8 + |q|] == Frame(q);
    assert s[8 + |p|..] == after && s[8 + |q|..] == rest;
  }

  /** A stream of frames. */
  function Framed(payloads: seq<seq<U8>>): seq<U8>
    decreases |payloads|
  {
    if payloads == [] then [] else Frame(payloads[0]) + Framed(payloads[1..])
  }

  ghost predicate AllFit(payloads: seq<seq<U8>>) {
    forall i: nat | i < |payloads| :: Fits(payloads[i])
  }

  /** Unique decoding: a stream of frames splits into payloads in one way only. */
  lemma {:induction false} FramesSplitUniquely(ps: seq<seq<U8>>, qs: seq<seq<U8>>)
    requires AllFit(ps) && AllFit(qs) && Framed(ps) == Framed(qs)
    ensures ps == qs
    decreases |ps|
  {
    assert ps == [] <==> |Framed(ps)| == 0;
    assert qs == [] <==> |Framed(qs)| == 0;
    if ps != [] {
      FrameSplitsOff(ps[0], qs[0], Framed(ps[1..]), Framed(qs[1..]));
      FramesSplitUniquely(ps[1..], qs[1..]);
      assert ps == [ps[0]] + ps[1..] && qs == [qs[0]] + qs[1..];
    }
  }
}
