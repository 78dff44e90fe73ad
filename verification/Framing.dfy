/** The length-prefixed frames of hft_test/include/protocol.h on a byte stream that arrives in
    arbitrary chunks.
    */
module Framing {
  import opened Basics

  type Byte = b: nat | b < 256

  const UINT32 := 0x1_0000_0000

  /** 256 to the power of `k`. */
  function Bound(k: nat): (b: nat)
    ensures b > 0
  {
    if k == 0 then 1 else 256 * Bound(k - 1)
  }

  /** The last `k` bytes of a number, the most significant first: `htonl` for four. */
  function BigEndian(n: nat, k: nat): (r: seq<Byte>)
    ensures |r| == k
    decreases n, k
  {
    if k == 0 then [] else BigEndian(n / 256, k - 1) + [n % 256]
  }

  function FromBig(b: seq<Byte>): nat
  {
    if b == [] then 0 else 256 * FromBig(b[..|b|-1]) + (b[|b|-1] as int)
  }

  lemma {:induction false} BigEndianRoundTrip(n: nat, k: nat)
    requires n < Bound(k)
    ensures FromBig(BigEndian(n, k)) == n
    decreases k
  {
    if k > 0 {
      BigEndianRoundTrip(n / 256, k - 1);
      assert BigEndian(n, k)[..k-1] == BigEndian(n / 256, k - 1);
    }
  }

  /** `ntohl` of the four bytes at the front. */
  function ReadLength(b: seq<Byte>): nat
    requires |b| >= 4
  {
    FromBig(b[..4])
  }

  lemma LengthRoundTrip(n: nat, rest: seq<Byte>)
    requires n < UINT32
    ensures ReadLength(BigEndian(n, 4) + rest) == n
  {
    assert Bound(2) == 0x1_0000;
    assert Bound(4) == 256 * Bound(3) == UINT32;
    BigEndianRoundTrip(n, 4);
    assert (BigEndian(n, 4) + rest)[..4] == BigEndian(n, 4);
  }

  /** The prefix is in network byte order. */
  lemma NetworkOrder(n: nat)
    requires n < UINT32
    ensures BigEndian(n, 4) == [n / 0x100_0000, n / 0x1_0000 % 256, n / 0x100 % 256, n % 256]
  {
    var a, b, c := n / 256, n / 0x1_0000, n / 0x100_0000;
    assert a / 256 == b && b / 256 == c && c < 256;
    assert BigEndian(c, 1) == BigEndian(c / 256, 0) + [c % 256] == [c];
    assert BigEndian(b, 2) == [c] + [b % 256];
    assert BigEndian(a, 3) == [c] + [b % 256] + [a % 256];
  }

  /** `pack_with_length`; the length is cast to 32 bits. */
  function Pack(payload: seq<Byte>): seq<Byte>
  {
    BigEndian(|payload| % UINT32, 4) + payload
  }

  // ---------- Unpacking ----------

  /** A whole frame stands at the front. */
  predicate Complete(b: seq<Byte>)
  {
    |b| >= 4 && |b| >= 4 + ReadLength(b)
  }

  function FrontPayload(b: seq<Byte>): seq<Byte>
    requires Complete(b)
  {
    b[4..4 + ReadLength(b)]
  }

  function AfterFront(b: seq<Byte>): seq<Byte>
    requires Complete(b)
  {
    b[4 + ReadLength(b)..]
  }

  /** All payloads of a buffer and what is left of it. */
  function ParseAll(b: seq<Byte>): (r: (seq<seq<Byte>>, seq<Byte>))
    ensures !Complete(r.1)
    decreases |b|
  {
    if Complete(b) then
      var (payloads, residue) := ParseAll(AfterFront(b));
      ([FrontPayload(b)] + payloads, residue)
    else ([], b)
  }

  /** `unpack_frame`: the offset passes one frame, by at least its prefix, or nothing
      changes. */
  method UnpackFrame(buf: seq<Byte>, offset: nat) returns (ok: bool, next: nat, payload: seq<Byte>)
    requires offset <= |buf|
    ensures ok <==> Complete(buf[offset..])
    ensures ok ==>
              && offset + 4 <= next <= |buf| && payload == FrontPayload(buf[offset..])
              && buf[next..] == AfterFront(buf[offset..])
    ensures !ok ==> next == offset && payload == []
  {
    if offset + 4 > |buf| {
      return false, offset, [];
    }
    var len := ReadLength(buf[offset..]);
    if offset + 4 + len > |buf| {
      return false, offset, [];
    }
    payload := buf[offset + 4..offset + 4 + len];
    assert payload == FrontPayload(buf[offset..]);
    next := offset + 4 + len;
    assert buf[next..] == AfterFront(buf[offset..]);
    ok := true;
  }

  /** The payloads `done` have been taken out of the first `offset` bytes. */
  ghost predicate ParsedTo(buf: seq<Byte>, offset: nat, done: seq<seq<Byte>>)
  {
    && offset <= |buf|
    && ParseAll(buf).0 == done + ParseAll(buf[offset..]).0
    && ParseAll(buf).1 == ParseAll(buf[offset..]).1
  }

  lemma ParsedNothing(buf: seq<Byte>)
    ensures ParsedTo(buf, 0, [])
  {
    assert buf[0..] == buf;
  }

  lemma ParseFront(b: seq<Byte>)
    ensures if Complete(b)
            then ParseAll(b).0 == [FrontPayload(b)] + ParseAll(AfterFront(b)).0 && ParseAll(b).1 == ParseAll(AfterFront(b)).1
            else ParseAll(b) == ([], b)
  {
  }

  lemma ParsedOneMore(buf: seq<Byte>, offset: nat, next: nat, done: seq<seq<Byte>>, payload: seq<Byte>)
    requires ParsedTo(buf, offset, done) && offset <= next <= |buf| && Complete(buf[offset..])
    requires payload == FrontPayload(buf[offset..]) && buf[next..] == AfterFront(buf[offset..])
    ensures ParsedTo(buf, next, done + [payload])
  {
    ParseFront(buf[offset..]);
    ConcatAssociative(done, [payload], ParseAll(buf[next..]).0);
  }

  lemma ParsedEverything(buf: seq<Byte>, offset: nat, done: seq<seq<Byte>>)
    requires ParsedTo(buf, offset, done) && !Complete(buf[offset..])
    ensures ParseAll(buf).0 == done && ParseAll(buf).1 == buf[offset..]
  {
    ParseFront(buf[offset..]);
  }

  // ---------- Chunking does not matter ----------

  lemma FrontOfLonger(a: seq<Byte>, b: seq<Byte>)
    requires Complete(a)
    ensures Complete(a + b) && FrontPayload(a + b) == FrontPayload(a) && AfterFront(a + b) == AfterFront(a) + b
  {
    assert (a + b)[..4] == a[..4];
  }

  /** Parsing what has arrived first loses nothing. */
  lemma {:induction false} ParseInTwo(a: seq<Byte>, b: seq<Byte>)
    ensures ParseAll(a + b).0 == ParseAll(a).0 + ParseAll(ParseAll(a).1 + b).0
    ensures ParseAll(a + b).1 == ParseAll(ParseAll(a).1 + b).1
    decreases |a|
  {
    if Complete(a) {
      FrontOfLonger(a, b);
      ParseInTwo(AfterFront(a), b);
      var ps, rest := ParseAll(AfterFront(a)).0, ParseAll(AfterFront(a)).1;
      var qs := ParseAll(rest + b).0;
      assert [FrontPayload(a)] + (ps + qs) == [FrontPayload(a)] + ps + qs;
    } else {
      assert [] + ParseAll(a + b).0 == ParseAll(a + b).0;
    }
  }

  function Flatten(chunks: seq<seq<Byte>>): seq<Byte>
  {
    if chunks == [] then [] else chunks[0] + Flatten(chunks[1..])
  }

  /** Append each chunk, take out the frames that are complete, keep the rest. */
  function Receive(residue: seq<Byte>, chunks: seq<seq<Byte>>): (seq<seq<Byte>>, seq<Byte>)
    decreases |chunks|
  {
    if chunks == [] then ([], residue)
    else
      var first := ParseAll(residue + chunks[0]);
      var others := Receive(first.1, chunks[1..]);
      (first.0 + others.0, others.1)
  }

  lemma {:induction false} ReceiveFrom(residue: seq<Byte>, chunks: seq<seq<Byte>>)
    requires !Complete(residue)
    ensures Receive(residue, chunks).0 == ParseAll(residue + Flatten(chunks)).0
    ensures Receive(residue, chunks).1 == ParseAll(residue + Flatten(chunks)).1
    decreases |chunks|
  {
    if chunks == [] {
      assert residue + [] == residue;
    } else {
      var a, b := residue + chunks[0], Flatten(chunks[1..]);
      ReceiveFrom(ParseAll(a).1, chunks[1..]);
      ParseInTwo(a, b);
      ConcatAssociative(residue, chunks[0], b);
    }
  }

  /** However the stream is cut, the same payloads are delivered and the same incomplete
      frame is left. */
  lemma ChunkingIsIrrelevant(chunks: seq<seq<Byte>>)
    ensures Receive([], chunks) == ParseAll(Flatten(chunks))
    ensures !Complete(Receive([], chunks).1)
  {
    ReceiveFrom([], chunks);
    assert [] + Flatten(chunks) == Flatten(chunks);
  }

  // ---------- What is packed is what arrives ----------

  /** The cast of the length is harmless exactly for payloads below 4 GiB. */
  lemma PackRoundTrip(payload: seq<Byte>, rest: seq<Byte>)
    ensures Complete(Pack(payload) + rest)
    ensures |payload| < UINT32 ==>
              && FrontPayload(Pack(payload) + rest) == payload
              && AfterFront(Pack(payload) + rest) == rest
    ensures FrontPayload(Pack(payload) + rest) == payload <==> |payload| < UINT32
  {
    var n := |payload| % UINT32;
    var s := BigEndian(n, 4) + payload + rest;
    LengthRoundTrip(n, payload + rest);
    assert s == BigEndian(n, 4) + (payload + rest);
    assert ReadLength(s) == n;
    if |payload| < UINT32 {
      assert s[4..4 + n] == payload && s[4 + n..] == rest;
    }
  }

  predicate Sendable(payload: seq<Byte>)
  {
    |payload| < UINT32
  }

  function Frames(payloads: seq<seq<Byte>>): seq<Byte>
  {
    if payloads == [] then [] else Pack(payloads[0]) + Frames(payloads[1..])
  }

  lemma {:induction false} FramesAppend(ps: seq<seq<Byte>>, qs: seq<seq<Byte>>)
    ensures Frames(ps + qs) == Frames(ps) + Frames(qs)
  {
    if ps == [] {
      assert ps + qs == qs;
    } else {
      assert (ps + qs)[1..] == ps[1..] + qs;
      FramesAppend(ps[1..], qs);
    }
  }

  lemma FirstFrame(payloads: seq<seq<Byte>>, a: seq<Byte>, b: seq<Byte>)
    requires payloads != [] && Sendable(payloads[0]) && a + b == Frames(payloads)
    ensures Complete(a) ==> FrontPayload(a) == payloads[0] && AfterFront(a) + b == Frames(payloads[1..])
    ensures b == [] ==> Complete(a)
  {
    var p, rest := payloads[0], Frames(payloads[1..]);
    assert a + b == Pack(p) + rest;
    PackRoundTrip(p, rest);
    if Complete(a) {
      FrontOfLonger(a, b);
    }
    if b == [] {
      assert a + b == a;
    }
  }

  /** A prefix of a stream of frames yields a prefix of the payloads; what is left, with the
      bytes still to come, is the stream of the others. */
  lemma {:induction false} ParsePrefix(payloads: seq<seq<Byte>>, a: seq<Byte>, b: seq<Byte>) returns (n: nat)
    requires forall p | p in payloads :: Sendable(p)
    requires a + b == Frames(payloads)
    ensures n <= |payloads| && ParseAll(a).0 == payloads[..n]
    ensures ParseAll(a).1 + b == Frames(payloads[n..])
    ensures b == [] ==> n == |payloads|
    decreases |payloads|
  {
    if payloads == [] {
      assert a == a + b == [];
      n := 0;
    } else {
      FirstFrame(payloads, a, b);
      if Complete(a) {
        var m := ParsePrefix(payloads[1..], AfterFront(a), b);
        n := m + 1;
        assert payloads[..n] == [payloads[0]] + payloads[1..][..m];
        assert payloads[n..] == payloads[1..][m..];
      } else {
        n := 0;
        assert payloads[0..] == payloads;
      }
    }
  }

  /** Framing and unframing a whole conversation. */
  lemma FramesRoundTrip(payloads: seq<seq<Byte>>)
    requires forall p | p in payloads :: Sendable(p)
    ensures ParseAll(Frames(payloads)) == (payloads, [])
  {
    assert Frames(payloads) + [] == Frames(payloads);
    var n := ParsePrefix(payloads, Frames(payloads), []);
    assert payloads[..n] == payloads && payloads[n..] == [];
  }
}
