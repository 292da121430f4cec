/**
 Length-prefixed frames (`FramedReader` and `FramedWriter` of
 crates/outboard-protocol/src/lib.rs, and their asynchronous twins). Bodies are the JSON
 bytes of a frame.
*/
module Framing {
  import opened Common

  const U32_SPACE: nat := 0x1_0000_0000

  type Bytes = seq<Byte>

  // ---------- Lengths ----------

  /** `u32::to_be_bytes`. */
  function BigEndian(n: nat): (h: Bytes)
    requires n < U32_SPACE
    ensures |h| == 4 && FromBigEndian(h) == n
  {
    var n1 := n / 0x100;
    var n2 := n1 / 0x100;
    [n2 / 0x100, n2 % 0x100, n1 % 0x100, n % 0x100]
  }

  /** `u32::from_be_bytes`. */
  function FromBigEndian(h: Bytes): (n: nat)
    requires |h| == 4
    ensures n < U32_SPACE
  {
    (h[0] as nat) * 0x100_0000 + (h[1] as nat) * 0x1_0000 + (h[2] as nat) * 0x100 + (h[3] as nat)
  }

  /** The most significant byte comes first: of two lengths, the one whose prefix has the smaller byte
      where they first differ is the smaller; and a length below 256 is its own last byte. */
  lemma {:induction false} BigEndianOrders(m: nat, n: nat)
    requires m < n < U32_SPACE
    ensures exists i :: 0 <= i < 4 && BigEndian(m)[..i] == BigEndian(n)[..i] && BigEndian(m)[i] < BigEndian(n)[i]
    ensures n < 0x100 ==> BigEndian(n) == [0, 0, 0, n]
  {
    var a, b := BigEndian(m), BigEndian(n);
    assert FromBigEndian(a) < FromBigEndian(b);
    if a[0] != b[0] {
      assert a[..0] == b[..0] && a[0] < b[0];
    } else if a[1] != b[1] {
      assert a[..1] == b[..1] && a[1] < b[1];
    } else if a[2] != b[2] {
      assert a[..2] == b[..2] && a[2] < b[2];
    } else {
      assert a[..3] == b[..3] && a[3] < b[3];
    }
  }

  // ---------- What a byte stream means ----------

  function EncodeFrame(body: Bytes): Bytes
    requires |body| < U32_SPACE
  {
    BigEndian(|body|) + body
  }

  predicate Fits(body: Bytes, max: nat) {
    |body| <= max && |body| < U32_SPACE
  }

  predicate AllFit(bodies: seq<Bytes>, max: nat) {
    forall i :: 0 <= i < |bodies| ==> Fits(bodies[i], max)
  }

  function EncodeAll(bodies: seq<Bytes>, max: nat): Bytes
    requires AllFit(bodies, max)
  {
    if bodies == [] then [] else EncodeFrame(bodies[0]) + EncodeAll(bodies[1..], max)
  }

  datatype Parse = Frame(body: Bytes, rest: Bytes) | Truncated | Oversized(length: nat, rest: Bytes)

  function ParseFrame(bytes: Bytes, max: nat): (p: Parse)
    ensures p.Frame? ==> |p.rest| < |bytes|
  {
    if |bytes| < 4 then Truncated
    else
      var n := FromBigEndian(bytes[..4]);
      if n > max then Oversized(n, bytes[4..])
      else if |bytes| < 4 + n then Truncated
      else Frame(bytes[4..4 + n], bytes[4 + n..])
  }

  datatype ReadError = UnexpectedEof | TooLarge(length: nat, max: nat)

  datatype Stream = Stream(bodies: seq<Bytes>, end: ReadError)

  /** Every frame of a stream, and the error that reading it ends with. */
  function ParseAll(bytes: Bytes, max: nat): Stream
    decreases |bytes|
  {
    match ParseFrame(bytes, max)
    case Frame(body, rest) =>
      var tail := ParseAll(rest, max);
      Stream([body] + tail.bodies, tail.end)
    case Truncated => Stream([], UnexpectedEof)
    case Oversized(length, _) => Stream([], TooLarge(length, max))
  }

  /** The bodies whose frames lie wholly within the first `n` bytes. */
  function Complete(bodies: seq<Bytes>, n: nat): seq<Bytes> {
    if bodies == [] || n < 4 + |bodies[0]| then []
    else [bodies[0]] + Complete(bodies[1..], n - 4 - |bodies[0]|)
  }

  lemma {:induction false} ParseFirst(body: Bytes, rest: Bytes, max: nat)
    requires Fits(body, max)
    ensures ParseFrame(EncodeFrame(body) + rest, max) == Frame(body, rest)
  {
    var bytes := EncodeFrame(body) + rest;
    assert bytes[..4] == BigEndian(|body|);
    assert bytes[4..4 + |body|] == body;
    assert bytes[4 + |body|..] == rest;
  }

  /** Cut anywhere, a stream of frames reads as its complete frames and then an unexpected end. */
  lemma {:induction false} TruncatedStream(bodies: seq<Bytes>, max: nat, n: nat)
    requires AllFit(bodies, max) && n <= |EncodeAll(bodies, max)|
    ensures ParseAll(EncodeAll(bodies, max)[..n], max) == Stream(Complete(bodies, n), UnexpectedEof)
    decreases |bodies|
  {
    var all := EncodeAll(bodies, max);
    if bodies != [] {
      var b, tail := bodies[0], EncodeAll(bodies[1..], max);
      var size := 4 + |b|;
      assert all == EncodeFrame(b) + tail;
      if n >= size {
        assert all[..n] == EncodeFrame(b) + tail[..n - size];
        ParseFirst(b, tail[..n - size], max);
        TruncatedStream(bodies[1..], max, n - size);
      } else if n >= 4 {
        assert all[..n][..4] == BigEndian(|b|);
      }
    }
  }

  lemma {:induction false} CompleteAll(bodies: seq<Bytes>, max: nat)
    requires AllFit(bodies, max)
    ensures Complete(bodies, |EncodeAll(bodies, max)|) == bodies
    decreases |bodies|
  {
    if bodies != [] {
      CompleteAll(bodies[1..], max);
      assert bodies == [bodies[0]] + bodies[1..];
    }
  }

  /** `Complete` is the longest prefix of the bodies whose frames fit in `n` bytes. */
  lemma {:induction false} CompleteIsLongest(bodies: seq<Bytes>, max: nat, n: nat)
    requires AllFit(bodies, max)
    ensures var k := |Complete(bodies, n)|;
      && k <= |bodies| && Complete(bodies, n) == bodies[..k] && |EncodeAll(bodies[..k], max)| <= n
      && (k < |bodies| ==> n < |EncodeAll(bodies[..k + 1], max)|)
    decreases |bodies|
  {
    if bodies != [] {
      var k := |Complete(bodies, n)|;
      if n < 4 + |bodies[0]| {
        assert bodies[..1][1..] == [];
      } else {
        var size := 4 + |bodies[0]|;
        CompleteIsLongest(bodies[1..], max, n - size);
        assert bodies[..k][1..] == bodies[1..][..k - 1];
        if k < |bodies| {
          assert bodies[..k + 1][1..] == bodies[1..][..k];
        }
      }
    }
  }

  /** A complete stream reads as exactly the bodies written, then an unexpected end. */
  lemma {:induction false} StreamRoundTrip(bodies: seq<Bytes>, max: nat)
    requires AllFit(bodies, max)
    ensures ParseAll(EncodeAll(bodies, max), max) == Stream(bodies, UnexpectedEof)
  {
    var all := EncodeAll(bodies, max);
    assert all[..|all|] == all;
    TruncatedStream(bodies, max, |all|);
    CompleteAll(bodies, max);
  }

  /** So no two lists of frames share a stream. */
  lemma {:induction false} StreamsAreUnique(a: seq<Bytes>, b: seq<Bytes>, max: nat)
    requires AllFit(a, max) && AllFit(b, max) && EncodeAll(a, max) == EncodeAll(b, max)
    ensures a == b
  {
    StreamRoundTrip(a, max);
    StreamRoundTrip(b, max);
  }

  // ---------- Reading from a source that yields arbitrary chunks ----------

  function Flatten(chunks: seq<Bytes>): Bytes {
    if chunks == [] then [] else chunks[0] + Flatten(chunks[1..])
  }

  /** A pipe: each `read` yields some bytes of the next chunk, or nothing at the end. */
  class Source {
    var chunks: seq<Bytes>

    ghost predicate Valid()
      reads this
    {
      forall i :: 0 <= i < |chunks| ==> chunks[i] != []
    }

    function Remaining(): Bytes
      reads this
    {
      Flatten(chunks)
    }

    constructor (chunks: seq<Bytes>)
      requires forall i :: 0 <= i < |chunks| ==> chunks[i] != []
      ensures Valid() && this.chunks == chunks
    {
      this.chunks := chunks;
    }

    method Read(limit: nat) returns (bytes: Bytes)
      requires Valid() && limit > 0
      modifies this
      ensures Valid() && |bytes| <= limit
      ensures old(Remaining()) == bytes + Remaining()
      ensures bytes == [] <==> old(Remaining()) == []
    {
      if chunks == [] {
        return [];
      }
      var first := chunks[0];
      if |first| <= limit {
        bytes, chunks := first, chunks[1..];
      } else {
        bytes := first[..limit];
        chunks := [first[limit..]] + chunks[1..];
        assert chunks[1..] == old(chunks)[1..];
        assert first == bytes + first[limit..];
      }
    }

    method ReadExact(n: nat) returns (ok: bool, bytes: Bytes)
      requires Valid()
      modifies this
      ensures Valid() && (ok <==> n <= |old(Remaining())|)
      ensures ok ==> bytes == old(Remaining())[..n] && Remaining() == old(Remaining())[n..]
      ensures !ok ==> Remaining() == []
    {
      bytes := [];
      while |bytes| < n
        invariant Valid() && |bytes| <= n
        invariant old(Remaining()) == bytes + Remaining()
        decreases n - |bytes|
      {
        var more := Read(n - |bytes|);
        if more == [] {
          return false, bytes;
        }
        bytes := bytes + more;
      }
      ok := true;
    }
  }

  datatype ReadResult = Body(bytes: Bytes) | Failed(error: ReadError)

  class FramedReader {
    const inner: Source
    const max: nat

    constructor (inner: Source, max: nat)
      ensures this.inner == inner && this.max == max
    {
      this.inner, this.max := inner, max;
    }

    /** `buffered` is the size of the largest buffer the call asked for. */
    method Read() returns (r: ReadResult, buffered: nat)
      requires inner.Valid()
      modifies inner
      ensures inner.Valid() && buffered <= (if max < 4 then 4 else max)
      ensures match ParseFrame(old(inner.Remaining()), max)
        case Frame(body, rest) => r == Body(body) && inner.Remaining() == rest
        case Truncated => r == Failed(UnexpectedEof) && inner.Remaining() == []
        case Oversized(length, rest) => r == Failed(TooLarge(length, max)) && inner.Remaining() == rest
    {
      ghost var bytes := inner.Remaining();
      buffered := 4;
      var ok, header := inner.ReadExact(4);
      if !ok {
        return Failed(UnexpectedEof), buffered;
      }
      var n := FromBigEndian(header);
      if n > max {
        return Failed(TooLarge(n, max)), buffered;
      }
      buffered := if n > 4 then n else 4;
      var body;
      ok, body := inner.ReadExact(n);
      if !ok {
        return Failed(UnexpectedEof), buffered;
      }
      assert bytes[4..][..n] == bytes[4..4 + n] && bytes[4..][n..] == bytes[4 + n..];
      r := Body(body);
    }

    /** A reader loop, as the worker clients and servers run it. */
    method ReadAll() returns (bodies: seq<Bytes>, end: ReadError)
      requires inner.Valid()
      modifies inner
      ensures Stream(bodies, end) == ParseAll(old(inner.Remaining()), max)
    {
      bodies := [];
      while true
        invariant inner.Valid()
        invariant ParseAll(old(inner.Remaining()), max)
          == Stream(bodies + ParseAll(inner.Remaining(), max).bodies, ParseAll(inner.Remaining(), max).end)
        decreases |inner.Remaining()|
      {
        var r, _ := Read();
        match r {
          case Failed(error) => return bodies, error;
          case Body(bytes) =>
            bodies := bodies + [bytes];
        }
      }
    }
  }

  datatype WriteResult = Written | Rejected(length: nat, max: nat)

  class FramedWriter {
    var bytes: Bytes
    const max: nat

    constructor (max: nat)
      ensures bytes == [] && this.max == max
    {
      bytes, this.max := [], max;
    }

    /** A rejected body leaves no byte behind. */
    method Write(body: Bytes) returns (r: WriteResult)
      modifies this
      ensures r.Written? <==> Fits(body, max)
      ensures r.Written? ==> bytes == old(bytes) + EncodeFrame(body)
      ensures r.Rejected? ==> bytes == old(bytes) && r.length == |body| && |body| > r.max
    {
      if |body| > max {
        return Rejected(|body|, max);
      }
      if |body| >= U32_SPACE {
        return Rejected(|body|, U32_SPACE - 1);
      }
      bytes := bytes + BigEndian(|body|);
      bytes := bytes + body;
      r := Written;
    }
  }

  /** However the pipe cuts the bytes of written frames, the reader recovers the frames. */
  method Transfer(bodies: seq<Bytes>, chunks: seq<Bytes>, max: nat) returns (received: seq<Bytes>, end: ReadError)
    requires AllFit(bodies, max) && Flatten(chunks) == EncodeAll(bodies, max)
    requires forall i :: 0 <= i < |chunks| ==> chunks[i] != []
    ensures received == bodies && end == UnexpectedEof
  {
    var source := new Source(chunks);
    var reader := new FramedReader(source, max);
    received, end := reader.ReadAll();
    StreamRoundTrip(bodies, max);
  }
}
