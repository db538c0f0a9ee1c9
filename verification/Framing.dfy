/** Length-prefixed frames over a byte stream that takes and gives bytes in pieces.

    A payload is the JSON text of one message, as bytes. */
module Framing {

  import opened Outcomes

  type byte = b: int | 0 <= b < 256
  type Bytes = seq<byte>

  const DEFAULT_MAX: int := 1_048_576
  const U32: int := 0x1_0000_0000

  function Limit(maxFrameBytes: int): int {
    if maxFrameBytes <= 0 then DEFAULT_MAX else maxFrameBytes
  }

  /** Big-endian, modulo 2^32 as the conversion to a 32-bit number is. */
  function Header(n: nat): (h: Bytes)
    ensures |h| == 4
  {
    var m := n % U32;
    [m / 0x100_0000, m / 0x1_0000 % 0x100, m / 0x100 % 0x100, m % 0x100]
  }

  function Size(h: Bytes): nat
    requires |h| == 4
  {
    var b0: int, b1: int, b2: int := h[0], h[1], h[2];
    b0 * 0x100_0000 + b1 * 0x1_0000 + b2 * 0x100 + h[3]
  }

  lemma HeaderRoundTrip(n: nat)
    ensures Size(Header(n)) == n % U32
  {
    var m := n % U32;
    assert m / 0x1_0000 == m / 0x100_0000 * 0x100 + m / 0x1_0000 % 0x100 by {
      assert m / 0x1_0000 / 0x100 == m / 0x100_0000;
    }
    assert m / 0x100 == m / 0x1_0000 * 0x100 + m / 0x100 % 0x100 by {
      assert m / 0x100 / 0x100 == m / 0x1_0000;
    }
  }

  /** The header holds the four digits to base 256, the highest first. */
  lemma HeaderIsBigEndian(n: nat)
    requires n < U32
    ensures var h := Header(n);
            h[0] == n / 0x100_0000 && h[1] == n / 0x1_0000 % 0x100 && h[2] == n / 0x100 % 0x100 && h[3] == n % 0x100
  {
    assert n % U32 == n;
  }

  predicate InBounds(payload: Bytes, maxFrameBytes: int) {
    2 <= |payload| <= Limit(maxFrameBytes)
  }

  function Frame(payload: Bytes): Bytes {
    Header(|payload|) + payload
  }

  function EncodeFrame(payload: Bytes, maxFrameBytes: int): Result<Bytes, ()> {
    if InBounds(payload, maxFrameBytes) then Ok(Frame(payload)) else Err(())
  }

  datatype ReadError = ClosedInHeader | SizeOutOfPolicy | ClosedInBody

  /** Reads one frame off the front of a stream; gives the payload and what remains. */
  function ReadFrame(stream: Bytes, maxFrameBytes: int): Result<(Bytes, Bytes), ReadError> {
    if |stream| < 4 then Err(ClosedInHeader) else
    var size := Size(stream[..4]);
    if size < 2 || size > Limit(maxFrameBytes) then Err(SizeOutOfPolicy)
    else if |stream| - 4 < size then Err(ClosedInBody)
    else Ok((stream[4..4 + size], stream[4 + size..]))
  }

  /** When a frame is read, in bytes: the first four, taken as a number with the highest byte first,
      must be at least 2 and within the limit, which is the default for a limit that is not
      positive; and so many bytes must follow. A size outside is refused before anything else. */
  lemma ReadIsExact(stream: Bytes, maxFrameBytes: int)
    ensures var limit := if maxFrameBytes <= 0 then 1_048_576 else maxFrameBytes;
            if |stream| < 4 then ReadFrame(stream, maxFrameBytes) == Err(ClosedInHeader)
            else
              var b0: int, b1: int, b2: int, b3: int := stream[0], stream[1], stream[2], stream[3];
              var size := ((b0 * 256 + b1) * 256 + b2) * 256 + b3;
              if size < 2 || size > limit then ReadFrame(stream, maxFrameBytes) == Err(SizeOutOfPolicy)
              else if |stream| < 4 + size then ReadFrame(stream, maxFrameBytes) == Err(ClosedInBody)
              else ReadFrame(stream, maxFrameBytes) == Ok((stream[4..4 + size], stream[4 + size..]))
  {
    if |stream| >= 4 {
      assert stream[..4] == [stream[0], stream[1], stream[2], stream[3]];
    }
  }

  /** A frame that the writer accepts is read back, whatever follows it, exactly if its size
      fits the header; a larger one is never read back as itself. */
  lemma FrameRoundTrip(payload: Bytes, rest: Bytes, maxFrameBytes: int)
    requires InBounds(payload, maxFrameBytes)
    ensures ReadFrame(Frame(payload) + rest, maxFrameBytes) == Ok((payload, rest)) <==> |payload| < U32
  {
    var stream := Frame(payload) + rest;
    HeaderRoundTrip(|payload|);
    assert stream[..4] == Header(|payload|);
    if |payload| < U32 {
      assert |payload| % U32 == |payload|;
      assert stream[4..4 + |payload|] == payload;
      assert stream[4 + |payload|..] == rest;
    } else {
      assert |payload| % U32 < |payload|;
    }
  }

  function Frames(payloads: seq<Bytes>): Bytes {
    if payloads == [] then [] else Frame(payloads[0]) + Frames(payloads[1..])
  }

  /** Reads frames until the stream is used up. */
  function ReadAll(stream: Bytes, maxFrameBytes: int): Result<seq<Bytes>, ReadError>
    decreases |stream|
  {
    if stream == [] then Ok([]) else
    match ReadFrame(stream, maxFrameBytes)
    case Err(e) => Err(e)
    case Ok((payload, rest)) =>
      match ReadAll(rest, maxFrameBytes)
      case Err(e) => Err(e)
      case Ok(payloads) => Ok([payload] + payloads)
  }

  /** The same payloads come out, in order, with nothing left over. */
  lemma {:induction false} StreamRoundTrip(payloads: seq<Bytes>, maxFrameBytes: int)
    requires forall p <- payloads :: InBounds(p, maxFrameBytes) && |p| < U32
    ensures ReadAll(Frames(payloads), maxFrameBytes) == Ok(payloads)
  {
    if payloads != [] {
      FrameRoundTrip(payloads[0], Frames(payloads[1..]), maxFrameBytes);
      StreamRoundTrip(payloads[1..], maxFrameBytes);
      assert payloads == [payloads[0]] + payloads[1..];
    }
  }

  /** A connection's receiving end: bytes that arrived, and how many the next writes take. */
  class Sink {
    var received: Bytes
    var plan: seq<(nat, bool)>

    constructor (plan: seq<(nat, bool)>)
      ensures received == [] && this.plan == plan
    {
      received := [];
      this.plan := plan;
    }

    /** Takes a prefix of the buffer and may report an error. */
    method Write(buffer: Bytes) returns (n: nat, failed: bool)
      modifies this
      ensures n <= |buffer| && received == old(received) + buffer[..n]
    {
      n, failed := |buffer|, false;
      if plan != [] {
        n := if plan[0].0 < |buffer| then plan[0].0 else |buffer|;
        failed := plan[0].1;
        plan := plan[1..];
      }
      received := received + buffer[..n];
    }
  }

  /** Under any pattern of short writes and errors: on success exactly the frame was sent; on
      failure a part of it from the start, and nothing if the payload is out of bounds. */
  method WriteFrame(w: Sink, payload: Bytes, maxFrameBytes: int) returns (ok: bool)
    modifies w
    ensures ok ==> InBounds(payload, maxFrameBytes) && w.received == old(w.received) + Frame(payload)
    ensures !ok ==> exists k :: 0 <= k <= |Frame(payload)| && w.received == old(w.received) + Frame(payload)[..k]
    ensures !InBounds(payload, maxFrameBytes) ==> !ok && w.received == old(w.received)
    ensures InBounds(payload, maxFrameBytes) <==> 2 <= |payload| <= if maxFrameBytes <= 0 then 1_048_576 else maxFrameBytes
  {
    var encoded := EncodeFrame(payload, maxFrameBytes);
    if encoded.Err? {
      assert w.received == w.received + Frame(payload)[..0];
      return false;
    }
    var frame := encoded.value;
    ghost var done := 0;
    assert frame == Frame(payload)[0..] && w.received == old(w.received) + Frame(payload)[..0];
    while |frame| > 0
      invariant 0 <= done <= |Frame(payload)| && frame == Frame(payload)[done..]
      invariant w.received == old(w.received) + Frame(payload)[..done]
      decreases |frame|
    {
      var n, failed := w.Write(frame);
      assert Frame(payload)[..done] + frame[..n] == Frame(payload)[..done + n];
      done := done + n;
      if failed || n == 0 {
        return false;
      }
      frame := frame[n..];
    }
    assert Frame(payload)[..done] == Frame(payload);
    ok := true;
  }

  /** A connection's sending end: bytes still to come and how they are cut. */
  class Source {
    var pending: Bytes
    var plan: seq<nat>

    constructor (pending: Bytes, plan: seq<nat>)
      ensures this.pending == pending && this.plan == plan
    {
      this.pending := pending;
      this.plan := plan;
    }

    /** At least one byte and at most `limit`, unless the stream has ended. */
    method Read(limit: nat) returns (chunk: Bytes)
      requires limit > 0
      modifies this
      ensures |chunk| <= limit && chunk + pending == old(pending)
      ensures chunk == [] <==> old(pending) == []
    {
      var n := if limit < |pending| then limit else |pending|;
      if plan != [] {
        if 0 < plan[0] < n {
          n := plan[0];
        }
        plan := plan[1..];
      }
      chunk := pending[..n];
      pending := pending[n..];
    }
  }

  /** Collects exactly `n` bytes, however they are cut, or finds the stream too short. */
  method ReadFull(src: Source, n: nat) returns (r: Option<Bytes>)
    modifies src
    ensures r.Some? <==> |old(src.pending)| >= n
    ensures r.Some? ==> r.value == old(src.pending)[..n] && src.pending == old(src.pending)[n..]
  {
    var buffer: Bytes := [];
    while |buffer| < n
      invariant |buffer| <= n && buffer + src.pending == old(src.pending)
      decreases n - |buffer|
    {
      var chunk := src.Read(n - |buffer|);
      if chunk == [] {
        assert |buffer + src.pending| == |old(src.pending)|;
        return None;
      }
      buffer := buffer + chunk;
      assert buffer + src.pending == old(src.pending);
    }
    assert old(src.pending)[..n] == buffer;
    r := Some(buffer);
  }

  /** Reading a frame from a stream that is cut anywhere gives what reading it whole gives. */
  method ReadFrameFrom(src: Source, maxFrameBytes: int) returns (r: Result<Bytes, ReadError>)
    modifies src
    ensures match ReadFrame(old(src.pending), maxFrameBytes)
            case Ok((payload, rest)) => r == Ok(payload) && src.pending == rest
            case Err(e) => r == Err(e)
  {
    var header := ReadFull(src, 4);
    if header.None? {
      return Err(ClosedInHeader);
    }
    var size := Size(header.value);
    if size < 2 || size > Limit(maxFrameBytes) {
      return Err(SizeOutOfPolicy);
    }
    var body := ReadFull(src, size);
    if body.None? {
      return Err(ClosedInBody);
    }
    ghost var stream := old(src.pending);
    assert stream[4..][..size] == stream[4..4 + size] && stream[4..][size..] == stream[4 + size..];
    r := Ok(body.value);
  }

  /** Writes payloads until one is refused or the connection fails; what arrived are the frames
      of those before it, and perhaps a piece of the next. */
  method SendAll(w: Sink, payloads: seq<Bytes>, maxFrameBytes: int) returns (sent: nat, ghost piece: Bytes)
    requires (forall p <- payloads :: |p| < U32) && w.received == []
    modifies w
    ensures sent <= |payloads| && w.received == Frames(payloads[..sent]) + piece
    ensures forall p <- payloads[..sent] :: InBounds(p, maxFrameBytes)
    ensures if sent == |payloads| then piece == [] else piece <= Frame(payloads[sent])
  {
    sent, piece := 0, [];
    while sent < |payloads|
      invariant sent <= |payloads| && w.received == Frames(payloads[..sent]) && piece == []
      invariant forall p <- payloads[..sent] :: InBounds(p, maxFrameBytes)
    {
      ghost var before := w.received;
      var ok := WriteFrame(w, payloads[sent], maxFrameBytes);
      if !ok {
        piece := w.received[|before|..];
        return;
      }
      FramesAppend(payloads[..sent], payloads[sent]);
      assert payloads[..sent + 1] == payloads[..sent] + [payloads[sent]];
      sent := sent + 1;
    }
  }

  lemma NextFrame(payloads: seq<Bytes>, k: nat, tail: Bytes, maxFrameBytes: int)
    requires k < |payloads| && InBounds(payloads[k], maxFrameBytes) && |payloads[k]| < U32
    ensures ReadFrame(Frames(payloads[k..]) + tail, maxFrameBytes) == Ok((payloads[k], Frames(payloads[k + 1..]) + tail))
  {
    assert payloads[k..][1..] == payloads[k + 1..];
    assert Frames(payloads[k..]) + tail == Frame(payloads[k]) + (Frames(payloads[k + 1..]) + tail);
    FrameRoundTrip(payloads[k], Frames(payloads[k + 1..]) + tail, maxFrameBytes);
  }

  /** Reads so many frames. */
  method ReceiveAll(src: Source, count: nat, ghost payloads: seq<Bytes>, ghost tail: Bytes, maxFrameBytes: int)
    returns (received: seq<Bytes>)
    requires count == |payloads| && src.pending == Frames(payloads) + tail
    requires forall p <- payloads :: InBounds(p, maxFrameBytes) && |p| < U32
    modifies src
    ensures received == payloads && src.pending == tail
  {
    received := [];
    while |received| < count
      invariant |received| <= count && received == payloads[..|received|]
      invariant src.pending == Frames(payloads[|received|..]) + tail
    {
      NextFrame(payloads, |received|, tail, maxFrameBytes);
      var r := ReadFrameFrom(src, maxFrameBytes);
      received := received + [r.value];
    }
  }

  /** End to end: the payloads that were written successfully, under any short writes, are read
      back in order from the bytes that arrived, under any cutting. */
  method Transfer(payloads: seq<Bytes>, maxFrameBytes: int, writes: seq<(nat, bool)>, cuts: seq<nat>)
    returns (sent: nat, received: seq<Bytes>)
    requires forall p <- payloads :: |p| < U32
    ensures sent <= |payloads| && received == payloads[..sent]
  {
    var w := new Sink(writes);
    ghost var piece;
    sent, piece := SendAll(w, payloads, maxFrameBytes);
    var src := new Source(w.received, cuts);
    received := ReceiveAll(src, sent, payloads[..sent], piece, maxFrameBytes);
  }

  lemma {:induction false} FramesAppend(payloads: seq<Bytes>, p: Bytes)
    ensures Frames(payloads + [p]) == Frames(payloads) + Frame(p)
  {
    if payloads == [] {
      assert ([] + [p])[1..] == [];
    } else {
      FramesAppend(payloads[1..], p);
      assert (payloads + [p])[1..] == payloads[1..] + [p];
    }
  }
}
