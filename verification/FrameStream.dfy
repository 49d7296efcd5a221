/** FrameStream::read_frame: frames out of a byte stream that arrives in pieces
    (src/transport.cpp). */
module FrameStream {
  import opened Errors
  import opened CanonicalBytes
  import opened Wire

  const COMPACT_ABOVE: nat := 65536

  // ---------------------------------------------------------------------------
  // One read_frame call as a function of what is buffered and what is still to come
  // ---------------------------------------------------------------------------

  datatype ReadResult = ReadResult(result: Result<Frame>, buffered: Bytes, incoming: seq<Bytes>)

  /** incoming lists what the socket will deliver, read by read; an empty read, or none left,
      is the peer closing or the receive failing, both of which are an I/O failure. */
  function ReadFrom(crc: Bytes -> U32, buffered: Bytes, incoming: seq<Bytes>): ReadResult
    decreases |incoming|
  {
    var decoded := DecodeFrame(crc, buffered);
    if decoded.Ok? then
      ReadResult(Ok(decoded.value.frame), buffered[decoded.value.consumed..], incoming)
    else if decoded.error != NotReady then
      ReadResult(Err(decoded.error), buffered, incoming)
    else if |buffered| > MAX_FRAME_BYTES then
      ReadResult(Err(LimitExceeded), buffered, incoming)
    else if incoming == [] then
      ReadResult(Err(IoFailure), buffered, incoming)
    else if incoming[0] == [] then
      ReadResult(Err(IoFailure), buffered, incoming[1..])
    else
      ReadFrom(crc, buffered + incoming[0], incoming[1..])
  }

  function Joined(pieces: seq<Bytes>): Bytes {
    if pieces == [] then [] else pieces[0] + Joined(pieces[1..])
  }

  ghost predicate NonEmpty(pieces: seq<Bytes>) {
    forall i :: 0 <= i < |pieces| ==> pieces[i] != []
  }

  /** Frames no longer than this are received however the stream is cut. */
  const LONGEST_SAFE_FRAME: nat := MAX_FRAME_BYTES + 1

  /** A frame that is not too long is received whatever the pieces, and what follows it in the
      stream is left for the next call. */
  lemma {:induction false} FrameReceived(
    crc: Bytes -> U32, f: Frame, rest: Bytes, buffered: Bytes, incoming: seq<Bytes>)
    requires |EncodeFrame(crc, f)| <= LONGEST_SAFE_FRAME
    requires NonEmpty(incoming) && buffered + Joined(incoming) == EncodeFrame(crc, f) + rest
    ensures var r := ReadFrom(crc, buffered, incoming);
      && r.result == Ok(f)
      && r.buffered + Joined(r.incoming) == rest
      && NonEmpty(r.incoming)
    decreases |incoming|
  {
    hide DecodeFrame;
    var frame := EncodeFrame(crc, f);
    var stream := frame + rest;
    if |buffered| >= |frame| {
      assert buffered == stream[..|buffered|];
      assert buffered == frame + buffered[|frame|..];
      FrameRoundTrip(crc, f, buffered[|frame|..]);
      assert buffered[|frame|..] + Joined(incoming) == stream[|frame|..];
    } else {
      assert buffered == stream[..|buffered|] == frame[..|buffered|];
      PrefixNotReady(crc, f, buffered);
      assert incoming != [];
      assert buffered + Joined(incoming) == (buffered + incoming[0]) + Joined(incoming[1..]);
      FrameReceived(crc, f, rest, buffered + incoming[0], incoming[1..]);
    }
  }

  // ---------------------------------------------------------------------------
  // The bound is exact
  // ---------------------------------------------------------------------------

  /** Reads of between one and chunk bytes that deliver exactly the frame. */
  ghost predicate Delivers(pieces: seq<Bytes>, chunk: nat, frame: Bytes) {
    Joined(pieces) == frame && forall i :: 0 <= i < |pieces| ==> 0 < |pieces[i]| <= chunk
  }

  ghost predicate ReceivedHowever(crc: Bytes -> U32, f: Frame, chunk: nat) {
    forall incoming: seq<Bytes> :: Delivers(incoming, chunk, EncodeFrame(crc, f)) ==>
      ReadFrom(crc, [], incoming).result == Ok(f)
  }

  /** Whatever the read size, a frame within the payload bound is received however its bytes
      are cut if and only if header and payload together exceed the frame bound by at most one
      byte; a longer one is refused, for one, when it arrives byte by byte. */
  lemma ReceivedHoweverIff(crc: Bytes -> U32, f: Frame, chunk: nat)
    requires |f.payload| <= MAX_FRAME_BYTES && chunk > 0
    ensures ReceivedHowever(crc, f, chunk) <==> |EncodeFrame(crc, f)| <= LONGEST_SAFE_FRAME
  {
    hide DecodeFrame, ReadFrom, EncodeFrame;
    var frame := EncodeFrame(crc, f);
    if |frame| <= LONGEST_SAFE_FRAME {
      forall incoming: seq<Bytes> | Delivers(incoming, chunk, frame)
        ensures ReadFrom(crc, [], incoming).result == Ok(f)
      {
        assert [] + Joined(incoming) == frame + [];
        FrameReceived(crc, f, [], [], incoming);
      }
    } else {
      JoinedSingles(frame);
      assert Delivers(Singles(frame), chunk, frame);
      assert frame[..0] == [] && frame[0..] == frame;
      ByteByByte(crc, f, 0);
    }
  }

  /** One read per byte. */
  function Singles(b: Bytes): (s: seq<Bytes>)
    ensures forall i :: 0 <= i < |s| ==> |s[i]| == 1
  {
    if b == [] then [] else [[b[0]]] + Singles(b[1..])
  }

  lemma {:induction false} JoinedSingles(b: Bytes)
    ensures Joined(Singles(b)) == b
  {
    if b != [] {
      JoinedSingles(b[1..]);
      assert Singles(b)[1..] == Singles(b[1..]);
    }
  }

  // Byte by byte, an over-long frame fills the buffer past the bound before it is complete.
  lemma {:induction false} ByteByByte(crc: Bytes -> U32, f: Frame, i: nat)
    requires |f.payload| <= MAX_FRAME_BYTES
    requires i <= LONGEST_SAFE_FRAME < |EncodeFrame(crc, f)|
    ensures var frame := EncodeFrame(crc, f);
      ReadFrom(crc, frame[..i], Singles(frame[i..])).result == Err(LimitExceeded)
    decreases LONGEST_SAFE_FRAME - i
  {
    hide DecodeFrame, EncodeFrame;
    var frame := EncodeFrame(crc, f);
    PrefixNotReady(crc, f, frame[..i]);
    if i < LONGEST_SAFE_FRAME {
      ByteByByte(crc, f, i + 1);
      assert frame[i..][1..] == frame[i + 1..];
      assert Singles(frame[i..])[1..] == Singles(frame[i + 1..]);
      assert frame[..i] + Singles(frame[i..])[0] == frame[..i + 1];
    }
  }

  // ---------------------------------------------------------------------------
  // A whole conversation
  // ---------------------------------------------------------------------------

  function EncodeAll(crc: Bytes -> U32, fs: seq<Frame>): Bytes {
    if fs == [] then [] else EncodeFrame(crc, fs[0]) + EncodeAll(crc, fs[1..])
  }

  datatype Session = Session(frames: seq<Result<Frame>>, buffered: Bytes, incoming: seq<Bytes>)

  /** n successive read_frame calls. */
  function ReadMany(crc: Bytes -> U32, n: nat, buffered: Bytes, incoming: seq<Bytes>): Session {
    if n == 0 then Session([], buffered, incoming)
    else
      var r := ReadFrom(crc, buffered, incoming);
      var later := ReadMany(crc, n - 1, r.buffered, r.incoming);
      Session([r.result] + later.frames, later.buffered, later.incoming)
  }

  /** Any number of frames, cut into reads in any way, come out one per call and in order. */
  lemma {:induction false} SessionReceived(
    crc: Bytes -> U32, fs: seq<Frame>, rest: Bytes, buffered: Bytes, incoming: seq<Bytes>)
    requires forall i :: 0 <= i < |fs| ==> |EncodeFrame(crc, fs[i])| <= LONGEST_SAFE_FRAME
    requires NonEmpty(incoming) && buffered + Joined(incoming) == EncodeAll(crc, fs) + rest
    ensures var s := ReadMany(crc, |fs|, buffered, incoming);
      && |s.frames| == |fs|
      && (forall i :: 0 <= i < |fs| ==> s.frames[i] == Ok(fs[i]))
      && s.buffered + Joined(s.incoming) == rest
    decreases |fs|
  {
    hide ReadFrom, EncodeFrame;
    if fs == [] {
      assert EncodeAll(crc, fs) + rest == rest;
    } else {
      var behind := EncodeAll(crc, fs[1..]) + rest;
      assert EncodeAll(crc, fs) + rest == EncodeFrame(crc, fs[0]) + behind;
      FrameReceived(crc, fs[0], behind, buffered, incoming);
      var r := ReadFrom(crc, buffered, incoming);
      SessionReceived(crc, fs[1..], rest, r.buffered, r.incoming);
    }
  }

  // ---------------------------------------------------------------------------
  // The stream object
  // ---------------------------------------------------------------------------

  /** The receiving end of a connection. */
  class Socket {
    var incoming: seq<Bytes>

    constructor (incoming: seq<Bytes>)
      ensures this.incoming == incoming
    {
      this.incoming := incoming;
    }

    method Receive() returns (chunk: Bytes)
      modifies this
      ensures old(incoming) == [] ==> chunk == [] && incoming == []
      ensures old(incoming) != [] ==> chunk == old(incoming)[0] && incoming == old(incoming)[1..]
    {
      if incoming == [] {
        chunk := [];
      } else {
        chunk := incoming[0];
        incoming := incoming[1..];
      }
    }
  }

  class Stream {
    const crc: Bytes -> U32
    const socket: Socket
    var buffer: Bytes
    var start: nat
    var bytesReceived: nat
    ghost var bytesConsumed: nat

    /** Every byte received is either consumed by a returned frame or still buffered. */
    ghost predicate Valid()
      reads this
    {
      start <= |buffer| && bytesConsumed + (|buffer| - start) == bytesReceived
    }

    function Available(): Bytes
      reads this
      requires start <= |buffer|
    {
      buffer[start..]
    }

    constructor (crc: Bytes -> U32, socket: Socket)
      ensures Valid() && Available() == [] && this.crc == crc && this.socket == socket
      ensures bytesReceived == 0 && bytesConsumed == 0
    {
      this.crc := crc;
      this.socket := socket;
      buffer := [];
      start := 0;
      bytesReceived := 0;
      bytesConsumed := 0;
    }

    // Step over a frame and give its bytes back once the buffer is empty or long.
    method Consume(n: nat)
      requires Valid() && n <= |Available()|
      modifies this
      ensures Valid() && Available() == old(Available())[n..]
      ensures bytesReceived == old(bytesReceived) && bytesConsumed == old(bytesConsumed) + n
    {
      start := start + n;
      bytesConsumed := bytesConsumed + n;
      if start == |buffer| {
        buffer := [];
        start := 0;
      } else if start > COMPACT_ABOVE {
        buffer := buffer[start..];
        start := 0;
      }
    }

    method ReadFrame() returns (result: Result<Frame>)
      requires Valid()
      modifies this, socket
      ensures Valid()
      ensures ReadResult(result, Available(), socket.incoming) ==
        ReadFrom(crc, old(Available()), old(socket.incoming))
    {
      hide DecodeFrame;
      NothingBuffered(crc);
      while true
        invariant Valid()
        invariant ReadFrom(crc, Available(), socket.incoming) ==
          ReadFrom(crc, old(Available()), old(socket.incoming))
        decreases |socket.incoming|
      {
        if |buffer| > start {
          var decoded := DecodeFrame(crc, buffer[start..]);
          if decoded.Ok? {
            Consume(decoded.value.consumed);
            return Ok(decoded.value.frame);
          }
          if decoded.error != NotReady {
            return Err(decoded.error);
          }
        }
        if |buffer| - start > MAX_FRAME_BYTES {
          return Err(LimitExceeded);
        }
        ghost var before := Available();
        var chunk := socket.Receive();
        if chunk == [] {
          return Err(IoFailure);
        }
        bytesReceived := bytesReceived + |chunk|;
        buffer := buffer + chunk;
        assert Available() == before + chunk;
      }
    }
  }

  lemma NothingBuffered(crc: Bytes -> U32)
    ensures DecodeFrame(crc, []) == Err(NotReady)
  {
  }
}
