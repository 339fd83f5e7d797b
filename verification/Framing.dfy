/** The wire layout: an eight byte header with two little-endian lengths, the
    encoded message, then its payload bytes. What a reader should return is
    defined here on the byte stream alone, without buffers or chunking. */
module Framing {
  import opened Common

  const HEADER_LEN := 8
  const MAX_FRAME_BODY := 0x10_0000
  const MAX_PAYLOAD := 64 * 1024 * 1024
  const MAX_FRAME_PAYLOAD := 2 * MAX_PAYLOAD
  const U32_LIMIT := 0x1_0000_0000

  datatype Header = Header(bodyLen: nat, payloadLen: nat)

  datatype Frame = Frame(body: seq<byte>, payload: seq<byte>)

  /** What the codec makes of a body: a message of this build, a message only a
      newer build knows, or bytes it cannot read. */
  datatype Decoded<+M> = Known(msg: M) | Unknown | Bad

  datatype Error =
    | Closed
    | Undecodable
    | BodyTooLarge(length: nat)
    | PayloadTooLarge(length: nat)
    | PayloadOverrun(asked: nat, left: nat)

  /** A finished read: the message, how many payload bytes belong to it, and
      the stream from the payload on; or the error that ends the connection. */
  datatype Read<+M> = Got(msg: M, payloadLen: nat, rest: seq<byte>) | Failed(error: Error)

  function ToLe32(n: nat): (b: seq<byte>)
    requires n < U32_LIMIT
    ensures |b| == 4
  {
    [n % 0x100, n / 0x100 % 0x100, n / 0x1_0000 % 0x100, n / 0x100_0000]
  }

  function FromLe32(b: seq<byte>): (n: nat)
    requires |b| == 4
    ensures n < U32_LIMIT
  {
    (b[0] as int) + 0x100 * (b[1] as int) + 0x1_0000 * (b[2] as int) + 0x100_0000 * (b[3] as int)
  }

  lemma {:induction false} LengthsSurviveTheHeader(n: nat)
    requires n < U32_LIMIT
    ensures FromLe32(ToLe32(n)) == n
  {
    assert n / 0x1_0000 == n / 0x100 / 0x100;
    assert n / 0x100_0000 == n / 0x100 / 0x100 / 0x100;
  }

  function ParseHeader(b: seq<byte>): Header
    requires |b| == HEADER_LEN
  {
    Header(FromLe32(b[..4]), FromLe32(b[4..]))
  }

  predicate HeaderWithinLimits(h: Header) {
    h.bodyLen <= MAX_FRAME_BODY && h.payloadLen <= MAX_FRAME_PAYLOAD
  }

  /** The frames the writer sends; anything larger it refuses. */
  predicate Acceptable(f: Frame) {
    |f.body| <= MAX_FRAME_BODY && |f.payload| <= MAX_FRAME_PAYLOAD
  }

  predicate AllAcceptable(fs: seq<Frame>) {
    forall i | 0 <= i < |fs| :: Acceptable(fs[i])
  }

  function EncodeHeader(f: Frame): (b: seq<byte>)
    requires Acceptable(f)
    ensures |b| == HEADER_LEN
  {
    ToLe32(|f.body|) + ToLe32(|f.payload|)
  }

  function Encode(f: Frame): seq<byte>
    requires Acceptable(f)
  {
    EncodeHeader(f) + f.body + f.payload
  }

  function EncodeAll(fs: seq<Frame>): seq<byte>
    requires AllAcceptable(fs)
  {
    if fs == [] then [] else Encode(fs[0]) + EncodeAll(fs[1..])
  }

  /** The next message on a stream whose first `skip` bytes are to be
      discarded, when no header has been read yet. */
  function NextFrame<M>(decode: seq<byte> -> Decoded<M>, skip: nat, bytes: seq<byte>): Read<M>
    decreases |bytes|, 0
  {
    if |bytes| < skip + HEADER_LEN then
      Failed(Closed)
    else
      var h := ParseHeader(bytes[skip..skip + HEADER_LEN]);
      if h.bodyLen > MAX_FRAME_BODY then Failed(BodyTooLarge(h.bodyLen))
      else if h.payloadLen > MAX_FRAME_PAYLOAD then Failed(PayloadTooLarge(h.payloadLen))
      else NextBody(decode, h, bytes[skip + HEADER_LEN..])
  }

  /** The next message when its header has been read already. */
  function NextBody<M>(decode: seq<byte> -> Decoded<M>, h: Header, bytes: seq<byte>): Read<M>
    decreases |bytes|, 1
  {
    if |bytes| < h.bodyLen then
      Failed(Closed)
    else
      match decode(bytes[..h.bodyLen])
      case Known(m) => Got(m, h.payloadLen, bytes[h.bodyLen..])
      case Bad => Failed(Undecodable)
      case Unknown => NextFrame(decode, h.payloadLen, bytes[h.bodyLen..])
  }

  /** What a reader owes a caller for a list of frames: the first known
      message, passing over unknown ones, unless a bad one comes first. */
  function Expected<M>(decode: seq<byte> -> Decoded<M>, fs: seq<Frame>): Read<M>
    requires AllAcceptable(fs)
  {
    if fs == [] then
      Failed(Closed)
    else
      match decode(fs[0].body)
      case Known(m) => Got(m, |fs[0].payload|, fs[0].payload + EncodeAll(fs[1..]))
      case Bad => Failed(Undecodable)
      case Unknown => Expected(decode, fs[1..])
  }

  /** Discarding a prefix early or late makes no difference. */
  lemma {:induction false} DiscardEarly<M>(decode: seq<byte> -> Decoded<M>, skip: nat, n: nat, bytes: seq<byte>)
    requires n <= skip && n <= |bytes|
    ensures NextFrame(decode, skip, bytes) == NextFrame(decode, skip - n, bytes[n..])
  {
    if |bytes| >= skip + HEADER_LEN {
      var late := bytes[n..];
      assert late[skip - n..skip - n + HEADER_LEN] == bytes[skip..skip + HEADER_LEN];
      assert late[skip - n + HEADER_LEN..] == bytes[skip + HEADER_LEN..];
    }
  }

  lemma {:induction false} HeaderOfFrame(f: Frame)
    requires Acceptable(f)
    ensures ParseHeader(EncodeHeader(f)) == Header(|f.body|, |f.payload|)
  {
    var b := EncodeHeader(f);
    assert b[..4] == ToLe32(|f.body|) && b[4..] == ToLe32(|f.payload|);
    LengthsSurviveTheHeader(|f.body|);
    LengthsSurviveTheHeader(|f.payload|);
  }

  /** Reading undoes writing: behind any `skipped` bytes, the stream of frames
      yields exactly what `Expected` says of the list. */
  lemma {:induction false} ReadingUndoesWriting<M>(
    decode: seq<byte> -> Decoded<M>, skipped: seq<byte>, fs: seq<Frame>)
    requires AllAcceptable(fs)
    ensures NextFrame(decode, |skipped|, skipped + EncodeAll(fs)) == Expected(decode, fs)
    decreases |fs|
  {
    if fs != [] {
      OneFrameAhead(decode, skipped, fs[0], EncodeAll(fs[1..]));
      ReadingUndoesWriting(decode, fs[0].payload, fs[1..]);
    }
  }

  /** The frame behind the skipped bytes is the one read next. */
  lemma {:induction false} OneFrameAhead<M>(
    decode: seq<byte> -> Decoded<M>, skipped: seq<byte>, f: Frame, tail: seq<byte>)
    requires Acceptable(f)
    ensures NextFrame(decode, |skipped|, skipped + (Encode(f) + tail))
         == match decode(f.body)
            case Known(m) => Got(m, |f.payload|, f.payload + tail)
            case Bad => Failed(Undecodable)
            case Unknown => NextFrame(decode, |f.payload|, f.payload + tail)
  {
    var bytes := skipped + (Encode(f) + tail);
    var n := |skipped| + HEADER_LEN;
    assert bytes[|skipped|..n] == EncodeHeader(f);
    HeaderOfFrame(f);
    var afterHeader := f.body + f.payload + tail;
    assert bytes[n..] == afterHeader;
    assert NextFrame(decode, |skipped|, bytes) == NextBody(decode, ParseHeader(bytes[|skipped|..n]), bytes[n..]);
    hide EncodeHeader, ParseHeader, NextFrame;
    assert afterHeader[..|f.body|] == f.body;
    assert afterHeader[|f.body|..] == f.payload + tail;
  }

  /** The frames behind the first known message. */
  function AfterKnown<M>(decode: seq<byte> -> Decoded<M>, fs: seq<Frame>): (r: seq<Frame>)
    requires AllAcceptable(fs)
    ensures AllAcceptable(r)
  {
    if fs == [] then []
    else if decode(fs[0].body).Known? then fs[1..]
    else AfterKnown(decode, fs[1..])
  }

  /** How a session on these frames ends: on the first undecodable body, else
      with the stream. */
  function Ending<M>(decode: seq<byte> -> Decoded<M>, fs: seq<Frame>): (e: Error)
    ensures e in {Closed, Undecodable}
  {
    if fs == [] then Closed
    else if decode(fs[0].body).Bad? then Undecodable
    else Ending(decode, fs[1..])
  }

  /** The messages, each with its payload, a session on these frames sees. */
  function KnownMessages<M>(decode: seq<byte> -> Decoded<M>, fs: seq<Frame>): seq<(M, seq<byte>)> {
    if fs == [] then []
    else
      match decode(fs[0].body)
      case Known(m) => [(m, fs[0].payload)] + KnownMessages(decode, fs[1..])
      case Bad => []
      case Unknown => KnownMessages(decode, fs[1..])
  }

  /** One read takes the head off the known messages and leaves the rest; it
      fails exactly when there is none. */
  lemma {:induction false} OneReadTakesTheFirstKnown<M>(decode: seq<byte> -> Decoded<M>, fs: seq<Frame>)
    returns (payload: seq<byte>)
    requires AllAcceptable(fs)
    ensures match Expected(decode, fs)
            case Failed(e) => KnownMessages(decode, fs) == [] && e == Ending(decode, fs)
            case Got(m, len, rest) =>
              && KnownMessages(decode, fs) == [(m, payload)] + KnownMessages(decode, AfterKnown(decode, fs))
              && Ending(decode, AfterKnown(decode, fs)) == Ending(decode, fs)
              && |payload| == len <= MAX_FRAME_PAYLOAD
              && rest == payload + EncodeAll(AfterKnown(decode, fs))
  {
    payload := [];
    if fs != [] {
      match decode(fs[0].body)
      case Known(m) => payload := fs[0].payload;
      case Bad =>
      case Unknown => payload := OneReadTakesTheFirstKnown(decode, fs[1..]);
    }
  }
}
