/** The reading half of a connection: resumes across arbitrary arrival of
    bytes and across a caller that gives up while a read waits. What was read of
    a frame when that happens is kept: the bytes in the buffer, the header, and
    how much of a payload is still to be skipped. */
module Reading {
  import opened Common
  import opened Framing

  /** What one wait on the stream ends with. `Abandoned` is the caller dropping
      the read while it waits, as a `select!` does. */
  datatype Wait = Abandoned | EndOfStream | Arrived

  datatype BytesResult = BytesAbandoned | BytesFailed(error: Error) | Bytes(bytes: seq<byte>)

  datatype HeaderResult = HeaderAbandoned | HeaderFailed(error: Error) | HeaderRead(header: Header)

  datatype BodyResult<+M> = BodyAbandoned | BodyClosed | Body(decoded: Decoded<M>)

  datatype MsgResult<+M> = MsgAbandoned | MsgFailed(error: Error) | Msg(msg: M)

  /** The next message, given what is known of the frame at hand. */
  ghost function Outlook<M>(
    decode: seq<byte> -> Decoded<M>, skip: nat, pending: Option<Header>, bytes: seq<byte>): Read<M>
  {
    match pending
    case None => NextFrame(decode, skip, bytes)
    case Some(h) => NextBody(decode, h, bytes)
  }

  /** Taking bytes that would otherwise be skipped changes nothing ahead. */
  lemma {:induction false} TakingEarly<M>(
    decode: seq<byte> -> Decoded<M>, skip: nat, pending: Option<Header>, taken: seq<byte>, rest: seq<byte>)
    requires |taken| <= skip && (pending.Some? ==> skip == 0)
    ensures Outlook(decode, skip, pending, taken + rest) == Outlook(decode, skip - |taken|, pending, rest)
  {
    assert (taken + rest)[|taken|..] == rest;
    if pending == None {
      DiscardEarly(decode, skip, |taken|, taken + rest);
    } else {
      assert taken + rest == rest;
    }
  }

  class FramedReader<M> {
    const decode: seq<byte> -> Decoded<M>
    /** Bytes the peer has sent or will send that have not been taken yet. */
    var wire: seq<byte>
    var readBuf: seq<byte>
    var pending: Option<Header>
    var payloadLeft: nat
    var skipLeft: nat

    ghost predicate Valid()
      reads this
    {
      && skipLeft + payloadLeft <= MAX_FRAME_PAYLOAD
      && (pending.Some? ==> skipLeft + payloadLeft == 0 && HeaderWithinLimits(pending.value))
    }

    /** Everything still to come, wherever it sits. */
    ghost function Stream(): seq<byte>
      reads this
    {
      readBuf + wire
    }

    /** What a read that is never abandoned would return from here. */
    ghost function Ahead(): Read<M>
      reads this
    {
      Outlook(decode, skipLeft + payloadLeft, pending, Stream())
    }

    constructor (decode: seq<byte> -> Decoded<M>, wire: seq<byte>)
      ensures Valid() && Stream() == wire && this.decode == decode
      ensures pending == None && payloadLeft == skipLeft == 0
    {
      this.decode := decode;
      this.wire := wire;
      readBuf := [];
      pending := None;
      payloadLeft := 0;
      skipLeft := 0;
    }

    /** One wait for bytes: any number of them may arrive. The caller gives up
        only in a call that may be abandoned. */
    method Fill(mayAbandon: bool) returns (wait: Wait)
      modifies this`wire, this`readBuf
      ensures Stream() == old(Stream())
      ensures wait == Abandoned ==> mayAbandon
      ensures wait == Arrived ==> |wire| < |old(wire)| && readBuf != []
      ensures wait == EndOfStream ==> wire == [] && readBuf == old(readBuf)
    {
      var abandoned: bool := *;
      if mayAbandon && abandoned {
        return Abandoned;
      }
      if wire == [] {
        return EndOfStream;
      }
      var n :| 1 <= n <= |wire|;
      readBuf, wire := readBuf + wire[..n], wire[n..];
      return Arrived;
    }

    method ReadExactBytes(n: nat, mayAbandon: bool) returns (r: BytesResult)
      modifies this`wire, this`readBuf
      ensures match r
              case Bytes(b) => |b| == n && old(Stream()) == b + Stream()
              case BytesFailed(e) => e == Closed && |old(Stream())| < n
              case BytesAbandoned => mayAbandon && Stream() == old(Stream())
    {
      while |readBuf| < n
        invariant Stream() == old(Stream())
        decreases |wire|
      {
        var wait := Fill(mayAbandon);
        match wait
        case Abandoned => return BytesAbandoned;
        case EndOfStream => return BytesFailed(Closed);
        case Arrived =>
      }
      r := Bytes(readBuf[..n]);
      readBuf := readBuf[n..];
      assert old(Stream()) == r.bytes + Stream();
    }

    /** Drop buffered bytes that are to be skipped. */
    method Drop(n: nat)
      requires Valid() && pending == None && payloadLeft == 0
      requires n <= skipLeft && n <= |readBuf|
      modifies this`readBuf, this`skipLeft
      ensures Valid() && Ahead() == old(Ahead())
      ensures skipLeft == old(skipLeft) - n && |Stream()| <= old(|Stream()|)
    {
      TakingEarly(decode, skipLeft, pending, readBuf[..n], readBuf[n..] + wire);
      assert readBuf + wire == readBuf[..n] + (readBuf[n..] + wire);
      readBuf := readBuf[n..];
      skipLeft := skipLeft - n;
    }

    method DiscardSkipped(mayAbandon: bool) returns (r: MsgResult<()>)
      requires Valid() && payloadLeft == 0
      modifies this`wire, this`readBuf, this`skipLeft
      ensures Valid() && |Stream()| <= old(|Stream()|)
      ensures r.MsgFailed? ==> r.error == Closed && old(Ahead()) == Failed(Closed)
      ensures !r.MsgFailed? ==> Ahead() == old(Ahead())
      ensures r.Msg? ==> skipLeft == 0
      ensures r.MsgAbandoned? ==> mayAbandon
    {
      ghost var ahead := Ahead();
      while skipLeft > 0
        invariant Valid() && Ahead() == ahead && |Stream()| <= old(|Stream()|)
        decreases skipLeft
      {
        if readBuf == [] {
          var wait := Fill(mayAbandon);
          match wait
          case Abandoned => return MsgAbandoned;
          case EndOfStream => return MsgFailed(Closed);
          case Arrived =>
        }
        Drop(if |readBuf| < skipLeft then |readBuf| else skipLeft);
      }
      return Msg(());
    }

    /** The header of the frame at hand, kept from an abandoned call if there
        was one. */
    method ReadHeader(mayAbandon: bool) returns (r: HeaderResult)
      requires Valid() && payloadLeft == skipLeft == 0
      modifies this`wire, this`readBuf, this`pending
      ensures Valid()
      ensures r.HeaderFailed? ==> old(Ahead()) == Failed(r.error)
      ensures !r.HeaderFailed? ==> Ahead() == old(Ahead())
      ensures r.HeaderAbandoned? ==> mayAbandon
      ensures r.HeaderRead? ==> pending == Some(r.header)
      ensures r.HeaderRead? ==> |Stream()| <= old(|Stream()|)
      ensures r.HeaderRead? && old(pending).None? ==> |Stream()| < old(|Stream()|)
    {
      if pending.Some? {
        return HeaderRead(pending.value);
      }
      var b := ReadExactBytes(HEADER_LEN, mayAbandon);
      match b {
        case BytesAbandoned => return HeaderAbandoned;
        case BytesFailed(e) => return HeaderFailed(e);
        case Bytes(bytes) =>
          var h := ParseHeader(bytes);
          ghost var before := old(Stream());
          assert before[0..0 + HEADER_LEN] == bytes && before[0 + HEADER_LEN..] == Stream();
          if h.bodyLen > MAX_FRAME_BODY {
            return HeaderFailed(BodyTooLarge(h.bodyLen));
          }
          if h.payloadLen > MAX_FRAME_PAYLOAD {
            return HeaderFailed(PayloadTooLarge(h.payloadLen));
          }
          pending := Some(h);
          return HeaderRead(h);
      }
    }

    /** The body behind a header, and what the codec makes of it. */
    method ReadBody(header: Header, mayAbandon: bool) returns (r: BodyResult<M>)
      requires Valid() && pending == Some(header)
      modifies this`wire, this`readBuf, this`pending
      ensures Valid()
      ensures r.BodyAbandoned? ==> mayAbandon && Ahead() == old(Ahead())
      ensures r.BodyClosed? ==> old(Ahead()) == Failed(Closed)
      ensures r.Body? ==> pending == None && |Stream()| <= old(|Stream()|)
      ensures r.Body? ==>
                old(Ahead()) == match r.decoded
                                case Known(m) => Got(m, header.payloadLen, Stream())
                                case Unknown => NextFrame(decode, header.payloadLen, Stream())
                                case Bad => Failed(Undecodable)
    {
      var body := ReadExactBytes(header.bodyLen, mayAbandon);
      match body {
        case BytesAbandoned => return BodyAbandoned;
        case BytesFailed(_) => return BodyClosed;
        case Bytes(bytes) =>
          ghost var before := old(Stream());
          assert before[..header.bodyLen] == bytes && before[header.bodyLen..] == Stream();
          pending := None;
          return Body(decode(bytes));
      }
    }

    /** One frame: its message, or `None` when this build does not know the
        message and its payload is now due to be skipped. */
    method ReadFrame(mayAbandon: bool) returns (r: Option<MsgResult<M>>)
      requires Valid() && payloadLeft == skipLeft == 0
      modifies this
      ensures Valid()
      ensures r == None || r == Some(MsgAbandoned) ==> Ahead() == old(Ahead()) && payloadLeft == 0
      ensures r == None ==>
                pending == None && (old(pending) == None ==> |Stream()| < old(|Stream()|))
      ensures r == None ==> |Stream()| <= old(|Stream()|)
      ensures r == Some(MsgAbandoned) ==> mayAbandon
      ensures r.Some? && r.value.MsgFailed? ==> old(Ahead()) == Failed(r.value.error)
      ensures r.Some? && r.value.Msg? ==>
                && pending == None && skipLeft == 0
                && old(Ahead()) == Got(r.value.msg, payloadLeft, Stream())
    {
      var header := ReadHeader(mayAbandon);
      match header {
        case HeaderAbandoned => return Some(MsgAbandoned);
        case HeaderFailed(e) => return Some(MsgFailed(e));
        case HeaderRead(h) =>
          var body := ReadBody(h, mayAbandon);
          match body {
            case BodyAbandoned => return Some(MsgAbandoned);
            case BodyClosed => return Some(MsgFailed(Closed));
            case Body(Known(msg)) =>
              payloadLeft := h.payloadLen;
              return Some(Msg(msg));
            case Body(Unknown) =>
              skipLeft := skipLeft + h.payloadLen;
              return None;
            case Body(Bad) => return Some(MsgFailed(Undecodable));
          }
      }
    }

    /** Read one message. However the bytes arrive, and however often an
        earlier call was abandoned, the outcome is the one the stream fixes;
        an abandoned call leaves that outcome as it was. */
    method ReadMsg(mayAbandon: bool) returns (r: MsgResult<M>)
      requires Valid()
      modifies this
      ensures Valid()
      ensures r.MsgAbandoned? ==> mayAbandon && Ahead() == old(Ahead()) && payloadLeft == 0
      ensures r.MsgFailed? ==> old(Ahead()) == Failed(r.error)
      ensures r.Msg? ==>
                && pending == None && skipLeft == 0
                && old(Ahead()) == Got(r.msg, payloadLeft, Stream())
    {
      ghost var ahead := Ahead();
      while true
        invariant Valid() && Ahead() == ahead
        decreases |Stream()|, if pending.Some? then 1 else 0
      {
        skipLeft, payloadLeft := skipLeft + payloadLeft, 0;
        var skipped := DiscardSkipped(mayAbandon);
        match skipped {
          case MsgAbandoned => return MsgAbandoned;
          case MsgFailed(e) => return MsgFailed(e);
          case Msg(_) =>
        }
        var frame := ReadFrame(mayAbandon);
        if frame.Some? {
          return frame.value;
        }
      }
    }

    /** Read exactly `len` payload bytes behind a message. */
    method ReadPayload(len: nat, mayAbandon: bool) returns (r: BytesResult)
      requires Valid()
      modifies this`wire, this`readBuf, this`payloadLeft
      ensures Valid()
      ensures PayloadRefusal(len, old(payloadLeft)).Some? ==>
                && r == BytesFailed(PayloadRefusal(len, old(payloadLeft)).value)
                && unchanged(this)
      ensures PayloadRefusal(len, old(payloadLeft)) == None ==>
                match r
                case Bytes(b) =>
                  && |b| == len && old(Stream()) == b + Stream()
                  && payloadLeft == old(payloadLeft) - len
                case BytesFailed(e) => e == Closed && |old(Stream())| < len
                case BytesAbandoned => mayAbandon && Stream() == old(Stream()) && payloadLeft == old(payloadLeft)
      ensures r != BytesFailed(Closed) ==> Ahead() == old(Ahead())
    {
      if len > MAX_PAYLOAD {
        return BytesFailed(PayloadTooLarge(len));
      }
      if len > payloadLeft {
        return BytesFailed(PayloadOverrun(len, payloadLeft));
      }
      r := ReadExactBytes(len, mayAbandon);
      if r.Bytes? {
        TakingEarly(decode, skipLeft + payloadLeft, pending, r.bytes, Stream());
        payloadLeft := payloadLeft - len;
      }
    }
  }

  /** Why a payload read of `len` bytes is turned down without reading. */
  function PayloadRefusal(len: nat, left: nat): Option<Error> {
    if len > MAX_PAYLOAD then Some(PayloadTooLarge(len))
    else if len > left then Some(PayloadOverrun(len, left))
    else None
  }
}
