/** A whole run over one connection: what was written, in order, is what a
    reader hands its caller. */
module FramedSession {
  import opened Common
  import opened Framing
  import opened Reading
  import opened Writing

  /** What the caller does next. */
  datatype Request = WantMessage(mayAbandon: bool) | WantPayload(len: nat, mayAbandon: bool)

  /** A message handed over, with the payload bytes read behind it so far. */
  datatype Delivery<+M> = Delivery(msg: M, read: seq<byte>)

  /** The deliveries are the known messages in order, each with a prefix of its
      own payload. */
  ghost predicate Faithful<M>(log: seq<Delivery<M>>, known: seq<(M, seq<byte>)>) {
    && |log| <= |known|
    && forall i | 0 <= i < |log| :: log[i].msg == known[i].0 && log[i].read <= known[i].1
  }

  /** What a caller has in hand: the deliveries, how much of the last payload
      it may still ask for, and the error that ended its session. */
  datatype Hand<+M> = Hand(log: seq<Delivery<M>>, left: nat, error: Option<Error>)

  ghost predicate Sound<M>(h: Hand<M>, known: seq<(M, seq<byte>)>) {
    && Faithful(h.log, known)
    && (h.left > 0 ==> h.log != [] && |h.log[|h.log| - 1].read| + h.left == |known[|h.log| - 1].1|)
  }

  /** What one request does. A call that is abandoned hands over nothing, but a
      message asked for gives up the payload before it; nothing follows an
      error. */
  ghost function Answer<M>(h: Hand<M>, known: seq<(M, seq<byte>)>, ending: Error, r: Request, abandoned: bool): (next: Hand<M>)
    requires Sound(h, known)
    ensures Sound(next, known)
  {
    if h.error.Some? then h
    else
      match r
      case WantMessage(_) =>
        if abandoned then h.(left := 0)
        else if |h.log| == |known| then h.(error := Some(ending))
        else Hand(h.log + [Delivery(known[|h.log|].0, [])], |known[|h.log|].1|, None)
      case WantPayload(len, _) =>
        if PayloadRefusal(len, h.left).Some? then h.(error := PayloadRefusal(len, h.left))
        else if abandoned || len == 0 then h
        else Hand(ReadFurther(h.log, known[|h.log| - 1].1, len), h.left - len, None)
  }

  /** The next `len` bytes of its payload go to the last delivery. */
  ghost function ReadFurther<M>(log: seq<Delivery<M>>, payload: seq<byte>, len: nat): seq<Delivery<M>>
    requires log != [] && |log[|log| - 1].read| + len <= |payload|
  {
    var last := |log| - 1;
    log[last := Delivery(log[last].msg, payload[..|log[last].read| + len])]
  }

  /** A whole session: it depends on nothing but the requests and on which of
      them were abandoned. */
  ghost function Play<M>(known: seq<(M, seq<byte>)>, ending: Error, requests: seq<Request>, abandoned: seq<bool>): (h: Hand<M>)
    requires |abandoned| == |requests|
    ensures Sound(h, known)
  {
    if requests == [] then Hand([], 0, None)
    else
      var n := |requests| - 1;
      Answer(Play(known, ending, requests[..n], abandoned[..n]), known, ending, requests[n], abandoned[n])
  }

  /** Only calls the caller may abandon were, and the session is the one that
      follows from that. */
  ghost predicate Served<M>(
    known: seq<(M, seq<byte>)>, ending: Error, requests: seq<Request>, abandoned: seq<bool>, h: Hand<M>)
  {
    && |abandoned| == |requests| && MayAll(requests, abandoned)
    && h == Play(known, ending, requests, abandoned)
  }

  ghost predicate MayAll(requests: seq<Request>, abandoned: seq<bool>) {
    |abandoned| <= |requests| && forall i | 0 <= i < |abandoned| && abandoned[i] :: requests[i].mayAbandon
  }

  lemma {:induction false} PlayOn<M>(
    known: seq<(M, seq<byte>)>, ending: Error, requests: seq<Request>, abandoned: seq<bool>, i: nat, given: bool)
    requires |abandoned| == i < |requests|
    ensures Play(known, ending, requests[..i + 1], abandoned + [given])
         == Answer(Play(known, ending, requests[..i], abandoned), known, ending, requests[i], given)
  {
    assert requests[..i + 1][..i] == requests[..i] && (abandoned + [given])[..i] == abandoned;
  }

  lemma {:induction false} AnErrorStays<M>(
    h: Hand<M>, known: seq<(M, seq<byte>)>, ending: Error, r: Request, abandoned: bool)
    requires Sound(h, known)
    ensures h.error.Some? ==> Answer(h, known, ending, r, abandoned) == h
  {
  }

  /** Requests behind an error change nothing. */
  lemma {:induction false} NothingFollowsAnError<M>(
    known: seq<(M, seq<byte>)>, ending: Error, requests: seq<Request>, abandoned: seq<bool>, i: nat)
    requires i <= |requests| == |abandoned|
    requires Play(known, ending, requests[..i], abandoned[..i]).error.Some?
    ensures Play(known, ending, requests, abandoned) == Play(known, ending, requests[..i], abandoned[..i])
    decreases |requests|
  {
    hide Answer, Sound;
    var n := |requests| - 1;
    if i == n + 1 {
      assert requests[..i] == requests && abandoned[..i] == abandoned;
    } else {
      AnErrorStays(Play(known, ending, requests[..n], abandoned[..n]), known, ending, requests[n], abandoned[n]);
      assert requests[..n][..i] == requests[..i] && abandoned[..n][..i] == abandoned[..i];
      NothingFollowsAnError(known, ending, requests[..n], abandoned[..n], i);
    }
  }

  /** The request a session ended on was for a message when there was none
      left, or for payload it had no right to. */
  ghost predicate EndsOn<M>(
    known: seq<(M, seq<byte>)>, ending: Error, requests: seq<Request>, abandoned: seq<bool>, h: Hand<M>, k: nat)
    requires |abandoned| == |requests| && k < |requests|
  {
    var before := Play(known, ending, requests[..k], abandoned[..k]);
    && before.error == None && before.log == h.log && before.left == h.left
    && match requests[k]
       case WantMessage(_) => !abandoned[k] && |h.log| == |known| && h.error == Some(ending)
       case WantPayload(len, _) => h.error.Some? && h.error == PayloadRefusal(len, h.left)
  }

  lemma {:induction false} WhereASessionEnds<M>(
    known: seq<(M, seq<byte>)>, ending: Error, requests: seq<Request>, abandoned: seq<bool>) returns (k: nat)
    requires |abandoned| == |requests| && Play(known, ending, requests, abandoned).error.Some?
    ensures k < |requests| && EndsOn(known, ending, requests, abandoned, Play(known, ending, requests, abandoned), k)
  {
    var n := |requests| - 1;
    var before := Play(known, ending, requests[..n], abandoned[..n]);
    k := n;
    if before.error.Some? {
      k := WhereASessionEnds(known, ending, requests[..n], abandoned[..n]);
      assert requests[..n][..k] == requests[..k] && abandoned[..n][..k] == abandoned[..k];
    }
  }

  /** What is left of a payload is exactly what was not read of it. */
  ghost predicate NothingGivenUp<M>(h: Hand<M>, known: seq<(M, seq<byte>)>)
    requires Sound(h, known)
  {
    h.log != [] ==> |h.log[|h.log| - 1].read| + h.left == |known[|h.log| - 1].1|
  }

  lemma {:induction false} OneAnswerIsPatient<M>(
    h: Hand<M>, known: seq<(M, seq<byte>)>, ending: Error, r: Request, abandoned: bool)
    requires Sound(h, known) && Answer(h, known, ending, r, abandoned).error == None
    ensures h.error == None
    ensures |Answer(h, known, ending, r, abandoned).log| == |h.log| + if r.WantMessage? && !abandoned then 1 else 0
    ensures NothingGivenUp(h, known) && !(r.WantMessage? && abandoned) ==>
              NothingGivenUp(Answer(h, known, ending, r, abandoned), known)
  {
  }

  /** Without an error each message request that was not abandoned handed one
      over; and when none was, no payload was given up. */
  lemma {:induction false} PatientSessions<M>(
    known: seq<(M, seq<byte>)>, ending: Error, requests: seq<Request>, abandoned: seq<bool>)
    requires |abandoned| == |requests| && Play(known, ending, requests, abandoned).error == None
    requires forall i | 0 <= i < |requests| && abandoned[i] :: requests[i].mayAbandon
    ensures |Play(known, ending, requests, abandoned).log| >= Patient(requests)
    ensures (forall i | 0 <= i < |requests| && requests[i].WantMessage? :: !abandoned[i]) ==>
              NothingGivenUp(Play(known, ending, requests, abandoned), known)
  {
    if requests != [] {
      hide Answer, Sound, NothingGivenUp;
      var n := |requests| - 1;
      OneAnswerIsPatient(Play(known, ending, requests[..n], abandoned[..n]), known, ending, requests[n], abandoned[n]);
      PatientSessions(known, ending, requests[..n], abandoned[..n]);
    }
  }

  /** Where a caller stands: `owed` are all the known messages, `later` those
      not handed over, `unread` the rest of the last one's payload. */
  ghost predicate Accounted<M>(
    log: seq<Delivery<M>>, owed: seq<(M, seq<byte>)>, later: seq<(M, seq<byte>)>, unread: seq<byte>)
  {
    && Faithful(log, owed)
    && later == owed[|log|..]
    && (unread != [] ==> log != [] && owed[|log| - 1].1 == log[|log| - 1].read + unread)
  }

  lemma {:induction false} AccountedIsSound<M>(
    log: seq<Delivery<M>>, owed: seq<(M, seq<byte>)>, later: seq<(M, seq<byte>)>, unread: seq<byte>)
    requires Accounted(log, owed, later, unread)
    ensures Sound(Hand(log, |unread|, None), owed)
  {
  }

  /** A message handed over, in the account and in the session. */
  lemma {:induction false} AnswerWithAMessage<M>(
    log: seq<Delivery<M>>, owed: seq<(M, seq<byte>)>, m: M, payload: seq<byte>, later: seq<(M, seq<byte>)>,
    unread: seq<byte>, ending: Error, r: Request)
    requires Accounted(log, owed, [(m, payload)] + later, unread) && r.WantMessage?
    ensures Sound(Hand(log, |unread|, None), owed)
    ensures Answer(Hand(log, |unread|, None), owed, ending, r, false) == Hand(log + [Delivery(m, [])], |payload|, None)
  {
    assert owed[|log|] == (m, payload);
  }

  /** Payload bytes handed over. */
  lemma {:induction false} AnswerWithBytes<M>(
    log: seq<Delivery<M>>, owed: seq<(M, seq<byte>)>, later: seq<(M, seq<byte>)>, unread: seq<byte>, len: nat,
    ending: Error, r: Request)
    requires Accounted(log, owed, later, unread) && 0 < len <= |unread| && len <= MAX_PAYLOAD
    requires r.WantPayload? && r.len == len
    ensures Sound(Hand(log, |unread|, None), owed)
    ensures var last := |log| - 1;
            Answer(Hand(log, |unread|, None), owed, ending, r, false)
            == Hand(log[last := Delivery(log[last].msg, log[last].read + unread[..len])], |unread| - len, None)
  {
    var last := |log| - 1;
    var payload := owed[last].1;
    assert payload == log[last].read + unread;
    assert payload[..|log[last].read| + len] == log[last].read + unread[..len];
  }

  /** A caller of the reader, on a connection that carries `frames`. */
  class Receiver<M> {
    const reader: FramedReader<M>
    ghost const frames: seq<Frame>
    var log: seq<Delivery<M>>
    /** The frames behind the last message handed over. */
    ghost var ahead: seq<Frame>
    /** The payload of that message the caller may still ask for. */
    ghost var unread: seq<byte>

    ghost function Owed(): seq<(M, seq<byte>)>
      reads this
    {
      KnownMessages(reader.decode, frames)
    }

    ghost function InHand(error: Option<Error>): Hand<M>
      reads this
    {
      Hand(log, |unread|, error)
    }

    ghost predicate Valid()
      reads this, reader
    {
      && reader.Valid() && AllAcceptable(ahead)
      && reader.Ahead() == Expected(reader.decode, ahead)
      && Accounted(log, Owed(), KnownMessages(reader.decode, ahead), unread)
      && Ending(reader.decode, ahead) == Ending(reader.decode, frames)
      && |unread| == reader.payloadLeft
      && (unread != [] ==> reader.Stream() == unread + EncodeAll(ahead))
    }

    constructor (reader: FramedReader<M>, ghost frames: seq<Frame>)
      requires AllAcceptable(frames)
      requires reader.Valid() && reader.Stream() == EncodeAll(frames)
      requires reader.pending == None && reader.payloadLeft == reader.skipLeft == 0
      ensures Valid() && this.reader == reader && this.frames == frames && log == [] && unread == []
    {
      this.reader := reader;
      this.frames := frames;
      log, ahead, unread := [], frames, [];
      new;
      ReadingUndoesWriting(reader.decode, [], frames);
      assert [] + EncodeAll(frames) == EncodeAll(frames);
      assert Owed()[0..] == Owed();
    }

    /** Hand over the message the reader has just returned. */
    method Deliver(m: M, ghost payload: seq<byte>, ghost behind: seq<Frame>)
      requires reader.Valid() && AllAcceptable(behind)
      requires Ending(reader.decode, behind) == Ending(reader.decode, frames)
      requires Accounted(log, Owed(), [(m, payload)] + KnownMessages(reader.decode, behind), unread)
      requires reader.pending == None && reader.skipLeft == 0 && reader.payloadLeft == |payload|
      requires reader.Stream() == payload + EncodeAll(behind)
      modifies this
      ensures Valid() && log == old(log) + [Delivery(m, [])] && unread == payload
    {
      hide KnownMessages, EncodeAll, Ending, Expected, NextFrame, AllAcceptable, FramedReader.Valid;
      ReadingUndoesWriting(reader.decode, payload, behind);
      ghost var next, owed, later := log + [Delivery(m, [])], Owed(), KnownMessages(reader.decode, behind);
      assert Accounted(next, owed, later, payload);
      hide Accounted;
      ahead, unread := behind, payload;
      log := log + [Delivery(m, [])];
    }

    /** A message is the next one owed; an error means none is left. */
    method TakeMessage(mayAbandon: bool) returns (error: Option<Error>, ghost abandoned: bool)
      requires Valid()
      modifies this, reader
      ensures error == None ==> Valid()
      ensures abandoned ==> mayAbandon
      ensures Sound(old(InHand(None)), Owed())
      ensures InHand(error)
           == Answer(old(InHand(None)), Owed(), Ending(reader.decode, frames), WantMessage(mayAbandon), abandoned)
    {
      ghost var payload := OneReadTakesTheFirstKnown(reader.decode, ahead);
      ghost var behind := AfterKnown(reader.decode, ahead);
      AccountedIsSound(log, Owed(), KnownMessages(reader.decode, ahead), unread);
      var r := reader.ReadMsg(mayAbandon);
      abandoned := r.MsgAbandoned?;
      match r {
        case MsgAbandoned => unread := [];
        case MsgFailed(e) => return Some(e), false;
        case Msg(m) =>
          AnswerWithAMessage(log, Owed(), m, payload, KnownMessages(reader.decode, behind), unread,
                             Ending(reader.decode, frames), WantMessage(mayAbandon));
          hide Answer, Accounted;
          Deliver(m, payload, behind);
      }
      error := None;
    }

    /** Bytes of the payload at hand. */
    method Append(bytes: seq<byte>, ghost later: seq<(M, seq<byte>)>)
      requires Accounted(log, Owed(), later, unread) && 0 < |bytes| <= |unread| && bytes == unread[..|bytes|]
      modifies `log, `unread
      ensures Accounted(log, Owed(), later, unread) && unread == old(unread)[|bytes|..]
      ensures |old(log)| > 0 && log == old(log)[|old(log)| - 1 := Delivery(old(log)[|old(log)| - 1].msg, old(log)[|old(log)| - 1].read + bytes)]
    {
      var last := |log| - 1;
      log := log[last := Delivery(log[last].msg, log[last].read + bytes)];
      unread := unread[|bytes|..];
    }

    /** Payload bytes go to the last message, in order; a refusal is the
        caller's own doing. */
    method TakePayload(len: nat, mayAbandon: bool) returns (error: Option<Error>, ghost abandoned: bool)
      requires Valid()
      modifies this, reader
      ensures error == None ==> Valid()
      ensures abandoned ==> mayAbandon
      ensures Sound(old(InHand(None)), Owed())
      ensures InHand(error)
           == Answer(old(InHand(None)), Owed(), Ending(reader.decode, frames), WantPayload(len, mayAbandon), abandoned)
    {
      hide KnownMessages, EncodeAll, Faithful, Sound, Ending, AllAcceptable;
      ghost var later, ending := KnownMessages(reader.decode, ahead), Ending(reader.decode, frames);
      AccountedIsSound(log, Owed(), later, unread);
      var r := reader.ReadPayload(len, mayAbandon);
      abandoned := r.BytesAbandoned?;
      match r {
        case BytesAbandoned => error := None;
        case BytesFailed(e) => error := Some(e);
        case Bytes(bytes) =>
          error := None;
          if len > 0 {
            CutEarlier(unread, EncodeAll(ahead), bytes, reader.Stream());
            AnswerWithBytes(log, Owed(), later, unread, len, ending, WantPayload(len, mayAbandon));
            hide Answer, Accounted;
            Append(bytes, later);
          }
      }
    }

    /** Answer one request. */
    method Take(r: Request) returns (error: Option<Error>, ghost abandoned: bool)
      requires Valid()
      modifies this, reader
      ensures error == None ==> Valid()
      ensures abandoned ==> r.mayAbandon
      ensures Sound(old(InHand(None)), Owed())
      ensures InHand(error) == Answer(old(InHand(None)), Owed(), Ending(reader.decode, frames), r, abandoned)
    {
      hide Answer, Valid, Ending, KnownMessages, Sound;
      match r {
        case WantMessage(mayAbandon) => error, abandoned := TakeMessage(mayAbandon);
        case WantPayload(len, mayAbandon) => error, abandoned := TakePayload(len, mayAbandon);
      }
    }

    /** Answer the requests in order, up to the first error. */
    method TakeAll(requests: seq<Request>) returns (error: Option<Error>, ghost abandoned: seq<bool>)
      requires Valid() && log == [] && unread == []
      modifies this, reader
      ensures Served(Owed(), Ending(reader.decode, frames), requests, abandoned, InHand(error))
    {
      ghost var known, ending := Owed(), Ending(reader.decode, frames);
      assert requests[..0] == [];
      hide Answer, Play, Valid, Ending, KnownMessages, Sound, MayAll;
      error, abandoned := None, [];
      var i := 0;
      while i < |requests| && error == None
        invariant i <= |requests| && |abandoned| == i && MayAll(requests, abandoned)
        invariant error == None ==> Valid()
        invariant InHand(error) == Play(known, ending, requests[..i], abandoned)
        decreases |requests| - i
      {
        ghost var given;
        error, given := Take(requests[i]);
        PlayOn(known, ending, requests, abandoned, i, given);
        abandoned := abandoned + [given];
        i := i + 1;
      }
      abandoned := TheRestIsUnanswered(known, ending, requests, abandoned, InHand(error));
    }
  }

  /** Messages asked for by calls that are not abandoned. */
  function Patient(requests: seq<Request>): nat {
    if requests == [] then 0
    else Patient(requests[..|requests| - 1]) + if requests[|requests| - 1] == WantMessage(false) then 1 else 0
  }

  /** Serve a caller that reads messages and any part of their payloads in any
      order. Reads may be abandoned at every wait. The outcome is the session
      that follows from the messages alone, whatever pieces the bytes came in:
      it ends early only when the stream does, on a message the codec cannot
      read, or on a payload read beyond what is left. */
  method Serve<M>(reader: FramedReader<M>, requests: seq<Request>, ghost frames: seq<Frame>)
    returns (log: seq<Delivery<M>>, error: Option<Error>, ghost abandoned: seq<bool>, ghost left: nat)
    requires AllAcceptable(frames)
    requires reader.Valid() && reader.Stream() == EncodeAll(frames)
    requires reader.pending == None && reader.payloadLeft == reader.skipLeft == 0
    modifies reader
    ensures Served(KnownMessages(reader.decode, frames), Ending(reader.decode, frames), requests, abandoned, Hand(log, left, error))
    ensures Faithful(log, KnownMessages(reader.decode, frames))
    ensures error.Some? ==> exists k | 0 <= k < |requests| ::
              EndsOn(KnownMessages(reader.decode, frames), Ending(reader.decode, frames), requests, abandoned, Hand(log, left, error), k)
    ensures error == None ==> |log| >= Patient(requests)
  {
    var receiver := new Receiver(reader, frames);
    error, abandoned := receiver.TakeAll(requests);
    log, left := receiver.log, |receiver.unread|;
    WhatASessionGives(receiver.Owed(), Ending(reader.decode, frames), requests, abandoned, receiver.InHand(error));
  }

  lemma {:induction false} WhatASessionGives<M>(
    known: seq<(M, seq<byte>)>, ending: Error, requests: seq<Request>, abandoned: seq<bool>, h: Hand<M>)
    requires Served(known, ending, requests, abandoned, h)
    ensures Faithful(h.log, known)
    ensures h.error.Some? ==> exists k | 0 <= k < |requests| :: EndsOn(known, ending, requests, abandoned, h, k)
    ensures h.error == None ==> |h.log| >= Patient(requests)
  {
    hide EndsOn;
    if h.error.Some? {
      var k := WhereASessionEnds(known, ending, requests, abandoned);
    } else {
      PatientSessions(known, ending, requests, abandoned);
    }
  }

  /** Requests after an error are not answered. */
  lemma {:induction false} TheRestIsUnanswered<M>(
    known: seq<(M, seq<byte>)>, ending: Error, requests: seq<Request>, abandoned: seq<bool>, h: Hand<M>)
    returns (whole: seq<bool>)
    requires |abandoned| <= |requests| && MayAll(requests, abandoned)
    requires h == Play(known, ending, requests[..|abandoned|], abandoned)
    requires h.error == None ==> |abandoned| == |requests|
    ensures Served(known, ending, requests, whole, h)
  {
    var i := |abandoned|;
    whole := abandoned + seq(|requests| - i, _ => false);
    assert whole[..i] == abandoned;
    hide Play;
    if h.error.Some? {
      NothingFollowsAnError(known, ending, requests, whole, i);
    } else {
      assert requests[..i] == requests && whole == abandoned;
    }
  }

  /** Everything one writer managed to send, a reader on that stream serves:
      the two halves agree on the frames without further assumptions. */
  method ServeWritten<M>(writer: FramedWriter, decode: seq<byte> -> Decoded<M>, requests: seq<Request>)
    returns (log: seq<Delivery<M>>, error: Option<Error>, ghost abandoned: seq<bool>, ghost left: nat)
    requires writer.Valid()
    ensures Served(KnownMessages(decode, writer.sent), Ending(decode, writer.sent), requests, abandoned, Hand(log, left, error))
    ensures Faithful(log, KnownMessages(decode, writer.sent))
    ensures error.Some? ==> exists k | 0 <= k < |requests| ::
              EndsOn(KnownMessages(decode, writer.sent), Ending(decode, writer.sent), requests, abandoned, Hand(log, left, error), k)
    ensures error.Some? && error.value == Closed ==> |log| == |KnownMessages(decode, writer.sent)|
    ensures error == None ==> |log| >= Patient(requests)
  {
    var reader := new FramedReader(decode, writer.out);
    log, error, abandoned, left := Serve(reader, requests, writer.sent);
  }
}
