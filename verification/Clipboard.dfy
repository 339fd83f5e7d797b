/** Flow control of a clipboard transfer: the sender's window, the receiver's
    check of each chunk, and both ends together over two channels. */
module Clipboard {
  import opened Common

  const CHUNK: nat := 262144
  const WINDOW: nat := 4

  datatype ChunkError = BadOffset(expected: nat, got: nat) | ChunkTooLarge(size: nat) | OverCap(cap: nat) | AfterDone
    | BadAck(received: nat) | WindowExceeded

  /** Without the leading end offsets that `received` covers. */
  function PopUpTo(unacked: seq<nat>, received: nat): seq<nat> {
    if unacked != [] && unacked[0] <= received then PopUpTo(unacked[1..], received) else unacked
  }

  class SendWindow {
    var offset: nat
    /** End offset of every chunk sent but not yet acked, in order. */
    var unacked: seq<nat>

    constructor ()
      ensures offset == 0 && unacked == []
    {
      offset, unacked := 0, [];
    }

    predicate MaySend()
      reads `unacked
    {
      |unacked| < WINDOW
    }

    method OnSent(len: nat)
      modifies this
      ensures offset == old(offset) + len && unacked == old(unacked) + [offset]
    {
      offset := offset + len;
      unacked := unacked + [offset];
    }

    method OnAck(received: nat) returns (error: Option<ChunkError>)
      modifies `unacked
      ensures error == if received > offset then Some(BadAck(received)) else None
      ensures unacked == if received > offset then old(unacked) else PopUpTo(old(unacked), received)
    {
      if received > offset {
        return Some(BadAck(received));
      }
      while unacked != [] && unacked[0] <= received
        invariant PopUpTo(unacked, received) == PopUpTo(old(unacked), received)
        decreases |unacked|
      {
        unacked := unacked[1..];
      }
      return None;
    }
  }

  class Assembler {
    var received: nat
    var chunks: nat
    var done: bool
    const cap: Option<nat>

    constructor (cap: Option<nat>)
      ensures received == 0 && chunks == 0 && !done && this.cap == cap
    {
      received, chunks, done := 0, 0, false;
      this.cap := cap;
    }

    /** Validate a chunk before its bytes are used: in order, not too large,
        within the cap, none after the last. */
    method Accept(offset: nat, len: nat, last: bool) returns (error: Option<ChunkError>)
      modifies this
      ensures error == if old(done) then Some(AfterDone)
                       else if offset != old(received) then Some(BadOffset(old(received), offset))
                       else if len > CHUNK then Some(ChunkTooLarge(len))
                       else if cap.Some? && old(received) + len > cap.value then Some(OverCap(cap.value))
                       else None
      ensures if error == None then received == old(received) + len && chunks == old(chunks) + 1 && done == last
              else received == old(received) && chunks == old(chunks) && done == old(done)
    {
      if done {
        return Some(AfterDone);
      }
      if offset != received {
        return Some(BadOffset(received, offset));
      }
      if len > CHUNK {
        return Some(ChunkTooLarge(len));
      }
      var next := received + len;
      if cap.Some? && next > cap.value {
        return Some(OverCap(cap.value));
      }
      received, chunks, done := next, chunks + 1, last;
      return None;
    }
  }

  // ---- Both ends ----

  datatype Chunk = Chunk(offset: nat, bytes: seq<byte>, last: bool)

  /** Consecutive chunks of the source, from one offset to another; only the
      last of all, which ends the source, may be empty. */
  ghost predicate Pieces(source: seq<byte>, pipe: seq<Chunk>, from: nat, to: nat) {
    && from <= to <= |source|
    && if pipe == [] then from == to
       else
         var c := pipe[0];
         && c.offset == from && from + |c.bytes| <= to && |c.bytes| <= CHUNK
         && c.bytes == source[from..from + |c.bytes|]
         && (c.bytes == [] ==> c.last)
         && (c.last ==> pipe[1..] == [] && to == |source| && from + |c.bytes| == to)
         && Pieces(source, pipe[1..], from + |c.bytes|, to)
  }

  /** The end offsets of chunks that are not the last. */
  ghost function Ends(pipe: seq<Chunk>): seq<nat> {
    if pipe == [] then []
    else (if pipe[0].last then [] else [pipe[0].offset + |pipe[0].bytes|]) + Ends(pipe[1..])
  }

  ghost function Total(pipe: seq<Chunk>): nat {
    if pipe == [] then 0 else |pipe[0].bytes| + Total(pipe[1..])
  }

  ghost predicate EndsWithLast(pipe: seq<Chunk>) {
    pipe != [] && pipe[|pipe| - 1].last
  }

  /** Strictly increasing, above `low`. */
  ghost predicate Rising(s: seq<nat>, low: int) {
    s == [] || (s[0] > low && Rising(s[1..], s[0]))
  }

  /** A transfer: what the sender sent and waits for, the chunks on their way
      and those queued at the receiver, what was written and the acks on their
      way back. */
  datatype State = State(
    source: seq<byte>, offset: nat, unacked: seq<nat>, sentLast: bool,
    data: seq<Chunk>, received: nat, queue: seq<Chunk>, written: seq<byte>, finished: bool,
    acks: seq<nat>)

  /** The chunks between the sender and the disk are the next part of the
      source; the window holds just the ends of those not acked, and that of
      the last chunk until an ack covers it. */
  ghost predicate Good(s: State) {
    Moves(s) && Acknowledges(s) && Waiting(s) && |s.unacked| <= WINDOW
  }

  ghost predicate Moves(s: State) {
    && |s.written| <= |s.source| && s.written == s.source[..|s.written|]
    && Pieces(s.source, s.queue + s.data, |s.written|, s.offset)
    && s.received == |s.written| + Total(s.queue)
    && (EndsWithLast(s.queue + s.data) <==> s.sentLast && !s.finished)
    && (s.sentLast ==> s.offset == |s.source|)
    && (s.finished ==> s.sentLast && s.queue + s.data == [])
  }

  ghost predicate Acknowledges(s: State) {
    Rising(s.acks, 0) && (s.acks != [] ==> s.acks[|s.acks| - 1] <= |s.written|)
  }

  ghost predicate Waiting(s: State) {
    var ends := s.acks + Ends(s.queue + s.data);
    s.unacked == ends || (s.sentLast && s.unacked == ends + [|s.source|])
  }

  lemma {:induction false} PiecesInParts(source: seq<byte>, a: seq<Chunk>, b: seq<Chunk>, from: nat, to: nat)
    requires Pieces(source, a + b, from, to)
    ensures from + Total(a) <= to && Pieces(source, b, from + Total(a), to)
  {
    if a == [] {
      assert a + b == b;
    } else {
      var n := from + |a[0].bytes|;
      assert (a + b)[0] == a[0] && (a + b)[1..] == a[1..] + b;
      assert n <= to && Pieces(source, a[1..] + b, n, to);
      hide Pieces;
      PiecesInParts(source, a[1..], b, n, to);
    }
  }

  lemma {:induction false} PiecesAppend(source: seq<byte>, a: seq<Chunk>, c: Chunk, from: nat, to: nat)
    requires Pieces(source, a, from, to) && !EndsWithLast(a)
    requires c.offset == to && to + |c.bytes| <= |source| && c.bytes == source[to..to + |c.bytes|]
    requires |c.bytes| <= CHUNK && (c.bytes == [] ==> c.last) && (c.last ==> to + |c.bytes| == |source|)
    ensures Pieces(source, a + [c], from, to + |c.bytes|)
  {
    if a == [] {
      assert a + [c] == [c] && [c][1..] == [];
      assert Pieces(source, [], to + |c.bytes|, to + |c.bytes|);
    } else {
      assert (a + [c])[1..] == a[1..] + [c];
      assert a[0].last ==> EndsWithLast(a);
      PiecesAppend(source, a[1..], c, from + |a[0].bytes|, to);
    }
  }

  lemma {:induction false} EndsAppend(a: seq<Chunk>, c: Chunk)
    ensures Ends(a + [c]) == if c.last then Ends(a) else Ends(a) + [c.offset + |c.bytes|]
    ensures EndsWithLast(a + [c]) <==> c.last
  {
    if a == [] {
      assert a + [c] == [c] && [c][1..] == [];
    } else {
      assert (a + [c])[1..] == a[1..] + [c];
      EndsAppend(a[1..], c);
    }
  }

  /** Ends lie beyond what was written. */
  lemma {:induction false} EndsRise(source: seq<byte>, pipe: seq<Chunk>, from: nat, to: nat)
    requires Pieces(source, pipe, from, to)
    ensures Rising(Ends(pipe), from)
    ensures forall e | e in Ends(pipe) :: e <= to
  {
    if pipe != [] {
      var n := from + |pipe[0].bytes|;
      EndsRise(source, pipe[1..], n, to);
    }
  }

  lemma {:induction false} RisingInParts(a: seq<nat>, b: seq<nat>, low: int)
    requires Rising(a, low) && Rising(b, if a == [] then low else a[|a| - 1])
    ensures Rising(a + b, low)
  {
    if a == [] {
      assert a + b == b;
    } else {
      RisingInParts(a[1..], b, a[0]);
      assert (a + b)[1..] == a[1..] + b;
    }
  }

  // ---- Steps ----

  /** The sender's next chunk. */
  function Sent(s: State, len: nat, last: bool): State
    requires s.offset + len <= |s.source|
  {
    var c := Chunk(s.offset, s.source[s.offset..s.offset + len], last);
    s.(data := s.data + [c], offset := s.offset + len, unacked := s.unacked + [s.offset + len], sentLast := last)
  }

  function Arrived(s: State): State
    requires s.data != []
  {
    s.(data := s.data[1..], received := s.received + |s.data[0].bytes|, queue := s.queue + [s.data[0]])
  }

  function Consumed(s: State): State
    requires s.queue != []
  {
    var c := s.queue[0];
    var written := s.written + c.bytes;
    s.(queue := s.queue[1..], written := written, finished := c.last,
       acks := if c.last then s.acks else s.acks + [|written|])
  }

  function AckTaken(s: State): State
    requires s.acks != []
  {
    s.(acks := s.acks[1..], unacked := PopUpTo(s.unacked, s.acks[0]))
  }

  /** The sender may send a chunk of this length next. */
  predicate Sendable(s: State, len: nat, last: bool) {
    && !s.sentLast && |s.unacked| < WINDOW
    && len <= CHUNK && s.offset + len <= |s.source|
    && (len == 0 ==> last) && (last ==> s.offset + len == |s.source|)
  }

  lemma {:induction false} NextPiece(s: State, len: nat, last: bool)
    requires Moves(s) && Sendable(s, len, last)
    ensures Moves(Sent(s, len, last))
    ensures Ends(Sent(s, len, last).queue + Sent(s, len, last).data)
         == if last then Ends(s.queue + s.data) else Ends(s.queue + s.data) + [s.offset + len]
  {
    hide Pieces, Ends, Total;
    var c := Chunk(s.offset, s.source[s.offset..s.offset + len], last);
    var pipe := s.queue + s.data;
    PiecesAppend(s.source, pipe, c, |s.written|, s.offset);
    EndsAppend(pipe, c);
    assert s.queue + (s.data + [c]) == pipe + [c];
  }

  lemma {:induction false} SendKeepsWaiting(s: State, len: nat, last: bool)
    requires Moves(s) && Waiting(s) && Sendable(s, len, last)
    ensures Waiting(Sent(s, len, last))
  {
    hide Moves, Ends;
    NextPiece(s, len, last);
    var ends, n := Ends(s.queue + s.data), s.offset + len;
    assert s.unacked == s.acks + ends;
    assert (s.acks + ends) + [n] == s.acks + (ends + [n]);
  }

  lemma {:induction false} SendKeepsGood(s: State, len: nat, last: bool)
    requires Good(s) && Sendable(s, len, last)
    ensures Good(Sent(s, len, last))
  {
    NextPiece(s, len, last);
    SendKeepsWaiting(s, len, last);
    hide Moves, Waiting, Ends, Rising;
  }

  lemma {:induction false} ArriveKeepsGood(s: State)
    requires Good(s) && s.data != []
    ensures Good(Arrived(s))
    ensures s.data[0].offset == s.received && |s.data[0].bytes| <= CHUNK && s.received + |s.data[0].bytes| <= |s.source|
    ensures !EndsWithLast(s.queue)
    ensures s.data[0].last ==> s.received + |s.data[0].bytes| == |s.source|
  {
    var c := s.data[0];
    assert s.queue + s.data == (s.queue + [c]) + s.data[1..];
    PiecesInParts(s.source, s.queue, s.data, |s.written|, s.offset);
    TotalAppend(s.queue, c);
    LastIsBehind(s.source, s.queue, s.data, |s.written|, s.offset);
  }

  lemma {:induction false} TotalAppend(a: seq<Chunk>, c: Chunk)
    ensures Total(a + [c]) == Total(a) + |c.bytes|
  {
    if a == [] {
      assert a + [c] == [c] && [c][1..] == [];
    } else {
      assert (a + [c])[1..] == a[1..] + [c];
      TotalAppend(a[1..], c);
    }
  }

  lemma {:induction false} LastIsBehind(source: seq<byte>, a: seq<Chunk>, b: seq<Chunk>, from: nat, to: nat)
    requires Pieces(source, a + b, from, to) && b != []
    ensures !EndsWithLast(a)
  {
    if a != [] {
      assert (a + b)[1..] == a[1..] + b;
      LastIsBehind(source, a[1..], b, from + |a[0].bytes|, to);
    }
  }

  lemma {:induction false} FirstPiece(source: seq<byte>, queue: seq<Chunk>, data: seq<Chunk>, from: nat, to: nat)
    requires Pieces(source, queue + data, from, to) && queue != []
    ensures var c, rest := queue[0], queue[1..] + data;
            && from + |c.bytes| <= to && c.bytes == source[from..from + |c.bytes|]
            && source[..from + |c.bytes|] == source[..from] + c.bytes
            && Pieces(source, rest, from + |c.bytes|, to)
            && c.offset == from
            && Ends(queue + data) == (if c.last then [] else [from + |c.bytes|]) + Ends(rest)
            && Total(queue) == |c.bytes| + Total(queue[1..])
            && (c.last ==> rest == [] && from + |c.bytes| == |source|)
            && (!c.last ==> |c.bytes| > 0)
            && (EndsWithLast(rest) <==> EndsWithLast(queue + data) && !c.last)
  {
    var pipe, rest := queue + data, queue[1..] + data;
    assert pipe[0] == queue[0] && pipe[1..] == rest;
  }

  lemma {:induction false} ConsumeKeepsMoving(s: State)
    requires Moves(s) && s.queue != []
    ensures Moves(Consumed(s))
    ensures !s.queue[0].last ==> |s.queue[0].bytes| > 0
  {
    FirstPiece(s.source, s.queue, s.data, |s.written|, s.offset);
    assert s.queue + s.data != [];
    hide Pieces, EndsWithLast, Total;
    var u := Consumed(s);
    assert u.queue + u.data == s.queue[1..] + s.data;
  }

  lemma {:induction false} ConsumeKeepsEnds(s: State)
    requires Moves(s) && s.queue != []
    ensures var u := Consumed(s); s.acks + Ends(s.queue + s.data) == u.acks + Ends(u.queue + u.data)
  {
    hide Pieces, EndsWithLast, Total, Ends;
    var c, rest := s.queue[0], s.queue[1..] + s.data;
    var n := |s.written| + |c.bytes|;
    FirstPiece(s.source, s.queue, s.data, |s.written|, s.offset);
    if c.last {
      assert [] + Ends(rest) == Ends(rest);
    } else {
      Regroup(s.acks, n, Ends(rest));
    }
  }

  lemma {:induction false} ConsumeKeepsWaiting(s: State)
    requires Moves(s) && Waiting(s) && s.queue != []
    ensures Waiting(Consumed(s))
  {
    ConsumeKeepsEnds(s);
    hide Moves, Ends;
  }

  lemma {:induction false} ConsumeKeepsGood(s: State)
    requires Good(s) && s.queue != []
    ensures Good(Consumed(s))
  {
    hide Moves, Waiting, Rising;
    ConsumeKeepsMoving(s);
    ConsumeKeepsWaiting(s);
    if !s.queue[0].last {
      RisingAppend(s.acks, |s.written| + |s.queue[0].bytes|);
    }
  }

  lemma {:induction false} RisingAppend(a: seq<nat>, x: nat)
    requires Rising(a, 0) && (if a == [] then x > 0 else x > a[|a| - 1])
    ensures Rising(a + [x], 0)
  {
    assert Rising([], x);
    assert [x][1..] == [];
    RisingInParts(a, [x], 0);
  }

  lemma {:induction false} AckKeepsMoving(s: State)
    requires Moves(s) && s.acks != []
    ensures Moves(AckTaken(s))
  {
  }

  /** What waits, behind the first ack. */
  lemma {:induction false} WaitingBehindTheFirst(s: State)
    requires Moves(s) && Acknowledges(s) && s.acks != []
    ensures var ends := s.acks[1..] + Ends(s.queue + s.data);
            Rising(ends, s.acks[0]) && s.acks + Ends(s.queue + s.data) == [s.acks[0]] + ends
    ensures s.acks[0] <= s.offset && Rising(s.acks[1..], 0)
  {
    hide Pieces, Ends, Total, EndsWithLast, Rising;
    EndsRise(s.source, s.queue + s.data, |s.written|, s.offset);
    NumbersFromPieces(s.source, s.queue + s.data, |s.written|, s.offset);
    BehindTheFirst(s.acks, Ends(s.queue + s.data), |s.written|);
  }

  lemma {:induction false} NumbersFromPieces(source: seq<byte>, pipe: seq<Chunk>, from: nat, to: nat)
    requires Pieces(source, pipe, from, to)
    ensures from <= to <= |source|
  {
  }

  lemma {:induction false} BehindTheFirst(acks: seq<nat>, ends: seq<nat>, written: nat)
    requires acks != [] && Rising(acks, 0) && acks[|acks| - 1] <= written && Rising(ends, written)
    ensures Rising(acks[1..] + ends, acks[0]) && Rising(acks[1..], 0) && acks[0] <= written
    ensures acks + ends == [acks[0]] + (acks[1..] + ends)
  {
    RisingAbove(acks, 0);
    RisingLower(ends, written, acks[|acks| - 1]);
    hide Rising;
    RisingTail(acks, ends);
    assert acks == [acks[0]] + acks[1..];
  }

  /** What is left waiting, with or without the last chunk's end. */
  lemma {:induction false} PopWaiting(unacked: seq<nat>, first: nat, ends: seq<nat>, end: nat)
    requires Rising(ends, first)
    requires unacked == [first] + ends || unacked == [first] + ends + [end]
    ensures unacked == [first] + ends ==> PopUpTo(unacked, first) == ends
    ensures PopUpTo(unacked, first) == ends || PopUpTo(unacked, first) == ends + [end]
    ensures |PopUpTo(unacked, first)| < |unacked|
  {
    hide PopUpTo, Rising;
    PopOne(first, ends, end);
    assert [first] + ends + [end] == [first] + (ends + [end]);
  }

  lemma {:induction false} AckKeepsWaiting(s: State)
    requires Moves(s) && Acknowledges(s) && Waiting(s) && s.acks != []
    ensures Waiting(AckTaken(s)) && |AckTaken(s).unacked| < |s.unacked|
  {
    hide Moves, Acknowledges, Rising, PopUpTo, Ends;
    WaitingBehindTheFirst(s);
    PopWaiting(s.unacked, s.acks[0], s.acks[1..] + Ends(s.queue + s.data), |s.source|);
  }

  lemma {:induction false} AckKeepsGood(s: State)
    requires Good(s) && s.acks != []
    ensures Good(AckTaken(s)) && s.acks[0] <= s.offset
  {
    hide Moves, Waiting, Rising, PopUpTo, Ends;
    WaitingBehindTheFirst(s);
    AckKeepsMoving(s);
    AckKeepsWaiting(s);
  }

  lemma {:induction false} RisingLower(s: seq<nat>, high: int, low: int)
    requires Rising(s, high) && low <= high
    ensures Rising(s, low)
  {
  }

  /** Every entry is at most the last. */
  lemma {:induction false} RisingAbove(s: seq<nat>, low: int)
    requires Rising(s, low) && s != []
    ensures s[0] <= s[|s| - 1]
  {
    if s[1..] != [] {
      RisingAbove(s[1..], s[0]);
    }
  }

  lemma {:induction false} RisingTail(a: seq<nat>, b: seq<nat>)
    requires Rising(a, 0) && a != [] && Rising(b, a[|a| - 1])
    ensures Rising(a[1..] + b, a[0]) && Rising(a[1..], 0)
  {
    RisingInParts(a[1..], b, a[0]);
    if a[1..] != [] {
      RisingLower(a[1..], a[0], 0);
    }
  }

  /** An ack takes its own chunk out of the window, and the last chunk with it
      when that ends at the same place. */
  lemma {:induction false} PopOne(first: nat, ends: seq<nat>, end: nat)
    requires Rising(ends, first)
    ensures PopUpTo([first] + ends, first) == ends
    ensures PopUpTo([first] + (ends + [end]), first) == if ends == [] && end <= first then [] else ends + [end]
  {
    assert ([first] + ends)[1..] == ends;
    assert ([first] + (ends + [end]))[1..] == ends + [end];
    assert [end][1..] == [];
    assert ends == [] ==> ends + [end] == [end];
  }

  /** Wherever the chunks and acks are, the queue at the receiver has room for
      the next, and someone can always go on. */
  lemma {:induction false} RoomAndProgress(s: State)
    requires Good(s)
    ensures |s.queue| + |s.data| + |s.acks| <= WINDOW + 1
    ensures s.queue == [] && s.data == [] && s.acks == [] && !s.finished ==> !s.sentLast && s.unacked == []
  {
    EndsCount(s.source, s.queue + s.data, |s.written|, s.offset);
    assert s.queue == [] && s.data == [] ==> s.queue + s.data == [];
  }

  lemma {:induction false} EndsCount(source: seq<byte>, pipe: seq<Chunk>, from: nat, to: nat)
    requires Pieces(source, pipe, from, to)
    ensures |pipe| <= |Ends(pipe)| + 1
    ensures !EndsWithLast(pipe) ==> |pipe| == |Ends(pipe)|
  {
    if pipe != [] {
      assert pipe[0].last ==> |pipe| == 1;
      EndsCount(source, pipe[1..], from + |pipe[0].bytes|, to);
    }
  }

  /** Steps left at most: four for each byte and the last chunk to send, fewer
      the further a chunk or its ack has come. */
  function Remaining(s: State): int {
    4 * (|s.source| - s.offset + (if s.sentLast then 0 else 1)) + 3 * |s.data| + 2 * |s.queue| + |s.acks|
  }

  /** Outstanding acks, chunks written, received and sent, in that order. */
  lemma {:induction false} CountsAreOrdered(s: State)
    requires Good(s)
    ensures (forall a | a in s.acks :: a <= |s.written|) && |s.written| <= s.received <= s.offset <= |s.source|
    ensures s.written <= s.source && (s.finished ==> s.written == s.source)
  {
    PiecesInParts(s.source, s.queue, s.data, |s.written|, s.offset);
    if s.acks != [] {
      AllAtMostTheLast(s.acks, 0);
    }
  }

  lemma {:induction false} AllAtMostTheLast(s: seq<nat>, low: int)
    requires Rising(s, low) && s != []
    ensures forall a | a in s :: a <= s[|s| - 1]
  {
    assert s == [s[0]] + s[1..];
    if s[1..] != [] {
      AllAtMostTheLast(s[1..], s[0]);
      assert s[1..][0] in s[1..];
    }
  }

  /** A transfer with both its ends. Each step is one event at one of them. */
  class Transfer {
    const source: seq<byte>
    const window: SendWindow
    const assembler: Assembler
    var sentLast: bool
    var data: seq<Chunk>
    var queue: seq<Chunk>
    var written: seq<byte>
    var finished: bool
    var acks: seq<nat>
    var failed: Option<ChunkError>

    constructor (source: seq<byte>, cap: Option<nat>)
      ensures Valid() && fresh(window) && fresh(assembler) && this.source == source && assembler.cap == cap
      ensures failed == None && !finished
    {
      this.source := source;
      window := new SendWindow();
      assembler := new Assembler(cap);
      sentLast, data, queue, written, finished, acks, failed := false, [], [], [], false, [], None;
    }

    ghost function Now(): State
      reads this, window, assembler
    {
      State(source, window.offset, window.unacked, sentLast, data, assembler.received, queue, written, finished, acks)
    }

    predicate FitsCap()
    {
      assembler.cap.Some? ==> |source| <= assembler.cap.value
    }

    /** No step fails but for a source larger than the cap. */
    ghost predicate Valid()
      reads this, window, assembler
    {
      && Good(Now())
      && (assembler.done <==> EndsWithLast(queue) || finished)
      && (failed.Some? ==> !FitsCap() && failed == Some(OverCap(assembler.cap.value)))
      && (assembler.cap.Some? ==> assembler.received <= assembler.cap.value)
    }

    /** The sender takes the next bytes of its source, or the end. */
    method Send(len: nat, last: bool)
      requires Valid() && failed == None && Sendable(Now(), len, last)
      modifies `sentLast, `data, window
      ensures Valid() && Now() == Sent(old(Now()), len, last)
    {
      SendKeepsGood(Now(), len, last);
      hide Good;
      data := data + [Chunk(window.offset, source[window.offset..window.offset + len], last)];
      window.OnSent(len);
      sentLast := last;
    }

    /** A chunk arrives: it is checked and queued. */
    method Arrive()
      requires Valid() && failed == None && data != []
      modifies `data, `queue, `failed, assembler
      ensures Valid()
      ensures if failed == None then Now() == Arrived(old(Now()))
              else old(assembler.received + |data[0].bytes|) > assembler.cap.value && written == old(written)
    {
      var c := data[0];
      ghost var s := Now();
      ArriveKeepsGood(s);
      RoomAndProgress(s);
      hide Good;
      var error := assembler.Accept(c.offset, |c.bytes|, c.last);
      failed := if error.Some? then error else if |queue| >= WINDOW + 2 then Some(WindowExceeded) else None;
      if failed == None {
        data, queue := data[1..], queue + [c];
      }
    }

    /** The receiver writes the next chunk and acknowledges it, unless it is
        the last. */
    method Consume()
      requires Valid() && failed == None && queue != []
      modifies `queue, `written, `finished, `acks
      ensures Valid() && Now() == Consumed(old(Now()))
    {
      ConsumeKeepsGood(Now());
      FirstPiece(source, queue, data, |written|, window.offset);
      hide Good, Pieces, Ends, Total;
      var c := queue[0];
      queue := queue[1..];
      written := written + c.bytes;
      if c.last {
        finished := true;
      } else {
        acks := acks + [|written|];
      }
    }

    method TakeAck()
      requires Valid() && failed == None && acks != []
      modifies `acks, `failed, window
      ensures Valid() && failed == None && Now() == AckTaken(old(Now()))
    {
      AckKeepsGood(Now());
      hide Good;
      failed := window.OnAck(acks[0]);
      if failed == None {
        acks := acks[1..];
      }
    }

    /** Events in any order, chunks of any size: the transfer ends, with the
        whole source written exactly when it fits the cap. */
    method RunToTheEnd()
      requires Valid() && failed == None
      modifies this, window, assembler
      ensures Valid() && (failed == None <==> FitsCap())
      ensures failed == None ==> finished && written == source
      ensures failed.Some? ==> written < source
    {
      while !finished && failed == None
        invariant Valid()
        decreases if failed == None then 1 + Remaining(Now()) else 0
      {
        RoomAndProgress(Now());
        CountsAreOrdered(Now());
        hide Good;
        if
        case !sentLast && window.MaySend() => SendAnything();
        case data != [] => Arrive();
        case queue != [] => Consume();
        case acks != [] => TakeAck();
      }
      CountsAreOrdered(Now());
      WrittenIsReceived(Now());
    }

    method SendAnything()
      requires Valid() && failed == None && !sentLast && window.MaySend()
      modifies `sentLast, `data, window
      ensures Valid() && Remaining(Now()) < old(Remaining(Now()))
    {
      CountsAreOrdered(Now());
      hide Good;
      var left := |source| - window.offset;
      var any: int, end: bool := *, *;
      var most := if left < CHUNK then left else CHUNK;
      var len := if any > most then most else if any < 1 && most > 0 then 1 else if any < 0 then 0 else any;
      var last := len == left && (end || len == 0);
      Send(len, last);
    }
  }

  /** A source larger than the cap is never written whole. */
  lemma {:induction false} WrittenIsReceived(s: State)
    requires Good(s)
    ensures |s.written| <= s.received
  {
  }
}
