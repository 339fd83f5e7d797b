/** An encoder, and a decoder that sees nothing but its slice headers. */
module Lockstep {
  import opened Common
  import opened H264
  import opened RefLists
  import opened Dpb
  import opened PictureOrder
  import opened H264Encoding
  import opened H264Decoding

  /** One call of the encoder: is a keyframe forced, and does the driver take
      the picture? */
  datatype Attempt = Attempt(force: bool, renders: bool)

  /** Pictures encoded in the first `k` attempts, counted from the last keyframe
      they asked for. */
  function Encoded(attempts: seq<Attempt>, k: nat): nat
    requires k <= |attempts|
    decreases k, 0
  {
    if k == 0 then 0
    else SinceKeyframe(attempts, k - 1) + if attempts[k - 1].renders then 1 else 0
  }

  /** Pictures encoded since the last keyframe when attempt `i` is made, which
      is none when that attempt forces one. */
  function SinceKeyframe(attempts: seq<Attempt>, i: nat): nat
    requires i < |attempts|
    decreases i, 1
  {
    if attempts[i].force then 0 else Encoded(attempts, i)
  }

  /** What the decoder makes of picture `n` after a keyframe: the count the
      encoder gave it, the encoder's slot, and for list 0 the one picture the
      encoder predicted from. */
  ghost function Shown(n: nat): Outcome {
    Output(n % 2, n, [if n == 0 then [] else [AsReference(n - 1)]])
  }

  /** What attempt `i` shows: its picture, if the driver takes it. */
  ghost function ShownAt(attempts: seq<Attempt>, i: nat): Option<Outcome>
    requires i < |attempts|
  {
    if attempts[i].renders then Some(Shown(SinceKeyframe(attempts, i))) else None
  }

  ghost predicate AllShown(attempts: seq<Attempt>, shown: seq<Option<Outcome>>) {
    |shown| <= |attempts| && forall i | 0 <= i < |shown| :: shown[i] == ShownAt(attempts, i)
  }

  /** The decoder's history is the encoder's pictures since the keyframe. */
  ghost predicate Follows(history: seq<Stored>) {
    forall i | 0 <= i < |history| :: history[i] == Stored(i, i % 2)
  }

  lemma {:induction false} HeadersAreGapFree(history: seq<Stored>, n: nat, idrPicId: nat)
    requires n == 0 || n == |history|
    ensures GapFree([HeaderOf(n, idrPicId)], history, ENCODER_SPS)
    ensures FieldsInRange([HeaderOf(n, idrPicId)], ENCODER_SPS)
  {
    EncoderSpsCounters();
  }

  /** List 0 of a P picture: the last picture and nothing else, wherever
      `frame_num` stands. */
  lemma {:induction false} ListIsTheLastPicture(history: seq<Stored>, idrPicId: nat)
    requires Follows(history)
    ensures NewestFirst(history, HeaderOf(|history|, idrPicId), ENCODER_SPS)
         == Some(if history == [] then [] else [AsReference(|history| - 1)])
  {
    EncoderSpsCounters();
    if history != [] {
      var initial := RecentFirst(history, LowestHeld(history, 1), MAX);
      assert initial == [Numbered(history, |history| - 1, MAX)];
    }
  }

  /** The count nearest to the last picture's, whatever the low bits wrapped. */
  lemma {:induction false} OrderIsTheNumber(order: int, history: seq<Stored>, n: nat, idrPicId: nat)
    requires Follows(history) && (n == 0 || n == |history|)
    requires RightOrder(order, history, HeaderOf(n, idrPicId), ENCODER_SPS)
    ensures order == n
  {
    EncoderSpsCounters();
    LowBitsSufficeExactlyNearby(n, order, if n == 0 then 0 else n - 1, MAX);
  }

  /** The one slot that is free is the encoder's. */
  lemma {:induction false} SlotIsTheOther(surface: nat, past: seq<Stored>)
    requires Follows(past) && surface < 2
    requires NotLive(surface, past, ENCODER_SPS)
    requires forall j: nat | j < surface :: !NotLive(j, past, ENCODER_SPS)
    ensures surface == |past| % 2
  {
    EncoderSpsCounters();
    assert NotLive(surface, past, ENCODER_SPS);
    assert past != [] ==> past[|past| - 1].slot != surface;
    assert past == [] ==> NotLive(0, past, ENCODER_SPS);
  }

  lemma {:induction false} DecodedIsShown(dec: H264Decoder, r: Outcome, history: seq<Stored>, n: nat, idrPicId: nat)
    requires dec.Valid() && dec.streaming && dec.sps == ENCODER_SPS
    requires dec.Decoded(r, history, [HeaderOf(n, idrPicId)])
    requires Follows(history) && (n == 0 || n == |history|)
    ensures r == Shown(n) && dec.InStep()
    ensures Follows(dec.history) && |dec.history| == n + 1
  {
    var h := HeaderOf(n, idrPicId);
    var past := Past(history, h);
    assert [h][0] == h;
    EncoderSpsCounters();
    ListIsTheLastPicture(past, idrPicId);
    hide NewestFirst, RightOrder, NotLive, Tracks, PocState.Valid, H264Decoder.InStep, Sps.MaxFrameNum, Sps.MaxPocLsb;
    assert r.Output?;
    OrderIsTheNumber(r.poc, history, n, idrPicId);
    SlotIsTheOther(r.surface, past);
    assert r.lists == [r.lists[0]];
  }

  lemma {:induction false} OneMoreAttempt(
    attempts: seq<Attempt>, i: nat, n: nat, shown: seq<Option<Outcome>>, r: Option<Outcome>)
    requires |shown| == i < |attempts| && AllShown(attempts, shown)
    requires n == if attempts[i].force then 0 else Encoded(attempts, i)
    requires r == if attempts[i].renders then Some(Shown(n)) else None
    ensures Encoded(attempts, i + 1) == n + if attempts[i].renders then 1 else 0
    ensures AllShown(attempts, shown + [r])
  {
    assert ShownAt(attempts, i) == r;
    hide Encoded, SinceKeyframe, Shown, ShownAt;
  }

  class Pair {
    const enc: H264Encoder
    const dec: H264Decoder

    constructor ()
      ensures Valid() && !enc.started && fresh(enc) && fresh(dec) && fresh(dec.poc)
    {
      enc := new H264Encoder();
      dec := new H264Decoder();
      new;
      EncoderSpsCounters();
      dec.OpenStream(ENCODER_SPS);
    }

    ghost predicate Valid()
      reads this, enc, dec, dec.poc
    {
      && enc.Valid() && dec.InStep() && dec.sps == ENCODER_SPS
      && Follows(dec.history)
      && (enc.currentRef.Some? ==> |dec.history| == enc.poc)
    }

    /** Encode one picture and decode its header, if there is one. */
    method Send(force: bool, renders: bool) returns (r: Option<Outcome>)
      requires Valid()
      modifies enc, dec, dec.poc
      ensures Valid()
      ensures var n := if force || old(enc.currentRef) == None then 0 else old(enc.poc);
              && r == (if renders then Some(Shown(n)) else None)
              && enc.poc == n + (if renders then 1 else 0) && (enc.poc > 0 ==> enc.currentRef.Some?)
    {
      hide Follows, H264Decoder.InStep, HeaderOf, Shown;
      var s := enc.Submit(force, renders);
      if s == None {
        return None;
      }
      var shown := Receive(s.value.header, s.value.poc, enc.idrPicId);
      r := Some(shown);
    }

    /** The decoder meets picture `n`. */
    method Receive(h: SliceHeader, ghost n: nat, ghost idrPicId: nat) returns (shown: Outcome)
      requires h == HeaderOf(n, idrPicId)
      requires dec.InStep() && dec.sps == ENCODER_SPS && Follows(dec.history)
      requires n == 0 || n == |dec.history|
      modifies dec, dec.poc
      ensures dec.InStep() && dec.sps == ENCODER_SPS && Follows(dec.history)
      ensures shown == Shown(n) && |dec.history| == n + 1
    {
      ghost var history := dec.history;
      HeadersAreGapFree(history, n, idrPicId);
      hide HeaderOf, Follows, GapFree, FieldsInRange;
      shown := dec.Decode([h], true);
      hide H264Decoder.InStep, H264Decoder.Decoded;
      DecodedIsShown(dec, shown, history, n, idrPicId);
    }

    /** Any number of pictures, some of them failing: the decoder shows exactly
        what was encoded. */
    method Run(attempts: seq<Attempt>) returns (shown: seq<Option<Outcome>>)
      requires Valid() && !enc.started
      modifies enc, dec, dec.poc
      ensures |shown| == |attempts| && AllShown(attempts, shown)
    {
      assert enc.currentRef == None && Encoded(attempts, 0) == 0;
      shown := [];
      assert AllShown(attempts, shown);
      hide *;
      for i := 0 to |attempts|
        invariant Valid() && |shown| == i && AllShown(attempts, shown)
        invariant if enc.currentRef == None then Encoded(attempts, i) == 0 else Encoded(attempts, i) == enc.poc
      {
        ghost var number := if attempts[i].force || enc.currentRef == None then 0 else enc.poc;
        var r := Send(attempts[i].force, attempts[i].renders);
        OneMoreAttempt(attempts, i, number, shown, r);
        shown := shown + [r];
      }
    }
  }
}
