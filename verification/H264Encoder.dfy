/** The encoder's picture state: two reconstruction slots that take turns as
    the one reference, `frame_num`, picture order count and IDR id. Every picture
    is a reference and predicts from the one before it; a keyframe starts the
    counters anew. */
module H264Encoding {
  import opened Common
  import opened H264
  import opened RefLists
  import Arithmetic

  /** MaxFrameNum and MaxPicOrderCntLsb of the streams written. */
  const MAX := 65536

  /** One reference, order counts of type 0, 16-bit counters. */
  const ENCODER_SPS := Sps(12, 0, 12, 1)

  lemma {:induction false} EncoderSpsCounters()
    ensures ENCODER_SPS.Parsed() && ENCODER_SPS.MaxRefs() == 1
    ensures ENCODER_SPS.MaxFrameNum() == MAX && ENCODER_SPS.MaxPocLsb() == MAX
  {
    Pow2Sixteen();
  }

  /** What one `Submit` hands to the driver. */
  datatype Submitted = Submitted(header: SliceHeader, poc: int, setupSlot: nat, reference: Option<Ref>)

  /** The header of picture `n` since its IDR picture, itself number 0. */
  function HeaderOf(n: nat, idrPicId: nat): SliceHeader {
    SliceHeader(
      if n == 0 then NAL_IDR else NAL_SLICE, 3, if n == 0 then SliceType.I else SliceType.P,
      n % MAX, idrPicId, n % MAX, 0, [], false, None)
  }

  /** Picture `n` predicts from the one before it, in the other slot. */
  function Picture(n: nat, idrPicId: nat): Submitted {
    Submitted(HeaderOf(n, idrPicId), n, n % 2, if n == 0 then None else Some(AsReference(n - 1)))
  }

  function AsReference(n: nat): Ref {
    Ref(n % 2, DpbPicture(n % MAX, n))
  }

  class H264Encoder {
    var slots: seq<Option<DpbPicture>>
    var currentRef: Option<nat>
    var frameNum: nat
    var idrPicId: nat
    var poc: nat
    var started: bool

    constructor ()
      ensures Valid() && !started && idrPicId == 0
    {
      slots, currentRef, frameNum, idrPicId, poc, started := [None, None], None, 0, 0, 0, false;
    }

    /** The picture order count numbers the pictures since the last IDR
        picture, and the reference is the one before. Without a reference the
        next picture is an IDR picture. */
    ghost predicate Valid()
      reads this
    {
      && |slots| == 2 && idrPicId < MAX
      && frameNum == poc % MAX
      && (currentRef == None ==> poc == 0)
      && (currentRef.Some? ==>
            && started && poc > 0 && currentRef == Some((poc - 1) % 2)
            && slots[currentRef.value] == Some(AsReference(poc - 1).pic))
    }

    /** Encode a picture, unless the driver fails (`renders` is false). A
        failed picture takes no number; a failed IDR picture has given up the
        reference, so an IDR picture follows it. */
    method Submit(forceKeyframe: bool, renders: bool) returns (s: Option<Submitted>)
      requires Valid()
      modifies this
      ensures Valid() && (renders ==> currentRef.Some?)
      ensures var n := if forceKeyframe || old(currentRef) == None then 0 else old(poc);
              && idrPicId == (if n == 0 && old(started) then (old(idrPicId) + 1) % MAX else old(idrPicId))
              && (if renders then s == Some(Picture(n, idrPicId)) && poc == n + 1 && started
                  else s == None && poc == n && started == old(started) && slots == old(slots)
                       && currentRef == if n == 0 then None else old(currentRef))
    {
      var idr := forceKeyframe || !started || currentRef == None;
      if idr {
        frameNum, poc := 0, 0;
        if started {
          idrPicId := (idrPicId + 1) % MAX;
        }
        currentRef := None;
      }
      var setupSlot := if currentRef.Some? then 1 - currentRef.value else 0;
      var refSlot := if idr then None else currentRef;
      var reference := if refSlot == None then None else Some(Ref(refSlot.value, slots[refSlot.value].value));
      var header := SliceHeader(
        if idr then NAL_IDR else NAL_SLICE, 3, if idr then SliceType.I else SliceType.P,
        frameNum, idrPicId, poc % MAX, 0, [], false, None);
      if !renders {
        return None;
      }
      s := Some(Submitted(header, poc, setupSlot, reference));
      slots := slots[setupSlot := Some(DpbPicture(frameNum, poc))];
      currentRef := Some(setupSlot);
      Arithmetic.ModSucc(poc, MAX);
      frameNum := (frameNum + 1) % MAX;
      poc := poc + 1;
      started := true;
    }
  }
}
