/** Picture order counts, as section 8.2.1 of the H.264 recommendation derives
    them from the slice headers of frames (types 0 and 2). Type 0 codes the low
    bits of the count, which stands near that of the last reference picture;
    type 2 counts in decode order. */
module PictureOrder {
  import opened Common
  import opened H264
  import Arithmetic

  /** `poc` is the number with these low bits that is nearest to `prev`; the
      one above it when two are equally near. */
  predicate Nearest(poc: int, prev: int, lsb: nat, max: nat)
    requires max > 0
  {
    poc % max == lsb && prev - max / 2 < poc <= prev + max / 2
  }

  lemma {:induction false} NearestIsUnique(a: int, b: int, prev: int, lsb: nat, max: nat)
    requires max > 0 && max % 2 == 0
    requires Nearest(a, prev, lsb, max) && Nearest(b, prev, lsb, max)
    ensures a == b
  {
    var d := a / max - b / max;
    assert a - b == d * max;
    Arithmetic.MulMonotone(1, d, max);
    Arithmetic.MulMonotone(d, -1, max);
  }

  /** Whatever the wraps in between, the low bits give the count back exactly
      when it moved by less than half their range, or by just half upwards. */
  lemma {:induction false} LowBitsSufficeExactlyNearby(poc: int, derived: int, prev: int, max: nat)
    requires max > 0 && max % 2 == 0
    requires Nearest(derived, prev, poc % max, max)
    ensures derived == poc <==> prev - max / 2 < poc <= prev + max / 2
  {
    if prev - max / 2 < poc <= prev + max / 2 {
      NearestIsUnique(poc, derived, prev, poc % max, max);
    }
  }

  /** A multiple of `max` plus low bits has those low bits. */
  lemma {:induction false} LowBits(msb: int, lsb: nat, max: nat)
    requires max > 0 && msb % max == 0 && lsb < max
    ensures (msb + lsb) % max == lsb
    ensures (msb + max) % max == 0 && (msb - max) % max == 0
  {
    var q := msb / max;
    assert msb == q * max;
    Arithmetic.DivModUnique(msb + lsb, max, q, lsb);
    Arithmetic.DivModUnique(msb + max, max, q + 1, 0);
    Arithmetic.DivModUnique(msb - max, max, q - 1, 0);
  }

  /** Where the counts stand: the last reference picture's (type 0), how far
      `frame_num` has wrapped (type 2), and its last value. */
  datatype Order = Order(anchor: int, offset: int, frameNum: nat)

  /** `frame_num` has wrapped when it is lower than before. */
  function OffsetAt(offset: int, previous: nat, frameNum: nat, max: nat): int {
    if previous > frameNum then offset + max else offset
  }

  /** What deriving a count does to the state, before the picture itself is
      decoded. */
  ghost predicate Derives(before: Order, after: Order, h: SliceHeader, sps: Sps) {
    && after.frameNum == before.frameNum
    && (if sps.pocType == 0 && h.IsReference()
        then Nearest(after.anchor, if h.IsIdr() then 0 else before.anchor, h.picOrderCntLsb, sps.MaxPocLsb())
        else after.anchor == before.anchor)
    && after.offset == if sps.pocType != 2 then before.offset
                       else if h.IsIdr() then 0
                       else OffsetAt(before.offset, before.frameNum, h.frameNum, sps.MaxFrameNum())
  }

  // ---- After a picture that failed ----

  /** With type 0 the pictures behind it find the state of a decoded one. */
  lemma {:induction false} AFailedPictureKeepsTypeZero(before: Order, failed: Order, decoded: Order, h: SliceHeader, sps: Sps)
    requires sps.pocType == 0 && Derives(before, failed, h, sps) && Derives(before, decoded, h, sps)
    ensures failed == decoded
  {
    if h.IsReference() {
      NearestIsUnique(failed.anchor, decoded.anchor, if h.IsIdr() then 0 else before.anchor,
                      h.picOrderCntLsb, sps.MaxPocLsb());
    }
  }

  /** The offset behind these frame numbers, none of them of an IDR picture or
      of one with operation 5. */
  function OffsetBehind(offset: int, previous: nat, frameNums: seq<nat>, max: nat): int
    decreases |frameNums|
  {
    if frameNums == [] then offset
    else OffsetBehind(OffsetAt(offset, previous, frameNums[0], max), frameNums[0], frameNums[1..], max)
  }

  lemma {:induction false} OffsetsShift(offset: int, d: int, previous: nat, frameNums: seq<nat>, max: nat)
    ensures OffsetBehind(offset + d, previous, frameNums, max) == OffsetBehind(offset, previous, frameNums, max) + d
    decreases |frameNums|
  {
    if frameNums != [] {
      OffsetsShift(OffsetAt(offset, previous, frameNums[0], max), d, frameNums[0], frameNums[1..], max);
    }
  }

  /** With type 2 the wrap at a failed picture is counted, but not its number:
      all pictures behind it are counted as if it had been decoded exactly when
      the next one wraps from its number and from the one before alike. Else
      they are one cycle ahead, or behind. */
  lemma {:induction false} AFailedPictureMisleadsTypeTwo(
    offset: int, previous: nat, failed: nat, behind: seq<nat>, max: int)
    requires max > 0 && behind != []
    ensures OffsetBehind(offset, previous, behind, max)
         == OffsetBehind(offset, failed, behind, max)
            + if previous > behind[0] >= failed then max else if failed > behind[0] >= previous then -max else 0
    ensures OffsetBehind(offset, previous, behind, max) == OffsetBehind(offset, failed, behind, max)
            <==> (previous > behind[0] <==> failed > behind[0])
  {
    var next, rest := behind[0], behind[1..];
    var a, b := OffsetAt(offset, previous, next, max), OffsetAt(offset, failed, next, max);
    OffsetsShift(b, a - b, next, rest, max);
  }

  /** In a gap-free stream that is when the failed picture did not wrap. */
  lemma {:induction false} AFailedWrapIsCountedTwice(
    offset: int, n: nat, m: nat, k: nat, behind: seq<nat>, max: nat)
    requires max > 2 && n <= m <= n + 1 && m <= k <= m + 1
    requires behind != [] && behind[0] == k % max
    ensures OffsetBehind(offset, n % max, behind, max)
         == OffsetBehind(offset, m % max, behind, max) + if n % max > m % max then max else 0
  {
    AFailedPictureMisleadsTypeTwo(offset, n % max, m % max, behind, max);
    Arithmetic.ModSucc(n, max);
    Arithmetic.ModSucc(m, max);
  }

  class PocState {
    var prevMsb: int
    var prevLsb: nat
    var prevFrameNumOffset: nat
    var prevFrameNum: nat

    constructor ()
      ensures prevMsb == 0 && prevLsb == 0 && prevFrameNumOffset == 0 && prevFrameNum == 0
    {
      prevMsb, prevLsb, prevFrameNumOffset, prevFrameNum := 0, 0, 0, 0;
    }

    method Reset()
      modifies this
      ensures prevMsb == 0 && prevLsb == 0 && prevFrameNumOffset == 0 && prevFrameNum == 0
      ensures forall sps: Sps :: Valid(sps)
    {
      prevMsb, prevLsb, prevFrameNumOffset, prevFrameNum := 0, 0, 0, 0;
    }

    /** The count of the last reference picture, for type 0. */
    function Anchor(): int
      reads this
    {
      prevMsb + prevLsb
    }

    /** `frame_num` unwrapped, for type 2. */
    function Count(): int
      reads this
    {
      prevFrameNumOffset + prevFrameNum
    }

    ghost function Stands(): Order
      reads this
    {
      Order(Anchor(), prevFrameNumOffset, prevFrameNum)
    }

    ghost predicate Valid(sps: Sps)
      reads this
    {
      && prevMsb % sps.MaxPocLsb() == 0 && prevLsb < sps.MaxPocLsb()
      && prevFrameNumOffset % sps.MaxFrameNum() == 0 && prevFrameNum < sps.MaxFrameNum()
    }

    /** The picture order count of a frame. The state remembers the last
        reference picture (type 0) and how often `frame_num` wrapped (type 2). */
    method Derive(sps: Sps, h: SliceHeader) returns (poc: Option<int>)
      requires Valid(sps)
      requires h.picOrderCntLsb < sps.MaxPocLsb() && h.frameNum < sps.MaxFrameNum()
      modifies this
      ensures Valid(sps) && prevFrameNum == old(prevFrameNum)
      ensures poc.Some? <==> sps.pocType == 0 || sps.pocType == 2
      ensures poc == None ==> unchanged(this)
      ensures Derives(old(Stands()), Stands(), h, sps)
      ensures sps.pocType == 0 ==>
                && Nearest(poc.value, if h.IsIdr() then 0 else old(Anchor()), h.picOrderCntLsb, sps.MaxPocLsb())
                && Anchor() == (if h.IsReference() then poc.value else old(Anchor()))
                && prevFrameNumOffset == old(prevFrameNumOffset)
      ensures sps.pocType == 2 ==>
                var count := prevFrameNumOffset + h.frameNum;
                && (if h.IsIdr() then prevFrameNumOffset == 0
                    else old(Count()) <= count < old(Count()) + sps.MaxFrameNum())
                && count % sps.MaxFrameNum() == h.frameNum
                && poc.value == (if h.IsIdr() then 0 else if h.IsReference() then 2 * count else 2 * count - 1)
    {
      if sps.pocType == 0 {
        var max := sps.MaxPocLsb();
        poc := DeriveFromLsb(max, h);
      } else if sps.pocType == 2 {
        var offset := if h.IsIdr() then 0
                      else if prevFrameNum > h.frameNum then prevFrameNumOffset + sps.MaxFrameNum()
                      else prevFrameNumOffset;
        LowBits(prevFrameNumOffset, 0, sps.MaxFrameNum());
        LowBits(offset, h.frameNum, sps.MaxFrameNum());
        prevFrameNumOffset := offset;
        var n := offset + h.frameNum;
        poc := Some(if h.IsIdr() then 0 else if h.IsReference() then 2 * n else 2 * n - 1);
      } else {
        poc := None;
      }
    }

    method DeriveFromLsb(max: nat, h: SliceHeader) returns (poc: Option<int>)
      requires max > 0 && max % 2 == 0
      requires prevMsb % max == 0 && prevLsb < max && h.picOrderCntLsb < max
      modifies this`prevMsb, this`prevLsb
      ensures prevMsb % max == 0 && prevLsb < max
      ensures poc.Some?
      ensures Nearest(poc.value, if h.IsIdr() then 0 else old(prevMsb + prevLsb), h.picOrderCntLsb, max)
      ensures prevMsb + prevLsb == if h.IsReference() then poc.value else old(prevMsb + prevLsb)
    {
      var msb, prev := prevMsb, prevLsb;
      if h.IsIdr() {
        msb, prev := 0, 0;
      }
      var lsb := h.picOrderCntLsb;
      LowBits(msb, lsb, max);
      if lsb < prev && prev - lsb >= max / 2 {
        msb := msb + max;
      } else if lsb > prev && lsb - prev > max / 2 {
        msb := msb - max;
      }
      LowBits(msb, lsb, max);
      if h.IsReference() {
        prevMsb, prevLsb := msb, lsb;
      }
      poc := Some(msb + lsb);
    }
  }
}
