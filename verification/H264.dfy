/** The header fields an H.264 codec derives its picture state from. */
module H264 {
  import opened Common

  datatype SliceType = P | B | I

  const NAL_SLICE := 1
  const NAL_IDR := 5

  datatype Mmco = Mmco(op: nat, differenceOfPicNumsMinus1: nat)

  /** One `ref_pic_list_modification` step. */
  datatype RefListMod = RefListMod(idc: nat, value: nat)

  datatype Sps = Sps(
    log2MaxFrameNumMinus4: nat,
    pocType: nat,
    log2MaxPocLsbMinus4: nat,
    maxNumRefFrames: nat)
  {
    /** What the header parser lets through. */
    predicate Parsed() {
      log2MaxFrameNumMinus4 <= 12 && log2MaxPocLsbMinus4 <= 12 && maxNumRefFrames <= 16
    }

    function MaxFrameNum(): (m: nat)
      ensures m >= 16 && m % 2 == 0
    {
      Pow2AtLeast(log2MaxFrameNumMinus4);
      Pow2(log2MaxFrameNumMinus4 + 4)
    }

    function MaxPocLsb(): (m: nat)
      ensures m >= 16 && m % 2 == 0
    {
      Pow2AtLeast(log2MaxPocLsbMinus4);
      Pow2(log2MaxPocLsbMinus4 + 4)
    }

    /** References kept: at least one. */
    function MaxRefs(): nat {
      if maxNumRefFrames < 1 then 1 else maxNumRefFrames
    }
  }

  datatype SliceHeader = SliceHeader(
    nalType: nat,
    refIdc: nat,
    sliceType: SliceType,
    frameNum: nat,
    idrPicId: nat,
    picOrderCntLsb: nat,
    numRefIdxL0ActiveMinus1: nat,
    refListMods: seq<RefListMod>,
    longTermReference: bool,
    mmcos: Option<seq<Mmco>>)
  {
    predicate IsIdr() { nalType == NAL_IDR }

    predicate IsReference() { refIdc != 0 }
  }

  function Pow2(n: nat): nat {
    if n == 0 then 1 else 2 * Pow2(n - 1)
  }

  lemma {:induction false} Pow2AtLeast(n: nat)
    ensures Pow2(n + 4) >= 16 && Pow2(n + 4) % 2 == 0
  {
    if n == 0 {
      assert Pow2(4) == 2 * Pow2(3) == 4 * Pow2(2) == 8 * Pow2(1) == 16;
    } else {
      Pow2AtLeast(n - 1);
      assert Pow2(n + 4) == 2 * Pow2(n + 3);
    }
  }

  lemma {:induction false} Pow2Sixteen()
    ensures Pow2(16) == 65536
  {
    assert Pow2(4) == 2 * Pow2(3) == 4 * Pow2(2) == 8 * Pow2(1) == 16;
    assert Pow2(8) == 2 * Pow2(7) == 4 * Pow2(6) == 8 * Pow2(5) == 16 * Pow2(4);
    assert Pow2(12) == 2 * Pow2(11) == 4 * Pow2(10) == 8 * Pow2(9) == 16 * Pow2(8);
    assert Pow2(16) == 2 * Pow2(15) == 4 * Pow2(14) == 8 * Pow2(13) == 16 * Pow2(12);
  }
}
