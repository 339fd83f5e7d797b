/** Full-resolution chroma in two 4:2:0 frames, and back. The main frame holds
    luma and the chroma of the even rows and columns; the auxiliary frame holds
    the rest, whole odd rows in the place of luma. Planes are stored row by row, and the two
    chroma planes of a frame either apart or interleaved. */
module Chroma {
  import opened Common
  import Arithmetic

  datatype Yuv444 = Yuv444(width: nat, height: nat, y: seq<byte>, u: seq<byte>, v: seq<byte>) {
    predicate Valid() { |y| == |u| == |v| == width * height }
  }

  /** Two-plane 4:2:0: U and V interleaved, half as many rows. */
  datatype Nv12 = Nv12(width: nat, height: nat, y: seq<byte>, uv: seq<byte>) {
    predicate Valid() { |y| == width * height && |uv| == width * (height / 2) }
  }

  predicate Even(w: nat, h: nat) { w % 2 == 0 && h % 2 == 0 }

  /** The sample at row `r`, column `c`. */
  function Get(p: seq<byte>, w: nat, r: nat, c: nat): byte {
    if r * w + c < |p| then p[r * w + c] else 0
  }

  function Row(k: nat, w: nat): nat { if w == 0 then 0 else k / w }

  function Column(k: nat, w: nat): nat { if w == 0 then 0 else k % w }

  // ---- Where each sample goes ----

  /** Even rows, interleaved: the columns of parity `odd` of U and V. */
  function Interleaved(u: seq<byte>, v: seq<byte>, w: nat, odd: nat, r: nat, c: nat): byte {
    if c % 2 == 0 then Get(u, w, 2 * r, c + odd) else Get(v, w, 2 * r, c - 1 + odd)
  }

  /** Odd rows, stacked: those of U above those of V. */
  function Stacked(u: seq<byte>, v: seq<byte>, w: nat, half: nat, r: nat, c: nat): byte {
    if r < half then Get(u, w, 2 * r + 1, c) else Get(v, w, 2 * (r - half) + 1, c)
  }

  /** One plane of chroma from the two frames: `second` is 1 for V. */
  function Joined(main: seq<byte>, auxUv: seq<byte>, auxY: seq<byte>, w: nat, half: nat, second: nat, r: nat, c: nat): byte {
    if r % 2 == 1 then Get(auxY, w, second * half + r / 2, c)
    else if c % 2 == 0 then Get(main, w, r / 2, c + second)
    else Get(auxUv, w, r / 2, c - 1 + second)
  }

  ghost predicate IsInterleaved(p: seq<byte>, u: seq<byte>, v: seq<byte>, w: nat, odd: nat) {
    forall k: nat | k < |p| :: p[k] == Interleaved(u, v, w, odd, Row(k, w), Column(k, w))
  }

  ghost predicate IsStacked(p: seq<byte>, u: seq<byte>, v: seq<byte>, w: nat, half: nat) {
    forall k: nat | k < |p| :: p[k] == Stacked(u, v, w, half, Row(k, w), Column(k, w))
  }

  ghost predicate IsJoined(p: seq<byte>, main: seq<byte>, auxUv: seq<byte>, auxY: seq<byte>, w: nat, half: nat, second: nat) {
    forall k: nat | k < |p| :: p[k] == Joined(main, auxUv, auxY, w, half, second, Row(k, w), Column(k, w))
  }

  /** The main frame keeps luma and the even columns of even rows; the other
      the odd rows as its luma and the odd columns of even rows. */
  ghost predicate IsSplit(src: Yuv444, main: Nv12, aux: Nv12) {
    && main.width == aux.width == src.width && main.height == aux.height == src.height
    && main.Valid() && aux.Valid()
    && main.y == src.y
    && IsInterleaved(main.uv, src.u, src.v, src.width, 0)
    && IsInterleaved(aux.uv, src.u, src.v, src.width, 1)
    && IsStacked(aux.y, src.u, src.v, src.width, src.height / 2)
  }

  ghost predicate IsJoin(main: Nv12, aux: Nv12, out: Yuv444) {
    && out.width == main.width && out.height == main.height && out.Valid() && out.y == main.y
    && IsJoined(out.u, main.uv, aux.uv, aux.y, main.width, main.height / 2, 0)
    && IsJoined(out.v, main.uv, aux.uv, aux.y, main.width, main.height / 2, 1)
  }

  // ---- Index arithmetic ----

  lemma {:induction false} RowAndColumn(k: nat, w: nat, rows: nat)
    requires k < w * rows
    ensures Row(k, w) < rows && Column(k, w) < w && k == Row(k, w) * w + Column(k, w)
  {
  }

  lemma {:induction false} InRange(r: nat, c: nat, w: nat, rows: nat)
    requires r < rows && c < w
    ensures r * w + c < w * rows && Row(r * w + c, w) == r && Column(r * w + c, w) == c
  {
    Arithmetic.MulMonotone(r + 1, rows, w);
    Arithmetic.DivModUnique(r * w + c, w, r, c);
  }

  lemma {:induction false} GetInterleaved(p: seq<byte>, u: seq<byte>, v: seq<byte>, w: nat, odd: nat, rows: nat, r: nat, c: nat)
    requires IsInterleaved(p, u, v, w, odd) && |p| == w * rows && r < rows && c < w
    ensures Get(p, w, r, c) == Interleaved(u, v, w, odd, r, c)
  {
    InRange(r, c, w, rows);
    hide Interleaved, Row, Column;
  }

  lemma {:induction false} GetStacked(p: seq<byte>, u: seq<byte>, v: seq<byte>, w: nat, half: nat, rows: nat, r: nat, c: nat)
    requires IsStacked(p, u, v, w, half) && |p| == w * rows && r < rows && c < w
    ensures Get(p, w, r, c) == Stacked(u, v, w, half, r, c)
  {
    InRange(r, c, w, rows);
    hide Stacked, Row, Column;
  }

  lemma {:induction false} GetJoined(
    p: seq<byte>, main: seq<byte>, auxUv: seq<byte>, auxY: seq<byte>, w: nat, half: nat, second: nat, rows: nat, r: nat, c: nat)
    requires IsJoined(p, main, auxUv, auxY, w, half, second) && |p| == w * rows && r < rows && c < w
    ensures Get(p, w, r, c) == Joined(main, auxUv, auxY, w, half, second, r, c)
  {
    InRange(r, c, w, rows);
    hide Joined, Row, Column;
  }

  lemma {:induction false} SamplesDecide(p: seq<byte>, q: seq<byte>, w: nat, rows: nat)
    requires |p| == |q| == w * rows
    requires forall r: nat, c: nat | r < rows && c < w :: Get(p, w, r, c) == Get(q, w, r, c)
    ensures p == q
  {
    forall k: nat | k < w * rows
      ensures p[k] == q[k]
    {
      RowAndColumn(k, w, rows);
      assert Get(p, w, Row(k, w), Column(k, w)) == Get(q, w, Row(k, w), Column(k, w));
    }
  }

  // ---- Both compositions are the identity ----

  lemma {:induction false} SampleComesBack(src: Yuv444, main: Nv12, aux: Nv12, r: nat, c: nat)
    requires src.Valid() && Even(src.width, src.height) && IsSplit(src, main, aux)
    requires r < src.height && c < src.width
    ensures var w, half := src.width, src.height / 2;
            && Joined(main.uv, aux.uv, aux.y, w, half, 0, r, c) == Get(src.u, w, r, c)
            && Joined(main.uv, aux.uv, aux.y, w, half, 1, r, c) == Get(src.v, w, r, c)
  {
    hide Get, Interleaved, Stacked, IsInterleaved, IsStacked, Joined;
    var w, half, i := src.width, src.height / 2, r / 2;
    assert |main.uv| == |aux.uv| == w * half && |aux.y| == w * (2 * half);
    if r % 2 == 1 {
      OddRowComesBack(main.uv, aux.uv, aux.y, src.u, src.v, w, half, i, c);
    } else {
      EvenRowComesBack(main.uv, aux.uv, aux.y, src.u, src.v, w, half, i, c);
    }
  }

  lemma {:induction false} OddRowComesBack(
    main: seq<byte>, auxUv: seq<byte>, auxY: seq<byte>, u: seq<byte>, v: seq<byte>, w: nat, half: nat, i: nat, c: nat)
    requires IsStacked(auxY, u, v, w, half) && |auxY| == w * (2 * half) && i < half && c < w
    ensures Joined(main, auxUv, auxY, w, half, 0, 2 * i + 1, c) == Get(u, w, 2 * i + 1, c)
    ensures Joined(main, auxUv, auxY, w, half, 1, 2 * i + 1, c) == Get(v, w, 2 * i + 1, c)
  {
    hide Get, IsStacked;
    GetStacked(auxY, u, v, w, half, 2 * half, i, c);
    GetStacked(auxY, u, v, w, half, 2 * half, half + i, c);
  }

  lemma {:induction false} EvenRowComesBack(
    main: seq<byte>, auxUv: seq<byte>, auxY: seq<byte>, u: seq<byte>, v: seq<byte>, w: nat, half: nat, i: nat, c: nat)
    requires IsInterleaved(main, u, v, w, 0) && IsInterleaved(auxUv, u, v, w, 1)
    requires |main| == |auxUv| == w * half && i < half && c < w && w % 2 == 0
    ensures Joined(main, auxUv, auxY, w, half, 0, 2 * i, c) == Get(u, w, 2 * i, c)
    ensures Joined(main, auxUv, auxY, w, half, 1, 2 * i, c) == Get(v, w, 2 * i, c)
  {
    hide Get, IsInterleaved;
    var even := c - c % 2;
    if c == even {
      GetInterleaved(main, u, v, w, 0, half, i, even);
      GetInterleaved(main, u, v, w, 0, half, i, even + 1);
    } else {
      GetInterleaved(auxUv, u, v, w, 1, half, i, even);
      GetInterleaved(auxUv, u, v, w, 1, half, i, even + 1);
    }
  }

  /** Joining the two frames of a split gives the source back. */
  lemma {:induction false} JoinUndoesSplit(src: Yuv444, main: Nv12, aux: Nv12, out: Yuv444)
    requires src.Valid() && Even(src.width, src.height) && IsSplit(src, main, aux) && IsJoin(main, aux, out)
    ensures out == src
  {
    var w, h := src.width, src.height;
    forall r: nat, c: nat | r < h && c < w
      ensures Get(out.u, w, r, c) == Get(src.u, w, r, c) && Get(out.v, w, r, c) == Get(src.v, w, r, c)
    {
      hide Get, Joined, IsJoined, IsInterleaved, IsStacked;
      SampleComesBack(src, main, aux, r, c);
      GetJoined(out.u, main.uv, aux.uv, aux.y, w, h / 2, 0, h, r, c);
      GetJoined(out.v, main.uv, aux.uv, aux.y, w, h / 2, 1, h, r, c);
    }
    hide Get, IsJoined, IsInterleaved, IsStacked;
    SamplesDecide(out.u, src.u, w, h);
    SamplesDecide(out.v, src.v, w, h);
  }

  lemma {:induction false} CodedSampleComesBack(main: Nv12, aux: Nv12, out: Yuv444, r: nat, c: nat)
    requires main.Valid() && aux.Valid() && main.width == aux.width && main.height == aux.height
    requires Even(main.width, main.height) && IsJoin(main, aux, out) && c < main.width
    ensures r < main.height / 2 ==>
              && Interleaved(out.u, out.v, main.width, 0, r, c) == Get(main.uv, main.width, r, c)
              && Interleaved(out.u, out.v, main.width, 1, r, c) == Get(aux.uv, main.width, r, c)
    ensures r < main.height ==> Stacked(out.u, out.v, main.width, main.height / 2, r, c) == Get(aux.y, main.width, r, c)
  {
    hide Get, Interleaved, Stacked, IsJoined, Joined;
    var w, half := main.width, main.height / 2;
    assert |out.u| == |out.v| == w * (2 * half);
    if r < half {
      CodedChromaComesBack(main.uv, aux.uv, aux.y, out.u, out.v, w, half, r, c);
    }
    if r < 2 * half {
      CodedLumaComesBack(main.uv, aux.uv, aux.y, out.u, out.v, w, half, r, c);
    }
  }

  lemma {:induction false} CodedChromaComesBack(
    main: seq<byte>, auxUv: seq<byte>, auxY: seq<byte>, u: seq<byte>, v: seq<byte>, w: nat, half: nat, r: nat, c: nat)
    requires IsJoined(u, main, auxUv, auxY, w, half, 0) && IsJoined(v, main, auxUv, auxY, w, half, 1)
    requires |u| == |v| == w * (2 * half) && r < half && c < w && w % 2 == 0
    ensures Interleaved(u, v, w, 0, r, c) == Get(main, w, r, c)
    ensures Interleaved(u, v, w, 1, r, c) == Get(auxUv, w, r, c)
  {
    hide Get, IsJoined;
    var even := c - c % 2;
    if c == even {
      GetJoined(u, main, auxUv, auxY, w, half, 0, 2 * half, 2 * r, even);
      GetJoined(u, main, auxUv, auxY, w, half, 0, 2 * half, 2 * r, even + 1);
    } else {
      GetJoined(v, main, auxUv, auxY, w, half, 1, 2 * half, 2 * r, even);
      GetJoined(v, main, auxUv, auxY, w, half, 1, 2 * half, 2 * r, even + 1);
    }
  }

  lemma {:induction false} CodedLumaComesBack(
    main: seq<byte>, auxUv: seq<byte>, auxY: seq<byte>, u: seq<byte>, v: seq<byte>, w: nat, half: nat, r: nat, c: nat)
    requires IsJoined(u, main, auxUv, auxY, w, half, 0) && IsJoined(v, main, auxUv, auxY, w, half, 1)
    requires |u| == |v| == w * (2 * half) && r < 2 * half && c < w
    ensures Stacked(u, v, w, half, r, c) == Get(auxY, w, r, c)
  {
    hide Get, IsJoined;
    if r < half {
      GetJoined(u, main, auxUv, auxY, w, half, 0, 2 * half, 2 * r + 1, c);
    } else {
      GetJoined(v, main, auxUv, auxY, w, half, 1, 2 * half, 2 * (r - half) + 1, c);
    }
  }

  /** Splitting what two frames join to gives them back, whatever is in
      them. */
  lemma {:induction false} SplitUndoesJoin(main: Nv12, aux: Nv12, out: Yuv444, main': Nv12, aux': Nv12)
    requires main.Valid() && aux.Valid() && main.width == aux.width && main.height == aux.height
    requires Even(main.width, main.height) && IsJoin(main, aux, out) && IsSplit(out, main', aux')
    ensures main' == main && aux' == aux
  {
    var w, h := main.width, main.height;
    forall r: nat, c: nat | r < h && c < w
      ensures r < h / 2 ==> Get(main'.uv, w, r, c) == Get(main.uv, w, r, c) && Get(aux'.uv, w, r, c) == Get(aux.uv, w, r, c)
      ensures Get(aux'.y, w, r, c) == Get(aux.y, w, r, c)
    {
      hide Get, Joined, Interleaved, Stacked, IsJoined, IsInterleaved, IsStacked;
      CodedSampleComesBack(main, aux, out, r, c);
      if r < h / 2 {
        GetInterleaved(main'.uv, out.u, out.v, w, 0, h / 2, r, c);
        GetInterleaved(aux'.uv, out.u, out.v, w, 1, h / 2, r, c);
      }
      GetStacked(aux'.y, out.u, out.v, w, h / 2, h, r, c);
    }
    hide Get, IsJoined, IsInterleaved, IsStacked;
    SamplesDecide(main'.uv, main.uv, w, h / 2);
    SamplesDecide(aux'.uv, aux.uv, w, h / 2);
    SamplesDecide(aux'.y, aux.y, w, h);
  }

  // ---- Planar frames ----

  /** Three-plane 4:2:0. */
  datatype I420 = I420(width: nat, height: nat, y: seq<byte>, u: seq<byte>, v: seq<byte>) {
    predicate Valid() {
      |y| == width * height && |u| == |v| == width / 2 * (height / 2)
    }
  }

  /** Every other sample of every other row, from column `odd`. */
  ghost predicate IsQuarter(p: seq<byte>, src: seq<byte>, w: nat, odd: nat) {
    forall k: nat | k < |p| :: p[k] == Get(src, w, 2 * Row(k, w / 2), 2 * Column(k, w / 2) + odd)
  }

  ghost predicate IsPlanarSplit(src: Yuv444, main: I420, aux: I420) {
    && main.width == aux.width == src.width && main.height == aux.height == src.height
    && main.Valid() && aux.Valid()
    && main.y == src.y
    && IsQuarter(main.u, src.u, src.width, 0) && IsQuarter(main.v, src.v, src.width, 0)
    && IsQuarter(aux.u, src.u, src.width, 1) && IsQuarter(aux.v, src.v, src.width, 1)
    && IsStacked(aux.y, src.u, src.v, src.width, src.height / 2)
  }

  /** The samples of an interleaved plane at columns of this parity. */
  ghost predicate IsDeinterleaved(p: seq<byte>, uv: seq<byte>, w: nat, second: nat) {
    forall k: nat | k < |p| :: p[k] == Get(uv, w, Row(k, w / 2), 2 * Column(k, w / 2) + second)
  }

  /** The planar form of a frame with interleaved chroma. */
  ghost predicate IsPlanar(p: I420, n: Nv12) {
    && p.width == n.width && p.height == n.height && p.y == n.y
    && IsDeinterleaved(p.u, n.uv, n.width, 0) && IsDeinterleaved(p.v, n.uv, n.width, 1)
  }

  lemma {:induction false} QuarterIsDeinterleaved(
    p: seq<byte>, src: seq<byte>, uv: seq<byte>, u: seq<byte>, v: seq<byte>, w: nat, h: nat, odd: nat, second: nat)
    requires Even(w, h) && |p| == w / 2 * (h / 2) && |uv| == w * (h / 2) && second <= 1
    requires IsQuarter(p, src, w, odd) && IsInterleaved(uv, u, v, w, odd) && src == if second == 0 then u else v
    ensures IsDeinterleaved(p, uv, w, second)
  {
    forall k: nat | k < |p|
      ensures Get(uv, w, Row(k, w / 2), 2 * Column(k, w / 2) + second) == Get(src, w, 2 * Row(k, w / 2), 2 * Column(k, w / 2) + odd)
    {
      RowAndColumn(k, w / 2, h / 2);
      GetInterleaved(uv, u, v, w, odd, h / 2, Row(k, w / 2), 2 * Column(k, w / 2) + second);
      hide Get, Row, Column;
    }
  }

  /** The planar split is the interleaved split, deinterleaved. */
  lemma {:induction false} PlanarSplitIsTheSplit(src: Yuv444, main: Nv12, aux: Nv12, planar: I420, planarAux: I420)
    requires src.Valid() && Even(src.width, src.height)
    requires IsSplit(src, main, aux) && IsPlanarSplit(src, planar, planarAux)
    ensures IsPlanar(planar, main) && IsPlanar(planarAux, aux)
  {
    var w, h := src.width, src.height;
    hide IsQuarter, IsInterleaved, IsDeinterleaved, Get, IsStacked, Stacked;
    QuarterIsDeinterleaved(planar.u, src.u, main.uv, src.u, src.v, w, h, 0, 0);
    QuarterIsDeinterleaved(planar.v, src.v, main.uv, src.u, src.v, w, h, 0, 1);
    QuarterIsDeinterleaved(planarAux.u, src.u, aux.uv, src.u, src.v, w, h, 1, 0);
    QuarterIsDeinterleaved(planarAux.v, src.v, aux.uv, src.u, src.v, w, h, 1, 1);
    StackedIsUnique(aux.y, planarAux.y, src.u, src.v, w, h / 2);
  }

  lemma {:induction false} StackedIsUnique(p: seq<byte>, q: seq<byte>, u: seq<byte>, v: seq<byte>, w: nat, half: nat)
    requires IsStacked(p, u, v, w, half) && IsStacked(q, u, v, w, half) && |p| == |q|
    ensures p == q
  {
  }

  // ---- One frame: subsampling ----

  /** Each coded sample over its 2x2 block; zero in the row or column an odd
      size leaves over. */
  function Upsampled(uv: seq<byte>, w: nat, h: nat, second: nat, r: nat, c: nat): byte {
    if r / 2 < h / 2 && c / 2 < w / 2 then Get(uv, w, r / 2, c / 2 * 2 + second) else 0
  }

  ghost predicate IsUpsampled(p: seq<byte>, uv: seq<byte>, w: nat, h: nat, second: nat) {
    forall k: nat | k < |p| :: p[k] == Upsampled(uv, w, h, second, Row(k, w), Column(k, w))
  }

  ghost predicate IsUpsample(n: Nv12, out: Yuv444) {
    && out.width == n.width && out.height == n.height && out.Valid() && out.y == n.y
    && IsUpsampled(out.u, n.uv, n.width, n.height, 0) && IsUpsampled(out.v, n.uv, n.width, n.height, 1)
  }

  /** The same chroma over each 2x2 block. */
  ghost predicate Blocky(p: seq<byte>, w: nat, h: nat) {
    forall r: nat, c: nat | r < h && c < w :: Get(p, w, r, c) == Get(p, w, r / 2 * 2, c / 2 * 2)
  }

  lemma {:induction false} UpsampledSample(
    p: seq<byte>, src: seq<byte>, uv: seq<byte>, u: seq<byte>, v: seq<byte>, w: nat, h: nat, second: nat, r: nat, c: nat)
    requires Even(w, h) && |p| == w * h && |uv| == w * (h / 2) && second <= 1 && r < h && c < w
    requires IsUpsampled(p, uv, w, h, second) && IsInterleaved(uv, u, v, w, 0) && src == if second == 0 then u else v
    ensures Get(p, w, r, c) == Get(src, w, r / 2 * 2, c / 2 * 2)
  {
    GetUpsampled(p, uv, w, h, second, r, c);
    hide Get, IsUpsampled, IsInterleaved;
    var i, k := r / 2, c / 2;
    assert i < h / 2 && k < w / 2;
    GetInterleaved(uv, u, v, w, 0, h / 2, i, 2 * k + second);
    assert (2 * k + second) % 2 == second;
  }

  lemma {:induction false} GetUpsampled(p: seq<byte>, uv: seq<byte>, w: nat, h: nat, second: nat, r: nat, c: nat)
    requires IsUpsampled(p, uv, w, h, second) && |p| == w * h && r < h && c < w
    ensures Get(p, w, r, c) == Upsampled(uv, w, h, second, r, c)
  {
    InRange(r, c, w, h);
    hide Upsampled, Row, Column;
  }

  /** Subsampling and upsampling again changes nothing exactly when each 2x2
      block has one chroma. */
  lemma {:induction false} SubsamplingIsLosslessExactlyOnBlocks(src: Yuv444, main: Nv12, aux: Nv12, out: Yuv444)
    requires src.Valid() && Even(src.width, src.height) && IsSplit(src, main, aux) && IsUpsample(main, out)
    ensures out == src <==> Blocky(src.u, src.width, src.height) && Blocky(src.v, src.width, src.height)
  {
    var w, h := src.width, src.height;
    forall r: nat, c: nat | r < h && c < w
      ensures Get(out.u, w, r, c) == Get(src.u, w, r / 2 * 2, c / 2 * 2)
      ensures Get(out.v, w, r, c) == Get(src.v, w, r / 2 * 2, c / 2 * 2)
    {
      hide Get, IsUpsampled, IsInterleaved, IsStacked, Blocky;
      UpsampledSample(out.u, src.u, main.uv, src.u, src.v, w, h, 0, r, c);
      UpsampledSample(out.v, src.v, main.uv, src.u, src.v, w, h, 1, r, c);
    }
    hide Get, IsUpsampled, IsInterleaved, IsStacked;
    if Blocky(src.u, w, h) && Blocky(src.v, w, h) {
      SamplesDecide(out.u, src.u, w, h);
      SamplesDecide(out.v, src.v, w, h);
    }
  }
}
