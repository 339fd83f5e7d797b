/** The loops that move chroma between planes, as they fill their buffers. */
module ChromaPlanes {
  import opened Common
  import opened Chroma

  /** Where a row begins. */
  function Start(r: nat, w: nat): nat { r * w }

  lemma {:induction false} NextStart(r: nat, w: nat)
    ensures Start(r + 1, w) == Start(r, w) + w && Start(0, w) == 0
  {
  }

  /** A sample, and its place in the buffer. */
  lemma {:induction false} ReadAt(p: seq<byte>, w: nat, rows: nat, r: nat, c: nat)
    requires |p| >= w * rows && r < rows && c < w
    ensures Start(r, w) + c < |p| && p[Start(r, w) + c] == Get(p, w, r, c)
  {
    InRange(r, c, w, rows);
  }

  lemma {:induction false} PlaceOf(w: nat, rows: nat, r: nat, c: nat)
    requires r < rows && c < w
    ensures Start(r, w) + c < w * rows && Row(Start(r, w) + c, w) == r && Column(Start(r, w) + c, w) == c
  {
    InRange(r, c, w, rows);
  }

  lemma {:induction false} LastStart(w: nat, rows: nat)
    ensures Start(rows, w) == w * rows
  {
  }

  /** Even rows, interleaved; the columns of parity `odd`. */
  method FillInterleaved(u: seq<byte>, v: seq<byte>, w: nat, h: nat, odd: nat) returns (p: seq<byte>)
    requires Even(w, h) && |u| == |v| == w * h && odd <= 1
    ensures |p| == w * (h / 2) && IsInterleaved(p, u, v, w, odd)
  {
    var a := new byte[w * (h / 2)](_ => 0);
    LastStart(w, h / 2);
    hide Interleaved, Row, Column, Start;
    NextStart(0, w);
    for row := 0 to h / 2
      invariant forall k: nat | k < Start(row, w) && k < a.Length :: a[k] == Interleaved(u, v, w, odd, Row(k, w), Column(k, w))
    {
      NextStart(row, w);
      for pair := 0 to w / 2
        invariant forall k: nat | k < Start(row, w) + 2 * pair && k < a.Length ::
                    a[k] == Interleaved(u, v, w, odd, Row(k, w), Column(k, w))
      {
        StorePair(a, u, v, w, h, odd, row, pair);
      }
    }
    p := a[..];
  }

  /** One sample of each plane, side by side. */
  method StorePair(a: array<byte>, u: seq<byte>, v: seq<byte>, w: nat, h: nat, odd: nat, row: nat, pair: nat)
    requires Even(w, h) && |u| == |v| == w * h && odd <= 1 && a.Length == w * (h / 2)
    requires row < h / 2 && pair < w / 2
    modifies a
    ensures var dst := Start(row, w) + 2 * pair;
            && dst + 1 < a.Length
            && a[dst] == Interleaved(u, v, w, odd, Row(dst, w), Column(dst, w))
            && a[dst + 1] == Interleaved(u, v, w, odd, Row(dst + 1, w), Column(dst + 1, w))
            && forall k: nat | k < a.Length && k != dst && k != dst + 1 :: a[k] == old(a[k])
  {
    var dst, sy, sx := Start(row, w) + 2 * pair, 2 * row, 2 * pair + odd;
    PairOf(u, v, w, h, odd, row, pair);
    hide *;
    a[dst] := u[Start(sy, w) + sx];
    a[dst + 1] := v[Start(sy, w) + sx];
  }

  /** Where a pair goes, and where it comes from. */
  lemma {:induction false} PairOf(u: seq<byte>, v: seq<byte>, w: nat, h: nat, odd: nat, row: nat, pair: nat)
    requires Even(w, h) && |u| == |v| == w * h && odd <= 1 && row < h / 2 && pair < w / 2
    ensures var dst, src := Start(row, w) + 2 * pair, Start(2 * row, w) + (2 * pair + odd);
            && dst + 1 < w * (h / 2) && src < |u|
            && u[src] == Interleaved(u, v, w, odd, Row(dst, w), Column(dst, w))
            && v[src] == Interleaved(u, v, w, odd, Row(dst + 1, w), Column(dst + 1, w))
  {
    hide Row, Column, Get, Start;
    PlaceOf(w, h / 2, row, 2 * pair);
    PlaceOf(w, h / 2, row, 2 * pair + 1);
    ReadAt(u, w, h, 2 * row, 2 * pair + odd);
    ReadAt(v, w, h, 2 * row, 2 * pair + odd);
  }

  /** Odd rows, U above V, both halves from one loop. */
  method FillStacked(u: seq<byte>, v: seq<byte>, w: nat, h: nat) returns (p: seq<byte>)
    requires Even(w, h) && |u| == |v| == w * h
    ensures |p| == w * h && IsStacked(p, u, v, w, h / 2)
  {
    var a := new byte[w * h](_ => 0);
    var half := h / 2;
    LastStart(w, h);
    NextStart(0, w);
    hide Stacked, Row, Column, Start;
    for y := 0 to half
      invariant Start(half, w) <= Start(half + y, w)
      invariant forall k: nat | k < a.Length && k < Start(y, w) :: a[k] == Stacked(u, v, w, half, Row(k, w), Column(k, w))
      invariant forall k: nat | k < a.Length && Start(half, w) <= k < Start(half + y, w) ::
                  a[k] == Stacked(u, v, w, half, Row(k, w), Column(k, w))
    {
      StartsAscend(y, half, w);
      NextStart(y, w);
      NextStart(half + y, w);
      CopyRow(a, y, u, v, w, h);
      CopyRow(a, half + y, u, v, w, h);
    }
    p := a[..];
  }

  lemma {:induction false} StartsAscend(y: nat, half: nat, w: nat)
    requires y < half
    ensures Start(y, w) + w <= Start(half, w)
  {
    NextStart(y, w);
  }

  /** One row of the stack. */
  method CopyRow(a: array<byte>, at: nat, u: seq<byte>, v: seq<byte>, w: nat, h: nat)
    requires Even(w, h) && |u| == |v| == w * h == a.Length && at < h
    modifies a
    ensures forall k: nat | k < a.Length && Start(at, w) <= k < Start(at, w) + w ::
              a[k] == Stacked(u, v, w, h / 2, Row(k, w), Column(k, w))
    ensures forall k: nat | k < a.Length && !(Start(at, w) <= k < Start(at, w) + w) :: a[k] == old(a[k])
  {
    var half := h / 2;
    var src, line := if at < half then u else v, if at < half then 2 * at + 1 else 2 * (at - half) + 1;
    var from := Start(at, w);
    for x := 0 to w
      invariant forall k: nat | k < a.Length && from <= k < from + x :: a[k] == Stacked(u, v, w, half, Row(k, w), Column(k, w))
      invariant forall k: nat | k < a.Length && !(from <= k < from + x) :: a[k] == old(a[k])
    {
      PlaceOf(w, h, at, x);
      ReadAt(src, w, h, line, x);
      hide Row, Column, Get, Start;
      a[from + x] := src[Start(line, w) + x];
    }
  }

  method SplitYuv444(src: Yuv444) returns (main: Nv12, aux: Nv12)
    requires src.Valid() && Even(src.width, src.height)
    ensures IsSplit(src, main, aux)
  {
    var w, h := src.width, src.height;
    hide IsInterleaved, IsStacked;
    var uv := FillInterleaved(src.u, src.v, w, h, 0);
    var y := FillStacked(src.u, src.v, w, h);
    var auxUv := FillInterleaved(src.u, src.v, w, h, 1);
    main, aux := Nv12(w, h, src.y, uv), Nv12(w, h, y, auxUv);
  }

  /** The main frame of the split alone. */
  method Yuv444ToNv12(src: Yuv444) returns (n: Nv12)
    requires src.Valid() && Even(src.width, src.height)
    ensures exists aux :: IsSplit(src, n, aux)
  {
    var aux;
    n, aux := SplitYuv444(src);
  }

  // ---- Back to full resolution ----

  /** Store one sample. */
  method SetSample(a: array<byte>, w: nat, rows: nat, r: nat, c: nat, x: byte)
    requires a.Length == w * rows && r < rows && c < w
    modifies a
    ensures forall k: nat | k < a.Length :: a[k] == if Row(k, w) == r && Column(k, w) == c then x else old(a[k])
  {
    PlaceOf(w, rows, r, c);
    a[Start(r, w) + c] := x;
    forall k: nat | k < a.Length && Row(k, w) == r && Column(k, w) == c
      ensures k == Start(r, w) + c
    {
      RowAndColumn(k, w, rows);
    }
  }

  /** In a block of two rows and two columns before this one. */
  predicate Done(r: nat, c: nat, row: nat, pair: nat) {
    r / 2 < row || (r / 2 == row && c / 2 < pair)
  }

  ghost predicate JoinedSoFar(
    p: seq<byte>, main: seq<byte>, auxUv: seq<byte>, auxY: seq<byte>, w: nat, half: nat, second: nat, row: nat, pair: nat)
  {
    forall k: nat | k < |p| && Row(k, w) % 2 == 0 && Done(Row(k, w), Column(k, w), row, pair) ::
      p[k] == Joined(main, auxUv, auxY, w, half, second, Row(k, w), Column(k, w))
  }

  /** Two samples of one plane, from the two frames. */
  method JoinPair(a: array<byte>, main: seq<byte>, auxUv: seq<byte>, ghost auxY: seq<byte>, w: nat, h: nat, second: nat, row: nat, pair: nat)
    requires Even(w, h) && a.Length == w * h && |main| == |auxUv| == w * (h / 2) && second <= 1
    requires row < h / 2 && pair < w / 2
    requires JoinedSoFar(a[..], main, auxUv, auxY, w, h / 2, second, row, pair)
    modifies a
    ensures JoinedSoFar(a[..], main, auxUv, auxY, w, h / 2, second, row, pair + 1)
  {
    ReadAt(main, w, h / 2, row, 2 * pair + second);
    ReadAt(auxUv, w, h / 2, row, 2 * pair + second);
    var m := Start(row, w) + (2 * pair + second);
    hide Row, Column, Get, Start;
    SetSample(a, w, h, 2 * row, 2 * pair, main[m]);
    SetSample(a, w, h, 2 * row, 2 * pair + 1, auxUv[m]);
  }

  /** Even rows: the even columns from the main frame, the odd from the other. */
  method JoinEvenRows(u: array<byte>, v: array<byte>, main: seq<byte>, auxUv: seq<byte>, ghost auxY: seq<byte>, w: nat, h: nat)
    requires Even(w, h) && u != v && u.Length == v.Length == w * h && |main| == |auxUv| == w * (h / 2)
    modifies u, v
    ensures JoinedSoFar(u[..], main, auxUv, auxY, w, h / 2, 0, h / 2, 0)
    ensures JoinedSoFar(v[..], main, auxUv, auxY, w, h / 2, 1, h / 2, 0)
  {
    for row := 0 to h / 2
      invariant JoinedSoFar(u[..], main, auxUv, auxY, w, h / 2, 0, row, 0)
      invariant JoinedSoFar(v[..], main, auxUv, auxY, w, h / 2, 1, row, 0)
    {
      hide JoinedSoFar;
      for pair := 0 to w / 2
        invariant JoinedSoFar(u[..], main, auxUv, auxY, w, h / 2, 0, row, pair)
        invariant JoinedSoFar(v[..], main, auxUv, auxY, w, h / 2, 1, row, pair)
      {
        JoinPair(u, main, auxUv, auxY, w, h, 0, row, pair);
        JoinPair(v, main, auxUv, auxY, w, h, 1, row, pair);
      }
    }
  }

  /** Even rows, odd rows before row `2 y + 1`, and `x` samples of that. */
  ghost predicate OddRowsSoFar(
    p: seq<byte>, main: seq<byte>, auxUv: seq<byte>, auxY: seq<byte>, w: nat, half: nat, second: nat, y: nat, x: nat)
  {
    forall k: nat | k < |p| && (Row(k, w) % 2 == 0 || Row(k, w) / 2 < y || (Row(k, w) / 2 == y && Column(k, w) < x)) ::
      p[k] == Joined(main, auxUv, auxY, w, half, second, Row(k, w), Column(k, w))
  }

  lemma {:induction false} EvenRowsAreJoined(
    p: seq<byte>, main: seq<byte>, auxUv: seq<byte>, auxY: seq<byte>, w: nat, h: nat, second: nat)
    requires |p| == w * h && h % 2 == 0 && JoinedSoFar(p, main, auxUv, auxY, w, h / 2, second, h / 2, 0)
    ensures OddRowsSoFar(p, main, auxUv, auxY, w, h / 2, second, 0, 0)
  {
    forall k: nat | k < |p|
      ensures Done(Row(k, w), Column(k, w), h / 2, 0)
    {
      RowAndColumn(k, w, h);
    }
    hide Joined, Row, Column;
  }

  lemma {:induction false} AllRowsJoined(
    p: seq<byte>, main: seq<byte>, auxUv: seq<byte>, auxY: seq<byte>, w: nat, h: nat, second: nat)
    requires |p| == w * h && h % 2 == 0 && OddRowsSoFar(p, main, auxUv, auxY, w, h / 2, second, h / 2, 0)
    ensures IsJoined(p, main, auxUv, auxY, w, h / 2, second)
  {
    forall k: nat | k < |p|
      ensures Row(k, w) / 2 < h / 2
    {
      RowAndColumn(k, w, h);
    }
    hide Joined, Row, Column;
  }

  /** One odd row of one plane, full width. */
  method CopyOddRow(a: array<byte>, ghost main: seq<byte>, ghost auxUv: seq<byte>, auxY: seq<byte>, w: nat, h: nat, second: nat, y: nat)
    requires Even(w, h) && a.Length == w * h == |auxY| && second <= 1 && y < h / 2
    requires OddRowsSoFar(a[..], main, auxUv, auxY, w, h / 2, second, y, 0)
    modifies a
    ensures OddRowsSoFar(a[..], main, auxUv, auxY, w, h / 2, second, y + 1, 0)
  {
    for x := 0 to w
      invariant OddRowsSoFar(a[..], main, auxUv, auxY, w, h / 2, second, y, x)
    {
      ReadAt(auxY, w, h, second * (h / 2) + y, x);
      hide Row, Column, Get, Start;
      SetSample(a, w, h, 2 * y + 1, x, auxY[Start(second * (h / 2) + y, w) + x]);
    }
  }

  method RecombineYuv444(main: Nv12, aux: Nv12) returns (out: Yuv444)
    requires main.Valid() && aux.Valid() && main.width == aux.width && main.height == aux.height
    requires Even(main.width, main.height)
    ensures IsJoin(main, aux, out)
  {
    var w, h := main.width, main.height;
    var u, v := new byte[w * h](_ => 0), new byte[w * h](_ => 0);
    JoinEvenRows(u, v, main.uv, aux.uv, aux.y, w, h);
    hide JoinedSoFar, OddRowsSoFar, IsJoined;
    EvenRowsAreJoined(u[..], main.uv, aux.uv, aux.y, w, h, 0);
    EvenRowsAreJoined(v[..], main.uv, aux.uv, aux.y, w, h, 1);
    for y := 0 to h / 2
      invariant OddRowsSoFar(u[..], main.uv, aux.uv, aux.y, w, h / 2, 0, y, 0)
      invariant OddRowsSoFar(v[..], main.uv, aux.uv, aux.y, w, h / 2, 1, y, 0)
    {
      CopyOddRow(u, main.uv, aux.uv, aux.y, w, h, 0, y);
      CopyOddRow(v, main.uv, aux.uv, aux.y, w, h, 1, y);
    }
    AllRowsJoined(u[..], main.uv, aux.uv, aux.y, w, h, 0);
    AllRowsJoined(v[..], main.uv, aux.uv, aux.y, w, h, 1);
    out := Yuv444(w, h, main.y, u[..], v[..]);
  }

  // ---- Upsampling ----

  /** The blocks before this one are filled, everything else is zero. */
  ghost predicate UpsampledSoFar(p: seq<byte>, uv: seq<byte>, w: nat, second: nat, row: nat, pair: nat) {
    forall k: nat | k < |p| ::
      p[k] == if Column(k, w) / 2 < w / 2 && Done(Row(k, w), Column(k, w), row, pair)
              then Get(uv, w, Row(k, w) / 2, Column(k, w) / 2 * 2 + second) else 0
  }

  /** One coded sample over its block. */
  method FillBlock(a: array<byte>, uv: seq<byte>, w: nat, h: nat, second: nat, row: nat, pair: nat)
    requires a.Length == w * h && |uv| >= w * (h / 2) && second <= 1 && row < h / 2 && pair < w / 2
    requires UpsampledSoFar(a[..], uv, w, second, row, pair)
    modifies a
    ensures UpsampledSoFar(a[..], uv, w, second, row, pair + 1)
  {
    ReadAt(uv, w, h / 2, row, 2 * pair + second);
    var x := uv[Start(row, w) + (2 * pair + second)];
    hide Row, Column, Get, Start;
    SetSample(a, w, h, 2 * row, 2 * pair, x);
    SetSample(a, w, h, 2 * row, 2 * pair + 1, x);
    SetSample(a, w, h, 2 * row + 1, 2 * pair, x);
    SetSample(a, w, h, 2 * row + 1, 2 * pair + 1, x);
  }

  /** Any size: what an odd one leaves over stays zero. */
  method Nv12ToYuv444(n: Nv12) returns (out: Yuv444)
    requires |n.y| == n.width * n.height && |n.uv| >= n.width * (n.height / 2)
    ensures IsUpsample(n, out)
  {
    var w, h := n.width, n.height;
    var u, v := new byte[w * h](_ => 0), new byte[w * h](_ => 0);
    for row := 0 to h / 2
      invariant UpsampledSoFar(u[..], n.uv, w, 0, row, 0) && UpsampledSoFar(v[..], n.uv, w, 1, row, 0)
    {
      hide UpsampledSoFar;
      for pair := 0 to w / 2
        invariant UpsampledSoFar(u[..], n.uv, w, 0, row, pair) && UpsampledSoFar(v[..], n.uv, w, 1, row, pair)
      {
        FillBlock(u, n.uv, w, h, 0, row, pair);
        FillBlock(v, n.uv, w, h, 1, row, pair);
      }
    }
    hide UpsampledSoFar, IsUpsampled;
    out := Yuv444(w, h, n.y, u[..], v[..]);
  }

  // ---- The planar split ----

  /** The even columns of one row to one plane, the odd to another. */
  method Deinterleave(even: array<byte>, odd: array<byte>, src: seq<byte>, w: nat, h: nat, row: nat)
    requires Even(w, h) && |src| == w * h && row < h / 2 && even != odd
    requires even.Length == odd.Length == w / 2 * (h / 2)
    requires QuartersSoFar(even[..], src, w, 0, row, 0) && QuartersSoFar(odd[..], src, w, 1, row, 0)
    modifies even, odd
    ensures QuartersSoFar(even[..], src, w, 0, row + 1, 0) && QuartersSoFar(odd[..], src, w, 1, row + 1, 0)
  {
    for x := 0 to w / 2
      invariant QuartersSoFar(even[..], src, w, 0, row, x) && QuartersSoFar(odd[..], src, w, 1, row, x)
    {
      ReadAt(src, w, h, 2 * row, 2 * x);
      ReadAt(src, w, h, 2 * row, 2 * x + 1);
      hide Row, Column, Get, Start;
      SetSample(even, w / 2, h / 2, row, x, src[Start(2 * row, w) + 2 * x]);
      SetSample(odd, w / 2, h / 2, row, x, src[Start(2 * row, w) + (2 * x + 1)]);
    }
  }

  ghost predicate QuartersSoFar(p: seq<byte>, src: seq<byte>, w: nat, odd: nat, row: nat, x: nat) {
    forall k: nat | k < |p| && (Row(k, w / 2) < row || (Row(k, w / 2) == row && Column(k, w / 2) < x)) ::
      p[k] == Get(src, w, 2 * Row(k, w / 2), 2 * Column(k, w / 2) + odd)
  }

  lemma {:induction false} AllQuarters(p: seq<byte>, src: seq<byte>, w: nat, h: nat, odd: nat)
    requires |p| == w / 2 * (h / 2) && QuartersSoFar(p, src, w, odd, h / 2, 0)
    ensures IsQuarter(p, src, w, odd)
  {
    forall k: nat | k < |p|
      ensures Row(k, w / 2) < h / 2
    {
      RowAndColumn(k, w / 2, h / 2);
    }
    hide Get, Row, Column;
  }

  method Quarters(src: seq<byte>, w: nat, h: nat) returns (even: seq<byte>, odd: seq<byte>)
    requires Even(w, h) && |src| == w * h
    ensures |even| == |odd| == w / 2 * (h / 2) && IsQuarter(even, src, w, 0) && IsQuarter(odd, src, w, 1)
  {
    var e, o := new byte[w / 2 * (h / 2)](_ => 0), new byte[w / 2 * (h / 2)](_ => 0);
    for row := 0 to h / 2
      invariant QuartersSoFar(e[..], src, w, 0, row, 0) && QuartersSoFar(o[..], src, w, 1, row, 0)
    {
      Deinterleave(e, o, src, w, h, row);
    }
    AllQuarters(e[..], src, w, h, 0);
    AllQuarters(o[..], src, w, h, 1);
    even, odd := e[..], o[..];
  }

  /** The split the CPU encoder makes. */
  method SplitYuv444Planar(src: Yuv444) returns (main: I420, aux: I420)
    requires src.Valid() && Even(src.width, src.height)
    ensures IsPlanarSplit(src, main, aux)
  {
    var w, h := src.width, src.height;
    hide IsQuarter, IsStacked;
    var mainU, auxU := Quarters(src.u, w, h);
    var mainV, auxV := Quarters(src.v, w, h);
    var y := FillStacked(src.u, src.v, w, h);
    main, aux := I420(w, h, src.y, mainU, mainV), I420(w, h, y, auxU, auxV);
  }
}
