/** The scalar row kernels: one row between BGRA and its planes. A chroma row
    takes either every pixel or every second one, and the way back reads it with
    the same step; the bytes are those of the fixed-point conversion of each
    pixel. */
module Rows {
  import opened Common
  import opened Colour

  function LumaAt(bgra: seq<byte>, i: nat): byte
    requires 4 * i + 4 <= |bgra|
  {
    Luma(bgra[4 * i], bgra[4 * i + 1], bgra[4 * i + 2])
  }

  function CbAt(bgra: seq<byte>, i: nat): byte
    requires 4 * i + 4 <= |bgra|
  {
    Cb(bgra[4 * i], bgra[4 * i + 1], bgra[4 * i + 2])
  }

  function CrAt(bgra: seq<byte>, i: nat): byte
    requires 4 * i + 4 <= |bgra|
  {
    Cr(bgra[4 * i], bgra[4 * i + 1], bgra[4 * i + 2])
  }

  /** Sample `i` comes from this pixel. */
  function PixelOf(i: nat, step: nat): nat { if step == 2 then 2 * i else i }

  /** Pixel `i` takes this chroma sample. */
  function SampleOf(i: nat, upsample: bool): nat { if upsample then i / 2 else i }

  /** Byte `j` of the BGRA row. */
  function BgraAt(y: seq<byte>, u: seq<byte>, v: seq<byte>, upsample: bool, j: nat): byte
    requires j / 4 < |y| && SampleOf(j / 4, upsample) < |u| && SampleOf(j / 4, upsample) < |v|
  {
    var i, c := j / 4, SampleOf(j / 4, upsample);
    if j % 4 == 0 then Blue(y[i], u[c])
    else if j % 4 == 1 then Green(y[i], u[c], v[c])
    else if j % 4 == 2 then Red(y[i], v[c])
    else 255
  }

  /** Enough chroma for a row of `n` pixels. */
  predicate Covers(n: nat, samples: nat, upsample: bool) {
    if upsample then n % 2 == 0 && 2 * samples >= n else samples >= n
  }

  /** Luma from pixel `from` on. */
  method RowY(bgra: seq<byte>, y: array<byte>, from: nat)
    requires from <= y.Length && 4 * y.Length <= |bgra|
    modifies y
    ensures forall i | from <= i < y.Length :: y[i] == LumaAt(bgra, i)
    ensures forall i | 0 <= i < from :: y[i] == old(y[i])
  {
    for i := from to y.Length
      invariant forall j | from <= j < i :: y[j] == LumaAt(bgra, j)
      invariant forall j | 0 <= j < from :: y[j] == old(y[j])
    {
      var b, g, r := bgra[4 * i], bgra[4 * i + 1], bgra[4 * i + 2];
      hide Clamp, Shift;
      y[i] := Clamp(Shift(KYR * r + KYG * g + KYB * b + Y_BIAS));
    }
  }

  /** Chroma from sample `from` on, one per `step` pixels. */
  method RowUv(bgra: seq<byte>, u: array<byte>, v: array<byte>, step: nat, from: nat)
    requires step == 1 || step == 2
    requires u != v && u.Length == v.Length && from <= u.Length && 4 * PixelOf(u.Length, step) <= |bgra|
    modifies u, v
    ensures forall i | from <= i < u.Length :: u[i] == CbAt(bgra, PixelOf(i, step)) && v[i] == CrAt(bgra, PixelOf(i, step))
    ensures forall i | 0 <= i < from :: u[i] == old(u[i]) && v[i] == old(v[i])
  {
    for i := from to u.Length
      invariant forall j | from <= j < i :: u[j] == CbAt(bgra, PixelOf(j, step)) && v[j] == CrAt(bgra, PixelOf(j, step))
      invariant forall j | 0 <= j < from :: u[j] == old(u[j]) && v[j] == old(v[j])
    {
      var p := PixelOf(i, step) * 4;
      var b, g, r := bgra[p], bgra[p + 1], bgra[p + 2];
      hide Clamp, Shift;
      var cb := Clamp(Shift(KUR * r + KUG * g + KUB * b + C_BIAS));
      var cr := Clamp(Shift(KVR * r + KVG * g + KVB * b + C_BIAS));
      assert cb == CbAt(bgra, PixelOf(i, step)) && cr == CrAt(bgra, PixelOf(i, step));
      hide *;
      u[i] := cb;
      v[i] := cr;
    }
  }

  /** BGRA from pixel `from` on. */
  method RowBgra(y: seq<byte>, u: seq<byte>, v: seq<byte>, out: array<byte>, upsample: bool, from: nat)
    requires Covers(|y|, |u|, upsample) && Covers(|y|, |v|, upsample) && from <= |y| && out.Length >= 4 * |y|
    modifies out
    ensures forall j | 4 * from <= j < 4 * |y| :: out[j] == BgraAt(y, u, v, upsample, j)
    ensures forall j | 0 <= j < 4 * from || 4 * |y| <= j < out.Length :: out[j] == old(out[j])
  {
    for i := from to |y|
      invariant forall j | 4 * from <= j < 4 * i :: out[j] == BgraAt(y, u, v, upsample, j)
      invariant forall j | 0 <= j < 4 * from || 4 * |y| <= j < out.Length :: out[j] == old(out[j])
    {
      var c := SampleOf(i, upsample);
      var yy, cb, cr := y[i] as int - 16, u[c] as int - 128, v[c] as int - 128;
      var r := Shift(KY * yy + KRV * cr + HALF);
      var g := Shift(KY * yy + KGU * cb + KGV * cr + HALF);
      var b := Shift(KY * yy + KBU * cb + HALF);
      assert Clamp(b) == Blue(y[i], u[c]) && Clamp(g) == Green(y[i], u[c], v[c]) && Clamp(r) == Red(y[i], v[c]);
      BytesOfPixel(y, u, v, upsample, i);
      hide *;
      StorePixel(out, i, Clamp(b), Clamp(g), Clamp(r));
    }
  }

  method StorePixel(out: array<byte>, i: nat, b: byte, g: byte, r: byte)
    requires 4 * i + 4 <= out.Length
    modifies out
    ensures out[4 * i] == b && out[4 * i + 1] == g && out[4 * i + 2] == r && out[4 * i + 3] == 255
    ensures forall j | 0 <= j < out.Length && !(4 * i <= j < 4 * i + 4) :: out[j] == old(out[j])
  {
    out[4 * i], out[4 * i + 1], out[4 * i + 2], out[4 * i + 3] := b, g, r, 255;
  }

  lemma {:induction false} BytesOfPixel(y: seq<byte>, u: seq<byte>, v: seq<byte>, upsample: bool, i: nat)
    requires i < |y| && SampleOf(i, upsample) < |u| && SampleOf(i, upsample) < |v|
    ensures var c := SampleOf(i, upsample);
            && BgraAt(y, u, v, upsample, 4 * i) == Blue(y[i], u[c])
            && BgraAt(y, u, v, upsample, 4 * i + 1) == Green(y[i], u[c], v[c])
            && BgraAt(y, u, v, upsample, 4 * i + 2) == Red(y[i], v[c])
            && BgraAt(y, u, v, upsample, 4 * i + 3) == 255
  {
    hide Blue, Green, Red;
  }
}
