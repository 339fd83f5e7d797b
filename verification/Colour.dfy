/** BT.709 limited-range colour in 13-bit fixed point, next to the matrices it
    approximates. The forward conversion takes red, green and blue to luma and
    two chroma samples, the inverse takes them back; both round once, at the end
    of a sum of three products. */
module Colour {
  import opened Common

  const ONE: int := 8192
  const HALF: int := 4096

  const KYR: int := 1496
  const KYG: int := 5032
  const KYB: int := 508
  const KUR: int := -824
  const KUG: int := -2774
  const KUB: int := 3598
  const KVR: int := 3598
  const KVG: int := -3268
  const KVB: int := -330
  const KY: int := 9539
  const KRV: int := 14686
  const KGU: int := -1747
  const KGV: int := -4366
  const KBU: int := 17305

  const Y_BIAS: int := 16 * ONE + HALF
  const C_BIAS: int := 128 * ONE + HALF

  function Clamp(v: int): byte {
    if v < 0 then 0 else if v > 255 then 255 else v
  }

  /** An arithmetic shift right: rounding down. */
  function Shift(v: int): int { v / ONE }

  // ---- The kernels' formulas ----

  function LumaSum(b: byte, g: byte, r: byte): int { Shift(KYR * r + KYG * g + KYB * b + Y_BIAS) }

  function CbSum(b: byte, g: byte, r: byte): int { Shift(KUR * r + KUG * g + KUB * b + C_BIAS) }

  function CrSum(b: byte, g: byte, r: byte): int { Shift(KVR * r + KVG * g + KVB * b + C_BIAS) }

  function RedSum(y: byte, cr: byte): int { Shift(KY * (y - 16) + KRV * (cr - 128) + HALF) }

  function GreenSum(y: byte, cb: byte, cr: byte): int {
    Shift(KY * (y - 16) + KGU * (cb - 128) + KGV * (cr - 128) + HALF)
  }

  function BlueSum(y: byte, cb: byte): int { Shift(KY * (y - 16) + KBU * (cb - 128) + HALF) }

  function Luma(b: byte, g: byte, r: byte): byte { Clamp(LumaSum(b, g, r)) }

  function Cb(b: byte, g: byte, r: byte): byte { Clamp(CbSum(b, g, r)) }

  function Cr(b: byte, g: byte, r: byte): byte { Clamp(CrSum(b, g, r)) }

  function Red(y: byte, cr: byte): byte { Clamp(RedSum(y, cr)) }

  function Green(y: byte, cb: byte, cr: byte): byte { Clamp(GreenSum(y, cb, cr)) }

  function Blue(y: byte, cb: byte): byte { Clamp(BlueSum(y, cb)) }

  // ---- The reference ----

  /** To the nearest integer, away from zero half way, then to a byte. */
  function Rounded(x: real): byte {
    Clamp(if x >= 0.0 then (x + 0.5).Floor else -((0.5 - x).Floor))
  }

  function LumaReal(b: byte, g: byte, r: byte): real {
    16.0 + 0.1826 * r as real + 0.6142 * g as real + 0.0620 * b as real
  }

  function CbReal(b: byte, g: byte, r: byte): real {
    128.0 - 0.1006 * r as real - 0.3386 * g as real + 0.4392 * b as real
  }

  function CrReal(b: byte, g: byte, r: byte): real {
    128.0 + 0.4392 * r as real - 0.3989 * g as real - 0.0403 * b as real
  }

  function RedReal(y: byte, cr: byte): real { 1.1644 * (y - 16) as real + 1.7927 * (cr - 128) as real }

  function GreenReal(y: byte, cb: byte, cr: byte): real {
    1.1644 * (y - 16) as real - 0.2132 * (cb - 128) as real - 0.5329 * (cr - 128) as real
  }

  function BlueReal(y: byte, cb: byte): real { 1.1644 * (y - 16) as real + 2.1124 * (cb - 128) as real }

  predicate Within(a: byte, b: byte, distance: nat) {
    a - b <= distance && b - a <= distance
  }

  /** A fixed-point sum less than half a code value off the reference rounds to
      within one code value of it. */
  lemma {:induction false} CloseSumsRoundClose(sum: int, x: real)
    requires -1.0 < 2.0 * (sum as real / 8192.0 - (x + 0.5)) < 1.0
    ensures Within(Clamp(Shift(sum)), Rounded(x), 1)
  {
  }

  /** The kernels from BGRA stay within one code value of the reference. */
  lemma {:induction false} ForwardIsWithinOne(b: byte, g: byte, r: byte)
    ensures Within(Luma(b, g, r), Rounded(LumaReal(b, g, r)), 1)
    ensures Within(Cb(b, g, r), Rounded(CbReal(b, g, r)), 1)
    ensures Within(Cr(b, g, r), Rounded(CrReal(b, g, r)), 1)
  {
    hide Within, Rounded, Shift, Clamp;
    CloseSumsRoundClose(KYR * r + KYG * g + KYB * b + Y_BIAS, LumaReal(b, g, r));
    CloseSumsRoundClose(KUR * r + KUG * g + KUB * b + C_BIAS, CbReal(b, g, r));
    CloseSumsRoundClose(KVR * r + KVG * g + KVB * b + C_BIAS, CrReal(b, g, r));
  }

  /** And so do those to BGRA. */
  lemma {:induction false} InverseIsWithinOne(y: byte, cb: byte, cr: byte)
    ensures Within(Red(y, cr), Rounded(RedReal(y, cr)), 1)
    ensures Within(Green(y, cb, cr), Rounded(GreenReal(y, cb, cr)), 1)
    ensures Within(Blue(y, cb), Rounded(BlueReal(y, cb)), 1)
  {
    hide Within, Rounded, Shift, Clamp;
    CloseSumsRoundClose(KY * (y - 16) + KRV * (cr - 128) + HALF, RedReal(y, cr));
    CloseSumsRoundClose(KY * (y - 16) + KGU * (cb - 128) + KGV * (cr - 128) + HALF, GreenReal(y, cb, cr));
    CloseSumsRoundClose(KY * (y - 16) + KBU * (cb - 128) + HALF, BlueReal(y, cb));
  }

  /** Every colour stays in the limited range, both ends of it reached, so the
      forward clamp changes nothing; greys have no chroma. */
  lemma {:induction false} ForwardStaysInRange(b: byte, g: byte, r: byte)
    ensures 16 <= LumaSum(b, g, r) <= 235 && Luma(b, g, r) == LumaSum(b, g, r)
    ensures 16 <= CbSum(b, g, r) <= 240 && Cb(b, g, r) == CbSum(b, g, r)
    ensures 16 <= CrSum(b, g, r) <= 240 && Cr(b, g, r) == CrSum(b, g, r)
    ensures Luma(0, 0, 0) == 16 && Luma(255, 255, 255) == 235
    ensures b == g == r ==> Cb(b, g, r) == 128 && Cr(b, g, r) == 128
  {
  }

  lemma {:induction false} RedRoundTrip(b: byte, g: byte, r: byte)
    ensures Within(Red(Luma(b, g, r), Cr(b, g, r)), r, 2)
  {
  }

  lemma {:induction false} GreenRoundTrip(b: byte, g: byte, r: byte)
    ensures Within(Green(Luma(b, g, r), Cb(b, g, r), Cr(b, g, r)), g, 2)
  {
  }

  lemma {:induction false} BlueRoundTrip(b: byte, g: byte, r: byte)
    ensures Within(Blue(Luma(b, g, r), Cb(b, g, r)), b, 2)
  {
  }

  /** A colour comes back from 4:4:4 within two code values a channel. */
  lemma {:induction false} RoundTripIsWithinTwo(b: byte, g: byte, r: byte)
    ensures var y, cb, cr := Luma(b, g, r), Cb(b, g, r), Cr(b, g, r);
            Within(Red(y, cr), r, 2) && Within(Green(y, cb, cr), g, 2) && Within(Blue(y, cb), b, 2)
  {
    hide *;
    RedRoundTrip(b, g, r);
    GreenRoundTrip(b, g, r);
    BlueRoundTrip(b, g, r);
  }
}
