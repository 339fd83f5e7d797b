/** The AVX2 row kernels, with registers as sequences of lanes, lane 0 first.
    Lanes wrap or saturate where the instructions do. */
module Avx2 {
  import opened Common
  import opened Colour
  import opened Rows
  import Arithmetic

  /** Eight-, sixteen- or thirty-two-bit lanes, by length and use. */
  type Lanes = seq<int>

  function Wrap16(v: int): int { (v + 0x8000) % 0x1_0000 - 0x8000 }

  function Wrap32(v: int): int { (v + 0x8000_0000) % 0x1_0000_0000 - 0x8000_0000 }

  /** An unsigned 16-bit lane read as a signed one. */
  function Signed16(v: int): int { if v >= 0x8000 then v - 0x1_0000 else v }

  function Saturate(v: int, max: int): int { if v < 0 then 0 else if v > max then max else v }

  /** `vpmaddwd`: products of pairs, added. */
  function Madd(a: Lanes, k: Lanes): (r: Lanes)
    requires |a| == |k| == 16
    ensures |r| == 8
  {
    seq(8, i requires 0 <= i < 8 => Wrap32(a[2 * i] * k[2 * i] + a[2 * i + 1] * k[2 * i + 1]))
  }

  /** `vphaddd`: sums of neighbours, per 128-bit lane from `a` and then `b`. */
  function Hadd(a: Lanes, b: Lanes): (r: Lanes)
    requires |a| == |b| == 8
    ensures |r| == 8
  {
    [Wrap32(a[0] + a[1]), Wrap32(a[2] + a[3]), Wrap32(b[0] + b[1]), Wrap32(b[2] + b[3]),
     Wrap32(a[4] + a[5]), Wrap32(a[6] + a[7]), Wrap32(b[4] + b[5]), Wrap32(b[6] + b[7])]
  }

  /** Lanes in this order: `vpermd` on 32-bit lanes. */
  function Permute(x: Lanes, order: seq<nat>): (r: Lanes)
    requires forall i | 0 <= i < |order| :: order[i] < |x|
    ensures |r| == |order|
  {
    seq(|order|, i requires 0 <= i < |order| => x[order[i]])
  }

  /** Groups of four lanes in this order: `vpermq` on 16-bit lanes, `vpermd` on
      bytes. */
  function PermuteFours(x: Lanes, order: seq<nat>): (r: Lanes)
    requires forall i | 0 <= i < |order| :: 4 * order[i] + 4 <= |x|
    ensures |r| == 4 * |order|
  {
    seq(4 * |order|, i requires 0 <= i < 4 * |order| => x[4 * order[i / 4] + i % 4])
  }

  function Add32(a: Lanes, bias: int): (r: Lanes)
    ensures |r| == |a|
  {
    seq(|a|, i requires 0 <= i < |a| => Wrap32(a[i] + bias))
  }

  /** `vpsrad` by the fraction bits. */
  function Srai(a: Lanes): (r: Lanes)
    ensures |r| == |a|
  {
    seq(|a|, i requires 0 <= i < |a| => Shift(a[i]))
  }

  /** `vpackusdw`: to unsigned 16 bits, per 128-bit lane. */
  function Packus32(a: Lanes, b: Lanes): (r: Lanes)
    requires |a| == |b| == 8
    ensures |r| == 16
  {
    var s := (x: Lanes) requires |x| == 4 => seq(4, i requires 0 <= i < 4 => Saturate(x[i], 0xFFFF));
    s(a[..4]) + s(b[..4]) + s(a[4..]) + s(b[4..])
  }

  /** `vpackuswb`: signed 16-bit lanes to unsigned bytes, per 128-bit lane. */
  function Packus16(a: Lanes, b: Lanes): (r: Lanes)
    requires |a| == |b| == 16
    ensures |r| == 32
  {
    var s := (x: Lanes) requires |x| == 8 => seq(8, i requires 0 <= i < 8 => Saturate(Signed16(x[i]), 0xFF));
    s(a[..8]) + s(b[..8]) + s(a[8..]) + s(b[8..])
  }

  /** Both packs of one lane. */
  function PackLane(v: int): int { Saturate(Signed16(Saturate(v, 0xFFFF)), 0xFF) }

  /** The two saturating packs are the clamp exactly below 2^15; above, the
      second takes the first's result for a negative number. */
  lemma {:induction false} PacksClampExactlyBelow(v: int)
    ensures PackLane(v) == Clamp(v) <==> v < 0x8000
  {
  }

  // ---- dot_8px ----

  function Coef(b: int, g: int, r: int): (k: Lanes)
    ensures |k| == 16
  {
    [b, g, r, 0, b, g, r, 0, b, g, r, 0, b, g, r, 0]
  }

  const HADD_ORDER: seq<nat> := [0, 1, 4, 5, 2, 3, 6, 7]

  /** One channel of eight pixels in two registers. */
  function Dot8(lo: Lanes, hi: Lanes, k: Lanes, bias: int): (r: Lanes)
    requires |lo| == |hi| == |k| == 16
    ensures |r| == 8
  {
    Srai(Add32(Sums8(lo, hi, k), bias))
  }

  /** Its eight weighted sums, before the bias. */
  function Sums8(lo: Lanes, hi: Lanes, k: Lanes): (r: Lanes)
    requires |lo| == |hi| == |k| == 16
    ensures |r| == 8
  {
    Permute(Hadd(Madd(lo, k), Madd(hi, k)), HADD_ORDER)
  }

  /** Coefficients and biases small enough for the sums not to wrap. */
  predicate Small(b: int, g: int, r: int, bias: int) {
    -0x8000 <= b < 0x8000 && -0x8000 <= g < 0x8000 && -0x8000 <= r < 0x8000 && -0x100_0000 <= bias < 0x100_0000
  }

  predicate AreBytes(s: Lanes) { forall i | 0 <= i < |s| :: 0 <= s[i] < 256 }

  lemma {:induction false} ByteProduct(x: int, k: int)
    requires 0 <= x < 256 && -0x8000 <= k < 0x8000
    ensures -0x80_0000 <= x * k < 0x80_0000
  {
    Arithmetic.MulMonotone(-0x8000, k, x);
    Arithmetic.MulMonotone(k, 0x7FFF, x);
  }

  lemma {:induction false} NoWrap(v: int)
    requires -0x8000_0000 <= v < 0x8000_0000
    ensures Wrap32(v) == v
  {
  }

  /** The two sums of pixel `i` of a register. */
  lemma {:induction false} MaddPixel(px: Lanes, b: int, g: int, r: int, i: nat)
    requires |px| == 16 && AreBytes(px) && i < 4 && Small(b, g, r, 0)
    ensures Madd(px, Coef(b, g, r))[2 * i] == px[4 * i] * b + px[4 * i + 1] * g
    ensures Madd(px, Coef(b, g, r))[2 * i + 1] == px[4 * i + 2] * r
    ensures var s := px[4 * i] * b + px[4 * i + 1] * g + px[4 * i + 2] * r; -0x200_0000 <= s < 0x200_0000
    ensures -0x100_0000 <= px[4 * i] * b + px[4 * i + 1] * g < 0x100_0000
    ensures -0x100_0000 <= px[4 * i + 2] * r < 0x100_0000
  {
    var k := Coef(b, g, r);
    ByteProduct(px[4 * i], b);
    ByteProduct(px[4 * i + 1], g);
    ByteProduct(px[4 * i + 2], r);
    assert k[4 * i] == b && k[4 * i + 1] == g && k[4 * i + 2] == r && k[4 * i + 3] == 0;
    NoWrap(px[4 * i] * b + px[4 * i + 1] * g);
    NoWrap(px[4 * i + 2] * r);
  }

  /** The weighted sum of pixel `i`. */
  function PixelSum(px: Lanes, i: nat, b: int, g: int, r: int): int
    requires 4 * i + 4 <= |px|
  {
    px[4 * i] * b + px[4 * i + 1] * g + px[4 * i + 2] * r
  }

  /** Horizontal sums leave the pixels out of order; the permute restores it. */
  lemma {:induction false} PermuteRestoresOrder(m: Lanes, n: Lanes, i: nat)
    requires |m| == |n| == 8 && i < 8
    ensures Permute(Hadd(m, n), HADD_ORDER)[i]
         == if i < 4 then Wrap32(m[2 * i] + m[2 * i + 1]) else Wrap32(n[2 * (i - 4)] + n[2 * (i - 4) + 1])
  {
    hide Wrap32;
    var h := Hadd(m, n);
    assert Permute(h, HADD_ORDER)[i] == h[HADD_ORDER[i]];
  }

  lemma {:induction false} PairsAddUp(px: Lanes, b: int, g: int, r: int, i: nat)
    requires |px| == 16 && AreBytes(px) && i < 4 && Small(b, g, r, 0)
    ensures var m := Madd(px, Coef(b, g, r)); Wrap32(m[2 * i] + m[2 * i + 1]) == PixelSum(px, i, b, g, r)
    ensures -0x200_0000 <= PixelSum(px, i, b, g, r) < 0x200_0000
  {
    MaddPixel(px, b, g, r, i);
    hide Madd, Coef, AreBytes;
  }

  /** The weighted sum of pixel `i` of eight. */
  function SumOfEight(lo: Lanes, hi: Lanes, i: nat, b: int, g: int, r: int): int
    requires |lo| == |hi| == 16 && i < 8
  {
    if i < 4 then PixelSum(lo, i, b, g, r) else PixelSum(hi, i - 4, b, g, r)
  }

  lemma {:induction false} SumsInPixelOrder(lo: Lanes, hi: Lanes, b: int, g: int, r: int, i: nat)
    requires |lo| == |hi| == 16 && AreBytes(lo) && AreBytes(hi) && i < 8 && Small(b, g, r, 0)
    ensures Sums8(lo, hi, Coef(b, g, r))[i] == SumOfEight(lo, hi, i, b, g, r)
    ensures -0x200_0000 <= SumOfEight(lo, hi, i, b, g, r) < 0x200_0000
  {
    hide Permute, Hadd, Madd, Coef, PixelSum, AreBytes, Wrap32, Small;
    var m, n := Madd(lo, Coef(b, g, r)), Madd(hi, Coef(b, g, r));
    PermuteRestoresOrder(m, n, i);
    assert Sums8(lo, hi, Coef(b, g, r))[i]
        == if i < 4 then Wrap32(m[2 * i] + m[2 * i + 1]) else Wrap32(n[2 * (i - 4)] + n[2 * (i - 4) + 1]);
    hide Sums8;
    if i < 4 {
      PairsAddUp(lo, b, g, r, i);
    } else {
      PairsAddUp(hi, b, g, r, i - 4);
    }
  }

  lemma {:induction false} AddThenShift(s: Lanes, bias: int, i: nat)
    requires i < |s| && -0x200_0000 <= s[i] < 0x200_0000 && -0x100_0000 <= bias < 0x100_0000
    ensures Srai(Add32(s, bias))[i] == Shift(s[i] + bias)
  {
    hide Shift;
    NoWrap(s[i] + bias);
  }

  /** `dot_8px` is the scalar sum of each pixel, in order. */
  lemma {:induction false} DotIsTheScalarSum(lo: Lanes, hi: Lanes, b: int, g: int, r: int, bias: int, i: nat)
    requires |lo| == |hi| == 16 && AreBytes(lo) && AreBytes(hi) && i < 8
    requires Small(b, g, r, 0) && -0x100_0000 <= bias < 0x100_0000
    ensures Dot8(lo, hi, Coef(b, g, r), bias)[i] == Shift(SumOfEight(lo, hi, i, b, g, r) + bias)
  {
    hide Sums8, Coef, SumOfEight, AreBytes, Shift, Small, Srai, Add32;
    SumsInPixelOrder(lo, hi, b, g, r, i);
    AddThenShift(Sums8(lo, hi, Coef(b, g, r)), bias, i);
  }

  // ---- pack_16 ----

  const PACK_ORDER: seq<nat> := [0, 2, 1, 3]

  const TAKE_ORDER: seq<nat> := [0, 1, 4, 5, 0, 1, 4, 5]

  /** Sixteen sums to sixteen bytes. */
  function Pack16(a: Lanes, b: Lanes): (r: Lanes)
    requires |a| == |b| == 8
    ensures |r| == 16
  {
    var w := PermuteFours(Packus32(a, b), PACK_ORDER);
    PermuteFours(Packus16(w, w), TAKE_ORDER)[..16]
  }

  lemma {:induction false} PackedInOrder(a: Lanes, b: Lanes, i: nat)
    requires |a| == |b| == 8 && i < 16
    ensures Pack16(a, b)[i] == PackLane(if i < 8 then a[i] else b[i - 8])
  {
    hide Signed16, Saturate, PermuteFours, Packus32, Packus16;
    WordsInOrder(a, b, i);
    BytesInOrder(PermuteFours(Packus32(a, b), PACK_ORDER), i);
  }

  lemma {:induction false} BytesInOrder(w: Lanes, i: nat)
    requires |w| == 16 && i < 16
    ensures PermuteFours(Packus16(w, w), TAKE_ORDER)[i] == Saturate(Signed16(w[i]), 0xFF)
  {
    hide Signed16, Saturate;
    var q := Packus16(w, w);
    assert PermuteFours(q, TAKE_ORDER)[i] == q[4 * TAKE_ORDER[i / 4] + i % 4];
    hide PermuteFours;
    var at := if i < 8 then i else i + 8;
    assert 4 * TAKE_ORDER[i / 4] + i % 4 == at;
    assert q[at] == Saturate(Signed16(w[i]), 0xFF);
  }

  lemma {:induction false} WordsInOrder(a: Lanes, b: Lanes, i: nat)
    requires |a| == |b| == 8 && i < 16
    ensures PermuteFours(Packus32(a, b), PACK_ORDER)[i] == Saturate(if i < 8 then a[i] else b[i - 8], 0xFFFF)
  {
    hide Saturate;
    var p := Packus32(a, b);
    assert p[4 * PACK_ORDER[i / 4] + i % 4] == Saturate(if i < 8 then a[i] else b[i - 8], 0xFFFF);
  }

  // ---- Sixteen samples ----

  /** One channel of the sixteen pixels in four registers. */
  function Block(px: Lanes, b: int, g: int, r: int, bias: int): (s: Lanes)
    requires |px| == 64
    ensures |s| == 16
  {
    var k := Coef(b, g, r);
    Pack16(Dot8(px[..16], px[16..32], k, bias), Dot8(px[32..48], px[48..], k, bias))
  }

  lemma {:induction false} HalvesOfSixteen(px: Lanes, j: nat, b: int, g: int, r: int)
    requires |px| == 64 && j < 16
    ensures j < 8 ==> SumOfEight(px[..16], px[16..32], j, b, g, r) == PixelSum(px, j, b, g, r)
    ensures j >= 8 ==> SumOfEight(px[32..48], px[48..], j - 8, b, g, r) == PixelSum(px, j, b, g, r)
  {
    var at := if j < 4 then 0 else if j < 8 then 4 else if j < 12 then 8 else 12;
    var part := px[4 * at..4 * at + 16];
    SliceSum(px, at, j - at, b, g, r);
    assert px[48..] == px[48..64] && px[..16] == px[0..16];
    hide PixelSum;
  }

  lemma {:induction false} SliceSum(px: Lanes, at: nat, i: nat, b: int, g: int, r: int)
    requires 4 * at + 16 <= |px| && i < 4
    ensures PixelSum(px[4 * at..4 * at + 16], i, b, g, r) == PixelSum(px, at + i, b, g, r)
  {
    var part := px[4 * at..4 * at + 16];
    assert part[4 * i] == px[4 * (at + i)] && part[4 * i + 1] == px[4 * (at + i) + 1] && part[4 * i + 2] == px[4 * (at + i) + 2];
  }

  lemma {:induction false} DotsPackedInOrder(p: Lanes, q: Lanes, p': Lanes, q': Lanes, b: int, g: int, r: int, bias: int, j: nat)
    requires |p| == |q| == |p'| == |q'| == 16 && AreBytes(p) && AreBytes(q) && AreBytes(p') && AreBytes(q')
    requires j < 16 && Small(b, g, r, 0) && -0x100_0000 <= bias < 0x100_0000
    ensures Pack16(Dot8(p, q, Coef(b, g, r), bias), Dot8(p', q', Coef(b, g, r), bias))[j]
         == PackLane(Shift((if j < 8 then SumOfEight(p, q, j, b, g, r) else SumOfEight(p', q', j - 8, b, g, r)) + bias))
  {
    hide Pack16, PackLane, Shift, AreBytes, Coef, Small, SumOfEight, Dot8;
    var k := Coef(b, g, r);
    PackedInOrder(Dot8(p, q, k, bias), Dot8(p', q', k, bias), j);
    if j < 8 {
      DotIsTheScalarSum(p, q, b, g, r, bias, j);
    } else {
      DotIsTheScalarSum(p', q', b, g, r, bias, j - 8);
    }
  }

  /** Each sample of a block is the scalar sum of its pixel, packed. */
  lemma {:induction false} BlockInOrder(px: Lanes, b: int, g: int, r: int, bias: int, j: nat)
    requires |px| == 64 && AreBytes(px) && j < 16 && Small(b, g, r, 0) && -0x100_0000 <= bias < 0x100_0000
    ensures Block(px, b, g, r, bias)[j] == PackLane(Shift(PixelSum(px, j, b, g, r) + bias))
  {
    hide Pack16, PackLane, Shift, Coef, Small, SumOfEight, PixelSum, Dot8;
    HalvesOfSixteen(px, j, b, g, r);
    DotsPackedInOrder(px[..16], px[16..32], px[32..48], px[48..], b, g, r, bias, j);
  }

  /** Sixteen pixels from byte `at` on. */
  function Load16(bgra: seq<byte>, at: nat): (px: Lanes)
    requires at + 64 <= |bgra|
    ensures |px| == 64
  {
    bgra[at..at + 64]
  }

  /** `vpshufb`: bytes picked within each 128-bit lane; a negative index gives
      zero. */
  function Shuffle(x: Lanes, pick: Lanes): (r: Lanes)
    requires |x| == |pick| == 32
    ensures |r| == 32
  {
    seq(32, i requires 0 <= i < 32 => if pick[i] < 0 then 0 else x[i / 16 * 16 + pick[i] % 16])
  }

  /** Groups of eight bytes in this order: `vpermq` on bytes. */
  function PermuteEights(x: Lanes, order: seq<nat>): (r: Lanes)
    requires forall i | 0 <= i < |order| :: 8 * order[i] + 8 <= |x|
    ensures |r| == 8 * |order|
  {
    seq(8 * |order|, i requires 0 <= i < 8 * |order| => x[8 * order[i / 8] + i % 8])
  }

  function EvenPick(): (r: Lanes)
    ensures |r| == 32
  {
    [0, 1, 2, 3, 8, 9, 10, 11, -1, -1, -1, -1, -1, -1, -1, -1,
     0, 1, 2, 3, 8, 9, 10, 11, -1, -1, -1, -1, -1, -1, -1, -1]
  }

  function EvenOrder(): (r: seq<nat>)
    ensures |r| == 4 && r[0] == 0 && r[1] == 2 && r[2] == 0 && r[3] == 0
  {
    [0, 2, 0, 0]
  }

  /** The even pixels of eight, in the low half. */
  function EvenHalf(x: Lanes): (r: Lanes)
    requires |x| == 32
    ensures |r| == 32
  {
    PermuteEights(Shuffle(x, EvenPick()), EvenOrder())
  }

  /** The even pixels of thirty-two, from byte `at` on. */
  function LoadEven16(bgra: seq<byte>, at: nat): (px: Lanes)
    requires at + 128 <= |bgra|
    ensures |px| == 64
  {
    EvenHalf(bgra[at..at + 32])[..16] + EvenHalf(bgra[at + 32..at + 64])[..16]
    + EvenHalf(bgra[at + 64..at + 96])[..16] + EvenHalf(bgra[at + 96..at + 128])[..16]
  }

  lemma {:induction false} EvenPickAt(lane: nat, h: nat, c: nat)
    requires lane < 2 && h < 2 && c < 4
    ensures EvenPick()[16 * lane + 4 * h + c] == 8 * h + c
  {
  }

  lemma {:induction false} ShuffleAt(x: Lanes, pick: Lanes, lane: nat, j: nat)
    requires |x| == |pick| == 32 && lane < 2 && j < 16 && 0 <= pick[16 * lane + j] < 16
    ensures Shuffle(x, pick)[16 * lane + j] == x[16 * lane + pick[16 * lane + j]]
  {
    assert (16 * lane + j) / 16 == lane;
  }

  lemma {:induction false} EightsAt(x: Lanes, order: seq<nat>, g: nat, j: nat)
    requires (forall i | 0 <= i < |order| :: 8 * order[i] + 8 <= |x|) && g < |order| && j < 8
    ensures PermuteEights(x, order)[8 * g + j] == x[8 * order[g] + j]
  {
    assert (8 * g + j) / 8 == g && (8 * g + j) % 8 == j;
  }

  /** Pixel `h` of half `g` comes from pixel `2 h` of it. */
  lemma {:induction false} EvenHalfInOrder(x: Lanes, g: nat, h: nat, c: nat)
    requires |x| == 32 && g < 2 && h < 2 && c < 4
    ensures EvenHalf(x)[8 * g + 4 * h + c] == x[16 * g + 8 * h + c]
  {
    hide Shuffle, PermuteEights, EvenPick, EvenOrder;
    var s := Shuffle(x, EvenPick());
    EightsAt(s, EvenOrder(), g, 4 * h + c);
    EvenPickAt(g, h, c);
    ShuffleAt(x, EvenPick(), g, 4 * h + c);
  }

  lemma {:induction false} EvenQuarter(bgra: seq<byte>, at: nat, q: nat, i: nat)
    requires at + 128 <= |bgra| && q < 4 && i < 16
    ensures LoadEven16(bgra, at)[16 * q + i] == EvenHalf(bgra[at + 32 * q..at + 32 * q + 32])[i]
  {
    hide EvenHalf;
  }

  lemma {:induction false} EvenPixel(bgra: seq<byte>, at: nat, q: nat, g: nat, h: nat, c: nat)
    requires at + 128 <= |bgra| && q < 4 && g < 2 && h < 2 && c < 4
    ensures LoadEven16(bgra, at)[16 * q + 8 * g + 4 * h + c] == bgra[at + 32 * q + 16 * g + 8 * h + c]
  {
    var x: Lanes := bgra[at + 32 * q..at + 32 * q + 32];
    EvenQuarter(bgra, at, q, 8 * g + 4 * h + c);
    EvenHalfInOrder(x, g, h, c);
    hide LoadEven16, EvenHalf;
  }

  /** The even pixels, in order. */
  lemma {:induction false} EvenPixelsInOrder(bgra: seq<byte>, at: nat, p: nat, c: nat)
    requires at + 128 <= |bgra| && p < 16 && c < 4
    ensures LoadEven16(bgra, at)[4 * p + c] == bgra[at + 8 * p + c]
  {
    hide LoadEven16;
    var q, g, h := p / 4, p / 2 % 2, p % 2;
    assert p == 4 * q + 2 * g + h && q < 4;
    EvenPixel(bgra, at, q, g, h, c);
  }

  // ---- The kernels ----

  /** A block whose sums stay below 2^15 is the clamped sums. */
  lemma {:induction false} BlockOfSmallSums(px: Lanes, b: int, g: int, r: int, bias: int, j: nat)
    requires |px| == 64 && AreBytes(px) && j < 16 && Small(b, g, r, 0) && -0x100_0000 <= bias < 0x100_0000
    requires Shift(PixelSum(px, j, b, g, r) + bias) < 0x8000
    ensures Block(px, b, g, r, bias)[j] == Clamp(Shift(PixelSum(px, j, b, g, r) + bias))
  {
    BlockInOrder(px, b, g, r, bias, j);
    PacksClampExactlyBelow(Shift(PixelSum(px, j, b, g, r) + bias));
    hide Block, PackLane, Clamp, Shift, PixelSum;
  }

  lemma {:induction false} LumaBlock(bgra: seq<byte>, px: Lanes, j: nat, p: nat)
    requires |px| == 64 && AreBytes(px) && j < 16 && 4 * p + 4 <= |bgra|
    requires px[4 * j] == bgra[4 * p] && px[4 * j + 1] == bgra[4 * p + 1] && px[4 * j + 2] == bgra[4 * p + 2]
    ensures Block(px, KYB, KYG, KYR, Y_BIAS)[j] == LumaAt(bgra, p)
  {
    ForwardStaysInRange(bgra[4 * p], bgra[4 * p + 1], bgra[4 * p + 2]);
    assert Shift(PixelSum(px, j, KYB, KYG, KYR) + Y_BIAS) == LumaSum(bgra[4 * p], bgra[4 * p + 1], bgra[4 * p + 2]);
    hide Shift, PixelSum, Block, Clamp;
    BlockOfSmallSums(px, KYB, KYG, KYR, Y_BIAS, j);
  }

  lemma {:induction false} CbBlock(bgra: seq<byte>, px: Lanes, j: nat, p: nat)
    requires |px| == 64 && AreBytes(px) && j < 16 && 4 * p + 4 <= |bgra|
    requires px[4 * j] == bgra[4 * p] && px[4 * j + 1] == bgra[4 * p + 1] && px[4 * j + 2] == bgra[4 * p + 2]
    ensures Block(px, KUB, KUG, KUR, C_BIAS)[j] == CbAt(bgra, p)
  {
    ForwardStaysInRange(bgra[4 * p], bgra[4 * p + 1], bgra[4 * p + 2]);
    assert Shift(PixelSum(px, j, KUB, KUG, KUR) + C_BIAS) == CbSum(bgra[4 * p], bgra[4 * p + 1], bgra[4 * p + 2]);
    hide Shift, PixelSum, Block, Clamp;
    BlockOfSmallSums(px, KUB, KUG, KUR, C_BIAS, j);
  }

  lemma {:induction false} CrBlock(bgra: seq<byte>, px: Lanes, j: nat, p: nat)
    requires |px| == 64 && AreBytes(px) && j < 16 && 4 * p + 4 <= |bgra|
    requires px[4 * j] == bgra[4 * p] && px[4 * j + 1] == bgra[4 * p + 1] && px[4 * j + 2] == bgra[4 * p + 2]
    ensures Block(px, KVB, KVG, KVR, C_BIAS)[j] == CrAt(bgra, p)
  {
    ForwardStaysInRange(bgra[4 * p], bgra[4 * p + 1], bgra[4 * p + 2]);
    assert Shift(PixelSum(px, j, KVB, KVG, KVR) + C_BIAS) == CrSum(bgra[4 * p], bgra[4 * p + 1], bgra[4 * p + 2]);
    hide Shift, PixelSum, Block, Clamp;
    BlockOfSmallSums(px, KVB, KVG, KVR, C_BIAS, j);
  }

  /** Store a register. */
  method Store(out: array<byte>, at: nat, lanes: Lanes)
    requires AreBytes(lanes) && at + |lanes| <= out.Length
    modifies out
    ensures forall j | at <= j < at + |lanes| :: out[j] == lanes[j - at]
    ensures forall j | 0 <= j < out.Length && !(at <= j < at + |lanes|) :: out[j] == old(out[j])
  {
    for i := 0 to |lanes|
      invariant forall j | at <= j < at + i :: out[j] == lanes[j - at]
      invariant forall j | 0 <= j < out.Length && !(at <= j < at + i) :: out[j] == old(out[j])
    {
      out[at + i] := lanes[i];
    }
  }

  lemma {:induction false} LoadedBytes(bgra: seq<byte>, at: nat)
    ensures at + 64 <= |bgra| ==> AreBytes(Load16(bgra, at))
    ensures at + 128 <= |bgra| ==> AreBytes(LoadEven16(bgra, at))
  {
    if at + 128 <= |bgra| {
      var px := LoadEven16(bgra, at);
      forall i | 0 <= i < 64
        ensures 0 <= px[i] < 256
      {
        EvenPixelsInOrder(bgra, at, i / 4, i % 4);
      }
    }
  }

  /** Sixteen luma samples. */
  method LumaSixteen(bgra: seq<byte>, y: array<byte>, i: nat)
    requires i + 16 <= y.Length && 4 * y.Length <= |bgra|
    modifies y
    ensures forall j | i <= j < i + 16 :: y[j] == LumaAt(bgra, j)
    ensures forall j | 0 <= j < y.Length && !(i <= j < i + 16) :: y[j] == old(y[j])
  {
    LumaOfSixteen(bgra, i);
    hide *;
    Store(y, i, LumaSums(bgra, i));
  }

  function LumaSums(bgra: seq<byte>, i: nat): (s: Lanes)
    requires 4 * i + 64 <= |bgra|
    ensures |s| == 16
  {
    Block(Load16(bgra, 4 * i), KYB, KYG, KYR, Y_BIAS)
  }

  lemma {:induction false} LumaLane(bgra: seq<byte>, i: nat, k: nat)
    requires 4 * i + 64 <= |bgra| && k < 16
    ensures LumaSums(bgra, i)[k] == LumaAt(bgra, i + k)
  {
    hide Block, Load16, LumaAt, AreBytes;
    LoadedBytes(bgra, 4 * i);
    WholePixelsInOrder(bgra, 4 * i, k);
    LumaBlock(bgra, Load16(bgra, 4 * i), k, i + k);
  }

  lemma {:induction false} LumaOfSixteen(bgra: seq<byte>, i: nat)
    requires 4 * i + 64 <= |bgra|
    ensures AreBytes(LumaSums(bgra, i))
    ensures forall j | i <= j < i + 16 :: LumaSums(bgra, i)[j - i] == LumaAt(bgra, j)
  {
    hide Block, Load16, LumaAt, AreBytes;
    BlockIsBytes(Load16(bgra, 4 * i), KYB, KYG, KYR, Y_BIAS);
    hide LumaSums;
    forall j | i <= j < i + 16
      ensures LumaSums(bgra, i)[j - i] == LumaAt(bgra, j)
    {
      LumaLane(bgra, i, j - i);
    }
  }

  lemma {:induction false} BlockIsBytes(px: Lanes, b: int, g: int, r: int, bias: int)
    requires |px| == 64
    ensures AreBytes(Block(px, b, g, r, bias))
  {
    var k := Coef(b, g, r);
    var x, y := Dot8(px[..16], px[16..32], k, bias), Dot8(px[32..48], px[48..], k, bias);
    hide Dot8, Coef, Pack16;
    forall i | 0 <= i < 16
      ensures 0 <= Pack16(x, y)[i] < 256
    {
      PackedInOrder(x, y, i);
    }
  }

  /** Luma, sixteen pixels at a time, the rest by the scalar loop. */
  method RowYAvx2(bgra: seq<byte>, y: array<byte>)
    requires 4 * y.Length <= |bgra|
    modifies y
    ensures forall i | 0 <= i < y.Length :: y[i] == LumaAt(bgra, i)
  {
    var n := y.Length / 16 * 16;
    var i := 0;
    hide LumaAt;
    while i < n
      invariant i <= n && i % 16 == 0
      invariant forall j | 0 <= j < i :: y[j] == LumaAt(bgra, j)
    {
      LumaSixteen(bgra, y, i);
      i := i + 16;
    }
    RowY(bgra, y, n);
  }

  /** Sixteen chroma samples of each plane. */
  method ChromaSixteen(bgra: seq<byte>, u: array<byte>, v: array<byte>, step: nat, i: nat)
    requires step == 1 || step == 2
    requires u != v && u.Length == v.Length && i + 16 <= u.Length && 4 * PixelOf(u.Length, step) <= |bgra|
    modifies u, v
    ensures forall j | i <= j < i + 16 :: u[j] == CbAt(bgra, PixelOf(j, step)) && v[j] == CrAt(bgra, PixelOf(j, step))
    ensures forall j | 0 <= j < u.Length && !(i <= j < i + 16) :: u[j] == old(u[j]) && v[j] == old(v[j])
  {
    ghost var before := v[..];
    StoreCb(bgra, u, step, i);
    hide *;
    assert v[..] == before;
    StoreCr(bgra, v, step, i);
  }

  method StoreCb(bgra: seq<byte>, u: array<byte>, step: nat, i: nat)
    requires (step == 1 || step == 2) && i + 16 <= u.Length && 4 * PixelOf(u.Length, step) <= |bgra|
    modifies u
    ensures forall j | i <= j < i + 16 :: u[j] == CbAt(bgra, PixelOf(j, step))
    ensures forall j | 0 <= j < u.Length && !(i <= j < i + 16) :: u[j] == old(u[j])
  {
    CbOfSixteen(bgra, step, i);
    hide *;
    Store(u, i, CbSums(bgra, step, i));
  }

  method StoreCr(bgra: seq<byte>, v: array<byte>, step: nat, i: nat)
    requires (step == 1 || step == 2) && i + 16 <= v.Length && 4 * PixelOf(v.Length, step) <= |bgra|
    modifies v
    ensures forall j | i <= j < i + 16 :: v[j] == CrAt(bgra, PixelOf(j, step))
    ensures forall j | 0 <= j < v.Length && !(i <= j < i + 16) :: v[j] == old(v[j])
  {
    CrOfSixteen(bgra, step, i);
    hide *;
    Store(v, i, CrSums(bgra, step, i));
  }

  /** Sixteen pixels, or the even ones of thirty-two. */
  function Load(bgra: seq<byte>, step: nat, i: nat): (px: Lanes)
    requires (step == 1 || step == 2) && 4 * PixelOf(i + 16, step) <= |bgra|
    ensures |px| == 64
  {
    if step == 1 then Load16(bgra, 4 * i) else LoadEven16(bgra, 8 * i)
  }

  lemma {:induction false} LoadIsBytes(bgra: seq<byte>, step: nat, i: nat)
    requires (step == 1 || step == 2) && 4 * PixelOf(i + 16, step) <= |bgra|
    ensures AreBytes(Load(bgra, step, i))
  {
    hide AreBytes, LoadEven16, Load16;
    LoadedBytes(bgra, if step == 1 then 4 * i else 8 * i);
  }

  function CbSums(bgra: seq<byte>, step: nat, i: nat): (s: Lanes)
    requires (step == 1 || step == 2) && 4 * PixelOf(i + 16, step) <= |bgra|
    ensures |s| == 16
  {
    Block(Load(bgra, step, i), KUB, KUG, KUR, C_BIAS)
  }

  lemma {:induction false} CbLane(bgra: seq<byte>, step: nat, i: nat, k: nat)
    requires (step == 1 || step == 2) && 4 * PixelOf(i + 16, step) <= |bgra| && k < 16
    ensures 4 * PixelOf(i + k, step) + 4 <= |bgra|
    ensures CbSums(bgra, step, i)[k] == CbAt(bgra, PixelOf(i + k, step))
  {
    hide Block, Load, CbAt, AreBytes;
    LoadIsBytes(bgra, step, i);
    LoadedPixel(bgra, step, i, k);
    CbBlock(bgra, Load(bgra, step, i), k, PixelOf(i + k, step));
  }

  lemma {:induction false} CbOfSixteen(bgra: seq<byte>, step: nat, i: nat)
    requires (step == 1 || step == 2) && 4 * PixelOf(i + 16, step) <= |bgra|
    ensures AreBytes(CbSums(bgra, step, i))
    ensures forall j | i <= j < i + 16 ::
              4 * PixelOf(j, step) + 4 <= |bgra| && CbSums(bgra, step, i)[j - i] == CbAt(bgra, PixelOf(j, step))
  {
    hide Block, Load, CbAt, AreBytes, PixelOf;
    BlockIsBytes(Load(bgra, step, i), KUB, KUG, KUR, C_BIAS);
    hide CbSums;
    forall j | i <= j < i + 16
      ensures 4 * PixelOf(j, step) + 4 <= |bgra| && CbSums(bgra, step, i)[j - i] == CbAt(bgra, PixelOf(j, step))
    {
      CbLane(bgra, step, i, j - i);
    }
  }

  function CrSums(bgra: seq<byte>, step: nat, i: nat): (s: Lanes)
    requires (step == 1 || step == 2) && 4 * PixelOf(i + 16, step) <= |bgra|
    ensures |s| == 16
  {
    Block(Load(bgra, step, i), KVB, KVG, KVR, C_BIAS)
  }

  lemma {:induction false} CrLane(bgra: seq<byte>, step: nat, i: nat, k: nat)
    requires (step == 1 || step == 2) && 4 * PixelOf(i + 16, step) <= |bgra| && k < 16
    ensures 4 * PixelOf(i + k, step) + 4 <= |bgra|
    ensures CrSums(bgra, step, i)[k] == CrAt(bgra, PixelOf(i + k, step))
  {
    hide Block, Load, CrAt, AreBytes;
    LoadIsBytes(bgra, step, i);
    LoadedPixel(bgra, step, i, k);
    CrBlock(bgra, Load(bgra, step, i), k, PixelOf(i + k, step));
  }

  lemma {:induction false} CrOfSixteen(bgra: seq<byte>, step: nat, i: nat)
    requires (step == 1 || step == 2) && 4 * PixelOf(i + 16, step) <= |bgra|
    ensures AreBytes(CrSums(bgra, step, i))
    ensures forall j | i <= j < i + 16 ::
              4 * PixelOf(j, step) + 4 <= |bgra| && CrSums(bgra, step, i)[j - i] == CrAt(bgra, PixelOf(j, step))
  {
    hide Block, Load, CrAt, AreBytes, PixelOf;
    BlockIsBytes(Load(bgra, step, i), KVB, KVG, KVR, C_BIAS);
    hide CrSums;
    forall j | i <= j < i + 16
      ensures 4 * PixelOf(j, step) + 4 <= |bgra| && CrSums(bgra, step, i)[j - i] == CrAt(bgra, PixelOf(j, step))
    {
      CrLane(bgra, step, i, j - i);
    }
  }

  lemma {:induction false} WholePixelsInOrder(bgra: seq<byte>, at: nat, j: nat)
    requires at + 64 <= |bgra| && j < 16
    ensures var px := Load16(bgra, at);
            px[4 * j] == bgra[at + 4 * j] && px[4 * j + 1] == bgra[at + 4 * j + 1] && px[4 * j + 2] == bgra[at + 4 * j + 2]
  {
  }

  lemma {:induction false} LoadedPixel(bgra: seq<byte>, step: nat, i: nat, j: nat)
    requires (step == 1 || step == 2) && j < 16 && 4 * PixelOf(i + 16, step) <= |bgra|
    ensures var px, p := Load(bgra, step, i), 4 * PixelOf(i + j, step);
            px[4 * j] == bgra[p] && px[4 * j + 1] == bgra[p + 1] && px[4 * j + 2] == bgra[p + 2]
  {
    hide Load16, LoadEven16;
    if step == 2 {
      EvenPixelsInOrder(bgra, 8 * i, j, 0);
      EvenPixelsInOrder(bgra, 8 * i, j, 1);
      EvenPixelsInOrder(bgra, 8 * i, j, 2);
    } else {
      WholePixelsInOrder(bgra, 4 * i, j);
    }
  }

  /** Chroma, sixteen samples at a time, the rest by the scalar loop. */
  method RowUvAvx2(bgra: seq<byte>, u: array<byte>, v: array<byte>, step: nat)
    requires step == 1 || step == 2
    requires u != v && u.Length == v.Length && 4 * PixelOf(u.Length, step) <= |bgra|
    modifies u, v
    ensures forall i | 0 <= i < u.Length :: u[i] == CbAt(bgra, PixelOf(i, step)) && v[i] == CrAt(bgra, PixelOf(i, step))
  {
    var n := u.Length / 16 * 16;
    var i := 0;
    hide CbAt, CrAt;
    while i < n
      invariant i <= n && i % 16 == 0
      invariant forall j | 0 <= j < i :: u[j] == CbAt(bgra, PixelOf(j, step)) && v[j] == CrAt(bgra, PixelOf(j, step))
    {
      ChromaSixteen(bgra, u, v, step, i);
      i := i + 16;
    }
    RowUv(bgra, u, v, step, n);
  }

  // ---- row_bgra ----

  /** Eight samples, centred: each repeated with `upsample`. */
  function Chroma8(samples: seq<byte>, at: nat, upsample: bool): (r: Lanes)
    requires at + (if upsample then 4 else 8) <= |samples|
    ensures |r| == 8
  {
    var raw: Lanes := if upsample then UnpackLowBytes(samples[at..at + 4], samples[at..at + 4]) else samples[at..at + 8];
    seq(8, i requires 0 <= i < 8 => Wrap16(raw[i] - 128))
  }

  /** `punpcklbw` of the first four bytes of each. */
  function UnpackLowBytes(a: Lanes, b: Lanes): (r: Lanes)
    requires |a| == |b| == 4
    ensures |r| == 8
  {
    [a[0], b[0], a[1], b[1], a[2], b[2], a[3], b[3]]
  }

  function Luma8(y: seq<byte>, at: nat): (r: Lanes)
    requires at + 8 <= |y|
    ensures |r| == 8
  {
    seq(8, i requires 0 <= i < 8 => Wrap16(y[at + i] as int - 16))
  }

  /** `punpcklwd` and `punpckhwd` into one register. */
  function Unpack(a: Lanes, b: Lanes): (r: Lanes)
    requires |a| == |b| == 8
    ensures |r| == 16
  {
    [a[0], b[0], a[1], b[1], a[2], b[2], a[3], b[3]] + [a[4], b[4], a[5], b[5], a[6], b[6], a[7], b[7]]
  }

  /** Two coefficients in turn. */
  function Pairs(k: int, l: int): (r: Lanes)
    ensures |r| == 16
  {
    seq(16, i requires 0 <= i < 16 => if i % 2 == 0 then k else l)
  }

  function AddLanes(a: Lanes, b: Lanes): (r: Lanes)
    requires |a| == |b|
    ensures |r| == |a|
  {
    seq(|a|, i requires 0 <= i < |a| => Wrap32(a[i] + b[i]))
  }

  function Interleave(): (r: Lanes)
    ensures |r| == 32
  {
    [0, 4, 8, 12, 1, 5, 9, 13, 2, 6, 10, 14, 3, 7, 11, 15,
     0, 4, 8, 12, 1, 5, 9, 13, 2, 6, 10, 14, 3, 7, 11, 15]
  }

  /** The sums of eight pixels, one channel. */
  function TwoSums(a: Lanes, b: Lanes, k: int, l: int): (r: Lanes)
    requires |a| == |b| == 8
    ensures |r| == 8
  {
    Madd(Unpack(a, b), Pairs(k, l))
  }

  /** Eight pixels of BGRA. */
  function EightPixels(yy: Lanes, cb: Lanes, cr: Lanes): (px: Lanes)
    requires |yy| == |cb| == |cr| == 8
    ensures |px| == 32
  {
    var r := Srai(Add32(TwoSums(yy, cr, KY, KRV), HALF));
    var b := Srai(Add32(TwoSums(yy, cb, KY, KBU), HALF));
    var g := Srai(Add32(AddLanes(TwoSums(yy, cb, KY, KGU), TwoSums(yy, cr, 0, KGV)), HALF));
    Shuffle(Packus16(Packus32(b, g), Packus32(r, seq(8, _ => 255))), Interleave())
  }

  predicate Centred(s: Lanes) { |s| == 8 && forall i | 0 <= i < 8 :: -256 < s[i] < 256 }

  lemma {:induction false} CentredProduct(x: int, k: int)
    requires -256 < x < 256 && -0x8000 <= k < 0x8000
    ensures -0x80_0000 <= x * k <= 0x80_0000
  {
    Arithmetic.MulMonotone(-0x8000, k, if x < 0 then -x else x);
    Arithmetic.MulMonotone(k, 0x8000, if x < 0 then -x else x);
    assert x < 0 ==> k * (-x) == -(k * x);
  }

  lemma {:induction false} TwoSumsInOrder(a: Lanes, b: Lanes, k: int, l: int, i: nat)
    requires Centred(a) && Centred(b) && i < 8 && -0x8000 <= k < 0x8000 && -0x8000 <= l < 0x8000
    ensures TwoSums(a, b, k, l)[i] == a[i] * k + b[i] * l
    ensures -0x100_0000 <= a[i] * k + b[i] * l <= 0x100_0000
  {
    hide Unpack, Wrap32;
    CentredProduct(a[i], k);
    CentredProduct(b[i], l);
    UnpackInOrder(a, b, i);
    NoWrap(a[i] * k + b[i] * l);
    var x := Unpack(a, b);
    assert TwoSums(a, b, k, l)[i] == Wrap32(x[2 * i] * k + x[2 * i + 1] * l);
  }

  lemma {:induction false} UnpackInOrder(a: Lanes, b: Lanes, i: nat)
    requires |a| == |b| == 8 && i < 8
    ensures Unpack(a, b)[2 * i] == a[i] && Unpack(a, b)[2 * i + 1] == b[i]
  {
  }

  function Channel(b: Lanes, g: Lanes, r: Lanes, a: Lanes, c: nat): (s: Lanes)
    requires |b| == |g| == |r| == |a| == 8 && c < 4
    ensures |s| == 8
  {
    if c == 0 then b else if c == 1 then g else if c == 2 then r else a
  }

  lemma {:induction false} WordAt(a: Lanes, b: Lanes, lane: nat, second: nat, p: nat)
    requires |a| == |b| == 8 && lane < 2 && second < 2 && p < 4
    ensures Packus32(a, b)[8 * lane + 4 * second + p] == Saturate((if second == 0 then a else b)[4 * lane + p], 0xFFFF)
  {
    hide Saturate;
  }

  lemma {:induction false} ByteAt(a: Lanes, b: Lanes, lane: nat, second: nat, q: nat)
    requires |a| == |b| == 16 && lane < 2 && second < 2 && q < 8
    ensures Packus16(a, b)[16 * lane + 8 * second + q] == Saturate(Signed16((if second == 0 then a else b)[8 * lane + q]), 0xFF)
  {
    hide Saturate, Signed16;
  }

  /** Per 128-bit lane: four bytes of each channel in turn. */
  lemma {:induction false} FourChannelsPacked(b: Lanes, g: Lanes, r: Lanes, a: Lanes, lane: nat, c: nat, p: nat)
    requires |b| == |g| == |r| == |a| == 8 && lane < 2 && c < 4 && p < 4
    ensures Packus16(Packus32(b, g), Packus32(r, a))[16 * lane + 4 * c + p] == PackLane(Channel(b, g, r, a, c)[4 * lane + p])
  {
    hide Packus32, Packus16, Saturate, Signed16;
    if c == 0 {
      ByteAt(Packus32(b, g), Packus32(r, a), lane, 0, p);
      WordAt(b, g, lane, 0, p);
    } else if c == 1 {
      ByteAt(Packus32(b, g), Packus32(r, a), lane, 0, 4 + p);
      WordAt(b, g, lane, 1, p);
    } else if c == 2 {
      ByteAt(Packus32(b, g), Packus32(r, a), lane, 1, p);
      WordAt(r, a, lane, 0, p);
    } else {
      ByteAt(Packus32(b, g), Packus32(r, a), lane, 1, 4 + p);
      WordAt(r, a, lane, 1, p);
    }
  }

  lemma {:induction false} InterleaveAt(lane: nat, p: nat, c: nat)
    requires lane < 2 && p < 4 && c < 4
    ensures Interleave()[16 * lane + 4 * p + c] == 4 * c + p
  {
  }

  lemma {:induction false} ShuffleInterleaves(x: Lanes, lane: nat, p: nat, c: nat)
    requires |x| == 32 && lane < 2 && p < 4 && c < 4
    ensures Shuffle(x, Interleave())[16 * lane + 4 * p + c] == x[16 * lane + 4 * c + p]
  {
    hide Interleave, Shuffle;
    InterleaveAt(lane, p, c);
    ShuffleAt(x, Interleave(), lane, 4 * p + c);
  }

  /** The scalar sum of a channel. */
  function ChannelSum(y: int, cb: int, cr: int, c: nat): int {
    if c == 0 then KY * y + KBU * cb + HALF
    else if c == 1 then KY * y + KGU * cb + KGV * cr + HALF
    else KY * y + KRV * cr + HALF
  }

  lemma {:induction false} RedAndBlueSums(yy: Lanes, cc: Lanes, l: int, i: nat)
    requires Centred(yy) && Centred(cc) && i < 8 && -0x8000 <= l < 0x8000
    ensures Srai(Add32(TwoSums(yy, cc, KY, l), HALF))[i] == Shift(yy[i] * KY + cc[i] * l + HALF)
  {
    TwoSumsInOrder(yy, cc, KY, l, i);
    hide TwoSums, Shift, Srai, Add32;
    AddThenShift(TwoSums(yy, cc, KY, l), HALF, i);
  }

  lemma {:induction false} GreenSums(yy: Lanes, cb: Lanes, cr: Lanes, i: nat)
    requires Centred(yy) && Centred(cb) && Centred(cr) && i < 8
    ensures Srai(Add32(AddLanes(TwoSums(yy, cb, KY, KGU), TwoSums(yy, cr, 0, KGV)), HALF))[i]
         == Shift(yy[i] * KY + cb[i] * KGU + cr[i] * KGV + HALF)
  {
    TwoSumsInOrder(yy, cb, KY, KGU, i);
    TwoSumsInOrder(yy, cr, 0, KGV, i);
    var s, t := TwoSums(yy, cb, KY, KGU), TwoSums(yy, cr, 0, KGV);
    hide TwoSums, Shift, Srai, Add32;
    NoWrap(s[i] + t[i]);
    AddThenShift(AddLanes(s, t), HALF, i);
  }

  /** Byte `c` of a pixel: the scalar sum of the channel, packed. */
  lemma {:induction false} EightPixelsInOrder(yy: Lanes, cb: Lanes, cr: Lanes, lane: nat, p: nat, c: nat)
    requires Centred(yy) && Centred(cb) && Centred(cr) && lane < 2 && p < 4 && c < 4
    ensures var i := 4 * lane + p;
            EightPixels(yy, cb, cr)[16 * lane + 4 * p + c]
            == PackLane(if c == 3 then 255 else Shift(ChannelSum(yy[i], cb[i], cr[i], c)))
  {
    var i := 4 * lane + p;
    var r := Srai(Add32(TwoSums(yy, cr, KY, KRV), HALF));
    var b := Srai(Add32(TwoSums(yy, cb, KY, KBU), HALF));
    var g := Srai(Add32(AddLanes(TwoSums(yy, cb, KY, KGU), TwoSums(yy, cr, 0, KGV)), HALF));
    var a: Lanes := seq(8, _ => 255);
    hide Srai, Add32, AddLanes, TwoSums, Shuffle, Packus16, Packus32, PackLane, Shift, Interleave;
    ShuffleInterleaves(Packus16(Packus32(b, g), Packus32(r, a)), lane, p, c);
    FourChannelsPacked(b, g, r, a, lane, c, p);
    ChannelsInOrder(yy, cb, cr, i);
    hide Centred;
  }

  lemma {:induction false} ChannelsInOrder(yy: Lanes, cb: Lanes, cr: Lanes, i: nat)
    requires Centred(yy) && Centred(cb) && Centred(cr) && i < 8
    ensures Srai(Add32(TwoSums(yy, cb, KY, KBU), HALF))[i] == Shift(ChannelSum(yy[i], cb[i], cr[i], 0))
    ensures Srai(Add32(AddLanes(TwoSums(yy, cb, KY, KGU), TwoSums(yy, cr, 0, KGV)), HALF))[i]
         == Shift(ChannelSum(yy[i], cb[i], cr[i], 1))
    ensures Srai(Add32(TwoSums(yy, cr, KY, KRV), HALF))[i] == Shift(ChannelSum(yy[i], cb[i], cr[i], 2))
  {
    hide Srai, Add32, AddLanes, TwoSums, Shift;
    RedAndBlueSums(yy, cb, KBU, i);
    RedAndBlueSums(yy, cr, KRV, i);
    GreenSums(yy, cb, cr, i);
  }

  lemma {:induction false} PixelIsClamped(y: byte, u: byte, v: byte, c: nat)
    requires c < 4
    ensures PackLane(if c == 3 then 255 else Shift(ChannelSum(y - 16, u - 128, v - 128, c)))
         == if c == 0 then Blue(y, u) else if c == 1 then Green(y, u, v) else if c == 2 then Red(y, v) else 255
  {
    var s := if c == 3 then 255 else Shift(ChannelSum(y - 16, u - 128, v - 128, c));
    assert s < 0x8000;
    PacksClampExactlyBelow(s);
    hide PackLane, Clamp, Shift;
  }

  lemma {:induction false} NoWrap16(v: int)
    requires -0x8000 <= v < 0x8000
    ensures Wrap16(v) == v
  {
  }

  lemma {:induction false} LumaCentred(y: seq<byte>, at: nat)
    requires at + 8 <= |y|
    ensures Centred(Luma8(y, at)) && forall k | 0 <= k < 8 :: Luma8(y, at)[k] == y[at + k] as int - 16
  {
    forall k | 0 <= k < 8
      ensures Luma8(y, at)[k] == y[at + k] as int - 16
    {
      NoWrap16(y[at + k] as int - 16);
    }
  }

  lemma {:induction false} SampleRepeats(samples: seq<byte>, at: nat, k: nat)
    requires at + 4 <= |samples| && k < 8
    ensures UnpackLowBytes(samples[at..at + 4], samples[at..at + 4])[k] == samples[at + k / 2]
  {
  }

  lemma {:induction false} ChromaAt(samples: seq<byte>, i: nat, upsample: bool, k: nat)
    requires k < 8 && (upsample ==> i % 2 == 0) && SampleOf(i, upsample) + (if upsample then 4 else 8) <= |samples|
    ensures SampleOf(i + k, upsample) < |samples|
    ensures Chroma8(samples, SampleOf(i, upsample), upsample)[k] == samples[SampleOf(i + k, upsample)] as int - 128
  {
    hide Wrap16, UnpackLowBytes;
    if upsample {
      assert (i + k) / 2 == i / 2 + k / 2;
      SampleRepeats(samples, i / 2, k);
      NoWrap16(samples[i / 2 + k / 2] as int - 128);
    } else {
      NoWrap16(samples[i + k] as int - 128);
    }
  }

  lemma {:induction false} ChromaCentred(samples: seq<byte>, i: nat, upsample: bool)
    requires (upsample ==> i % 2 == 0) && SampleOf(i, upsample) + (if upsample then 4 else 8) <= |samples|
    ensures Centred(Chroma8(samples, SampleOf(i, upsample), upsample))
  {
    forall k | 0 <= k < 8
      ensures -256 < Chroma8(samples, SampleOf(i, upsample), upsample)[k] < 256
    {
      ChromaAt(samples, i, upsample, k);
    }
  }

  /** Whether eight pixels' worth of chroma is there. */
  predicate EightFit(n: nat, samples: nat, upsample: bool, i: nat) {
    i + 8 <= n && (upsample ==> i % 2 == 0) && SampleOf(i, upsample) + (if upsample then 4 else 8) <= samples
  }

  lemma {:induction false} FitEnds(n: nat, samples: nat, upsample: bool, i: nat)
    requires EightFit(n, samples, upsample, i)
    ensures i + 8 <= n
  {
  }

  lemma {:induction false} CoversEight(n: nat, samples: nat, upsample: bool, i: nat)
    requires Covers(n, samples, upsample) && i % 8 == 0 && i + 8 <= n
    ensures EightFit(n, samples, upsample, i)
  {
  }

  /** Eight pixels from pixel `i` on. */
  function Eight(y: seq<byte>, u: seq<byte>, v: seq<byte>, upsample: bool, i: nat): (px: Lanes)
    requires EightFit(|y|, |u|, upsample, i) && EightFit(|y|, |v|, upsample, i)
    ensures |px| == 32
  {
    EightPixels(Luma8(y, i), Chroma8(u, SampleOf(i, upsample), upsample), Chroma8(v, SampleOf(i, upsample), upsample))
  }

  lemma {:induction false} SumOfByte(
    y: seq<byte>, u: seq<byte>, v: seq<byte>, upsample: bool, i: nat, lane: nat, p: nat, c: nat)
    requires EightFit(|y|, |u|, upsample, i) && EightFit(|y|, |v|, upsample, i) && lane < 2 && p < 4 && c < 4
    ensures var k := i + (4 * lane + p); SampleOf(k, upsample) < |u| && SampleOf(k, upsample) < |v|
    ensures var k := i + (4 * lane + p); var s := SampleOf(k, upsample);
            Eight(y, u, v, upsample, i)[16 * lane + 4 * p + c]
            == PackLane(if c == 3 then 255 else Shift(ChannelSum(y[k] as int - 16, u[s] as int - 128, v[s] as int - 128, c)))
  {
    var k := 4 * lane + p;
    hide Luma8, Chroma8, EightPixels, PackLane, Shift, Centred, SampleOf, ChannelSum;
    var yy, cb, cr := Luma8(y, i), Chroma8(u, SampleOf(i, upsample), upsample), Chroma8(v, SampleOf(i, upsample), upsample);
    LumaCentred(y, i);
    ChromaCentred(u, i, upsample);
    ChromaCentred(v, i, upsample);
    EightPixelsInOrder(yy, cb, cr, lane, p, c);
    ChromaAt(u, i, upsample, k);
    ChromaAt(v, i, upsample, k);
    assert yy[k] == y[i + k] as int - 16;
  }

  lemma {:induction false} QuotientIs(j: nat, k: nat, c: nat)
    requires j == 4 * k + c && c < 4
    ensures j / 4 == k
  {
  }

  /** Byte `j`, by its place among the eight pixels. */
  lemma {:induction false} ByteOfEight(
    y: seq<byte>, u: seq<byte>, v: seq<byte>, upsample: bool, i: nat, lane: nat, p: nat, c: nat, k: nat, j: nat)
    requires EightFit(|y|, |u|, upsample, i) && EightFit(|y|, |v|, upsample, i) && lane < 2 && p < 4 && c < 4
    requires k == i + (4 * lane + p) && j == 4 * k + c
    ensures j / 4 == k < |y| && SampleOf(k, upsample) < |u| && SampleOf(k, upsample) < |v|
    ensures Eight(y, u, v, upsample, i)[16 * lane + 4 * p + c] == BgraAt(y, u, v, upsample, j)
  {
    hide SampleOf, Eight, BgraAt, PackLane, Shift, ChannelSum, Blue, Green, Red;
    QuotientIs(j, k, c);
    SumOfByte(y, u, v, upsample, i, lane, p, c);
    var s := SampleOf(k, upsample);
    PixelIsClamped(y[k], u[s], v[s], c);
    BytesOfPixel(y, u, v, upsample, k);
  }

  lemma {:induction false} Digits(d: nat) returns (lane: nat, p: nat, c: nat)
    requires d < 32
    ensures lane < 2 && p < 4 && c < 4 && d == 16 * lane + 4 * p + c
  {
    lane := if d < 16 then 0 else 1;
    var rest := d - 16 * lane;
    p := if rest < 4 then 0 else if rest < 8 then 1 else if rest < 12 then 2 else 3;
    c := rest - 4 * p;
  }

  lemma {:induction false} ByteAfter(y: seq<byte>, u: seq<byte>, v: seq<byte>, upsample: bool, i: nat, j: nat)
    requires EightFit(|y|, |u|, upsample, i) && EightFit(|y|, |v|, upsample, i) && 4 * i <= j < 4 * i + 32
    ensures j / 4 < |y| && SampleOf(j / 4, upsample) < |u| && SampleOf(j / 4, upsample) < |v|
    ensures Eight(y, u, v, upsample, i)[j - 4 * i] == BgraAt(y, u, v, upsample, j)
  {
    hide Eight, BgraAt, SampleOf, EightFit;
    var lane, p, c := Digits(j - 4 * i);
    ByteOfEight(y, u, v, upsample, i, lane, p, c, i + (4 * lane + p), j);
  }

  /** Byte `j` of the row. */
  ghost predicate IsBgra(b: int, y: seq<byte>, u: seq<byte>, v: seq<byte>, upsample: bool, j: nat) {
    && j / 4 < |y| && SampleOf(j / 4, upsample) < |u| && SampleOf(j / 4, upsample) < |v|
    && b == BgraAt(y, u, v, upsample, j) as int
  }

  lemma {:induction false} EightIsBgra(y: seq<byte>, u: seq<byte>, v: seq<byte>, upsample: bool, i: nat)
    requires EightFit(|y|, |u|, upsample, i) && EightFit(|y|, |v|, upsample, i)
    ensures AreBytes(Eight(y, u, v, upsample, i))
    ensures forall k | 0 <= k < 32 :: IsBgra(Eight(y, u, v, upsample, i)[k], y, u, v, upsample, 4 * i + k)
  {
    hide Eight, BgraAt, SampleOf, EightFit;
    forall k | 0 <= k < 32
      ensures IsBgra(Eight(y, u, v, upsample, i)[k], y, u, v, upsample, 4 * i + k)
    {
      ByteAfter(y, u, v, upsample, i, 4 * i + k);
    }
  }

  lemma {:induction false} PlacedIsBgra(
    placed: seq<byte>, lanes: Lanes, y: seq<byte>, u: seq<byte>, v: seq<byte>, upsample: bool, i: nat)
    requires |lanes| == 32 && 4 * i + 32 <= |placed|
    requires forall j | 4 * i <= j < 4 * i + 32 :: placed[j] == lanes[j - 4 * i]
    requires forall k | 0 <= k < 32 :: IsBgra(lanes[k], y, u, v, upsample, 4 * i + k)
    ensures forall j | 4 * i <= j < 4 * i + 32 :: IsBgra(placed[j], y, u, v, upsample, j)
  {
    hide *;
    forall j | 4 * i <= j < 4 * i + 32
      ensures IsBgra(placed[j], y, u, v, upsample, j)
    {
      assert IsBgra(lanes[j - 4 * i], y, u, v, upsample, 4 * i + (j - 4 * i));
    }
  }

  method StoreEight(y: seq<byte>, u: seq<byte>, v: seq<byte>, out: array<byte>, upsample: bool, i: nat)
    requires EightFit(|y|, |u|, upsample, i) && EightFit(|y|, |v|, upsample, i) && out.Length >= 4 * |y|
    modifies out
    ensures 4 * i + 32 <= out.Length
    ensures forall j | 4 * i <= j < 4 * i + 32 :: IsBgra(out[j], y, u, v, upsample, j)
    ensures forall j | 0 <= j < out.Length && !(4 * i <= j < 4 * i + 32) :: out[j] == old(out[j])
  {
    hide *;
    FitEnds(|y|, |u|, upsample, i);
    EightIsBgra(y, u, v, upsample, i);
    var bytes := Eight(y, u, v, upsample, i);
    Store(out, 4 * i, bytes);
    PlacedIsBgra(out[..], bytes, y, u, v, upsample, i);
  }

  /** The bytes of the row so far, spelled out. */
  lemma {:induction false} Unfolded(s: seq<byte>, y: seq<byte>, u: seq<byte>, v: seq<byte>, upsample: bool)
    requires forall j | 0 <= j < |s| :: IsBgra(s[j], y, u, v, upsample, j)
    ensures forall j | 0 <= j < |s| ::
              && j / 4 < |y| && SampleOf(j / 4, upsample) < |u| && SampleOf(j / 4, upsample) < |v|
              && s[j] == BgraAt(y, u, v, upsample, j)
  {
    hide BgraAt, SampleOf;
    forall j | 0 <= j < |s|
      ensures j / 4 < |y| && SampleOf(j / 4, upsample) < |u| && SampleOf(j / 4, upsample) < |v|
      ensures s[j] == BgraAt(y, u, v, upsample, j)
    {
      assert IsBgra(s[j], y, u, v, upsample, j);
    }
  }

  /** BGRA, eight pixels at a time, the rest by the scalar loop. */
  method RowBgraAvx2(y: seq<byte>, u: seq<byte>, v: seq<byte>, out: array<byte>, upsample: bool)
    requires Covers(|y|, |u|, upsample) && Covers(|y|, |v|, upsample) && out.Length >= 4 * |y|
    modifies out
    ensures forall j | 0 <= j < 4 * |y| :: out[j] == BgraAt(y, u, v, upsample, j)
    ensures forall j | 4 * |y| <= j < out.Length :: out[j] == old(out[j])
  {
    var n := |y| / 8 * 8;
    var i := 0;
    hide IsBgra;
    while i < n
      invariant i <= n && i % 8 == 0
      invariant forall j | 0 <= j < 4 * i :: IsBgra(out[j], y, u, v, upsample, j)
      invariant forall j | 4 * |y| <= j < out.Length :: out[j] == old(out[j])
    {
      CoversEight(|y|, |u|, upsample, i);
      CoversEight(|y|, |v|, upsample, i);
      StoreEight(y, u, v, out, upsample, i);
      i := i + 8;
    }
    Unfolded(out[..4 * n], y, u, v, upsample);
    RowBgra(y, u, v, out, upsample, n);
  }
}
