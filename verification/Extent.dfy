/** The sizes a stream is encoded at: shrunk to a level's share, to what the
    encoder takes and to what the client's window shows. */
module Extent {
  datatype Size = Size(width: nat, height: nat)

  function Even(n: nat): nat { n - n % 2 }

  function AtLeast(n: nat, low: nat): nat { if n < low then low else n }

  function AtMost(n: nat, high: nat): nat { if n > high then high else n }

  function Floor(x: real): nat { if x < 0.0 then 0 else x.Floor }

  function Quotient(a: nat, b: nat): real
    requires b > 0
  {
    a as real / b as real
  }

  function Product(a: real, b: real): real { a * b }

  /** Rounded down. */
  function Times(n: nat, scale: real): nat { Floor(Product(n as real, scale)) }

  /** Rounded to the nearest. */
  function Nearest(n: nat, scale: real): nat { Floor(Product(n as real, scale) + 0.5) }

  /** The largest size of this shape the encoder takes. */
  function FitExtent(s: Size, max: Size): Size {
    var maxW, maxH := max.width - max.width % 16, max.height - max.height % 16;
    if s.width <= maxW && s.height <= maxH then s
    else
      var byW, byH := Quotient(maxW, AtLeast(s.width, 1)), Quotient(maxH, AtLeast(s.height, 1));
      ShrunkBy(s, if byW < byH then byW else byH)
  }

  function ShrunkBy(s: Size, scale: real): Size {
    Size(AtLeast(Even(Times(s.width, scale)), 2), AtLeast(Even(Times(s.height, scale)), 2))
  }

  /** A level's part of the full size. */
  function LevelSize(base: Size, scale: real): Size {
    Size(Even(AtLeast(Times(base.width, scale), 2)), Even(AtLeast(Times(base.height, scale), 2)))
  }

  /** A screen fitted into the client's window, never enlarged. */
  function MirrorSize(output: Size, window: Size): Size {
    var byW, byH := Quotient(window.width, AtLeast(output.width, 1)), Quotient(window.height, AtLeast(output.height, 1));
    var least := if byW < byH then byW else byH;
    var fit := if least < 1.0 then least else 1.0;
    Size(Even(AtLeast(Nearest(output.width, fit), 2)), Even(AtLeast(Nearest(output.height, fit), 2)))
  }

  // ---- Products and quotients ----

  lemma {:induction false} Ordered(a: real, b: real, m: real)
    requires m > 0.0
    ensures a < b <==> Product(a, m) < Product(b, m)
    ensures Product(a, m) == Product(m, a)
  {
  }

  lemma {:induction false} ByQuotient(n: real, a: nat, b: nat)
    requires b > 0
    ensures Product(Product(n, Quotient(a, b)), b as real) == Product(n, a as real)
  {
    var q, d := Quotient(a, b), b as real;
    assert q * d == a as real;
    assert n * q * d == n * (q * d);
  }

  /** Which of two ratios is the smaller. */
  lemma {:induction false} SmallerRatio(a: nat, b: nat, c: nat, d: nat)
    requires b > 0 && d > 0
    ensures Quotient(a, b) < Quotient(c, d) <==> Product(a as real, d as real) < Product(c as real, b as real)
  {
    var e, f := b as real, d as real;
    ByQuotient(f, a, b);
    ByQuotient(e, c, d);
    var x, y := Quotient(a, b), Quotient(c, d);
    hide Quotient;
    Ordered(x, y, e);
    Ordered(Product(x, e), Product(y, e), f);
    assert Product(Product(x, e), f) == Product(Product(f, x), e);
    assert Product(Product(y, e), f) == Product(Product(e, y), f);
    Ordered(a as real, a as real, f);
    Ordered(c as real, c as real, e);
  }

  // ---- What these sizes are ----

  predicate IsEven(s: Size) {
    s.width % 2 == s.height % 2 == 0 && s.width >= 2 && s.height >= 2
  }

  /** An encoder of this maximum takes the size: it codes whole blocks of 16. */
  predicate Takes(max: Size, s: Size) {
    s.width <= max.width / 16 * 16 && s.height <= max.height / 16 * 16
  }

  /** The even number just under `x`, and at least 2. */
  ghost predicate EvenUnder(r: nat, x: real) {
    r % 2 == 0 && r >= 2 && (r == 2 || r as real <= x) && x < (r + 2) as real
  }

  /** The even number just under `n * num / den`, and at least 2. */
  ghost predicate EvenShare(r: nat, n: nat, num: nat, den: nat) {
    && r % 2 == 0 && r >= 2
    && (r == 2 || Product(r as real, den as real) <= Product(n as real, num as real))
    && Product(n as real, num as real) < Product((r + 2) as real, den as real)
  }

  /** The size itself if the encoder takes it; else both sides by the factor
      that brings the side that is too long by more down to the encoder's
      maximum, in whole blocks of 16. */
  ghost predicate Fitted(r: Size, s: Size, max: Size) {
    var wide, high := max.width / 16 * 16, max.height / 16 * 16;
    var w, h := AtLeast(s.width, 1), AtLeast(s.height, 1);
    if Takes(max, s) then r == s
    else if Product(wide as real, h as real) < Product(high as real, w as real) then
      EvenShare(r.width, s.width, wide, w) && EvenShare(r.height, s.height, wide, w)
    else EvenShare(r.width, s.width, high, h) && EvenShare(r.height, s.height, high, h)
  }

  /** A part of the full size with even sides, as far as the encoder takes it. */
  ghost predicate Shared(r: Size, base: Size, scale: real, max: Size) {
    exists part: Size ::
      && EvenUnder(part.width, Product(base.width as real, scale))
      && EvenUnder(part.height, Product(base.height as real, scale))
      && Fitted(r, part, max)
  }

  lemma {:induction false} EvenIsUnder(x: real)
    ensures EvenUnder(AtLeast(Even(Floor(x)), 2), x) && Even(AtLeast(Floor(x), 2)) == AtLeast(Even(Floor(x)), 2)
  {
  }

  lemma {:induction false} BothShrink(s: Size, num: nat, den: nat)
    requires den > 0
    ensures var r := ShrunkBy(s, Quotient(num, den));
            EvenShare(r.width, s.width, num, den) && EvenShare(r.height, s.height, num, den)
  {
    hide Product, Quotient;
    UnderIsShare(s.width, num, den);
    UnderIsShare(s.height, num, den);
  }

  lemma {:induction false} UnderIsShare(n: nat, num: nat, den: nat)
    requires den > 0
    ensures EvenShare(AtLeast(Even(Times(n, Quotient(num, den))), 2), n, num, den)
  {
    hide Product, Quotient;
    var x := Product(n as real, Quotient(num, den));
    EvenIsUnder(x);
    var r := AtLeast(Even(Floor(x)), 2);
    ByQuotient(n as real, num, den);
    Ordered(x, r as real, den as real);
    Ordered(x, (r + 2) as real, den as real);
  }

  lemma {:induction false} FitExtentIsTheLargest(s: Size, max: Size)
    ensures Fitted(FitExtent(s, max), s, max)
  {
    hide Product, Quotient, EvenShare, ShrunkBy;
    var wide, high := max.width / 16 * 16, max.height / 16 * 16;
    var w, h := AtLeast(s.width, 1), AtLeast(s.height, 1);
    assert wide == max.width - max.width % 16 && high == max.height - max.height % 16;
    SmallerRatio(wide, w, high, h);
    BothShrink(s, wide, w);
    BothShrink(s, high, h);
  }

  /** The encoder takes what was fitted to it. The sides are even exactly unless
      the size fitted as it was and had an odd one. */
  lemma {:induction false} FittedIsTaken(r: Size, s: Size, max: Size)
    requires Fitted(r, s, max) && max.width >= 16 && max.height >= 16
    ensures Takes(max, r)
    ensures r.width % 2 == r.height % 2 == 0 <==> Takes(max, s) ==> s.width % 2 == s.height % 2 == 0
  {
    hide Product;
    var wide, high := max.width / 16 * 16, max.height / 16 * 16;
    var w, h := AtLeast(s.width, 1), AtLeast(s.height, 1);
    if !Takes(max, s) {
      if Product(wide as real, h as real) < Product(high as real, w as real) {
        ShareFits(r.width, s.width, wide, w, wide, w);
        ShareFits(r.height, s.height, wide, w, high, h);
      } else {
        Ordered(high as real, wide as real, w as real);
        ShareFits(r.width, s.width, high, h, wide, w);
        ShareFits(r.height, s.height, high, h, high, h);
      }
    }
  }

  /** An odd size that fits stays odd. */
  lemma {:induction false} AnOddSizeIsKept()
    ensures FitExtent(Size(641, 480), Size(4096, 4096)) == Size(641, 480)
  {
  }

  lemma {:induction false} ShareFits(r: nat, n: nat, num: nat, den: nat, limit: nat, m: nat)
    requires den > 0 && n <= m && limit >= 2 && num > 0 && EvenShare(r, n, num, den)
    requires Product(num as real, m as real) <= Product(limit as real, den as real)
    ensures r <= limit && r % 2 == 0
  {
    hide Product;
    Ordered(m as real, n as real, num as real);
    Ordered(limit as real, r as real, den as real);
  }

  lemma {:induction false} LevelSizeIsTheShare(base: Size, scale: real, max: Size)
    ensures Shared(FitExtent(LevelSize(base, scale), max), base, scale, max)
  {
    hide Product;
    var part := LevelSize(base, scale);
    EvenIsUnder(Product(base.width as real, scale));
    EvenIsUnder(Product(base.height as real, scale));
    hide EvenUnder, Fitted, FitExtent;
    FitExtentIsTheLargest(part, max);
  }

  /** Even sides, and no side over the base's; an even base that the encoder
      takes is not changed at full scale. */
  lemma {:induction false} SharesAreSmall(r: Size, base: Size, scale: real, max: Size)
    requires Shared(r, base, scale, max) && 0.0 <= scale <= 1.0
    ensures IsEven(r) && r.width <= AtLeast(base.width, 2) && r.height <= AtLeast(base.height, 2)
    ensures scale == 1.0 && IsEven(base) && Takes(max, base) ==> r == base
  {
    hide Product, Fitted;
    var part: Size :|
      && EvenUnder(part.width, Product(base.width as real, scale))
      && EvenUnder(part.height, Product(base.height as real, scale))
      && Fitted(r, part, max);
    PartIsSmall(part.width, base.width, scale);
    PartIsSmall(part.height, base.height, scale);
    hide EvenUnder;
    FittedIsSmall(r, part, max);
  }

  lemma {:induction false} PartIsSmall(r: nat, n: nat, scale: real)
    requires EvenUnder(r, Product(n as real, scale)) && 0.0 <= scale <= 1.0
    ensures r % 2 == 0 && 2 <= r <= AtLeast(n, 2) && (scale == 1.0 && n % 2 == 0 && n >= 2 ==> r == n)
  {
    var x := n as real;
    assert Product(1.0, x) == x && Product(x, scale) == Product(scale, x);
    assert n == 0 ==> Product(scale, x) == 0.0;
    hide Product;
    if n > 0 {
      Ordered(1.0, scale, x);
    }
  }

  lemma {:induction false} FittedIsSmall(r: Size, s: Size, max: Size)
    requires Fitted(r, s, max) && IsEven(s)
    ensures IsEven(r) && r.width <= s.width && r.height <= s.height && (Takes(max, s) ==> r == s)
  {
    hide Product, EvenShare;
    var wide, high := max.width / 16 * 16, max.height / 16 * 16;
    if !Takes(max, s) {
      if Product(wide as real, s.height as real) < Product(high as real, s.width as real) {
        RatioIsSmall(wide, s.width, high, s.height);
        ShareIsSmall(r.width, s.width, wide, s.width);
        ShareIsSmall(r.height, s.height, wide, s.width);
      } else {
        RatioIsSmall(high, s.height, wide, s.width);
        ShareIsSmall(r.width, s.width, high, s.height);
        ShareIsSmall(r.height, s.height, high, s.height);
      }
    }
  }

  /** Of two ratios, one of them under one, the smaller is. */
  lemma {:induction false} RatioIsSmall(num: nat, den: nat, num': nat, den': nat)
    requires den > 0 && den' > 0 && (num < den || num' < den')
    requires Product(num as real, den' as real) <= Product(num' as real, den as real)
    ensures num <= den
  {
    hide Product;
    Ordered(den as real, num as real, den' as real);
    Ordered(num' as real, den' as real, den as real);
  }

  lemma {:induction false} ShareIsSmall(r: nat, n: nat, num: nat, den: nat)
    requires den > 0 && num <= den && EvenShare(r, n, num, den) && n >= 2
    ensures r % 2 == 0 && 2 <= r <= n
  {
    hide Product;
    Ordered(den as real, num as real, n as real);
    Ordered(num as real, den as real, n as real);
    Ordered(n as real, r as real, den as real);
  }

  /** Into the window and never over the screen itself; a screen that fits keeps
      its size, and one that does not fills the window in one direction. */
  lemma {:induction false} MirrorFillsTheWindow(output: Size, window: Size)
    requires output.width >= 2 && output.height >= 2 && window.width >= 2 && window.height >= 2
    ensures var r, room := MirrorSize(output, window), Size(AtMost(output.width, window.width), AtMost(output.height, window.height));
            && r.width % 2 == r.height % 2 == 0
            && r.width <= Even(room.width) && r.height <= Even(room.height)
            && (r.width == Even(room.width) || r.height == Even(room.height))
            && (room == output ==> r == Size(Even(output.width), Even(output.height)))
  {
    hide Quotient, Nearest;
    var byW, byH := Quotient(window.width, output.width), Quotient(window.height, output.height);
    var least := if byW < byH then byW else byH;
    var fit := if least < 1.0 then least else 1.0;
    NearestUpTo(output.width, fit, window.width);
    NearestUpTo(output.height, fit, window.height);
  }

  lemma {:induction false} NearestUpTo(n: nat, fit: real, window: nat)
    requires n > 0
    ensures fit <= 1.0 && fit <= Quotient(window, n) ==> Nearest(n, fit) <= AtMost(n, window)
    ensures fit == Quotient(window, n) ==> Nearest(n, fit) == window
    ensures fit == 1.0 ==> Nearest(n, fit) == n
    ensures Quotient(window, n) < 1.0 <==> window < n
  {
    var x, ratio := n as real, Quotient(window, n);
    ByQuotient(1.0, window, n);
    assert Product(1.0, x) == x && Product(1.0, ratio) == ratio && Product(1.0, window as real) == window as real;
    hide Product, Quotient;
    Ordered(1.0, fit, x);
    Ordered(ratio, fit, x);
    Ordered(ratio, 1.0, x);
  }
}
