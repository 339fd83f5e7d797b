/** UTF-8 (RFC 3629) and white space, on bytes. */
module Utf8 {
  import opened Common

  type Bytes = seq<byte>

  predicate Tail(b: byte) { 0x80 <= b <= 0xBF }

  /** The length of the character these bytes begin with; 0 when there is
      none. */
  function CharLength(s: Bytes): (n: nat)
    ensures n <= |s| && n <= 4
  {
    if s == [] then 0
    else if s[0] <= 0x7F then 1
    else if |s| >= 2 && 0xC2 <= s[0] <= 0xDF && Tail(s[1]) then 2
    else if |s| >= 3 && Tail(s[1]) && Tail(s[2])
         && ((s[0] == 0xE0 && s[1] >= 0xA0) || 0xE1 <= s[0] <= 0xEC || (s[0] == 0xED && s[1] <= 0x9F) || 0xEE <= s[0] <= 0xEF) then 3
    else if |s| >= 4 && Tail(s[1]) && Tail(s[2]) && Tail(s[3])
         && ((s[0] == 0xF0 && s[1] >= 0x90) || 0xF1 <= s[0] <= 0xF3 || (s[0] == 0xF4 && s[1] <= 0x8F)) then 4
    else 0
  }

  predicate ValidUtf8(s: Bytes) {
    s == [] || (CharLength(s) > 0 && ValidUtf8(s[CharLength(s)..]))
  }

  // ---- White space (Unicode White_Space) ----

  /** Bytes of the white space character in front. */
  function WhiteInFront(s: Bytes): (n: nat)
    ensures n <= |s|
  {
    if s == [] then 0
    else if 9 <= s[0] <= 13 || s[0] == 32 then 1
    else if |s| >= 2 && s[0] == 0xC2 && (s[1] == 0x85 || s[1] == 0xA0) then 2
    else if |s| >= 3 && WideWhite(s[0], s[1], s[2]) then 3
    else 0
  }

  function WhiteBehind(s: Bytes): (n: nat)
    ensures n <= |s|
  {
    var k := |s|;
    if s == [] then 0
    else if 9 <= s[k - 1] <= 13 || s[k - 1] == 32 then 1
    else if k >= 2 && s[k - 2] == 0xC2 && (s[k - 1] == 0x85 || s[k - 1] == 0xA0) then 2
    else if k >= 3 && WideWhite(s[k - 3], s[k - 2], s[k - 1]) then 3
    else 0
  }

  predicate WideWhite(a: byte, b: byte, c: byte) {
    || (a == 0xE1 && b == 0x9A && c == 0x80)
    || (a == 0xE2 && b == 0x80 && (0x80 <= c <= 0x8A || c == 0xA8 || c == 0xA9 || c == 0xAF))
    || (a == 0xE2 && b == 0x81 && c == 0x9F)
    || (a == 0xE3 && b == 0x80 && c == 0x80)
  }

  function TrimFront(s: Bytes): Bytes
    decreases |s|
  {
    if WhiteInFront(s) == 0 then s else TrimFront(s[WhiteInFront(s)..])
  }

  function TrimBehind(s: Bytes): Bytes
    decreases |s|
  {
    if WhiteBehind(s) == 0 then s else TrimBehind(s[..|s| - WhiteBehind(s)])
  }

  function Trim(s: Bytes): Bytes { TrimBehind(TrimFront(s)) }

  // ---- Text as Unicode scalar values ----

  predicate IsScalar(c: nat) { c < 0xD800 || 0xE000 <= c <= 0x10FFFF }

  predicate IsWhite(c: nat) {
    || 0x9 <= c <= 0xD || c == 0x20 || c == 0x85 || c == 0xA0 || c == 0x1680 || 0x2000 <= c <= 0x200A
    || c == 0x2028 || c == 0x2029 || c == 0x202F || c == 0x205F || c == 0x3000
  }

  /** Section 3 of RFC 3629. */
  function Octets(c: nat): (s: Bytes)
    requires IsScalar(c)
    ensures 1 <= |s| <= 4
  {
    if c < 0x80 then [c]
    else if c < 0x800 then [0xC0 + c / 64, 0x80 + c % 64]
    else if c < 0x10000 then [0xE0 + c / 64 / 64, 0x80 + c / 64 % 64, 0x80 + c % 64]
    else [0xF0 + c / 64 / 64 / 64, 0x80 + c / 64 / 64 % 64, 0x80 + c / 64 % 64, 0x80 + c % 64]
  }

  predicate AllScalar(cs: seq<nat>) {
    forall i | 0 <= i < |cs| :: IsScalar(cs[i])
  }

  predicate AllWhite(cs: seq<nat>) {
    forall i | 0 <= i < |cs| :: IsWhite(cs[i])
  }

  function Text(cs: seq<nat>): Bytes
    requires AllScalar(cs)
  {
    if cs == [] then [] else Octets(cs[0]) + Text(cs[1..])
  }

  lemma {:induction false} TextInParts(a: seq<nat>, b: seq<nat>)
    requires AllScalar(a) && AllScalar(b)
    ensures Text(a + b) == Text(a) + Text(b)
  {
    if a == [] {
      assert a + b == b;
    } else {
      TextInParts(a[1..], b);
      assert (a + b)[1..] == a[1..] + b;
    }
  }

  lemma {:induction false} OctetsAreOneCharacter(c: nat, rest: Bytes)
    requires IsScalar(c)
    ensures CharLength(Octets(c) + rest) == |Octets(c)|
  {
  }

  /** The scalar value of the character in front, six bits at a time. */
  function Front(s: Bytes): nat
    requires CharLength(s) > 0
  {
    var n := CharLength(s);
    if n == 1 then s[0]
    else if n == 2 then Joined(s[0] - 0xC0, s[1])
    else if n == 3 then Joined(Joined(s[0] - 0xE0, s[1]), s[2])
    else Joined(Joined(Joined(s[0] - 0xF0, s[1]), s[2]), s[3])
  }

  function Joined(high: nat, low: byte): (r: nat)
    requires Tail(low)
    ensures r / 64 == high && r % 64 == low - 0x80
  {
    64 * high + (low - 0x80)
  }

  lemma {:induction false} FrontIsAScalar(s: Bytes)
    requires CharLength(s) > 0
    ensures IsScalar(Front(s)) && Octets(Front(s)) == s[..CharLength(s)]
  {
    var n := CharLength(s);
    CharacterAlone(s);
    hide CharLength, Octets, IsScalar, Tail;
    if n == 1 {
      OneByte(s[0]);
      assert s[..1] == [s[0]];
    } else if n == 2 {
      TwoBytes(s[0], s[1]);
      assert s[..2] == [s[0], s[1]];
    } else if n == 3 {
      ThreeBytes(s[0], s[1], s[2]);
      assert s[..3] == [s[0], s[1], s[2]];
    } else {
      FourBytes(s[0], s[1], s[2], s[3]);
      assert s[..4] == [s[0], s[1], s[2], s[3]];
    }
  }

  lemma {:induction false} CharacterAlone(s: Bytes)
    requires CharLength(s) > 0
    ensures CharLength(s) == 1 ==> CharLength([s[0]]) == 1
    ensures CharLength(s) == 2 ==> CharLength([s[0], s[1]]) == 2
    ensures CharLength(s) == 3 ==> CharLength([s[0], s[1], s[2]]) == 3
    ensures CharLength(s) == 4 ==> CharLength([s[0], s[1], s[2], s[3]]) == 4
  {
  }

  lemma {:induction false} OneByte(a: byte)
    requires CharLength([a]) == 1
    ensures IsScalar(a) && Octets(a) == [a]
  {
  }

  lemma {:induction false} TwoBytes(a: byte, b: byte)
    requires CharLength([a, b]) == 2
    ensures Tail(b) && a >= 0xC0
    ensures var r := Joined(a - 0xC0, b); IsScalar(r) && Octets(r) == [a, b]
  {
  }

  lemma {:induction false} ThreeBytes(a: byte, b: byte, c: byte)
    requires CharLength([a, b, c]) == 3
    ensures Tail(b) && Tail(c) && a >= 0xE0
    ensures var r := Joined(Joined(a - 0xE0, b), c); IsScalar(r) && Octets(r) == [a, b, c]
  {
  }

  lemma {:induction false} FourBytes(a: byte, b: byte, c: byte, d: byte)
    requires CharLength([a, b, c, d]) == 4
    ensures Tail(b) && Tail(c) && Tail(d) && a >= 0xF0
    ensures var r := Joined(Joined(Joined(a - 0xF0, b), c), d); IsScalar(r) && Octets(r) == [a, b, c, d]
  {
    assert Tail(b) && Tail(c) && Tail(d);
    var x := Joined(a - 0xF0, b);
    assert 0x10 <= x <= 0x10F;
    var y := Joined(x, c);
    assert 0x400 <= y <= 0x43FF;
    var r := Joined(y, d);
    assert 0x10000 <= r <= 0x10FFFF;
    hide Joined, CharLength;
    assert Octets(r) == [0xF0 + x / 64, 0x80 + x % 64, 0x80 + y % 64, 0x80 + r % 64];
  }

  /** Exactly the encodings of sequences of scalar values. */
  lemma {:induction false} ValidUtf8IsText(s: Bytes)
    ensures ValidUtf8(s) <==> exists cs :: AllScalar(cs) && Text(cs) == s
  {
    if ValidUtf8(s) {
      var cs := Scalars(s);
    }
    forall cs | AllScalar(cs) && Text(cs) == s
      ensures ValidUtf8(s)
    {
      TextIsValid(cs);
    }
  }

  lemma {:induction false} Scalars(s: Bytes) returns (cs: seq<nat>)
    requires ValidUtf8(s)
    ensures AllScalar(cs) && Text(cs) == s
  {
    cs := [];
    if s != [] {
      FrontIsAScalar(s);
      hide CharLength, Octets, Front, IsScalar;
      var n := CharLength(s);
      var rest := Scalars(s[n..]);
      cs := [Front(s)] + rest;
      assert cs[0] == Front(s) && cs[1..] == rest;
      assert Text(cs) == Octets(Front(s)) + Text(rest);
      assert s == s[..n] + s[n..];
    }
  }

  lemma {:induction false} TextIsValid(cs: seq<nat>)
    requires AllScalar(cs)
    ensures ValidUtf8(Text(cs))
  {
    if cs != [] {
      var rest := Text(cs[1..]);
      OctetsAreOneCharacter(cs[0], rest);
      hide CharLength, Octets, IsScalar;
      TextIsValid(cs[1..]);
      assert Text(cs)[|Octets(cs[0])|..] == rest;
    }
  }

  // ---- Trimming takes exactly the white space ----

  lemma {:induction false} WhiteExactly(c: nat, rest: Bytes)
    requires IsScalar(c)
    ensures WhiteInFront(Octets(c) + rest) == if IsWhite(c) then |Octets(c)| else 0
  {
  }

  lemma {:induction false} WhiteBehindExactly(c: nat, rest: Bytes)
    requires IsScalar(c)
    ensures WhiteBehind(rest + Octets(c)) == if IsWhite(c) then |Octets(c)| else 0
  {
  }

  lemma {:induction false} TrimFrontOf(front: seq<nat>, rest: Bytes)
    requires AllScalar(front) && AllWhite(front)
    ensures TrimFront(Text(front) + rest) == TrimFront(rest)
  {
    if front == [] {
      assert Text(front) + rest == rest;
    } else {
      var more := Text(front[1..]) + rest;
      assert Text(front) + rest == Octets(front[0]) + more;
      WhiteExactly(front[0], more);
      TrimFrontOf(front[1..], rest);
      hide WhiteInFront, Octets;
      assert (Octets(front[0]) + more)[|Octets(front[0])|..] == more;
    }
  }

  lemma {:induction false} TrimBehindOf(rest: Bytes, behind: seq<nat>)
    requires AllScalar(behind) && AllWhite(behind)
    ensures TrimBehind(rest + Text(behind)) == TrimBehind(rest)
  {
    if behind == [] {
      assert rest + Text(behind) == rest;
    } else {
      var n := |behind| - 1;
      var last, more := behind[n], rest + Text(behind[..n]);
      assert behind == behind[..n] + [last] && [last][1..] == [];
      TextInParts(behind[..n], [last]);
      assert Text([last]) == Octets(last);
      assert rest + Text(behind) == more + Octets(last);
      WhiteBehindExactly(last, more);
      TrimBehindOf(rest, behind[..n]);
      hide WhiteBehind, Octets;
      assert (more + Octets(last))[..|more|] == more;
    }
  }

  /** Text loses the white space at both ends, and nothing else. */
  lemma {:induction false} TrimTakesTheWhiteSpace(front: seq<nat>, inner: seq<nat>, behind: seq<nat>)
    requires AllScalar(front) && AllScalar(inner) && AllScalar(behind) && AllWhite(front) && AllWhite(behind)
    requires inner != [] ==> !IsWhite(inner[0]) && !IsWhite(inner[|inner| - 1])
    ensures Trim(Text(front) + Text(inner) + Text(behind)) == Text(inner)
  {
    var t := Text(inner) + Text(behind);
    assert Text(front) + Text(inner) + Text(behind) == Text(front) + t;
    TrimFrontOf(front, t);
    if inner == [] {
      assert t == Text(behind) + [];
      TrimFrontOf(behind, []);
      assert Text(inner) == [];
    } else {
      NotWhiteAtTheEnds(inner, Text(behind));
      TrimBehindOf(Text(inner), behind);
    }
  }

  lemma {:induction false} NotWhiteAtTheEnds(inner: seq<nat>, rest: Bytes)
    requires AllScalar(inner) && inner != [] && !IsWhite(inner[0]) && !IsWhite(inner[|inner| - 1])
    ensures TrimFront(Text(inner) + rest) == Text(inner) + rest
    ensures TrimBehind(Text(inner)) == Text(inner)
  {
    var n := |inner| - 1;
    var more := Text(inner[1..]) + rest;
    assert Text(inner) + rest == Octets(inner[0]) + more;
    WhiteExactly(inner[0], more);
    assert inner == inner[..n] + [inner[n]] && [inner[n]][1..] == [];
    TextInParts(inner[..n], [inner[n]]);
    assert Text([inner[n]]) == Octets(inner[n]);
    WhiteBehindExactly(inner[n], Text(inner[..n]));
  }
}
