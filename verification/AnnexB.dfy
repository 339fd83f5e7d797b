/** Splitting an Annex B byte stream at its start codes. */
module AnnexB {
  import opened Common

  const NAL_SLICE := 1
  const NAL_IDR := 5
  const NAL_SPS := 7
  const NAL_PPS := 8

  const START_CODE: seq<byte> := [0, 0, 1]

  datatype Nal = Nal(nalType: nat, refIdc: nat, data: seq<byte>)

  /** The unit with the header fields of its first byte. */
  function Classified(unit: seq<byte>): Nal
    requires unit != []
  {
    Nal(unit[0] % 32, unit[0] / 32 % 4, unit)
  }

  predicate IsStart(d: seq<byte>, i: nat) {
    i + 3 <= |d| && d[i] == 0 && d[i + 1] == 0 && d[i + 2] == 1
  }

  /** Where the first start code at or behind `i` begins, or the end. */
  function FirstStart(d: seq<byte>, i: nat): (r: nat)
    requires i <= |d|
    ensures i <= r <= |d|
    ensures r < |d| ==> r + 3 <= |d|
    decreases |d| - i
  {
    if i + 3 > |d| then |d| else if IsStart(d, i) then i else FirstStart(d, i + 1)
  }

  lemma {:induction false} NoStartIsPassed(d: seq<byte>, i: nat)
    requires i <= |d|
    ensures FirstStart(d, i) < |d| ==> IsStart(d, FirstStart(d, i))
    ensures forall j | i <= j < FirstStart(d, i) :: !IsStart(d, j)
    decreases |d| - i
  {
    if i + 3 <= |d| && !IsStart(d, i) {
      NoStartIsPassed(d, i + 1);
    }
  }

  lemma {:induction false} FirstStartIsUnique(d: seq<byte>, i: nat, r: nat)
    requires i <= r && IsStart(d, r)
    requires forall j | i <= j < r :: !IsStart(d, j)
    ensures FirstStart(d, i) == r
  {
    NoStartIsPassed(d, i);
    assert !(FirstStart(d, i) < r);
  }

  /** How much of the first `n` bytes is left without the zeros at their end. */
  function TrimmedLength(s: seq<byte>, n: nat): (r: nat)
    requires n <= |s|
    ensures r <= n
  {
    if n > 0 && s[n - 1] == 0 then TrimmedLength(s, n - 1) else n
  }

  lemma {:induction false} OnlyZerosAreTrimmed(s: seq<byte>, n: nat)
    requires n <= |s|
    ensures var r := TrimmedLength(s, n);
            && (r > 0 ==> s[r - 1] != 0)
            && forall i | r <= i < n :: s[i] == 0
  {
    if n > 0 && s[n - 1] == 0 {
      OnlyZerosAreTrimmed(s, n - 1);
    }
  }

  function TrimZeros(s: seq<byte>): seq<byte> {
    s[..TrimmedLength(s, |s|)]
  }

  /** What lies between the start codes from a body that begins at `body` on,
      without the zeros behind it. */
  function Cuts(d: seq<byte>, body: nat): (cuts: seq<seq<byte>>)
    requires body <= |d|
    ensures cuts != []
    decreases |d| - body
  {
    var end := FirstStart(d, body);
    [TrimZeros(d[body..end])] + if end < |d| then Cuts(d, end + 3) else []
  }

  function AllCuts(d: seq<byte>): seq<seq<byte>> {
    var first := FirstStart(d, 0);
    if first < |d| then Cuts(d, first + 3) else []
  }

  /** The units among the cuts: the ones with a header byte. */
  function Classify(cuts: seq<seq<byte>>): seq<Nal> {
    if cuts == [] then []
    else (if cuts[0] == [] then [] else [Classified(cuts[0])]) + Classify(cuts[1..])
  }

  lemma {:induction false} ClassifyAppend(cuts: seq<seq<byte>>, cut: seq<byte>)
    ensures Classify(cuts + [cut]) == Classify(cuts) + if cut == [] then [] else [Classified(cut)]
  {
    if cuts != [] {
      ClassifyAppend(cuts[1..], cut);
      assert (cuts + [cut])[1..] == cuts[1..] + [cut];
    }
  }

  /** Where the bodies begin, from a scan at `i` on. */
  function StartsFrom(d: seq<byte>, i: nat): seq<nat>
    requires i <= |d|
    decreases |d| - i
  {
    if i + 3 > |d| then [] else if IsStart(d, i) then [i + 3] + StartsFrom(d, i + 3) else StartsFrom(d, i + 1)
  }

  lemma {:induction false} StartsFollowTheFirst(d: seq<byte>, i: nat)
    requires i <= |d|
    ensures var f := FirstStart(d, i);
            StartsFrom(d, i) == if f < |d| then [f + 3] + StartsFrom(d, f + 3) else []
    decreases |d| - i
  {
    if i + 3 <= |d| && !IsStart(d, i) {
      StartsFollowTheFirst(d, i + 1);
    }
  }

  method FindBodies(data: seq<byte>) returns (starts: seq<nat>)
    ensures starts == StartsFrom(data, 0)
  {
    starts := [];
    var i := 0;
    while i + 3 <= |data|
      invariant i <= |data|
      invariant StartsFrom(data, 0) == starts + StartsFrom(data, i)
    {
      if data[i] == 0 && data[i + 1] == 0 && data[i + 2] == 1 {
        starts := starts + [i + 3];
        i := i + 3;
      } else {
        i := i + 1;
      }
    }
  }

  /** Body `n` of the scan, and what repeated search makes of it. */
  lemma {:induction false} OneBody(d: seq<byte>, starts: seq<nat>, n: nat)
    requires n < |starts| && starts[n] <= |d|
    requires starts[n + 1..] == StartsFrom(d, starts[n])
    ensures n + 1 < |starts| ==> starts[n + 1] <= |d| && starts[n + 2..] == StartsFrom(d, starts[n + 1])
    ensures var end := if n + 1 < |starts| then starts[n + 1] - 3 else |d|;
            && starts[n] <= end <= |d|
            && Cuts(d, starts[n]) ==
               [TrimZeros(d[starts[n]..end])] + if n + 1 < |starts| then Cuts(d, starts[n + 1]) else []
  {
    StartsFollowTheFirst(d, starts[n]);
    assert n + 1 < |starts| ==> starts[n + 2..] == starts[n + 1..][1..];
  }

  /** The cuts from body `n` on; none are left behind the last one. */
  ghost function Left(d: seq<byte>, starts: seq<nat>, n: nat): seq<seq<byte>>
    requires n < |starts| ==> starts[n] <= |d|
  {
    if n < |starts| then Cuts(d, starts[n]) else []
  }

  /** Cut between the bodies and trim each cut from its end. */
  method NalUnits(data: seq<byte>) returns (units: seq<Nal>)
    ensures units == Classify(AllCuts(data))
  {
    var starts := FindBodies(data);
    StartsFollowTheFirst(data, 0);
    hide StartsFrom, FirstStart, Cuts;
    units := [];
    ghost var all := AllCuts(data);
    ghost var cuts: seq<seq<byte>> := [];
    for n := 0 to |starts|
      invariant units == Classify(cuts)
      invariant n < |starts| ==> starts[n] <= |data| && starts[n + 1..] == StartsFrom(data, starts[n])
      invariant all == cuts + Left(data, starts, n)
    {
      var unit := CutOne(data, starts, n);
      if unit != [] {
        units := units + [Nal(unit[0] % 32, unit[0] / 32 % 4, unit)];
      }
      ClassifyAppend(cuts, unit);
      Regroup(cuts, unit, Left(data, starts, n + 1));
      cuts := cuts + [unit];
    }
    assert cuts + [] == cuts;
  }

  /** The bytes of body `n`, up to the next start code and without the zeros
      in front of it. */
  method CutOne(data: seq<byte>, starts: seq<nat>, n: nat) returns (unit: seq<byte>)
    requires n < |starts| && starts[n] <= |data|
    requires starts[n + 1..] == StartsFrom(data, starts[n])
    ensures n + 1 < |starts| ==> starts[n + 1] <= |data| && starts[n + 2..] == StartsFrom(data, starts[n + 1])
    ensures Left(data, starts, n) == [unit] + Left(data, starts, n + 1)
  {
    OneBody(data, starts, n);
    hide StartsFrom, FirstStart, Cuts, TrimZeros;
    var end := if n + 1 < |starts| then starts[n + 1] - 3 else |data|;
    var last := TrimmedEnd(data, starts[n], end);
    unit := data[starts[n]..last];
  }

  method TrimmedEnd(data: seq<byte>, body: nat, end: nat) returns (e: nat)
    requires body <= end <= |data|
    ensures body <= e <= end && data[body..e] == TrimZeros(data[body..end])
  {
    e := end;
    ghost var slice := data[body..end];
    while e > body && data[e - 1] == 0
      invariant body <= e <= end
      invariant TrimmedLength(slice, e - body) == TrimmedLength(slice, |slice|)
    {
      e := e - 1;
    }
  }

  /** What section B.1.1 of the H.264 recommendation asks of a unit: it is not
      empty, does not end in a zero byte and holds no start code. */
  predicate Clean(unit: seq<byte>) {
    && unit != []
    && unit[|unit| - 1] != 0
    && forall i | 0 <= i < |unit| :: !IsStart(unit, i)
  }

  function Zeros(n: nat): (z: seq<byte>)
    ensures |z| == n && forall i | 0 <= i < n :: z[i] == 0
  {
    seq(n, _ => 0)
  }

  /** A unit behind its start code, with any zero bytes in front of it: none
      for a three byte code, one for a four byte code. */
  datatype Coded = Coded(zeros: nat, unit: seq<byte>)

  function Stream(coded: seq<Coded>, trailing: nat): seq<byte> {
    if coded == [] then Zeros(trailing)
    else Zeros(coded[0].zeros) + START_CODE + coded[0].unit + Stream(coded[1..], trailing)
  }

  function Payloads(coded: seq<Coded>): seq<seq<byte>> {
    seq(|coded|, i requires 0 <= i < |coded| => coded[i].unit)
  }

  function UnitsOf(coded: seq<Coded>): seq<Nal>
    requires forall i | 0 <= i < |coded| :: coded[i].unit != []
  {
    seq(|coded|, i requires 0 <= i < |coded| => Classified(coded[i].unit))
  }

  /** Whatever the input, no cut holds a start code or ends in a zero. */
  lemma {:induction false} EveryCutIsClean(d: seq<byte>, body: nat)
    requires body <= |d|
    ensures forall cut | cut in Cuts(d, body) :: cut == [] || Clean(cut)
    decreases |d| - body
  {
    var end := FirstStart(d, body);
    OneCutIsClean(d, body);
    if end < |d| {
      EveryCutIsClean(d, end + 3);
    }
  }

  lemma {:induction false} OneCutIsClean(d: seq<byte>, body: nat)
    requires body <= |d|
    ensures var unit := TrimZeros(d[body..FirstStart(d, body)]);
            unit == [] || Clean(unit)
  {
    var s := d[body..FirstStart(d, body)];
    OnlyZerosAreTrimmed(s, |s|);
    var unit := TrimZeros(s);
    NoStartIsPassed(d, body);
    forall i | 0 <= i < |unit|
      ensures !IsStart(unit, i)
    {
      assert unit[i] == d[body + i];
      assert i + 3 <= |unit| ==> unit[i + 1] == d[body + i + 1] && unit[i + 2] == d[body + i + 2];
      assert !IsStart(d, body + i);
    }
  }

  lemma {:induction false} ClassifyKeepsOnlyCuts(cuts: seq<seq<byte>>)
    ensures forall n | n in Classify(cuts) :: n.data in cuts && n.data != [] && n == Classified(n.data)
  {
    if cuts != [] {
      ClassifyKeepsOnlyCuts(cuts[1..]);
    }
  }

  /** Whatever the input, every unit that comes out is clean and carries the
      type and reference field of its own first byte. */
  lemma {:induction false} EveryUnitIsClean(d: seq<byte>)
    ensures forall n | n in Classify(AllCuts(d)) :: Clean(n.data) && n == Classified(n.data)
  {
    ClassifyKeepsOnlyCuts(AllCuts(d));
    var first := FirstStart(d, 0);
    if first < |d| {
      EveryCutIsClean(d, first + 3);
    }
  }

  lemma {:induction false} ClassifyOfUnits(coded: seq<Coded>)
    requires forall i | 0 <= i < |coded| :: coded[i].unit != []
    ensures Classify(Payloads(coded)) == UnitsOf(coded)
  {
    if coded != [] {
      assert Payloads(coded)[1..] == Payloads(coded[1..]);
      ClassifyOfUnits(coded[1..]);
    }
  }

  /** `unit` sits at `b`, with `n` zeros and then a start code, or the end,
      behind it. */
  ghost predicate UnitAt(d: seq<byte>, b: nat, unit: seq<byte>, n: nat) {
    var z := b + |unit|;
    && z + n <= |d|
    && d[b..z] == unit
    && (forall i | z <= i < z + n :: d[i] == 0)
    && (z + n == |d| || IsStart(d, z + n))
  }

  /** The scan from behind a start code passes a clean unit and the zeros in
      front of the next start code, and stops there. */
  lemma {:induction false} ScanPassesTheUnit(d: seq<byte>, b: nat, unit: seq<byte>, n: nat)
    requires unit == [] || Clean(unit)
    requires UnitAt(d, b, unit, n)
    ensures b <= |d| && FirstStart(d, b) == b + |unit| + n
  {
    var z := b + |unit|;
    forall j | b <= j < z + n
      ensures !IsStart(d, j)
    {
      if j + 2 < z {
        assert !IsStart(unit, j - b);
        assert d[j] == unit[j - b] && d[j + 1] == unit[j + 1 - b] && d[j + 2] == unit[j + 2 - b];
      } else if j < z {
        assert d[z - 1] == unit[|unit| - 1] != 0;
      }
    }
    if z + n < |d| {
      FirstStartIsUnique(d, b, z + n);
    } else {
      NoStartIsPassed(d, b);
      assert !(FirstStart(d, b) < z + n);
    }
  }

  /** Trimming the zeros leaves the unit. */
  lemma {:induction false} TheCutIsTheUnit(d: seq<byte>, b: nat, unit: seq<byte>, n: nat)
    requires unit == [] || unit[|unit| - 1] != 0
    requires UnitAt(d, b, unit, n)
    ensures TrimZeros(d[b..b + |unit| + n]) == unit
  {
    var s := d[b..b + |unit| + n];
    var r := TrimmedLength(s, |s|);
    OnlyZerosAreTrimmed(s, |s|);
    assert forall i | 0 <= i < |unit| :: s[i] == unit[i];
    assert forall i | |unit| <= i < |s| :: s[i] == 0;
    assert s[..|unit|] == unit;
  }

  /** The zero bytes that lead a stream. */
  function LeadingZeros(coded: seq<Coded>, trailing: nat): nat {
    if coded == [] then trailing else coded[0].zeros
  }

  lemma {:induction false} UnitInStream(before: seq<byte>, unit: seq<byte>, coded: seq<Coded>, trailing: nat)
    ensures UnitAt(before + unit + Stream(coded, trailing), |before|, unit, LeadingZeros(coded, trailing))
    ensures coded == [] ==> |before + unit + Stream(coded, trailing)| == |before| + |unit| + trailing
    ensures coded != [] ==> |before| + |unit| + coded[0].zeros < |before + unit + Stream(coded, trailing)|
  {
  }

  lemma {:induction false} OneUnitReadsBack(d: seq<byte>, b: nat, unit: seq<byte>, n: nat)
    requires Clean(unit) && UnitAt(d, b, unit, n)
    ensures var stop := b + |unit| + n;
            && stop <= |d|
            && (stop < |d| ==> stop + 3 <= |d|)
            && Cuts(d, b) == [unit] + if stop < |d| then Cuts(d, stop + 3) else []
  {
    hide UnitAt, IsStart, TrimZeros, FirstStart;
    ScanPassesTheUnit(d, b, unit, n);
    TheCutIsTheUnit(d, b, unit, n);
  }

  lemma {:induction false} PayloadsFirst(coded: seq<Coded>)
    requires coded != []
    ensures Payloads(coded) == [coded[0].unit] + Payloads(coded[1..])
  {
  }

  /** The units sit in the stream one behind the other, from `b` on. */
  ghost predicate Laid(d: seq<byte>, b: nat, unit: seq<byte>, coded: seq<Coded>, trailing: nat)
    decreases |coded|
  {
    && UnitAt(d, b, unit, LeadingZeros(coded, trailing))
    && var stop := b + |unit| + LeadingZeros(coded, trailing);
       if coded == [] then stop == |d|
       else stop < |d| && Laid(d, stop + 3, coded[0].unit, coded[1..], trailing)
  }

  lemma {:induction false} UnitsAreLaid(
    d: seq<byte>, before: seq<byte>, unit: seq<byte>, coded: seq<Coded>, trailing: nat)
    requires d == before + unit + Stream(coded, trailing)
    ensures Laid(d, |before|, unit, coded, trailing)
    decreases |coded|
  {
    hide UnitAt, IsStart;
    UnitInStream(before, unit, coded, trailing);
    if coded != [] {
      StreamFromTheFirstUnit(before + unit, coded, trailing);
      UnitsAreLaid(d, before + unit + Zeros(coded[0].zeros) + START_CODE, coded[0].unit, coded[1..], trailing);
    }
  }

  /** The scan, begun anywhere, reads on from a clean unit as the units were
      written. */
  lemma {:induction false} CutsReadBack(d: seq<byte>, b: nat, unit: seq<byte>, coded: seq<Coded>, trailing: nat)
    requires Laid(d, b, unit, coded, trailing)
    requires Clean(unit) && forall i | 0 <= i < |coded| :: Clean(coded[i].unit)
    ensures Cuts(d, b) == [unit] + Payloads(coded)
    decreases |coded|
  {
    hide UnitAt, Clean, Cuts, IsStart;
    OneUnitReadsBack(d, b, unit, LeadingZeros(coded, trailing));
    if coded != [] {
      CutsReadBack(d, b + |unit| + coded[0].zeros + 3, coded[0].unit, coded[1..], trailing);
      PayloadsFirst(coded);
    }
  }

  lemma {:induction false} StreamFromTheFirstUnit(before: seq<byte>, coded: seq<Coded>, trailing: nat)
    requires coded != []
    ensures before + Stream(coded, trailing) ==
            (before + Zeros(coded[0].zeros) + START_CODE) + coded[0].unit + Stream(coded[1..], trailing)
  {
  }

  lemma {:induction false} CleanUnitsReadBack(coded: seq<Coded>, trailing: nat)
    requires forall i | 0 <= i < |coded| :: Clean(coded[i].unit)
    ensures AllCuts(Stream(coded, trailing)) == Payloads(coded)
  {
    hide UnitAt, Clean, Cuts, IsStart, FirstStart, Laid;
    var d := Stream(coded, trailing);
    UnitInStream([], [], coded, trailing);
    assert [] + [] + d == d;
    ScanPassesTheUnit(d, 0, [], LeadingZeros(coded, trailing));
    if coded != [] {
      StreamFromTheFirstUnit([], coded, trailing);
      assert [] + d == d;
      var before := [] + Zeros(coded[0].zeros) + START_CODE;
      UnitsAreLaid(d, before, coded[0].unit, coded[1..], trailing);
      CutsReadBack(d, |before|, coded[0].unit, coded[1..], trailing);
      PayloadsFirst(coded);
    }
  }

  /** Splitting gives back exactly the units that were written, in order and
      classified, if and only if every one of them is clean. */
  lemma {:induction false} SplittingUndoesFraming(coded: seq<Coded>, trailing: nat)
    requires forall i | 0 <= i < |coded| :: coded[i].unit != []
    ensures Classify(AllCuts(Stream(coded, trailing))) == UnitsOf(coded) <==>
            forall i | 0 <= i < |coded| :: Clean(coded[i].unit)
  {
    var d := Stream(coded, trailing);
    if forall i | 0 <= i < |coded| :: Clean(coded[i].unit) {
      CleanUnitsReadBack(coded, trailing);
      ClassifyOfUnits(coded);
    } else {
      var i :| 0 <= i < |coded| && !Clean(coded[i].unit);
      EveryUnitIsClean(d);
      assert UnitsOf(coded)[i].data == coded[i].unit;
    }
  }
}
