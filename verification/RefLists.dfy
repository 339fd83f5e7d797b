/** RefPicList0 of a P slice: the list the decoder builds by sorting, moving
    entries to the front and cutting the result short, next to the procedure of
    sections 8.2.4.2.1 and 8.2.4.3.1 of the H.264 recommendation. */
module RefLists {
  import opened Common
  import opened H264
  import Arithmetic

  datatype DpbPicture = DpbPicture(frameNum: nat, poc: int)

  /** A held reference picture and the surface it is in. */
  datatype Ref = Ref(slot: nat, pic: DpbPicture)

  /** FrameNumWrap, which is PicNum for frames. */
  function PicNum(frameNum: nat, current: nat, maxFrameNum: nat): int {
    if frameNum > current then frameNum - maxFrameNum else frameNum
  }

  function Key(r: Ref, current: nat, maxFrameNum: nat): int {
    PicNum(r.pic.frameNum, current, maxFrameNum)
  }

  ghost predicate DistinctKeys(l: seq<Ref>, current: nat, maxFrameNum: nat) {
    forall i, j | 0 <= i < j < |l| :: Key(l[i], current, maxFrameNum) != Key(l[j], current, maxFrameNum)
  }

  ghost predicate Absent(l: seq<Ref>, key: int, current: nat, maxFrameNum: nat) {
    forall i | 0 <= i < |l| :: Key(l[i], current, maxFrameNum) != key
  }

  // ---- Sorting by descending PicNum ----

  function InsertDescending(x: Ref, l: seq<Ref>, current: nat, maxFrameNum: nat): seq<Ref> {
    if l == [] || Key(l[0], current, maxFrameNum) <= Key(x, current, maxFrameNum) then [x] + l
    else [l[0]] + InsertDescending(x, l[1..], current, maxFrameNum)
  }

  /** A stable sort, the highest PicNum first. */
  function SortDescending(l: seq<Ref>, current: nat, maxFrameNum: nat): seq<Ref> {
    if l == [] then []
    else InsertDescending(l[0], SortDescending(l[1..], current, maxFrameNum), current, maxFrameNum)
  }

  ghost predicate Descending(l: seq<Ref>, current: nat, maxFrameNum: nat) {
    forall i, j | 0 <= i < j < |l| :: Key(l[i], current, maxFrameNum) >= Key(l[j], current, maxFrameNum)
  }

  lemma {:induction false} InsertAdds(x: Ref, l: seq<Ref>, current: nat, maxFrameNum: nat)
    ensures multiset(InsertDescending(x, l, current, maxFrameNum)) == multiset(l) + multiset{x}
  {
    hide Key;
    if l != [] && !(Key(l[0], current, maxFrameNum) <= Key(x, current, maxFrameNum)) {
      InsertAdds(x, l[1..], current, maxFrameNum);
      assert l == [l[0]] + l[1..];
    }
  }

  lemma {:induction false} InsertKeepsOrder(x: Ref, l: seq<Ref>, current: nat, maxFrameNum: nat)
    requires Descending(l, current, maxFrameNum)
    ensures Descending(InsertDescending(x, l, current, maxFrameNum), current, maxFrameNum)
  {
    hide Key;
    if l != [] && !(Key(l[0], current, maxFrameNum) <= Key(x, current, maxFrameNum)) {
      InsertKeepsOrder(x, l[1..], current, maxFrameNum);
      var rest := InsertDescending(x, l[1..], current, maxFrameNum);
      forall i | 0 <= i < |rest|
        ensures Key(l[0], current, maxFrameNum) >= Key(rest[i], current, maxFrameNum)
      {
        InsertAdds(x, l[1..], current, maxFrameNum);
        assert rest[i] in multiset(rest);
        assert rest[i] == x || rest[i] in l[1..];
      }
    }
  }

  lemma {:induction false} SortIsAnOrderedPermutation(l: seq<Ref>, current: nat, maxFrameNum: nat)
    ensures Descending(SortDescending(l, current, maxFrameNum), current, maxFrameNum)
    ensures multiset(SortDescending(l, current, maxFrameNum)) == multiset(l)
  {
    hide Key, InsertDescending;
    if l != [] {
      SortIsAnOrderedPermutation(l[1..], current, maxFrameNum);
      InsertKeepsOrder(l[0], SortDescending(l[1..], current, maxFrameNum), current, maxFrameNum);
      InsertAdds(l[0], SortDescending(l[1..], current, maxFrameNum), current, maxFrameNum);
      assert l == [l[0]] + l[1..];
    }
  }

  lemma {:induction false} InsertKeepsDistinct(x: Ref, l: seq<Ref>, current: nat, maxFrameNum: nat)
    requires DistinctKeys(l, current, maxFrameNum) && Absent(l, Key(x, current, maxFrameNum), current, maxFrameNum)
    ensures DistinctKeys(InsertDescending(x, l, current, maxFrameNum), current, maxFrameNum)
    ensures forall y | y in InsertDescending(x, l, current, maxFrameNum) :: y == x || y in l
  {
    hide Key;
    if l != [] && !(Key(l[0], current, maxFrameNum) <= Key(x, current, maxFrameNum)) {
      InsertKeepsDistinct(x, l[1..], current, maxFrameNum);
      var rest := InsertDescending(x, l[1..], current, maxFrameNum);
      forall i | 0 <= i < |rest|
        ensures Key(l[0], current, maxFrameNum) != Key(rest[i], current, maxFrameNum)
      {
        assert rest[i] in rest;
        if rest[i] != x {
          var j :| 0 <= j < |l| - 1 && l[1..][j] == rest[i];
          assert l[j + 1] == rest[i];
        }
      }
    }
  }

  lemma {:induction false} SortKeepsDistinct(l: seq<Ref>, current: nat, maxFrameNum: nat)
    requires DistinctKeys(l, current, maxFrameNum)
    ensures DistinctKeys(SortDescending(l, current, maxFrameNum), current, maxFrameNum)
    ensures forall y | y in SortDescending(l, current, maxFrameNum) :: y in l
  {
    hide Key, InsertDescending;
    if l != [] {
      SortKeepsDistinct(l[1..], current, maxFrameNum);
      var rest := SortDescending(l[1..], current, maxFrameNum);
      forall i | 0 <= i < |rest|
        ensures Key(rest[i], current, maxFrameNum) != Key(l[0], current, maxFrameNum)
      {
        assert rest[i] in rest;
        var j :| 0 <= j < |l| - 1 && l[1..][j] == rest[i];
        assert l[j + 1] == rest[i];
      }
      InsertKeepsDistinct(l[0], rest, current, maxFrameNum);
    }
  }

  /** With distinct keys there is only one ordered list of the same pictures. */
  lemma {:induction false} OrderIsUnique(a: seq<Ref>, b: seq<Ref>, current: nat, maxFrameNum: nat)
    requires Descending(a, current, maxFrameNum) && Descending(b, current, maxFrameNum)
    requires DistinctKeys(a, current, maxFrameNum) && DistinctKeys(b, current, maxFrameNum)
    requires forall r :: r in a <==> r in b
    ensures a == b
  {
    hide Key;
    assert |a| > 0 ==> a[0] in a;
    assert |b| > 0 ==> b[0] in b;
    if a != [] && b != [] {
      assert a[0] in b && b[0] in a;
      var i :| 0 <= i < |b| && b[i] == a[0];
      var j :| 0 <= j < |a| && a[j] == b[0];
      assert Key(a[0], current, maxFrameNum) >= Key(a[j], current, maxFrameNum);
      assert Key(b[0], current, maxFrameNum) >= Key(b[i], current, maxFrameNum);
      assert i == 0;
      forall r
        ensures r in a[1..] <==> r in b[1..]
      {
        BehindTheFirst(a, r, current, maxFrameNum);
        BehindTheFirst(b, r, current, maxFrameNum);
      }
      OrderIsUnique(a[1..], b[1..], current, maxFrameNum);
    }
  }

  lemma {:induction false} BehindTheFirst(a: seq<Ref>, r: Ref, current: nat, maxFrameNum: nat)
    requires a != [] && DistinctKeys(a, current, maxFrameNum)
    ensures r in a[1..] <==> r in a && r != a[0]
  {
  }

  // ---- The modification steps ----

  function IndexOf(l: seq<Ref>, key: int, current: nat, maxFrameNum: nat): (i: nat)
    ensures i <= |l|
    ensures i < |l| ==> Key(l[i], current, maxFrameNum) == key
  {
    if l == [] || Key(l[0], current, maxFrameNum) == key then 0
    else 1 + IndexOf(l[1..], key, current, maxFrameNum)
  }

  lemma {:induction false} IndexOfIsTheFirst(l: seq<Ref>, key: int, current: nat, maxFrameNum: nat)
    ensures forall j | 0 <= j < IndexOf(l, key, current, maxFrameNum) :: Key(l[j], current, maxFrameNum) != key
  {
    if l != [] && Key(l[0], current, maxFrameNum) != key {
      IndexOfIsTheFirst(l[1..], key, current, maxFrameNum);
    }
  }

  /** The PicNum prediction before and after one step, as the decoder keeps it:
      reduced modulo MaxFrameNum. `None` for a long-term step. */
  function NextPred(pred: nat, m: RefListMod, maxFrameNum: nat): (r: Option<nat>)
    requires maxFrameNum > 0
    ensures r.Some? ==> r.value < maxFrameNum
  {
    var delta := m.value + 1;
    if m.idc == 0 then Some((pred - delta) % maxFrameNum)
    else if m.idc == 1 then Some((pred + delta) % maxFrameNum)
    else None
  }

  /** picNumLXNoWrap of section 8.2.4.3.1, equations 8-34 and 8-35. */
  function PicNumNoWrap(pred: nat, m: RefListMod, maxFrameNum: nat): int
    requires m.idc <= 1
  {
    var absDiff := m.value + 1;
    if m.idc == 0 then
      if pred - absDiff < 0 then pred - absDiff + maxFrameNum else pred - absDiff
    else
      if pred + absDiff >= maxFrameNum then pred + absDiff - maxFrameNum else pred + absDiff
  }

  /** The decoder's remainder is the recommendation's wrap for every operand
      the recommendation allows. */
  lemma {:induction false} PredictionFollowsTheStandard(pred: nat, m: RefListMod, maxFrameNum: nat)
    requires pred < maxFrameNum && m.idc <= 1 && m.value < maxFrameNum
    ensures NextPred(pred, m, maxFrameNum) == Some(PicNumNoWrap(pred, m, maxFrameNum))
  {
    var delta := m.value + 1;
    Arithmetic.ModNear(if m.idc == 0 then pred - delta else pred + delta, maxFrameNum);
  }

  /** Move the entry with this key to position `index`. */
  function MoveTo(l: seq<Ref>, index: nat, key: int, current: nat, maxFrameNum: nat): (r: Option<seq<Ref>>)
    ensures r.Some? ==> |r.value| == |l|
  {
    var pos := IndexOf(l, key, current, maxFrameNum);
    if pos == |l| then None else Some(PutAt(l, pos, index))
  }

  /** Take out entry `pos` and insert it at `index`, or last. */
  function PutAt(l: seq<Ref>, pos: nat, index: nat): (r: seq<Ref>)
    requires pos < |l|
    ensures |r| == |l|
  {
    var without := l[..pos] + l[pos + 1..];
    var at := if index <= |without| then index else |without|;
    without[..at] + [l[pos]] + without[at..]
  }

  /** The list after all steps from `index` on; `None` when a step is long-term
      or names a picture that is not held. */
  function Modify(l: seq<Ref>, mods: seq<RefListMod>, index: nat, pred: nat, current: nat, maxFrameNum: nat)
    : Option<seq<Ref>>
    requires maxFrameNum > 0
    decreases |mods|
  {
    if mods == [] then Some(l)
    else
      var next := NextPred(pred, mods[0], maxFrameNum);
      if next == None then None
      else
        var moved := MoveTo(l, index, PicNum(next.value, current, maxFrameNum), current, maxFrameNum);
        if moved == None then None
        else Modify(moved.value, mods[1..], index + 1, next.value, current, maxFrameNum)
  }

  function Truncate<T>(l: seq<T>, n: nat): seq<T> {
    if |l| <= n then l else l[..n]
  }

  /** The list handed to the driver for one slice. */
  function RefList0Of(refs: seq<Ref>, sh: SliceHeader, maxFrameNum: nat): Option<seq<Ref>>
    requires maxFrameNum > 0
  {
    if sh.sliceType != SliceType.P then Some([])
    else
      var list := Modify(SortDescending(refs, sh.frameNum, maxFrameNum), sh.refListMods, 0, sh.frameNum,
                         sh.frameNum, maxFrameNum);
      if list == None then None else Some(Truncate(list.value, sh.numRefIdxL0ActiveMinus1 + 1))
  }

  /** Take the entry with this key out and put it back in at `index`. */
  method Move(l: seq<Ref>, index: nat, key: int, current: nat, maxFrameNum: nat) returns (r: Option<seq<Ref>>)
    ensures r == MoveTo(l, index, key, current, maxFrameNum)
  {
    var pos := IndexOf(l, key, current, maxFrameNum);
    if pos == |l| {
      return None;
    }
    var entry := l[pos];
    var list := l[..pos] + l[pos + 1..];
    var at := if index <= |list| then index else |list|;
    return Some(list[..at] + [entry] + list[at..]);
  }

  /** Sort, then edit the list in place step by step, then cut it. */
  method RefList0(refs: seq<Ref>, sh: SliceHeader, maxFrameNum: nat) returns (r: Option<seq<Ref>>)
    requires maxFrameNum > 0
    ensures r == RefList0Of(refs, sh, maxFrameNum)
  {
    if sh.sliceType != SliceType.P {
      return Some([]);
    }
    var current, mods := sh.frameNum, sh.refListMods;
    var list := SortDescending(refs, current, maxFrameNum);
    var pred: nat := current;
    ghost var whole := Modify(list, mods, 0, current, current, maxFrameNum);
    ghost var spec := RefList0Of(refs, sh, maxFrameNum);
    assert spec == if whole == None then None else Some(Truncate(whole.value, sh.numRefIdxL0ActiveMinus1 + 1));
    hide SortDescending, MoveTo, NextPred, IndexOf, RefList0Of, Truncate;
    for index := 0 to |mods|
      invariant whole == Modify(list, mods[index..], index, pred, current, maxFrameNum)
    {
      assert mods[index..][0] == mods[index] && mods[index..][1..] == mods[index + 1..];
      var next := NextPred(pred, mods[index], maxFrameNum);
      if next == None {
        return None;
      }
      pred := next.value;
      var wanted: int := if pred > current then pred - maxFrameNum else pred;
      var moved := Move(list, index, wanted, current, maxFrameNum);
      if moved == None {
        return None;
      }
      list := moved.value;
    }
    r := Some(Truncate(list, sh.numRefIdxL0ActiveMinus1 + 1));
  }
}
