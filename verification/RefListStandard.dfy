/** Section 8.2.4.3.1 of the H.264 recommendation: a list of fixed length, cut
    before it is modified; each step shifts the entries back, inserts the named
    picture and closes the gap its old place leaves. */
module RefListStandard {
  import opened Common
  import opened H264
  import opened RefLists

  /** The list at exactly `n` entries; `None` is "no reference picture". */
  function Fit(l: seq<Option<Ref>>, n: nat): (r: seq<Option<Ref>>)
    ensures |r| == n
  {
    if n == 0 then []
    else if l == [] then [None] + Fit([], n - 1)
    else [l[0]] + Fit(l[1..], n - 1)
  }

  function Entries(l: seq<Ref>): (r: seq<Option<Ref>>)
    ensures |r| == |l|
  {
    if l == [] then [] else [Some(l[0])] + Entries(l[1..])
  }

  /** The entries whose PicNumF differs from `key`. */
  function Others(l: seq<Option<Ref>>, key: int, current: nat, maxFrameNum: nat): seq<Option<Ref>> {
    if l == [] then []
    else
      (if l[0].Some? && Key(l[0].value, current, maxFrameNum) == key then [] else [l[0]])
      + Others(l[1..], key, current, maxFrameNum)
  }

  /** One step: the shift and insertion, then the compaction behind it. */
  function StandardStep(t: seq<Option<Ref>>, index: nat, pic: Ref, current: nat, maxFrameNum: nat)
    : (r: seq<Option<Ref>>)
    requires index < |t|
    ensures |r| == |t|
  {
    var shifted := t[..index] + [Some(pic)] + t[index..];
    Fit(shifted[..index + 1] + Others(shifted[index + 1..], Key(pic, current, maxFrameNum), current, maxFrameNum), |t|)
  }

  function StandardModify(t: seq<Option<Ref>>, index: nat, pics: seq<Ref>, current: nat, maxFrameNum: nat)
    : (r: seq<Option<Ref>>)
    requires index + |pics| <= |t|
    ensures |r| == |t|
    decreases |pics|
  {
    if pics == [] then t
    else StandardModify(StandardStep(t, index, pics[0], current, maxFrameNum), index + 1, pics[1..], current, maxFrameNum)
  }

  /** Every number belongs to a listed picture. */
  ghost predicate Held(l: seq<Ref>, keys: seq<int>, current: nat, maxFrameNum: nat) {
    forall i | 0 <= i < |keys| :: IndexOf(l, keys[i], current, maxFrameNum) < |l|
  }

  /** The pictures with these numbers. */
  ghost function Named(l: seq<Ref>, keys: seq<int>, current: nat, maxFrameNum: nat): (r: seq<Ref>)
    requires Held(l, keys, current, maxFrameNum)
    ensures |r| == |keys|
  {
    if keys == [] then []
    else [l[IndexOf(l, keys[0], current, maxFrameNum)]] + Named(l, keys[1..], current, maxFrameNum)
  }

  /** picNumLX of each step (equations 8-34 to 8-36). */
  function StandardKeys(mods: seq<RefListMod>, pred: nat, current: nat, maxFrameNum: nat): (keys: seq<int>)
    requires pred < maxFrameNum
    requires forall m | m in mods :: m.idc <= 1 && m.value < maxFrameNum
    ensures |keys| == |mods|
  {
    if mods == [] then []
    else
      var next := PicNumNoWrap(pred, mods[0], maxFrameNum);
      [PicNum(next, current, maxFrameNum)] + StandardKeys(mods[1..], next, current, maxFrameNum)
  }

  /** Move each named picture in turn, the first to the front. */
  function MoveAll(l: seq<Ref>, keys: seq<int>, index: nat, current: nat, maxFrameNum: nat): Option<seq<Ref>>
    decreases |keys|
  {
    if keys == [] then Some(l)
    else
      var moved := MoveTo(l, index, keys[0], current, maxFrameNum);
      if moved == None then None else MoveAll(moved.value, keys[1..], index + 1, current, maxFrameNum)
  }

  /** The decoder names the same pictures as the recommendation. */
  lemma {:induction false} DecoderMovesTheStandardPictures(
    l: seq<Ref>, mods: seq<RefListMod>, index: nat, pred: nat, current: nat, maxFrameNum: nat)
    requires pred < maxFrameNum
    requires forall m | m in mods :: m.idc <= 1 && m.value < maxFrameNum
    ensures Modify(l, mods, index, pred, current, maxFrameNum)
         == MoveAll(l, StandardKeys(mods, pred, current, maxFrameNum), index, current, maxFrameNum)
    decreases |mods|
  {
    if mods != [] {
      assert mods[0] in mods;
      PredictionFollowsTheStandard(pred, mods[0], maxFrameNum);
      var next := PicNumNoWrap(pred, mods[0], maxFrameNum);
      var keys := StandardKeys(mods, pred, current, maxFrameNum);
      assert keys[1..] == StandardKeys(mods[1..], next, current, maxFrameNum);
      hide MoveTo, NextPred, PicNumNoWrap, PicNum;
      var moved := MoveTo(l, index, keys[0], current, maxFrameNum);
      if moved.Some? {
        DecoderMovesTheStandardPictures(moved.value, mods[1..], index + 1, next, current, maxFrameNum);
      }
    }
  }

  // ---- One step ----

  /** The list without its entry of this number. */
  function RemoveKey(l: seq<Ref>, key: int, current: nat, maxFrameNum: nat): seq<Ref> {
    if l == [] then []
    else if Key(l[0], current, maxFrameNum) == key then l[1..]
    else [l[0]] + RemoveKey(l[1..], key, current, maxFrameNum)
  }

  lemma {:induction false} RemoveKeyCutsAtTheIndex(l: seq<Ref>, key: int, current: nat, maxFrameNum: nat)
    ensures var i := IndexOf(l, key, current, maxFrameNum);
            i < |l| ==> RemoveKey(l, key, current, maxFrameNum) == l[..i] + l[i + 1..]
  {
    hide Key;
    if l != [] && Key(l[0], current, maxFrameNum) != key {
      var tail := l[1..];
      var i := IndexOf(tail, key, current, maxFrameNum);
      assert IndexOf(l, key, current, maxFrameNum) == 1 + i;
      assert RemoveKey(l, key, current, maxFrameNum) == [l[0]] + RemoveKey(tail, key, current, maxFrameNum);
      hide RemoveKey, IndexOf;
      RemoveKeyCutsAtTheIndex(tail, key, current, maxFrameNum);
      if i < |tail| {
        assert l[..1 + i] == [l[0]] + tail[..i] && l[1 + i + 1..] == tail[i + 1..];
      }
    }
  }

  lemma {:induction false} IndexBehind(p: seq<Ref>, r: seq<Ref>, key: int, current: nat, maxFrameNum: nat)
    requires Absent(p, key, current, maxFrameNum)
    ensures IndexOf(p + r, key, current, maxFrameNum) == |p| + IndexOf(r, key, current, maxFrameNum)
  {
    if p == [] {
      assert p + r == r;
    } else {
      assert (p + r)[1..] == p[1..] + r;
      IndexBehind(p[1..], r, key, current, maxFrameNum);
    }
  }

  /** What one move does behind a finished front `p`. */
  lemma {:induction false} MoveBehindTheFront(p: seq<Ref>, r: seq<Ref>, key: int, current: nat, maxFrameNum: nat)
    requires Absent(p, key, current, maxFrameNum)
    requires IndexOf(r, key, current, maxFrameNum) < |r|
    ensures MoveTo(p + r, |p|, key, current, maxFrameNum)
         == Some((p + [r[IndexOf(r, key, current, maxFrameNum)]]) + RemoveKey(r, key, current, maxFrameNum))
  {
    hide IndexOf, RemoveKey, PutAt, Absent, Key;
    var j := IndexOf(r, key, current, maxFrameNum);
    IndexBehind(p, r, key, current, maxFrameNum);
    assert MoveTo(p + r, |p|, key, current, maxFrameNum) == Some(PutAt(p + r, |p| + j, |p|));
    RemoveKeyCutsAtTheIndex(r, key, current, maxFrameNum);
    PutBehind(p, r, j);
  }

  lemma {:induction false} PutBehind(p: seq<Ref>, r: seq<Ref>, j: nat)
    requires j < |r|
    ensures PutAt(p + r, |p| + j, |p|) == (p + [r[j]]) + (r[..j] + r[j + 1..])
  {
  }

  lemma {:induction false} FitTwice(l: seq<Option<Ref>>, n: nat)
    ensures Fit(Fit(l, n), n) == Fit(l, n)
    decreases n
  {
    if n > 0 {
      var tail := if l == [] then [] else l[1..];
      FitTwice(tail, n - 1);
      assert Fit(l, n)[1..] == Fit(tail, n - 1);
    }
  }

  lemma {:induction false} OthersKeepsTheRest(l: seq<Ref>, n: nat, key: int, current: nat, maxFrameNum: nat)
    requires Absent(l, key, current, maxFrameNum)
    ensures Others(Fit(Entries(l), n), key, current, maxFrameNum) == Fit(Entries(l), n)
    decreases n
  {
    if n > 0 {
      var tail := if l == [] then [] else l[1..];
      OthersKeepsTheRest(tail, n - 1, key, current, maxFrameNum);
      assert l != [] ==> Entries(l)[1..] == Entries(tail);
      assert Fit(Entries(l), n)[1..] == Fit(Entries(tail), n - 1);
    }
  }

  /** Cutting first and closing the gap afterwards leaves the same entries as
      removing first and cutting afterwards. */
  lemma {:induction false} CutThenCloseTheGap(r: seq<Ref>, q: nat, key: int, current: nat, maxFrameNum: nat)
    requires DistinctKeys(r, current, maxFrameNum)
    requires IndexOf(r, key, current, maxFrameNum) < |r|
    ensures Fit(Others(Fit(Entries(r), q + 1), key, current, maxFrameNum), q)
         == Fit(Entries(RemoveKey(r, key, current, maxFrameNum)), q)
    decreases |r|
  {
    hide Key;
    var cut := Fit(Entries(r), q + 1);
    assert Entries(r)[1..] == Entries(r[1..]);
    assert cut[1..] == Fit(Entries(r[1..]), q);
    if Key(r[0], current, maxFrameNum) == key {
      assert Absent(r[1..], key, current, maxFrameNum);
      OthersKeepsTheRest(r[1..], q, key, current, maxFrameNum);
      FitTwice(Entries(r[1..]), q);
      assert Others(cut, key, current, maxFrameNum) == Fit(Entries(r[1..]), q);
    } else if q > 0 {
      CutThenCloseTheGap(r[1..], q - 1, key, current, maxFrameNum);
      var others := Others(cut, key, current, maxFrameNum);
      assert others[1..] == Others(cut[1..], key, current, maxFrameNum);
      var removed := Entries(RemoveKey(r, key, current, maxFrameNum));
      assert removed[1..] == Entries(RemoveKey(r[1..], key, current, maxFrameNum));
    }
  }

  lemma {:induction false} FitBehind(a: seq<Option<Ref>>, b: seq<Option<Ref>>, n: nat)
    requires |a| <= n
    ensures Fit(a + b, n) == a + Fit(b, n - |a|)
  {
    if a == [] {
      assert a + b == b;
    } else {
      assert (a + b)[0] == a[0] && (a + b)[1..] == a[1..] + b;
      assert Fit(a + b, n) == [a[0]] + Fit(a[1..] + b, n - 1);
      hide Fit;
      FitBehind(a[1..], b, n - 1);
      assert a == [a[0]] + a[1..];
    }
  }

  lemma {:induction false} EntriesAppend(a: seq<Ref>, b: seq<Ref>)
    ensures Entries(a + b) == Entries(a) + Entries(b)
  {
    if a == [] {
      assert a + b == b;
    } else {
      assert (a + b)[0] == a[0] && (a + b)[1..] == a[1..] + b;
      assert Entries(a + b) == [Some(a[0])] + Entries(a[1..] + b) && Entries(a) == [Some(a[0])] + Entries(a[1..]);
      hide Entries;
      EntriesAppend(a[1..], b);
    }
  }

  /** One step of the recommendation, on the cut list, is one move on the
      whole list. */
  lemma {:induction false} OneStepAgrees(p: seq<Ref>, r: seq<Ref>, n: nat, key: int, current: nat, maxFrameNum: nat)
    requires |p| < n
    requires DistinctKeys(r, current, maxFrameNum)
    requires IndexOf(r, key, current, maxFrameNum) < |r|
    ensures StandardStep(Fit(Entries(p + r), n), |p|, r[IndexOf(r, key, current, maxFrameNum)], current, maxFrameNum)
         == Fit(Entries((p + [r[IndexOf(r, key, current, maxFrameNum)]]) + RemoveKey(r, key, current, maxFrameNum)), n)
  {
    var pic, q := r[IndexOf(r, key, current, maxFrameNum)], n - |p| - 1;
    var rest := RemoveKey(r, key, current, maxFrameNum);
    var front := Entries(p) + [Some(pic)];
    var tail := Fit(Entries(r), q + 1);
    EntriesAppend(p, r);
    FitBehind(Entries(p), Entries(r), n);
    EntriesAppend(p + [pic], rest);
    EntriesAppend(p, [pic]);
    assert Entries([pic]) == [Some(pic)];
    CutThenCloseTheGap(r, q, key, current, maxFrameNum);
    var others := Others(tail, key, current, maxFrameNum);
    FitBehind(front, others, n);
    FitBehind(front, Entries(rest), n);
    hide Entries, Fit, Others, RemoveKey, IndexOf;
    var t := Entries(p) + tail;
    var shifted := t[..|p|] + [Some(pic)] + t[|p|..];
    assert t[..|p|] == Entries(p) && t[|p|..] == tail;
    assert shifted[..|p| + 1] == front && shifted[|p| + 1..] == tail;
  }

  // ---- All steps ----

  ghost predicate Distinct(keys: seq<int>) {
    forall i, j | 0 <= i < j < |keys| :: keys[i] != keys[j]
  }

  /** None of the numbers is that of a picture on the list. */
  ghost predicate Avoids(l: seq<Ref>, keys: seq<int>, current: nat, maxFrameNum: nat) {
    forall i | 0 <= i < |keys| :: Absent(l, keys[i], current, maxFrameNum)
  }

  /** Taking one entry out leaves the numbers distinct. */
  lemma {:induction false} RemoveKeyKeepsDistinct(r: seq<Ref>, key: int, current: nat, maxFrameNum: nat)
    requires DistinctKeys(r, current, maxFrameNum)
    ensures DistinctKeys(RemoveKey(r, key, current, maxFrameNum), current, maxFrameNum)
    ensures forall x | x in RemoveKey(r, key, current, maxFrameNum) :: x in r
  {
    hide Key;
    if r != [] && Key(r[0], current, maxFrameNum) != key {
      RemoveKeyKeepsDistinct(r[1..], key, current, maxFrameNum);
      var rest := RemoveKey(r[1..], key, current, maxFrameNum);
      forall i | 0 <= i < |rest|
        ensures Key(r[0], current, maxFrameNum) != Key(rest[i], current, maxFrameNum)
      {
        assert rest[i] in rest;
        var j :| 0 <= j < |r| - 1 && r[1..][j] == rest[i];
        assert r[j + 1] == rest[i];
      }
    }
  }

  /** Every other number still names the same picture. */
  lemma {:induction false} RemoveKeyKeepsTheOthers(r: seq<Ref>, key: int, other: int, current: nat, maxFrameNum: nat)
    requires other != key && IndexOf(r, other, current, maxFrameNum) < |r|
    ensures var rest := RemoveKey(r, key, current, maxFrameNum);
            && IndexOf(rest, other, current, maxFrameNum) < |rest|
            && rest[IndexOf(rest, other, current, maxFrameNum)] == r[IndexOf(r, other, current, maxFrameNum)]
  {
    hide Key;
    if Key(r[0], current, maxFrameNum) == key {
      assert IndexOf(r, other, current, maxFrameNum) == 1 + IndexOf(r[1..], other, current, maxFrameNum);
    } else {
      var rest := RemoveKey(r[1..], key, current, maxFrameNum);
      assert RemoveKey(r, key, current, maxFrameNum) == [r[0]] + rest && ([r[0]] + rest)[1..] == rest;
      if Key(r[0], current, maxFrameNum) != other {
        RemoveKeyKeepsTheOthers(r[1..], key, other, current, maxFrameNum);
        hide RemoveKey;
        assert [r[0]] + r[1..] == r;
      }
    }
  }

  lemma {:induction false} RemoveKeyKeepsNamed(r: seq<Ref>, key: int, keys: seq<int>, current: nat, maxFrameNum: nat)
    requires Held(r, keys, current, maxFrameNum) && key !in keys
    ensures Held(RemoveKey(r, key, current, maxFrameNum), keys, current, maxFrameNum)
    ensures Named(RemoveKey(r, key, current, maxFrameNum), keys, current, maxFrameNum)
         == Named(r, keys, current, maxFrameNum)
  {
    hide Key, RemoveKey, IndexOf;
    if keys != [] {
      RemoveKeyKeepsTheOthers(r, key, keys[0], current, maxFrameNum);
      RemoveKeyKeepsNamed(r, key, keys[1..], current, maxFrameNum);
    }
  }

  lemma {:induction false} LaterNumbers(p: seq<Ref>, r: seq<Ref>, keys: seq<int>, current: nat, maxFrameNum: nat)
    requires keys != [] && Distinct(keys)
    requires Held(r, keys, current, maxFrameNum) && Avoids(p, keys, current, maxFrameNum)
    ensures IndexOf(r, keys[0], current, maxFrameNum) < |r| && Absent(p, keys[0], current, maxFrameNum)
    ensures Distinct(keys[1..]) && Held(r, keys[1..], current, maxFrameNum) && keys[0] !in keys[1..]
    ensures Avoids(p + [r[IndexOf(r, keys[0], current, maxFrameNum)]], keys[1..], current, maxFrameNum)
  {
    hide Key;
    var pic := r[IndexOf(r, keys[0], current, maxFrameNum)];
    hide IndexOf;
    forall i | 0 <= i < |keys[1..]|
      ensures Absent(p + [pic], keys[1..][i], current, maxFrameNum)
    {
      assert keys[1..][i] == keys[i + 1] && keys[0] != keys[i + 1];
      assert Absent(p, keys[i + 1], current, maxFrameNum);
    }
  }

  /** With distinct numbers, every step agrees. */
  lemma {:induction false} AllStepsAgree(p: seq<Ref>, r: seq<Ref>, n: nat, keys: seq<int>, current: nat, maxFrameNum: nat)
    requires |p| + |keys| <= n
    requires DistinctKeys(r, current, maxFrameNum)
    requires Held(r, keys, current, maxFrameNum) && Distinct(keys)
    requires Avoids(p, keys, current, maxFrameNum)
    ensures MoveAll(p + r, keys, |p|, current, maxFrameNum).Some?
    ensures StandardModify(Fit(Entries(p + r), n), |p|, Named(r, keys, current, maxFrameNum), current, maxFrameNum)
         == Fit(Entries(MoveAll(p + r, keys, |p|, current, maxFrameNum).value), n)
    decreases |keys|
  {
    hide Key, RemoveKey, IndexOf, StandardStep, MoveTo, Fit, Entries, DistinctKeys, Distinct;
    if keys != [] {
      var key, later := keys[0], keys[1..];
      LaterNumbers(p, r, keys, current, maxFrameNum);
      var pic, rest := r[IndexOf(r, key, current, maxFrameNum)], RemoveKey(r, key, current, maxFrameNum);
      MoveBehindTheFront(p, r, key, current, maxFrameNum);
      OneStepAgrees(p, r, n, key, current, maxFrameNum);
      RemoveKeyKeepsDistinct(r, key, current, maxFrameNum);
      RemoveKeyKeepsNamed(r, key, later, current, maxFrameNum);
      AllStepsAgree(p + [pic], rest, n, later, current, maxFrameNum);
      assert Named(r, keys, current, maxFrameNum)[1..] == Named(rest, later, current, maxFrameNum);
    }
  }

  // ---- What the two lists look like in any case ----

  /** The recommendation's list begins with the named pictures, repeats
      included. */
  lemma {:induction false} StandardBeginsWithTheNamed(
    t: seq<Option<Ref>>, index: nat, pics: seq<Ref>, current: nat, maxFrameNum: nat)
    requires index + |pics| <= |t|
    ensures var r := StandardModify(t, index, pics, current, maxFrameNum);
            && (forall i | 0 <= i < index :: r[i] == t[i])
            && (forall i | 0 <= i < |pics| :: r[index + i] == Some(pics[i]))
    decreases |pics|
  {
    if pics != [] {
      StepKeepsTheFront(t, index, pics[0], current, maxFrameNum);
      var step := StandardStep(t, index, pics[0], current, maxFrameNum);
      hide StandardStep;
      StandardBeginsWithTheNamed(step, index + 1, pics[1..], current, maxFrameNum);
    }
  }

  lemma {:induction false} StepKeepsTheFront(t: seq<Option<Ref>>, index: nat, pic: Ref, current: nat, maxFrameNum: nat)
    requires index < |t|
    ensures var r := StandardStep(t, index, pic, current, maxFrameNum);
            (forall i | 0 <= i < index :: r[i] == t[i]) && r[index] == Some(pic)
  {
    var shifted := t[..index] + [Some(pic)] + t[index..];
    var behind := Others(shifted[index + 1..], Key(pic, current, maxFrameNum), current, maxFrameNum);
    hide Others;
    FitBehind(shifted[..index + 1], behind, |t|);
  }

  /** The decoder's list never repeats a picture. */
  lemma {:induction false} DecoderNeverRepeats(l: seq<Ref>, keys: seq<int>, index: nat, current: nat, maxFrameNum: nat)
    requires DistinctKeys(l, current, maxFrameNum)
    ensures var list := MoveAll(l, keys, index, current, maxFrameNum);
            list.Some? ==> DistinctKeys(list.value, current, maxFrameNum)
    decreases |keys|
  {
    if keys != [] {
      var moved := MoveTo(l, index, keys[0], current, maxFrameNum);
      if moved.Some? {
        MoveKeepsDistinct(l, IndexOf(l, keys[0], current, maxFrameNum), index, current, maxFrameNum);
        hide DistinctKeys, PutAt;
        DecoderNeverRepeats(moved.value, keys[1..], index + 1, current, maxFrameNum);
      }
    }
  }

  lemma {:induction false} MoveKeepsDistinct(l: seq<Ref>, pos: nat, index: nat, current: nat, maxFrameNum: nat)
    requires pos < |l| && DistinctKeys(l, current, maxFrameNum)
    ensures DistinctKeys(PutAt(l, pos, index), current, maxFrameNum)
  {
    var without := l[..pos] + l[pos + 1..];
    TakeOutKeepsDistinct(l, pos, current, maxFrameNum);
    hide DistinctKeys, Absent;
    InsertAtKeepsDistinct(without, l[pos], if index <= |without| then index else |without|, current, maxFrameNum);
  }

  lemma {:induction false} TakeOutKeepsDistinct(l: seq<Ref>, pos: nat, current: nat, maxFrameNum: nat)
    requires pos < |l| && DistinctKeys(l, current, maxFrameNum)
    ensures DistinctKeys(l[..pos] + l[pos + 1..], current, maxFrameNum)
    ensures Absent(l[..pos] + l[pos + 1..], Key(l[pos], current, maxFrameNum), current, maxFrameNum)
  {
  }

  lemma {:induction false} InsertAtKeepsDistinct(l: seq<Ref>, x: Ref, at: nat, current: nat, maxFrameNum: nat)
    requires at <= |l| && DistinctKeys(l, current, maxFrameNum)
    requires Absent(l, Key(x, current, maxFrameNum), current, maxFrameNum)
    ensures DistinctKeys(l[..at] + [x] + l[at..], current, maxFrameNum)
  {
  }

  lemma {:induction false} FitAt(l: seq<Ref>, n: nat, i: nat)
    requires i < n
    ensures Fit(Entries(l), n)[i] == if i < |l| then Some(l[i]) else None
    decreases i
  {
    if i > 0 {
      var tail := if l == [] then [] else l[1..];
      assert l != [] ==> Entries(l)[1..] == Entries(tail);
      assert Fit(Entries(l), n)[1..] == Fit(Entries(tail), n - 1);
      FitAt(tail, n - 1, i - 1);
    }
  }

  lemma {:induction false} NamedHasTheKeys(l: seq<Ref>, keys: seq<int>, current: nat, maxFrameNum: nat)
    requires Held(l, keys, current, maxFrameNum)
    ensures var pics := Named(l, keys, current, maxFrameNum);
            forall i | 0 <= i < |keys| :: Key(pics[i], current, maxFrameNum) == keys[i]
  {
    hide Key, IndexOf;
    if keys != [] {
      NamedHasTheKeys(l, keys[1..], current, maxFrameNum);
    }
  }

  /** A list that begins with the named pictures and never repeats one names
      none twice. */
  lemma {:induction false} NoRepeatsInTheFront(
    l: seq<Ref>, n: nat, keys: seq<int>, list: seq<Ref>, pics: seq<Ref>, current: nat, maxFrameNum: nat)
    requires |pics| == |keys| <= n
    requires DistinctKeys(list, current, maxFrameNum)
    requires forall i | 0 <= i < |keys| :: Key(pics[i], current, maxFrameNum) == keys[i]
    requires Fit(Entries(list), n) == StandardModify(Fit(Entries(l), n), 0, pics, current, maxFrameNum)
    ensures Distinct(keys)
  {
    StandardBeginsWithTheNamed(Fit(Entries(l), n), 0, pics, current, maxFrameNum);
    var standard := StandardModify(Fit(Entries(l), n), 0, pics, current, maxFrameNum);
    hide Key, StandardModify, Fit, Entries;
    forall i | 0 <= i < |keys|
      ensures i < |list| && list[i] == pics[i]
    {
      FitAt(list, n, i);
      assert standard[0 + i] == Some(pics[i]);
    }
  }

  /** `list`, cut or padded to `n` entries, is what the recommendation makes
      of the initial list `l` when these pictures are named. */
  ghost predicate FollowsTheStandard(
    list: Option<seq<Ref>>, l: seq<Ref>, n: nat, keys: seq<int>, current: nat, maxFrameNum: nat)
    requires |keys| <= n && Held(l, keys, current, maxFrameNum)
  {
    && list.Some?
    && Fit(Entries(list.value), n)
       == StandardModify(Fit(Entries(l), n), 0, Named(l, keys, current, maxFrameNum), current, maxFrameNum)
  }

  /** The two procedures give the same list, "no reference picture" entries
      included, if and only if no picture is named twice. */
  lemma {:induction false} TheListsAgreeExactlyWithoutRepeats(l: seq<Ref>, n: nat, keys: seq<int>, current: nat, maxFrameNum: nat)
    requires |keys| <= n
    requires DistinctKeys(l, current, maxFrameNum)
    requires Held(l, keys, current, maxFrameNum)
    ensures FollowsTheStandard(MoveAll(l, keys, 0, current, maxFrameNum), l, n, keys, current, maxFrameNum)
            <==> Distinct(keys)
  {
    var list := MoveAll(l, keys, 0, current, maxFrameNum);
    var pics := Named(l, keys, current, maxFrameNum);
    NamedHasTheKeys(l, keys, current, maxFrameNum);
    DecoderNeverRepeats(l, keys, 0, current, maxFrameNum);
    hide MoveAll, Named, StandardModify, Key, IndexOf, Fit, Entries, DistinctKeys, Distinct, Absent;
    if Distinct(keys) {
      assert [] + l == l;
      AllStepsAgree([], l, n, keys, current, maxFrameNum);
    }
    if FollowsTheStandard(list, l, n, keys, current, maxFrameNum) {
      NoRepeatsInTheFront(l, n, keys, list.value, pics, current, maxFrameNum);
    }
  }

  // ---- From the slice header ----

  /** The list the decoder hands to the driver for a P slice is the list of
      the recommendation if and only if the slice names no picture twice;
      the recommendation allows a repeat and the decoder does not follow it. */
  lemma {:induction false} DecoderListIsTheStandardList(refs: seq<Ref>, sh: SliceHeader, keys: seq<int>, maxFrameNum: nat)
    requires sh.sliceType == SliceType.P && sh.frameNum < maxFrameNum
    requires DistinctKeys(refs, sh.frameNum, maxFrameNum)
    requires forall m | m in sh.refListMods :: m.idc <= 1 && m.value < maxFrameNum
    requires keys == StandardKeys(sh.refListMods, sh.frameNum, sh.frameNum, maxFrameNum)
    requires |keys| <= sh.numRefIdxL0ActiveMinus1 + 1
    requires Held(SortDescending(refs, sh.frameNum, maxFrameNum), keys, sh.frameNum, maxFrameNum)
    ensures FollowsTheStandard(RefList0Of(refs, sh, maxFrameNum), SortDescending(refs, sh.frameNum, maxFrameNum),
                               sh.numRefIdxL0ActiveMinus1 + 1, keys, sh.frameNum, maxFrameNum)
            <==> Distinct(keys)
  {
    hide *;
    var f, n := sh.frameNum, sh.numRefIdxL0ActiveMinus1 + 1;
    var initial := SortDescending(refs, f, maxFrameNum);
    var moved := MoveAll(initial, keys, 0, f, maxFrameNum);
    ListOfTheHeader(refs, sh, keys, maxFrameNum);
    SortKeepsDistinct(refs, f, maxFrameNum);
    TheListsAgreeExactlyWithoutRepeats(initial, n, keys, f, maxFrameNum);
    CuttingKeepsTheStandard(moved, initial, n, keys, f, maxFrameNum);
  }

  /** The decoder's list is that of the moves, cut at the end. */
  lemma {:induction false} ListOfTheHeader(refs: seq<Ref>, sh: SliceHeader, keys: seq<int>, maxFrameNum: nat)
    requires sh.sliceType == SliceType.P && sh.frameNum < maxFrameNum
    requires forall m | m in sh.refListMods :: m.idc <= 1 && m.value < maxFrameNum
    requires keys == StandardKeys(sh.refListMods, sh.frameNum, sh.frameNum, maxFrameNum)
    ensures RefList0Of(refs, sh, maxFrameNum)
         == Cut(MoveAll(SortDescending(refs, sh.frameNum, maxFrameNum), keys, 0, sh.frameNum, maxFrameNum),
                sh.numRefIdxL0ActiveMinus1 + 1)
  {
    hide MoveAll, StandardKeys, Modify, SortDescending;
    DecoderMovesTheStandardPictures(SortDescending(refs, sh.frameNum, maxFrameNum), sh.refListMods, 0, sh.frameNum,
                                    sh.frameNum, maxFrameNum);
  }

  function Cut(list: Option<seq<Ref>>, n: nat): Option<seq<Ref>> {
    if list == None then None else Some(Truncate(list.value, n))
  }

  lemma {:induction false} CuttingKeepsTheStandard(
    list: Option<seq<Ref>>, l: seq<Ref>, n: nat, keys: seq<int>, current: nat, maxFrameNum: nat)
    requires |keys| <= n && Held(l, keys, current, maxFrameNum)
    ensures FollowsTheStandard(Cut(list, n), l, n, keys, current, maxFrameNum)
            <==> FollowsTheStandard(list, l, n, keys, current, maxFrameNum)
  {
    hide StandardModify, Named, Fit, Entries, Truncate, Held;
    if list.Some? {
      CutIsTheFit(list.value, n);
    }
  }

  lemma {:induction false} CutIsTheFit(l: seq<Ref>, n: nat)
    ensures Fit(Entries(Truncate(l, n)), n) == Fit(Entries(l), n)
  {
    hide Entries, Fit;
    forall i | 0 <= i < n
      ensures Fit(Entries(Truncate(l, n)), n)[i] == Fit(Entries(l), n)[i]
    {
      FitAt(Truncate(l, n), n, i);
      FitAt(l, n, i);
    }
  }

  /** A slice that names one held picture twice, which section 8.2.4.3.1 allows:
      the recommendation's list holds it twice, the decoder's once. */
  lemma {:induction false} ARepeatedPictureIsLost()
    ensures var pic := Ref(0, DpbPicture(4, 8));
            var twice := [RefListMod(0, 0), RefListMod(0, 15)];
            var sh := SliceHeader(NAL_SLICE, 3, SliceType.P, 5, 0, 0, 1, twice, false, None);
            && StandardKeys(twice, 5, 5, 16) == [4, 4]
            && RefList0Of([pic], sh, 16) == Some([pic])
            && StandardModify(Fit(Entries([pic]), 2), 0, [pic, pic], 5, 16) == [Some(pic), Some(pic)]
  {
    var pic := Ref(0, DpbPicture(4, 8));
    var twice := [RefListMod(0, 0), RefListMod(0, 15)];
    assert PicNumNoWrap(5, twice[0], 16) == 4 && PicNumNoWrap(4, twice[1], 16) == 4;
    assert StandardKeys(twice[1..], 4, 5, 16) == [4] + StandardKeys([], 4, 5, 16);
    assert NextPred(5, twice[0], 16) == Some(4) && NextPred(4, twice[1], 16) == Some(4);
    assert SortDescending([pic], 5, 16) == [pic];
    assert IndexOf([pic], 4, 5, 16) == 0;
    assert PutAt([pic], 0, 0) == [pic] == PutAt([pic], 0, 1);
    assert MoveTo([pic], 0, 4, 5, 16) == Some([pic]) == MoveTo([pic], 1, 4, 5, 16);
    assert twice[1..] == [twice[1]] && twice[1..][1..] == [];
    assert Modify([pic], [], 2, 4, 5, 16) == Some([pic]);
    assert Modify([pic], twice[1..], 1, 4, 5, 16) == Some([pic]);
    StandardBeginsWithTheNamed(Fit(Entries([pic]), 2), 0, [pic, pic], 5, 16);
  }
}
