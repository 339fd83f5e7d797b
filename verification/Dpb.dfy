/** Marking of reference pictures: the slots of the decoded picture buffer and
    the sliding window over them (section 8.2.5.3 of the H.264
    recommendation). */
module Dpb {
  import opened Common
  import opened H264
  import opened RefLists
  import Arithmetic

  type Slots = seq<Option<DpbPicture>>

  function CountHeld(s: Slots): nat {
    if s == [] then 0 else (if s[0].Some? then 1 else 0) + CountHeld(s[1..])
  }

  lemma {:induction false} CountUpdate(s: Slots, i: nat, v: Option<DpbPicture>)
    requires i < |s|
    ensures CountHeld(s[i := v]) ==
            CountHeld(s) - (if s[i].Some? then 1 else 0) + (if v.Some? then 1 else 0)
  {
    if i > 0 {
      CountUpdate(s[1..], i - 1, v);
      assert s[i := v][1..] == s[1..][i - 1 := v];
    } else {
      assert s[i := v][1..] == s[1..];
    }
  }

  lemma {:induction false} CountIsBounded(s: Slots)
    ensures CountHeld(s) <= |s|
  {
    if s != [] {
      CountIsBounded(s[1..]);
    }
  }

  lemma {:induction false} AFreeSlotIsNotHeld(s: Slots, i: nat)
    requires i < |s| && s[i] == None
    ensures CountHeld(s) < |s|
  {
    var full := s[i := Some(DpbPicture(0, 0))];
    CountUpdate(s, i, full[i]);
    CountIsBounded(full);
  }

  /** What is left after some slots were freed. */
  ghost predicate Kept(a: Slots, b: Slots) {
    |a| == |b| && forall i | 0 <= i < |a| :: a[i] == None || a[i] == b[i]
  }

  lemma {:induction false} KeptCount(a: Slots, b: Slots)
    requires Kept(a, b)
    ensures CountHeld(a) <= CountHeld(b)
    ensures CountHeld(a) == CountHeld(b) ==> a == b
  {
    if a != [] {
      KeptCount(a[1..], b[1..]);
      assert a == [a[0]] + a[1..] && b == [b[0]] + b[1..];
    }
  }

  lemma {:induction false} SomeoneHeld(s: Slots) returns (i: nat)
    requires CountHeld(s) > 0
    ensures i < |s| && s[i].Some?
  {
    if s[0].Some? {
      i := 0;
    } else {
      i := SomeoneHeld(s[1..]);
      i := i + 1;
    }
  }

  lemma {:induction false} SomeoneFree(s: Slots) returns (i: nat)
    requires CountHeld(s) < |s|
    ensures i < |s| && s[i] == None
  {
    if s[0] == None {
      i := 0;
    } else {
      i := SomeoneFree(s[1..]);
      i := i + 1;
    }
  }

  function Wrap(s: Slots, i: nat, current: nat, maxFrameNum: nat): int
    requires i < |s| && s[i].Some?
  {
    PicNum(s[i].value.frameNum, current, maxFrameNum)
  }

  /** Slot `i` is released before slot `j`: a smaller FrameNumWrap, or the same
      in a lower slot. */
  ghost predicate Before(s: Slots, i: nat, j: nat, current: nat, maxFrameNum: nat)
    requires i < |s| && s[i].Some? && j < |s| && s[j].Some?
  {
    var a, b := Wrap(s, i, current, maxFrameNum), Wrap(s, j, current, maxFrameNum);
    a < b || (a == b && i < j)
  }

  ghost predicate Oldest(s: Slots, i: nat, current: nat, maxFrameNum: nat) {
    && i < |s| && s[i].Some?
    && forall j: nat | j < |s| && s[j].Some? && j != i :: Before(s, i, j, current, maxFrameNum)
  }

  /** Free the slot with the smallest FrameNumWrap. */
  method EvictOldest(s: Slots, current: nat, maxFrameNum: nat) returns (r: Slots, ghost evicted: nat)
    ensures CountHeld(s) == 0 ==> r == s
    ensures CountHeld(s) > 0 ==> Oldest(s, evicted, current, maxFrameNum) && r == s[evicted := None]
  {
    var oldest: Option<nat> := None;
    for i := 0 to |s|
      invariant oldest == None ==> forall j | 0 <= j < i :: s[j] == None
      invariant oldest.Some? ==>
                  && oldest.value < i && s[oldest.value].Some?
                  && forall j: nat | j < i && s[j].Some? && j != oldest.value ::
                       Before(s, oldest.value, j, current, maxFrameNum)
    {
      if s[i].Some? {
        if oldest == None || Wrap(s, i, current, maxFrameNum) < Wrap(s, oldest.value, current, maxFrameNum) {
          oldest := Some(i);
        }
      }
    }
    evicted := 0;
    if oldest.Some? {
      r := s[oldest.value := None];
      evicted := oldest.value;
      CountUpdate(s, oldest.value, None);
    } else {
      r := s;
      if CountHeld(s) > 0 {
        var i := SomeoneHeld(s);
      }
    }
  }

  /** After the current picture is stored: drop the oldest references until no
      more than `maxRefs` remain. */
  method SlidingWindow(s: Slots, current: nat, maxFrameNum: nat, maxRefs: nat) returns (r: Slots)
    ensures Kept(r, s)
    ensures CountHeld(r) == if CountHeld(s) <= maxRefs then CountHeld(s) else maxRefs
    ensures forall i: nat, j: nat | i < |s| && j < |s| && s[i].Some? && r[i] == None && r[j].Some? ::
              s[j].Some? && Before(s, i, j, current, maxFrameNum)
  {
    r := s;
    while CountHeld(r) > maxRefs
      invariant Kept(r, s)
      invariant CountHeld(s) <= maxRefs ==> r == s
      invariant CountHeld(s) > maxRefs ==> CountHeld(r) >= maxRefs
      invariant forall i: nat, j: nat | i < |s| && j < |s| && s[i].Some? && r[i] == None && r[j].Some? ::
                  s[j].Some? && Before(s, i, j, current, maxFrameNum)
      decreases CountHeld(r)
    {
      ghost var evicted;
      ghost var before := r;
      r, evicted := EvictOldest(r, current, maxFrameNum);
      CountUpdate(before, evicted, None);
      assert forall j: nat | j < |s| && r[j].Some? :: before[j] == s[j] && Before(before, evicted, j, current, maxFrameNum);
    }
  }

  /** The first free slot, or the number of slots. */
  function FirstFree(s: Slots): (i: nat)
    ensures i <= |s|
    ensures i < |s| ==> s[i] == None
  {
    if s == [] || s[0] == None then 0 else 1 + FirstFree(s[1..])
  }

  lemma {:induction false} FirstFreeIsTheFirst(s: Slots)
    ensures forall j | 0 <= j < FirstFree(s) :: s[j].Some?
  {
    if s != [] && s[0].Some? {
      FirstFreeIsTheFirst(s[1..]);
    }
  }

  lemma {:induction false} FirstFreeFindsOne(s: Slots)
    requires CountHeld(s) < |s|
    ensures FirstFree(s) < |s|
  {
    if s[0].Some? {
      FirstFreeFindsOne(s[1..]);
    }
  }

  /** Some operation names the picture in slot `i`. */
  ghost predicate Unmarked(s: Slots, i: nat, ops: seq<Mmco>, current: nat, maxFrameNum: nat)
    requires i < |s| && s[i].Some?
  {
    exists k | 0 <= k < |ops| ::
      Wrap(s, i, current, maxFrameNum) == current - (ops[k].differenceOfPicNumsMinus1 + 1)
  }

  predicate Supported(op: Mmco) { op.op == 1 || op.op == 5 }

  /** What these operations leave of the slots: 1 frees the picture it names,
      5 frees all, the picture just stored with them. */
  ghost predicate Carried(s: Slots, r: Slots, ops: seq<Mmco>, current: nat, maxFrameNum: nat) {
    && Kept(r, s)
    && (forall k | 0 <= k < |ops| :: Supported(ops[k]))
    && ((exists k | 0 <= k < |ops| :: ops[k].op == 5) ==> forall i | 0 <= i < |r| :: r[i] == None)
    && ((forall k | 0 <= k < |ops| :: ops[k].op == 1) ==>
          forall i: nat | i < |s| && s[i].Some? :: r[i] == None <==> Unmarked(s, i, ops, current, maxFrameNum))
  }

  /** Adaptive marking, up to the first long-term operation, which is an
      error. */
  method ApplyMmco(s: Slots, ops: seq<Mmco>, current: nat, maxFrameNum: nat)
    returns (ok: bool, r: Slots, ghost n: nat)
    ensures n <= |ops| && Carried(s, r, ops[..n], current, maxFrameNum)
    ensures if ok then n == |ops| else n < |ops| && !Supported(ops[n])
    ensures ok <==> forall k | 0 <= k < |ops| :: Supported(ops[k])
    ensures ok ==> Carried(s, r, ops, current, maxFrameNum)
  {
    r, ok, n := s, true, |ops|;
    for k := 0 to |ops|
      invariant Carried(s, r, ops[..k], current, maxFrameNum)
    {
      match ops[k].op {
        case 1 =>
          r := FreeNumber(r, current - (ops[k].differenceOfPicNumsMinus1 + 1), current, maxFrameNum);
        case 5 => r := seq(|r|, _ => None);
        case _ => return false, r, k;
      }
    }
    assert ops[..|ops|] == ops;
  }

  /** Free every slot whose picture has this number. */
  method FreeNumber(s: Slots, picNum: int, current: nat, maxFrameNum: nat) returns (r: Slots)
    ensures |r| == |s|
    ensures forall i: nat | i < |s| ::
              r[i] == if s[i].Some? && Wrap(s, i, current, maxFrameNum) == picNum then None else s[i]
  {
    r := s;
    for i := 0 to |s|
      invariant |r| == |s|
      invariant forall j: nat | j < i ::
                  r[j] == if s[j].Some? && Wrap(s, j, current, maxFrameNum) == picNum then None else s[j]
      invariant forall j | i <= j < |s| :: r[j] == s[j]
    {
      if s[i].Some? && Wrap(s, i, current, maxFrameNum) == picNum {
        r := r[i := None];
      }
    }
  }

  // ---- Pictures numbered in decoding order ----

  /** A reference picture since the last IDR picture: its order count and its
      slot. Its place in the history is its number; `frame_num` is that
      number modulo MaxFrameNum. */
  datatype Stored = Stored(poc: int, slot: nat)

  /** The slots hold exactly the pictures `lo` to the end of the history.
      `owner` gives the number of the picture in each slot. */
  ghost predicate Tracks(s: Slots, owner: seq<Option<nat>>, history: seq<Stored>, lo: nat, maxFrameNum: nat)
  {
    && maxFrameNum > 0
    && lo <= |history|
    && |owner| == |s|
    && (forall i | 0 <= i < |s| :: s[i].Some? <==> owner[i].Some?)
    && (forall i | 0 <= i < |s| && owner[i].Some? ::
          && lo <= owner[i].value < |history|
          && history[owner[i].value].slot == i
          && s[i] == Some(DpbPicture(owner[i].value % maxFrameNum, history[owner[i].value].poc)))
    && (forall n | lo <= n < |history| :: history[n].slot < |s| && owner[history[n].slot] == Some(n))
    && CountHeld(s) == |history| - lo
  }

  lemma {:induction false} TracksNothing(s: Slots, maxFrameNum: nat)
    requires maxFrameNum > 0 && forall i | 0 <= i < |s| :: s[i] == None
    ensures Tracks(s, seq(|s|, _ => None), [], 0, maxFrameNum)
  {
    if CountHeld(s) > 0 {
      var i := SomeoneHeld(s);
    }
  }

  lemma {:induction false} StoreNext(s: Slots, owner: seq<Option<nat>>, history: seq<Stored>, lo: nat, maxFrameNum: nat, i: nat, poc: int)
    requires Tracks(s, owner, history, lo, maxFrameNum) && i < |s| && s[i] == None
    ensures Tracks(s[i := Some(DpbPicture(|history| % maxFrameNum, poc))], owner[i := Some(|history|)],
                   history + [Stored(poc, i)], lo, maxFrameNum)
  {
    CountUpdate(s, i, Some(DpbPicture(|history| % maxFrameNum, poc)));
  }

  lemma {:induction false} DropFirst(s: Slots, owner: seq<Option<nat>>, history: seq<Stored>, lo: nat, maxFrameNum: nat)
    requires Tracks(s, owner, history, lo, maxFrameNum) && lo < |history|
    ensures Tracks(s[history[lo].slot := None], owner[history[lo].slot := None], history, lo + 1, maxFrameNum)
  {
    CountUpdate(s, history[lo].slot, None);
  }

  /** FrameNumWrap counts back from the current picture, across a wrap. */
  lemma {:induction false} WrapCountsBack(current: nat, back: nat, maxFrameNum: nat)
    requires back <= current && back < maxFrameNum
    ensures PicNum((current - back) % maxFrameNum, current % maxFrameNum, maxFrameNum)
         == current % maxFrameNum - back
  {
    var r := current % maxFrameNum;
    var q := current / maxFrameNum;
    assert current == q * maxFrameNum + r;
    if back <= r {
      Arithmetic.DivModUnique(current - back, maxFrameNum, q, r - back);
    } else {
      assert current - back == (q - 1) * maxFrameNum + (r - back + maxFrameNum);
      Arithmetic.DivModUnique(current - back, maxFrameNum, q - 1, r - back + maxFrameNum);
    }
  }

  /** The oldest slot, seen from the picture just stored, holds the lowest
      number, as long as fewer than MaxFrameNum pictures are held. */
  lemma {:induction false} OldestIsTheLowestNumber(
    s: Slots, owner: seq<Option<nat>>, history: seq<Stored>, lo: nat, maxFrameNum: nat, current: nat, i: nat)
    requires Tracks(s, owner, history, lo, maxFrameNum) && lo < |history|
    requires current == |history| - 1 && current - lo < maxFrameNum
    requires Oldest(s, i, current % maxFrameNum, maxFrameNum)
    ensures i == history[lo].slot
  {
    var first := history[lo].slot;
    var n := owner[i].value;
    WrapCountsBack(current, current - lo, maxFrameNum);
    WrapCountsBack(current, current - n, maxFrameNum);
    assert owner[first] == Some(lo);
    assert Wrap(s, first, current % maxFrameNum, maxFrameNum) <= Wrap(s, i, current % maxFrameNum, maxFrameNum);
  }

  /** The lowest number held once at most `maxRefs` are. */
  function LowestHeld(history: seq<Stored>, maxRefs: nat): (lo: nat)
    ensures lo <= |history|
  {
    if |history| > maxRefs then |history| - maxRefs else 0
  }

  /** Storing a picture and sliding the window over it leaves exactly the most
      recent `maxRefs` pictures, the one just stored among them. */
  lemma {:induction false} TheWindowKeepsTheMostRecent(
    s: Slots, r: Slots, owner: seq<Option<nat>>, history: seq<Stored>, maxRefs: nat, maxFrameNum: nat)
    returns (owner': seq<Option<nat>>)
    requires history != [] && 0 < maxRefs < maxFrameNum
    requires Tracks(s, owner, history, LowestHeld(history[..|history| - 1], maxRefs), maxFrameNum)
    requires Kept(r, s)
    requires CountHeld(r) == if CountHeld(s) <= maxRefs then CountHeld(s) else maxRefs
    requires forall i: nat, j: nat | i < |s| && j < |s| && s[i].Some? && r[i] == None && r[j].Some? ::
               s[j].Some? && Before(s, i, j, (|history| - 1) % maxFrameNum, maxFrameNum)
    ensures Tracks(r, owner', history, LowestHeld(history, maxRefs), maxFrameNum)
  {
    var lo := LowestHeld(history[..|history| - 1], maxRefs);
    owner' := owner;
    KeptCount(r, s);
    if CountHeld(s) > maxRefs {
      var first := history[lo].slot;
      assert owner[first] == Some(lo);
      owner' := owner[first := None];
      DropFirst(s, owner, history, lo, maxFrameNum);
      CountUpdate(s, first, None);
      OnlyTheFirstGoes(s, r, owner, history, lo, maxFrameNum);
      hide Tracks, Before;
      assert Kept(r, s[first := None]);
      KeptCount(r, s[first := None]);
    }
  }

  /** If anything was released, the lowest number was. */
  lemma {:induction false} OnlyTheFirstGoes(
    s: Slots, r: Slots, owner: seq<Option<nat>>, history: seq<Stored>, lo: nat, maxFrameNum: nat)
    requires Tracks(s, owner, history, lo, maxFrameNum) && lo < |history|
    requires |history| - 1 - lo < maxFrameNum
    requires Kept(r, s) && r != s
    requires forall i: nat, j: nat | i < |s| && j < |s| && s[i].Some? && r[i] == None && r[j].Some? ::
               s[j].Some? && Before(s, i, j, (|history| - 1) % maxFrameNum, maxFrameNum)
    ensures r[history[lo].slot] == None
  {
    var first := history[lo].slot;
    assert owner[first] == Some(lo);
    var i: nat :| i < |s| && r[i] != s[i];
    if i != first {
      FirstIsBefore(s, owner, history, lo, maxFrameNum, i);
    }
  }

  /** The lowest number goes before any other. */
  lemma {:induction false} FirstIsBefore(
    s: Slots, owner: seq<Option<nat>>, history: seq<Stored>, lo: nat, maxFrameNum: nat, i: nat)
    requires Tracks(s, owner, history, lo, maxFrameNum) && lo < |history|
    requires |history| - 1 - lo < maxFrameNum
    requires i < |s| && s[i].Some? && i != history[lo].slot
    ensures !Before(s, i, history[lo].slot, (|history| - 1) % maxFrameNum, maxFrameNum)
  {
    var n := owner[i].value;
    WrapCountsBack(|history| - 1, |history| - 1 - lo, maxFrameNum);
    WrapCountsBack(|history| - 1, |history| - 1 - n, maxFrameNum);
    assert owner[history[lo].slot] == Some(lo);
  }

  // ---- The initial reference list ----

  /** The held pictures with their slots, in slot order from `from` on. */
  function HeldRefs(s: Slots, from: nat): seq<Ref>
    requires from <= |s|
    decreases |s| - from
  {
    if from == |s| then []
    else (if s[from].Some? then [Ref(from, s[from].value)] else []) + HeldRefs(s, from + 1)
  }

  lemma {:induction false} HeldRefsAreTheHeldPictures(s: Slots, from: nat)
    requires from <= |s|
    ensures forall r :: r in HeldRefs(s, from) <==> from <= r.slot < |s| && s[r.slot] == Some(r.pic)
    ensures forall i, j | 0 <= i < j < |HeldRefs(s, from)| ::
              HeldRefs(s, from)[i].slot < HeldRefs(s, from)[j].slot
    decreases |s| - from
  {
    if from < |s| {
      HeldRefsAreTheHeldPictures(s, from + 1);
      var rest := HeldRefs(s, from + 1);
      assert forall i | 0 <= i < |rest| :: rest[i] in rest;
    }
  }

  /** Picture `n` of the history, in its slot. */
  function Numbered(history: seq<Stored>, n: nat, maxFrameNum: nat): Ref
    requires n < |history| && maxFrameNum > 0
  {
    Ref(history[n].slot, DpbPicture(n % maxFrameNum, history[n].poc))
  }

  /** The held pictures, the last one stored first. */
  function RecentFirst(history: seq<Stored>, lo: nat, maxFrameNum: nat): seq<Ref>
    requires lo <= |history| && maxFrameNum > 0
  {
    seq(|history| - lo, k requires 0 <= k < |history| - lo => Numbered(history, |history| - 1 - k, maxFrameNum))
  }

  lemma {:induction false} HeldIsNumbered(s: Slots, owner: seq<Option<nat>>, history: seq<Stored>, lo: nat, maxFrameNum: nat, r: Ref)
    requires Tracks(s, owner, history, lo, maxFrameNum)
    ensures r in HeldRefs(s, 0) <==> r in RecentFirst(history, lo, maxFrameNum)
  {
    HeldRefsAreTheHeldPictures(s, 0);
    var recent := RecentFirst(history, lo, maxFrameNum);
    hide HeldRefs;
    if r in HeldRefs(s, 0) {
      var n := owner[r.slot].value;
      assert Numbered(history, n, maxFrameNum) == r;
      assert recent[|history| - 1 - n] == Numbered(history, n, maxFrameNum);
    }
    if r in recent {
      var k :| 0 <= k < |recent| && recent[k] == r;
      assert owner[history[|history| - 1 - k].slot] == Some(|history| - 1 - k);
    }
  }

  lemma {:induction false} RecentFirstDescends(history: seq<Stored>, lo: nat, maxFrameNum: nat)
    requires lo <= |history| && maxFrameNum > 0 && |history| - lo < maxFrameNum
    ensures forall k | 0 <= k < |history| - lo ::
              Key(RecentFirst(history, lo, maxFrameNum)[k], |history| % maxFrameNum, maxFrameNum)
              == |history| % maxFrameNum - (k + 1)
  {
    forall k | 0 <= k < |history| - lo
      ensures Key(RecentFirst(history, lo, maxFrameNum)[k], |history| % maxFrameNum, maxFrameNum)
              == |history| % maxFrameNum - (k + 1)
    {
      var back: nat := k + 1;
      assert RecentFirst(history, lo, maxFrameNum)[k] == Numbered(history, |history| - back, maxFrameNum);
      WrapCountsBack(|history|, back, maxFrameNum);
    }
  }

  lemma {:induction false} HeldKeysAreDistinct(s: Slots, owner: seq<Option<nat>>, history: seq<Stored>, lo: nat, maxFrameNum: nat)
    requires Tracks(s, owner, history, lo, maxFrameNum) && |history| - lo < maxFrameNum
    ensures DistinctKeys(HeldRefs(s, 0), |history| % maxFrameNum, maxFrameNum)
  {
    var held, current := HeldRefs(s, 0), |history| % maxFrameNum;
    HeldRefsAreTheHeldPictures(s, 0);
    hide HeldRefs;
    forall i, j | 0 <= i < j < |held|
      ensures Key(held[i], current, maxFrameNum) != Key(held[j], current, maxFrameNum)
    {
      assert held[i] in held && held[j] in held;
      var a, b := owner[held[i].slot].value, owner[held[j].slot].value;
      WrapCountsBack(|history|, |history| - a, maxFrameNum);
      WrapCountsBack(|history|, |history| - b, maxFrameNum);
    }
  }

  /** The decoder's initial list is the held pictures, newest first, whatever
      slots they are in and however often `frame_num` wrapped. */
  lemma {:induction false} InitialListIsNewestFirst(s: Slots, owner: seq<Option<nat>>, history: seq<Stored>, lo: nat, maxFrameNum: nat)
    requires Tracks(s, owner, history, lo, maxFrameNum) && |history| - lo < maxFrameNum
    ensures SortDescending(HeldRefs(s, 0), |history| % maxFrameNum, maxFrameNum)
         == RecentFirst(history, lo, maxFrameNum)
  {
    var held, current := HeldRefs(s, 0), |history| % maxFrameNum;
    var recent := RecentFirst(history, lo, maxFrameNum);
    var sorted := SortDescending(held, current, maxFrameNum);
    HeldKeysAreDistinct(s, owner, history, lo, maxFrameNum);
    SortIsAnOrderedPermutation(held, current, maxFrameNum);
    SortKeepsDistinct(held, current, maxFrameNum);
    RecentFirstDescends(history, lo, maxFrameNum);
    assert Descending(recent, current, maxFrameNum) && DistinctKeys(recent, current, maxFrameNum);
    forall r
      ensures r in sorted <==> r in recent
    {
      HeldIsNumbered(s, owner, history, lo, maxFrameNum, r);
      assert r in sorted <==> r in multiset(sorted);
      assert r in held <==> r in multiset(held);
    }
    hide Tracks, HeldRefs, RecentFirst, SortDescending, DistinctKeys, Descending;
    OrderIsUnique(sorted, recent, current, maxFrameNum);
  }
}
