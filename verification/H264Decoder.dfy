/** The decoder's picture state: slots, order counts, reference lists and
    marking, for access units given by their slice headers. */
module H264Decoding {
  import opened Common
  import opened H264
  import opened RefLists
  import opened Dpb
  import opened PictureOrder
  import Arithmetic

  datatype Failure = NoStream | BSlice | LongTerm | PocTypeOne | NoFreeSlot | BadList | Driver | BadMarking

  datatype Outcome =
    | NoPicture
    | Output(surface: nat, poc: int, lists: seq<seq<Ref>>)
    | Failed(why: Failure)

  /** Reference pictures before this one, counted from the last IDR picture. */
  function Past<T>(history: seq<T>, h: SliceHeader): seq<T> {
    if h.IsIdr() then [] else history
  }

  /** Fields as wide as the parameter sets say. */
  ghost predicate FieldsInRange(headers: seq<SliceHeader>, sps: Sps) {
    forall i | 0 <= i < |headers| ::
      headers[i].picOrderCntLsb < sps.MaxPocLsb() && headers[i].frameNum < sps.MaxFrameNum()
  }

  /** A picture of a stream without gaps, adaptive marking, B slices or
      long-term references: `frame_num` counts the reference pictures. */
  ghost predicate GapFree(headers: seq<SliceHeader>, history: seq<Stored>, sps: Sps) {
    && headers != []
    && var h := headers[0];
    && h.sliceType != SliceType.B && !h.longTermReference && h.mmcos == None
    && (h.IsIdr() ==> h.IsReference())
    && (!h.IsIdr() ==> history != [])
    && (sps.pocType == 0 || sps.pocType == 2)
    && forall i | 0 <= i < |headers| :: headers[i].frameNum == |Past(history, h)| % sps.MaxFrameNum()
  }

  /** The list of a slice, from the pictures that came before: the newest
      first, then the slice's modifications. */
  ghost function NewestFirst(history: seq<Stored>, sh: SliceHeader, sps: Sps): Option<seq<Ref>> {
    if sh.sliceType != SliceType.P then Some([])
    else
      var initial := RecentFirst(history, LowestHeld(history, sps.MaxRefs()), sps.MaxFrameNum());
      var list := Modify(initial, sh.refListMods, 0, sh.frameNum, sh.frameNum, sps.MaxFrameNum());
      if list == None then None else Some(Truncate(list.value, sh.numRefIdxL0ActiveMinus1 + 1))
  }

  /** Type 2 counts reference pictures; type 0 takes the count nearest to the
      last reference picture's. */
  ghost predicate RightOrder(poc: int, history: seq<Stored>, h: SliceHeader, sps: Sps) {
    var past := Past(history, h);
    && (sps.pocType == 0 ==>
          Nearest(poc, if past == [] then 0 else past[|past| - 1].poc, h.picOrderCntLsb, sps.MaxPocLsb()))
    && (sps.pocType == 2 ==> poc == if h.IsReference() then 2 * |past| else 2 * |past| - 1)
  }

  lemma {:induction false} ListsAreNewestFirst(
    s: Slots, owner: seq<Option<nat>>, history: seq<Stored>, sh: SliceHeader, sps: Sps)
    requires Tracks(s, owner, history, LowestHeld(history, sps.MaxRefs()), sps.MaxFrameNum())
    requires sps.MaxRefs() < sps.MaxFrameNum() && sh.frameNum == |history| % sps.MaxFrameNum()
    ensures RefList0Of(HeldRefs(s, 0), sh, sps.MaxFrameNum()) == NewestFirst(history, sh, sps)
  {
    InitialListIsNewestFirst(s, owner, history, LowestHeld(history, sps.MaxRefs()), sps.MaxFrameNum());
    hide Tracks, HeldRefs, RecentFirst, SortDescending, Modify;
  }

  ghost predicate CountsReferences(h: SliceHeader, history: seq<Stored>, sps: Sps) {
    && (h.IsIdr() ==> h.IsReference())
    && (!h.IsIdr() ==> history != [])
    && h.frameNum == |Past(history, h)| % sps.MaxFrameNum()
  }

  /** The order count state after `n` reference pictures, the last with this
      count. */
  ghost predicate OrderAfter(anchor: int, count: int, last: int, n: nat, sps: Sps) {
    && (sps.pocType == 0 ==> anchor == last)
    && (sps.pocType == 2 ==> count == n - 1 || count == n)
  }

  ghost function NextLast(history: seq<Stored>, h: SliceHeader, order: int): int {
    if h.IsReference() || history == [] then order else history[|history| - 1].poc
  }

  ghost function NextLength(history: seq<Stored>, h: SliceHeader): nat {
    |Past(history, h)| + if h.IsReference() then 1 else 0
  }

  lemma {:induction false} OrderFromLowBits(
    anchor: int, anchor': int, count': int, history: seq<Stored>, h: SliceHeader, order: int, sps: Sps)
    requires sps.pocType == 0 && CountsReferences(h, history, sps)
    requires !h.IsIdr() ==> anchor == history[|history| - 1].poc
    requires Nearest(order, if h.IsIdr() then 0 else anchor, h.picOrderCntLsb, sps.MaxPocLsb())
    requires anchor' == if h.IsReference() then order else anchor
    ensures RightOrder(order, history, h, sps)
    ensures OrderAfter(anchor', count', NextLast(history, h, order), NextLength(history, h), sps)
  {
  }

  lemma {:induction false} OrderFromCount(
    count: int, anchor': int, count': int, history: seq<Stored>, h: SliceHeader, order: int, sps: Sps)
    requires sps.pocType == 2 && CountsReferences(h, history, sps)
    requires !h.IsIdr() ==> count == |history| - 1 || count == |history|
    requires if h.IsIdr() then count' == h.frameNum else count <= count' < count + sps.MaxFrameNum()
    requires count' % sps.MaxFrameNum() == h.frameNum
    requires order == if h.IsIdr() then 0 else if h.IsReference() then 2 * count' else 2 * count' - 1
    ensures RightOrder(order, history, h, sps)
    ensures OrderAfter(anchor', count', NextLast(history, h, order), NextLength(history, h), sps)
  {
    if !h.IsIdr() {
      CountIsTheNumber(count', count, |history|, sps.MaxFrameNum());
    }
  }

  /** The count of type 2 is the number of the picture. */
  lemma {:induction false} CountIsTheNumber(count: int, before: int, n: nat, max: nat)
    requires max > 1 && before <= count < before + max && count % max == n % max
    requires before == n || before == n - 1
    ensures count == n
  {
    var d := count / max - n / max;
    assert count - n == d * max;
    Arithmetic.MulMonotone(1, d, max);
    Arithmetic.MulMonotone(d, -1, max);
  }

  /** No picture the stream may still refer to is on this surface. */
  ghost predicate NotLive(surface: nat, past: seq<Stored>, sps: Sps) {
    forall n | LowestHeld(past, sps.MaxRefs()) <= n < |past| :: past[n].slot != surface
  }

  /** The slots a picture finds: none held for an IDR picture, else as they
      were, or one fewer, the oldest, when a reference found them full. */
  ghost predicate MadeReady(before: Slots, ready: Slots, h: SliceHeader, maxFrameNum: nat) {
    && |ready| == |before|
    && (h.IsIdr() ==> forall i | 0 <= i < |ready| :: ready[i] == None)
    && (!h.IsIdr() && (!h.IsReference() || CountHeld(before) < |before|) ==> ready == before)
    && (!h.IsIdr() && h.IsReference() && CountHeld(before) == |before| ==>
          exists i: nat :: Oldest(before, i, h.frameNum, maxFrameNum) && ready == before[i := None])
  }

  /** The slots the picture finds: as they were, or all free for an IDR
      picture. There is always a free one, so nothing is evicted for it. */
  lemma {:induction false} ReadyForThePicture(
    s0: Slots, s1: Slots, owner: seq<Option<nat>>, history: seq<Stored>, h: SliceHeader, sps: Sps)
    returns (owner': seq<Option<nat>>)
    requires |s0| == sps.MaxRefs() + 1 && MadeReady(s0, s1, h, sps.MaxFrameNum())
    requires !h.IsIdr() ==> Tracks(s0, owner, history, LowestHeld(history, sps.MaxRefs()), sps.MaxFrameNum())
    ensures Tracks(s1, owner', Past(history, h), LowestHeld(Past(history, h), sps.MaxRefs()), sps.MaxFrameNum())
    ensures !h.IsIdr() ==> CountHeld(s0) < |s0|
  {
    if h.IsIdr() {
      owner' := seq(|s1|, _ => None);
      TracksNothing(s1, sps.MaxFrameNum());
    } else {
      owner' := owner;
    }
  }

  lemma {:induction false} ListsOfThePicture(
    s: Slots, owner: seq<Option<nat>>, past: seq<Stored>, headers: seq<SliceHeader>, sps: Sps)
    requires Tracks(s, owner, past, LowestHeld(past, sps.MaxRefs()), sps.MaxFrameNum())
    requires sps.MaxRefs() < sps.MaxFrameNum()
    requires forall i | 0 <= i < |headers| :: headers[i].frameNum == |past| % sps.MaxFrameNum()
    ensures forall i | 0 <= i < |headers| ::
              RefList0Of(HeldRefs(s, 0), headers[i], sps.MaxFrameNum()) == NewestFirst(past, headers[i], sps)
  {
    hide *;
    forall i | 0 <= i < |headers|
      ensures RefList0Of(HeldRefs(s, 0), headers[i], sps.MaxFrameNum()) == NewestFirst(past, headers[i], sps)
    {
      ListsAreNewestFirst(s, owner, past, headers[i], sps);
    }
  }

  lemma {:induction false} AFreeSlotIsNotLive(s: Slots, owner: seq<Option<nat>>, past: seq<Stored>, i: nat, sps: Sps)
    requires Tracks(s, owner, past, LowestHeld(past, sps.MaxRefs()), sps.MaxFrameNum())
    requires i < |s| ==> s[i] == None
    ensures NotLive(i, past, sps)
    ensures i < |s| && (forall j | 0 <= j < i :: s[j].Some?) ==> forall j: nat | j < i :: !NotLive(j, past, sps)
  {
    if i < |s| && forall j | 0 <= j < i :: s[j].Some? {
      forall j: nat | j < i
        ensures !NotLive(j, past, sps)
      {
        assert s[j].Some?;
        assert past[owner[j].value].slot == j;
      }
    }
  }

  /** The window has slid: at most `MaxRefs` held, and the oldest gone. */
  ghost predicate Slid(stored: Slots, after: Slots, frameNum: nat, sps: Sps) {
    && Kept(after, stored)
    && CountHeld(after) == (if CountHeld(stored) <= sps.MaxRefs() then CountHeld(stored) else sps.MaxRefs())
    && forall i: nat, j: nat | i < |stored| && j < |stored| && stored[i].Some? && after[i] == None && after[j].Some? ::
         stored[j].Some? && Dpb.Before(stored, i, j, frameNum, sps.MaxFrameNum())
  }

  /** The picture's marking was carried out: the window, or the operations
      it lists. */
  ghost predicate Marked(stored: Slots, after: Slots, h: SliceHeader, sps: Sps) {
    match h.mmcos
    case None => Slid(stored, after, h.frameNum, sps)
    case Some(ops) => Carried(stored, after, ops, h.frameNum, sps.MaxFrameNum())
  }

  /** Operation 5: the next picture counts from zero. */
  predicate ClearsAll(h: SliceHeader) {
    h.mmcos.Some? && exists k | 0 <= k < |h.mmcos.value| :: h.mmcos.value[k].op == 5
  }

  /** The next picture counts from this one, or from zero. */
  function StandsBehind(o: Order, h: SliceHeader): Order {
    if ClearsAll(h) then o.(offset := 0, frameNum := 0) else o.(frameNum := h.frameNum)
  }

  /** The order state behind a picture whose count was derived: without the
      step to its own number when it failed. */
  ghost predicate OrderLeft(before: Order, after: Order, h: SliceHeader, decoded: bool, sps: Sps) {
    exists derived: Order ::
      Derives(before, derived, h, sps) && after == if decoded then StandsBehind(derived, h) else derived
  }

  /** The picture lists no long-term marking operation. */
  ghost predicate Markable(h: SliceHeader) {
    h.mmcos.Some? ==> forall k | 0 <= k < |h.mmcos.value| :: Supported(h.mmcos.value[k])
  }

  /** Every slice has the list of the pictures held. */
  ghost predicate Listed(ready: Slots, headers: seq<SliceHeader>, lists: seq<seq<Ref>>, maxFrameNum: nat)
    requires maxFrameNum > 0
  {
    && |lists| == |headers|
    && forall i | 0 <= i < |headers| :: RefList0Of(HeldRefs(ready, 0), headers[i], maxFrameNum) == Some(lists[i])
  }

  /** From the slots before a picture, through the ones its lists are taken
      from, to the slots behind it. */
  ghost predicate Updated(before: Slots, after: Slots, headers: seq<SliceHeader>, r: Outcome, sps: Sps)
    requires headers != [] && r.Output?
  {
    exists ready: Slots ::
      && MadeReady(before, ready, headers[0], sps.MaxFrameNum())
      && Listed(ready, headers, r.lists, sps.MaxFrameNum())
      && PutAway(ready, after, headers[0], r, sps)
  }

  /** A reference goes to a free slot and is marked; any other picture to the
      spare surface. */
  ghost predicate PutAway(ready: Slots, after: Slots, h: SliceHeader, r: Outcome, sps: Sps)
    requires r.Output?
  {
    if h.IsReference() then
      && r.surface < |ready| && ready[r.surface] == None
      && Marked(ready[r.surface := Some(DpbPicture(h.frameNum, r.poc))], after, h, sps)
    else r.surface == |ready| && after == ready
  }

  /** What a failed picture leaves: nothing changed when it was refused
      outright, the slots it would have been decoded with when a list or the
      driver failed, and the marking up to the refused operation. There was
      always a slot for it. */
  ghost predicate LeftBehind(before: Slots, after: Slots, h: SliceHeader, why: Failure, sps: Sps) {
    match why
    case NoFreeSlot => false
    case BadList => MadeReady(before, after, h, sps.MaxFrameNum())
    case Driver => MadeReady(before, after, h, sps.MaxFrameNum())
    case BadMarking =>
      exists ready: Slots, surface: nat, order: int, n: nat :: MarkedInPart(before, ready, after, h, surface, order, n, sps.MaxFrameNum())
    case _ => after == before
  }

  ghost predicate MarkedInPart(
    before: Slots, ready: Slots, after: Slots, h: SliceHeader, surface: nat, order: int, n: nat, maxFrameNum: nat)
  {
    && MadeReady(before, ready, h, maxFrameNum)
    && surface < |ready| && ready[surface] == None
    && PartlyCarried(ready[surface := Some(DpbPicture(h.frameNum, order))], after, h, n, maxFrameNum)
  }

  /** The operations before the first refused one were carried out. */
  ghost predicate PartlyCarried(stored: Slots, after: Slots, h: SliceHeader, n: nat, maxFrameNum: nat) {
    && h.mmcos.Some? && n < |h.mmcos.value| && !Supported(h.mmcos.value[n])
    && Carried(stored, after, h.mmcos.value[..n], h.frameNum, maxFrameNum)
  }

  /** Storing the picture and sliding the window keeps the most recent. */
  lemma {:induction false} AfterThePicture(
    s: Slots, r: Slots, owner: seq<Option<nat>>, past: seq<Stored>, slot: nat, h: SliceHeader, order: int, sps: Sps)
    returns (owner': seq<Option<nat>>)
    requires Tracks(s, owner, past, LowestHeld(past, sps.MaxRefs()), sps.MaxFrameNum())
    requires sps.MaxRefs() < sps.MaxFrameNum() && h.frameNum == |past| % sps.MaxFrameNum()
    requires slot < |s| && s[slot] == None
    requires Slid(s[slot := Some(DpbPicture(h.frameNum, order))], r, h.frameNum, sps)
    ensures Tracks(r, owner', past + [Stored(order, slot)],
                   LowestHeld(past + [Stored(order, slot)], sps.MaxRefs()), sps.MaxFrameNum())
  {
    hide Dpb.Before, Kept, CountHeld;
    assert slot < |owner|;
    hide Tracks;
    var next := past + [Stored(order, slot)];
    assert next[..|next| - 1] == past;
    StoreNext(s, owner, past, LowestHeld(past, sps.MaxRefs()), sps.MaxFrameNum(), slot, order);
    owner' := TheWindowKeepsTheMostRecent(s[slot := Some(DpbPicture(h.frameNum, order))], r,
      owner[slot := Some(|past|)], next, sps.MaxRefs(), sps.MaxFrameNum());
  }

  class H264Decoder {
    var streaming: bool
    var sps: Sps
    var slots: Slots
    var lastOutput: Option<nat>
    const poc: PocState
    ghost var owner: seq<Option<nat>>
    ghost var history: seq<Stored>

    constructor ()
      ensures !streaming && fresh(poc)
    {
      streaming, sps, slots, lastOutput := false, Sps(0, 0, 0, 0), [], None;
      poc := new PocState();
      owner, history := [], [];
    }

    ghost predicate Valid()
      reads this, poc
    {
      streaming ==>
        && sps.Parsed()
        && |slots| == sps.MaxRefs() + 1
        && poc.Valid(sps)
        && (lastOutput.Some? ==> lastOutput.value <= |slots|)
    }

    /** The slots hold the most recent reference pictures since the last IDR
        picture, and the order count state stands at the last picture. */
    ghost predicate InStep()
      reads this, poc
    {
      && Valid() && streaming && sps.MaxRefs() < sps.MaxFrameNum()
      && Tracks(slots, owner, history, LowestHeld(history, sps.MaxRefs()), sps.MaxFrameNum())
      && OrderInStep()
    }

    ghost predicate OrderInStep()
      reads poc, this
    {
      history != [] ==> OrderAfter(poc.Anchor(), poc.Count(), history[|history| - 1].poc, |history|, sps)
    }

    /** New parameter sets: fresh surfaces, an empty buffer. */
    method OpenStream(newSps: Sps)
      requires newSps.Parsed()
      modifies this, poc
      ensures Valid() && streaming && sps == newSps && history == [] && lastOutput == None
      ensures forall i | 0 <= i < |slots| :: slots[i] == None
      ensures sps.MaxRefs() < sps.MaxFrameNum() ==> InStep()
    {
      var refs := if newSps.maxNumRefFrames < 1 then 1
                  else if newSps.maxNumRefFrames > 16 then 16 else newSps.maxNumRefFrames;
      streaming, sps, lastOutput := true, newSps, None;
      slots := seq(refs + 1, _ => None);
      poc.Reset();
      owner, history := seq(|slots|, _ => None), [];
      TracksNothing(slots, sps.MaxFrameNum());
    }

    /** The slot the picture is decoded into: none for a picture that is not a
        reference, else a free one, evicting if there is none. */
    method ChooseSlot(h: SliceHeader) returns (slot: Option<nat>)
      requires Valid() && streaming
      modifies this`slots
      ensures MadeReady(old(slots), slots, h, sps.MaxFrameNum())
      ensures slot.Some? <==> h.IsReference()
      ensures slot.Some? ==> slot.value < |slots| && slots[slot.value] == None
      ensures slot.Some? ==> forall j | 0 <= j < slot.value :: slots[j].Some?
    {
      if h.IsIdr() {
        slots := seq(|slots|, _ => None);
      }
      slot := None;
      if h.IsReference() {
        var free := FirstFree(slots);
        if free < |slots| {
          AFreeSlotIsNotHeld(slots, free);
        } else {
          ghost var evicted;
          ghost var before := slots;
          if CountHeld(slots) < |slots| {
            FirstFreeFindsOne(slots);
          }
          slots, evicted := EvictOldest(slots, h.frameNum, sps.MaxFrameNum());
          CountIsBounded(before);
          assert Oldest(before, evicted, h.frameNum, sps.MaxFrameNum()) && slots == before[evicted := None];
          CountUpdate(before, evicted, None);
          FirstFreeFindsOne(slots);
          free := FirstFree(slots);
        }
        FirstFreeIsTheFirst(slots);
        slot := Some(free);
      }
    }

    /** One list per slice. */
    method BuildLists(headers: seq<SliceHeader>) returns (lists: Option<seq<seq<Ref>>>)
      ensures lists.Some? <==>
              forall i | 0 <= i < |headers| :: RefList0Of(HeldRefs(slots, 0), headers[i], sps.MaxFrameNum()).Some?
      ensures lists.Some? ==> Listed(slots, headers, lists.value, sps.MaxFrameNum())
    {
      var built: seq<seq<Ref>> := [];
      var refs := HeldRefs(slots, 0);
      hide HeldRefs, RefList0Of;
      for i := 0 to |headers|
        invariant |built| == i
        invariant forall j | 0 <= j < i ::
                    RefList0Of(refs, headers[j], sps.MaxFrameNum()) == Some(built[j])
      {
        var list := RefList0(refs, headers[i], sps.MaxFrameNum());
        if list == None {
          return None;
        }
        built := built + [list.value];
      }
      lists := Some(built);
    }

    /** Store the decoded picture and release old references. */
    method Mark(h: SliceHeader, slot: nat, order: int) returns (ok: bool, ghost n: nat)
      requires Valid() && streaming && slot < |slots| && slots[slot] == None
      modifies this`slots
      ensures |slots| == |old(slots)|
      ensures ok <==> Markable(h)
      ensures ok ==> Marked(old(slots)[slot := Some(DpbPicture(h.frameNum, order))], slots, h, sps)
      ensures !ok ==> PartlyCarried(old(slots)[slot := Some(DpbPicture(h.frameNum, order))], slots, h, n, sps.MaxFrameNum())
    {
      slots := slots[slot := Some(DpbPicture(h.frameNum, order))];
      hide CountHeld, Dpb.Before, Unmarked;
      n := 0;
      if h.mmcos.Some? {
        ok, slots, n := ApplyMmco(slots, h.mmcos.value, h.frameNum, sps.MaxFrameNum());
        assert ok ==> h.mmcos.value[..n] == h.mmcos.value;
      } else {
        slots := SlidingWindow(slots, h.frameNum, sps.MaxFrameNum(), sps.MaxRefs());
        ok := true;
      }
    }

    /** The order count of the picture; the state moves on to it once
        `prevFrameNum` is set. */
    method DeriveOrder(h: SliceHeader) returns (order: Option<int>)
      requires Valid() && streaming
      requires h.picOrderCntLsb < sps.MaxPocLsb() && h.frameNum < sps.MaxFrameNum()
      modifies poc
      ensures poc.Valid(sps)
      ensures order.Some? <==> sps.pocType == 0 || sps.pocType == 2
      ensures order == None ==> unchanged(poc)
      ensures Derives(old(poc.Stands()), poc.Stands(), h, sps)
      ensures order.Some? && (h.IsIdr() || old(OrderInStep())) && CountsReferences(h, history, sps) ==>
                && RightOrder(order.value, history, h, sps)
                && OrderAfter(poc.Anchor(), poc.prevFrameNumOffset + h.frameNum,
                              NextLast(history, h, order.value), NextLength(history, h), sps)
    {
      ghost var anchor, count := poc.Anchor(), poc.Count();
      order := poc.Derive(sps, h);
      ghost var anchor', count' := poc.Anchor(), poc.prevFrameNumOffset + h.frameNum;
      if order.Some? && (h.IsIdr() || old(OrderInStep())) && CountsReferences(h, history, sps) {
        if sps.pocType == 0 {
          OrderFromLowBits(anchor, anchor', count', history, h, order.value, sps);
        } else {
          OrderFromCount(count, anchor', count', history, h, order.value, sps);
        }
      }
    }

    /** One access unit, by the headers of its slices. `renders`: the driver
        takes the picture. A keyframe puts any decoder back in step, whatever
        pictures failed before it. */
    method Decode(headers: seq<SliceHeader>, renders: bool) returns (r: Outcome)
      requires Valid()
      requires streaming ==> FieldsInRange(headers, sps)
      modifies this, poc
      ensures Valid() && streaming == old(streaming) && sps == old(sps)
      ensures r == NoPicture <==> headers == []
      ensures headers != [] && !streaming ==> r == Failed(NoStream)
      ensures headers != [] && streaming && headers[0].sliceType == SliceType.B ==> r == Failed(BSlice)
      ensures headers != [] && streaming && headers[0].sliceType != SliceType.B && headers[0].longTermReference ==>
                r == Failed(LongTerm)
      ensures headers != [] && streaming && headers[0].sliceType != SliceType.B && !headers[0].longTermReference ==>
                (r == Failed(PocTypeOne) <==> sps.pocType != 0 && sps.pocType != 2)
      ensures r == Failed(BadMarking) ==> headers[0].IsReference() && !Markable(headers[0])
      ensures r == Failed(Driver) ==> !renders
      ensures !renders ==> !r.Output?
      ensures r.Output? ==> lastOutput == Some(r.surface)
      ensures r.Output? ==> Updated(old(slots), slots, headers, r, sps)
      ensures !r.Output? ==> lastOutput == old(lastOutput)
      ensures r.Output? || (r.Failed? && r.why in {BadList, Driver, BadMarking}) ==>
                OrderLeft(old(poc.Stands()), poc.Stands(), headers[0], r.Output?, sps)
      ensures r == NoPicture || (r.Failed? && r.why in {NoStream, BSlice, LongTerm, PocTypeOne}) ==>
                slots == old(slots) && unchanged(poc)
      ensures r.Failed? && streaming ==> LeftBehind(old(slots), slots, headers[0], r.why, sps)
      ensures renders && old(CanDecode(headers)) && GapFree(headers, old(history), sps) ==>
                Decoded(r, old(history), headers)
    {
      if headers == [] {
        return NoPicture;
      }
      if !streaming {
        return Failed(NoStream);
      }
      var h := headers[0];
      if h.sliceType == SliceType.B {
        return Failed(BSlice);
      }
      if h.longTermReference {
        return Failed(LongTerm);
      }
      hide Decoded, Updated, GapFree, InStep, MadeReady;
      r := DecodePicture(headers, renders);
    }

    /** In step, or about to start over. */
    ghost predicate CanDecode(headers: seq<SliceHeader>)
      reads this, poc
    {
      InStep() || (Valid() && streaming && sps.MaxRefs() < sps.MaxFrameNum() && headers != [] && headers[0].IsIdr())
    }

    /** What decoding a picture of a gap-free stream leaves behind, for
        `before` the reference pictures decoded so far. */
    ghost predicate Decoded(r: Outcome, before: seq<Stored>, headers: seq<SliceHeader>)
      requires headers != []
      reads this, poc
    {
      && Reconstructed(r, before, headers)
      && (r.Output? ==> InStep() && RightOrder(r.poc, before, headers[0], sps))
    }

    /** Every slice got its list, on a surface no live reference is in (the
        lowest such for a reference, the spare for the others), and the slots
        hold the most recent references; a picture fails only when one of its
        lists names a picture that is not held. */
    ghost predicate Reconstructed(r: Outcome, before: seq<Stored>, headers: seq<SliceHeader>)
      requires headers != []
      reads `slots, `sps, `owner, `history
    {
      var h, past := headers[0], Past(before, headers[0]);
      if forall i | 0 <= i < |headers| :: NewestFirst(past, headers[i], sps).Some? then
        && r.Output?
        && |r.lists| == |headers|
        && (forall i | 0 <= i < |headers| :: NewestFirst(past, headers[i], sps) == Some(r.lists[i]))
        && NotLive(r.surface, past, sps)
        && (h.IsReference() ==> forall j: nat | j < r.surface :: !NotLive(j, past, sps))
        && history == (if h.IsReference() then past + [Stored(r.poc, r.surface)] else past)
        && (if h.IsReference() then r.surface < |slots| else r.surface == |slots|)
        && Tracks(slots, owner, history, LowestHeld(history, sps.MaxRefs()), sps.MaxFrameNum())
      else r == Failed(BadList)
    }

    method DecodePicture(headers: seq<SliceHeader>, renders: bool) returns (r: Outcome)
      requires Valid() && streaming && headers != []
      requires FieldsInRange(headers, sps)
      modifies this, poc
      ensures Valid() && streaming && sps == old(sps)
      ensures r.Output? || r.Failed?
      ensures r.Output? ==> lastOutput == Some(r.surface)
      ensures sps.pocType != 0 && sps.pocType != 2 <==> r == Failed(PocTypeOne)
      ensures r.Output? ==> Updated(old(slots), slots, headers, r, sps)
      ensures r == Failed(BadMarking) ==> headers[0].IsReference() && !Markable(headers[0])
      ensures r.Failed? ==> r.why in {PocTypeOne, BadList, Driver, BadMarking}
      ensures r == Failed(Driver) ==> !renders
      ensures !renders ==> !r.Output?
      ensures r.Failed? ==> lastOutput == old(lastOutput)
      ensures r != Failed(PocTypeOne) ==> OrderLeft(old(poc.Stands()), poc.Stands(), headers[0], r.Output?, sps)
      ensures r == Failed(PocTypeOne) ==> slots == old(slots) && unchanged(poc)
      ensures r.Failed? ==> LeftBehind(old(slots), slots, headers[0], r.why, sps)
      ensures renders && old(CanDecode(headers)) && GapFree(headers, old(history), sps) ==>
                Decoded(r, old(history), headers)
    {
      var h := headers[0];
      ghost var good := renders && CanDecode(headers) && GapFree(headers, history, sps);
      ghost var before := history;
      var order := DeriveOrder(h);
      if order == None {
        return Failed(PocTypeOne);
      }
      assert good ==> RightOrder(order.value, before, h, sps);
      hide Tracks, NewestFirst, RightOrder, NotLive, OrderAfter, RecentFirst, Sps.MaxRefs, GapFree, Reconstructed, Updated, LeftBehind;
      r := RenderAndMark(headers, order.value, renders, good);
    }

    /** The rest of a picture once its order count is known. */
    method RenderAndMark(headers: seq<SliceHeader>, order: int, renders: bool, ghost good: bool) returns (r: Outcome)
      requires Valid() && streaming && headers != [] && FieldsInRange(headers, sps)
      requires good ==> renders && Ready(headers[0]) && GapFree(headers, history, sps)
      requires good ==> OrderAfter(poc.Anchor(), poc.prevFrameNumOffset + headers[0].frameNum,
                                   NextLast(history, headers[0], order), NextLength(history, headers[0]), sps)
      modifies `slots, `owner, `history, `lastOutput, poc
      ensures Valid()
      ensures r.Output? || (r.Failed? && r.why in {BadList, Driver, BadMarking})
      ensures r == Failed(Driver) ==> !renders
      ensures !renders ==> !r.Output?
      ensures r.Failed? ==> LeftBehind(old(slots), slots, headers[0], r.why, sps)
      ensures r.Output? ==> lastOutput == Some(r.surface) && r.poc == order
      ensures r.Output? ==> Updated(old(slots), slots, headers, r, sps)
      ensures r == Failed(BadMarking) ==> headers[0].IsReference() && !Markable(headers[0])
      ensures r.Failed? ==> lastOutput == old(lastOutput) && unchanged(poc)
      ensures r.Output? ==> poc.Stands() == StandsBehind(old(poc.Stands()), headers[0])
      ensures good ==> Reconstructed(r, old(history), headers) && (r.Output? ==> OrderInStep())
    {
      hide Updated, LeftBehind, Tracks, NewestFirst, PocState.Valid, NotLive, OrderAfter, Sps.MaxFrameNum, Sps.MaxPocLsb,
        Sps.Parsed, Sps.MaxRefs, RecentFirst;
      var h := headers[0];
      ghost var before := history;
      ghost var last, n := NextLast(before, h, order), NextLength(before, h);
      assert good ==> h.mmcos == None;
      assert h.frameNum < sps.MaxFrameNum();
      hide GapFree, FieldsInRange;
      r := Reconstruct(headers, order, renders, good);
      if r.Output? {
        Advance(h, r.surface, last, n, good);
        assert good ==> Reconstructed(r, before, headers);
        assert good && history != [] ==> history[|history| - 1].poc == last && |history| == n;
      }
    }

    /** The slot and the lists of a picture. `good`: the picture is the next
        of a gap-free stream. */
    method Prepare(headers: seq<SliceHeader>, ghost good: bool) returns (slot: Option<nat>, lists: Option<seq<seq<Ref>>>)
      requires Valid() && streaming && headers != []
      requires good ==> Ready(headers[0]) && GapFree(headers, history, sps)
      modifies `slots, `owner
      ensures |slots| == |old(slots)| && MadeReady(old(slots), slots, headers[0], sps.MaxFrameNum())
      ensures slot.Some? <==> headers[0].IsReference()
      ensures slot.Some? ==> slot.value < |slots| && slots[slot.value] == None
      ensures lists.Some? ==> Listed(slots, headers, lists.value, sps.MaxFrameNum())
      ensures good ==> Prepared(slot, lists, Past(history, headers[0]), headers)
    {
      hide RefList0Of, NewestFirst, HeldRefs, Dpb.Before, Kept, CountHeld, Sps.MaxFrameNum, RecentFirst, Tracks, NotLive;
      var h := headers[0];
      ghost var past, s0 := Past(history, h), slots;
      slot := ChooseSlot(h);
      if good {
        owner := ReadyForThePicture(s0, slots, owner, history, h, sps);
        ListsOfThePicture(slots, owner, past, headers, sps);
        AFreeSlotIsNotLive(slots, owner, past, if slot.Some? then slot.value else |slots|, sps);
      }
      lists := BuildLists(headers);
    }

    ghost predicate Ready(h: SliceHeader)
      reads `slots, `owner, `history, `sps
    {
      && (!h.IsIdr() ==> Tracks(slots, owner, history, LowestHeld(history, sps.MaxRefs()), sps.MaxFrameNum()))
      && sps.MaxRefs() < sps.MaxFrameNum()
    }

    ghost predicate Prepared(slot: Option<nat>, lists: Option<seq<seq<Ref>>>, past: seq<Stored>, headers: seq<SliceHeader>)
      reads `slots, `sps, `owner
    {
      && Tracks(slots, owner, past, LowestHeld(past, sps.MaxRefs()), sps.MaxFrameNum())
      && NotLive(if slot.Some? then slot.value else |slots|, past, sps)
      && (slot.Some? ==> forall j: nat | j < slot.value :: !NotLive(j, past, sps))
      && (lists.Some? <==> forall i | 0 <= i < |headers| :: NewestFirst(past, headers[i], sps).Some?)
      && (lists.Some? ==> |lists.value| == |headers|
                          && forall i | 0 <= i < |headers| :: NewestFirst(past, headers[i], sps) == Some(lists.value[i]))
    }

    /** Store a reference and mark it. `good`: it is the next of a gap-free
        stream, after `past`. */
    method Place(h: SliceHeader, slot: nat, order: int, ghost past: seq<Stored>, ghost good: bool)
      returns (ok: bool, ghost n: nat)
      requires Valid() && streaming && slot < |slots| && slots[slot] == None
      requires good ==>
                 && Tracks(slots, owner, past, LowestHeld(past, sps.MaxRefs()), sps.MaxFrameNum())
                 && sps.MaxRefs() < sps.MaxFrameNum() && h.frameNum == |past| % sps.MaxFrameNum() && h.mmcos == None
      modifies `slots, `owner
      ensures |slots| == |old(slots)|
      ensures ok <==> Markable(h)
      ensures ok ==> Marked(old(slots)[slot := Some(DpbPicture(h.frameNum, order))], slots, h, sps)
      ensures !ok ==> PartlyCarried(old(slots)[slot := Some(DpbPicture(h.frameNum, order))], slots, h, n, sps.MaxFrameNum())
      ensures good ==>
                var next := past + [Stored(order, slot)];
                Tracks(slots, owner, next, LowestHeld(next, sps.MaxRefs()), sps.MaxFrameNum())
    {
      hide Tracks, Slid, Carried, PartlyCarried;
      ghost var s := slots;
      ok, n := Mark(h, slot, order);
      if good {
        owner := AfterThePicture(s, slots, owner, past, slot, h, order, sps);
      }
    }

    /** Decode the slices and mark the picture. */
    method Reconstruct(headers: seq<SliceHeader>, order: int, renders: bool, ghost good: bool) returns (r: Outcome)
      requires Valid() && streaming && headers != []
      requires good ==> renders && Ready(headers[0]) && GapFree(headers, history, sps)
      modifies `slots, `owner, `history
      ensures |slots| == |old(slots)|
      ensures r.Output? || (r.Failed? && r.why in {BadList, Driver, BadMarking})
      ensures r == Failed(Driver) ==> !renders
      ensures !renders ==> !r.Output?
      ensures r.Failed? ==> LeftBehind(old(slots), slots, headers[0], r.why, sps)
      ensures r.Output? ==> r.surface <= |slots| && r.poc == order
      ensures r.Output? ==> Updated(old(slots), slots, headers, r, sps)
      ensures r == Failed(BadMarking) ==> headers[0].IsReference() && !Markable(headers[0])
      ensures good ==> Reconstructed(r, old(history), headers)
    {
      hide NewestFirst, Tracks, NotLive, MadeReady, Listed, PartlyCarried, Marked, Sps.MaxFrameNum, Sps.MaxRefs;
      var h := headers[0];
      ghost var past := Past(history, h);
      ghost var before := slots;
      assert good ==> h.mmcos == None && h.frameNum == |past| % sps.MaxFrameNum();
      hide GapFree, Past;
      var slot, lists := Prepare(headers, good);
      if lists == None {
        return Failed(BadList);
      }
      if !renders {
        return Failed(Driver);
      }
      var surface := |slots|;
      if slot.Some? {
        surface := slot.value;
        ghost var s := slots;
        ghost var n;
        var ok;
        ok, n := Place(h, surface, order, past, good);
        if !ok {
          assert MarkedInPart(before, s, slots, h, surface, order, n, sps.MaxFrameNum());
          return Failed(BadMarking);
        }
      }
      history := if h.IsReference() then past + [Stored(order, surface)] else past;
      r := Output(surface, order, lists.value);
    }

    /** The next picture counts from this one. */
    method Advance(h: SliceHeader, surface: nat, ghost last: int, ghost n: nat, ghost good: bool)
      requires poc.Valid(sps) && h.frameNum < sps.MaxFrameNum()
      requires good ==> h.mmcos == None && OrderAfter(poc.Anchor(), poc.prevFrameNumOffset + h.frameNum, last, n, sps)
      modifies poc, `lastOutput
      ensures poc.Valid(sps) && lastOutput == Some(surface)
      ensures poc.Stands() == StandsBehind(old(poc.Stands()), h)
      ensures poc.Count() == if ClearsAll(h) then 0 else old(poc.prevFrameNumOffset) + h.frameNum
      ensures good ==> OrderAfter(poc.Anchor(), poc.Count(), last, n, sps)
    {
      Arithmetic.DivModUnique(0, sps.MaxFrameNum(), 0, 0);
      hide Sps.MaxFrameNum, Sps.MaxPocLsb, OrderAfter;
      if ClearsAll(h) {
        poc.prevFrameNumOffset, poc.prevFrameNum := 0, 0;
      } else {
        poc.prevFrameNum := h.frameNum;
      }
      lastOutput := Some(surface);
    }
  }
}
