/** The quality ladder: which level the measured rate can pay for, and when to
    move there. Times are seconds. */
module QualityLadder {
  import opened Common
  import opened Levels

  const FLOOR_BPP := 0.03
  const HOLD_DOWN := 2.0
  const HOLD_UP := 4.0
  const MAX_HOLD_UP := 300.0
  const DOWN_FLOOR_MULT := 0.9

  /** What the budget of a level depends on besides the rate. */
  datatype Stream = Stream(pixels: nat, dual: bool, canDropAux: bool, maxFps: nat)

  // ---- Choosing a level ----

  function Streams(s: Stream, level: nat): real
    requires level < RUNGS
  {
    if s.dual && (LEVELS[level].aux || !s.canDropAux) then 2.0 else 1.0
  }

  function Fps(s: Stream, level: nat): real
    requires level < RUNGS
  {
    var cap := if LEVELS[level].fpsCap < s.maxFps then LEVELS[level].fpsCap else s.maxFps;
    (if cap < 1 then 1 else cap) as real
  }

  function Pixels(s: Stream, level: nat): real
    requires level < RUNGS
  {
    var px := s.pixels as real * LEVELS[level].scale * LEVELS[level].scale;
    if px < 1.0 then 1.0 else px
  }

  function Product(a: real, b: real, c: real): real { a * b * c }

  /** Pixels per second over all streams. */
  function Cost(s: Stream, level: nat): (r: real)
    requires level < RUNGS
    ensures r >= 1.0
  {
    ThreeProducts(Streams(s, level), Fps(s, level), Pixels(s, level), 1.0, 1.0, 1.0);
    Product(Streams(s, level), Fps(s, level), Pixels(s, level))
  }

  /** Bits per pixel one stream gets at this level. */
  function AffordableBpp(rate: real, s: Stream, level: nat): real
    requires level < RUNGS
  {
    0.85 * rate / Cost(s, level)
  }

  lemma {:induction false} QuotientMonotone(a: real, b: real, c: real, d: real)
    requires 0.0 <= a <= b && c >= d > 0.0
    ensures a / c <= b / d
  {
  }

  /** A worse level costs no more. */
  lemma {:induction false} CostFalls(s: Stream, i: nat, j: nat)
    requires i <= j < RUNGS
    ensures Cost(s, i) >= Cost(s, j)
  {
    PartsFall(s, i, j);
    hide Streams, Fps, Pixels, Product;
    ThreeProducts(Streams(s, i), Fps(s, i), Pixels(s, i), Streams(s, j), Fps(s, j), Pixels(s, j));
  }

  lemma {:induction false} ThreeProducts(a: real, b: real, c: real, x: real, y: real, z: real)
    requires a >= x >= 0.0 && b >= y >= 0.0 && c >= z >= 0.0
    ensures Product(a, b, c) >= Product(x, y, z)
  {
  }

  lemma {:induction false} PartsFall(s: Stream, i: nat, j: nat)
    requires i <= j < RUNGS
    ensures Streams(s, i) >= Streams(s, j) >= 1.0
    ensures Fps(s, i) >= Fps(s, j) >= 1.0
    ensures Pixels(s, i) >= Pixels(s, j) >= 1.0
  {
  }

  /** A worse level, or a faster link, never affords less. */
  lemma {:induction false} AffordableIsMonotone(rate: real, rate': real, s: Stream, i: nat, j: nat)
    requires 0.0 <= rate <= rate' && i <= j < RUNGS
    ensures AffordableBpp(rate, s, i) <= AffordableBpp(rate', s, j)
  {
    CostFalls(s, i, j);
    hide Cost;
    QuotientMonotone(0.85 * rate, 0.85 * rate', Cost(s, i), Cost(s, j));
  }

  predicate Affords(rate: real, s: Stream, level: nat, floorMult: real)
    requires level < RUNGS
  {
    AffordableBpp(rate, s, level) >= floorMult * FLOOR_BPP
  }

  function FirstAffordable(rate: real, s: Stream, floorMult: real, from: nat): (r: nat)
    requires from <= RUNGS
    ensures from <= r <= RUNGS
    decreases RUNGS - from
  {
    if from == RUNGS || Affords(rate, s, from, floorMult) then from
    else FirstAffordable(rate, s, floorMult, from + 1)
  }

  /** The best level whose budget stays above the floor; the last when none
      does. */
  function Select(rate: real, s: Stream, floorMult: real): (r: nat)
    ensures r < RUNGS
  {
    var first := FirstAffordable(rate, s, floorMult, 0);
    if first < RUNGS then first else RUNGS - 1
  }

  lemma {:induction false} FirstAffordableIsTheFirst(rate: real, s: Stream, floorMult: real, from: nat)
    requires from <= RUNGS
    ensures var r := FirstAffordable(rate, s, floorMult, from);
            && (r < RUNGS ==> Affords(rate, s, r, floorMult))
            && forall i | from <= i < r :: !Affords(rate, s, i, floorMult)
    decreases RUNGS - from
  {
    hide Affords;
    if from < RUNGS && !Affords(rate, s, from, floorMult) {
      FirstAffordableIsTheFirst(rate, s, floorMult, from + 1);
    }
  }

  /** Exactly the levels from the selected one on are affordable, unless none
      is. */
  lemma {:induction false} SelectSplitsTheLevels(rate: real, s: Stream, floorMult: real, i: nat)
    requires rate >= 0.0 && i < RUNGS
    ensures Affords(rate, s, i, floorMult) ==> i >= Select(rate, s, floorMult)
    ensures i >= Select(rate, s, floorMult) ==>
              Affords(rate, s, i, floorMult) || !Affords(rate, s, RUNGS - 1, floorMult)
  {
    FirstAffordableIsTheFirst(rate, s, floorMult, 0);
    var first := FirstAffordable(rate, s, floorMult, 0);
    if first <= i {
      AffordableIsMonotone(rate, rate, s, first, i);
    }
  }

  /** A faster link selects no worse a level, a higher floor no better one. */
  lemma {:induction false} SelectIsMonotone(rate: real, rate': real, s: Stream, floorMult: real, floorMult': real)
    requires 0.0 <= rate <= rate' && floorMult' <= floorMult
    ensures Select(rate', s, floorMult') <= Select(rate, s, floorMult)
  {
    var first := FirstAffordable(rate, s, floorMult, 0);
    FirstAffordableIsTheFirst(rate, s, floorMult, 0);
    FirstAffordableIsTheFirst(rate', s, floorMult', 0);
    if first < RUNGS {
      AffordableIsMonotone(rate, rate', s, first, first);
      assert Affords(rate', s, first, floorMult');
    }
  }

  // ---- Moving ----

  /** A move, and the hold in force behind it. */
  datatype Move = Move(at: real, before: nat, after: nat, slowStart: bool, hold: real)

  predicate IsUp(m: Move) { m.after < m.before }

  /** A move up outside slow start. */
  predicate IsStepUp(m: Move) { IsUp(m) && !m.slowStart }

  function Ups(moves: seq<Move>): nat {
    if moves == [] then 0 else Ups(moves[..|moves| - 1]) + if IsUp(moves[|moves| - 1]) then 1 else 0
  }

  function Downs(moves: seq<Move>): nat {
    if moves == [] then 0 else Downs(moves[..|moves| - 1]) + if IsUp(moves[|moves| - 1]) then 0 else 1
  }

  /** Each move begins where the one before it ended, and an up-step waits for
      the hold in force. */
  ghost predicate Next(a: Move, b: Move) {
    && a.after == b.before && b.at >= a.at
    && (IsStepUp(b) ==> b.at - a.at >= a.hold)
  }

  ghost predicate IsMove(m: Move) {
    m.before != m.after && m.before < RUNGS && m.after < RUNGS && m.hold >= HOLD_UP
  }

  /** The moves of a ladder, in order. */
  ghost predicate Linked(moves: seq<Move>) {
    moves == [] ||
    var n := |moves| - 1;
    && IsMove(moves[n])
    && (n > 0 ==> Next(moves[n - 1], moves[n]))
    && Linked(moves[..n])
  }

  /** The hold after these moves. */
  function Hold(moves: seq<Move>): real {
    if moves == [] then HOLD_UP else moves[|moves| - 1].hold
  }

  function Doubled(hold: real): real { if 2.0 * hold < MAX_HOLD_UP then 2.0 * hold else MAX_HOLD_UP }

  /** A step down within twice the hold of any step up. */
  ghost predicate Flaps(moves: seq<Move>, m: Move) {
    && !IsUp(m) && !m.slowStart
    && exists i | 0 <= i < |moves| :: IsStepUp(moves[i]) && m.at - moves[i].at <= 2.0 * Hold(moves)
  }

  /** Exactly the flaps double the hold, up to five minutes. */
  ghost predicate BacksOff(moves: seq<Move>) {
    forall j | 0 <= j < |moves| ::
      moves[j].hold == if Flaps(moves[..j], moves[j]) then Doubled(Hold(moves[..j])) else Hold(moves[..j])
  }

  /** The time of the last step up. */
  ghost predicate IsLastUp(moves: seq<Move>, last: Option<real>) {
    && (last == None ==> forall i | 0 <= i < |moves| :: !IsStepUp(moves[i]))
    && (last.Some? ==>
          && (exists i | 0 <= i < |moves| :: IsStepUp(moves[i]) && moves[i].at == last.value)
          && (forall i | 0 <= i < |moves| && IsStepUp(moves[i]) :: moves[i].at <= last.value)
          && last.value <= moves[|moves| - 1].at)
  }

  /** The last step up tells whether a step down flaps. */
  lemma {:induction false} TheLastUpTells(moves: seq<Move>, last: Option<real>, m: Move)
    requires IsLastUp(moves, last)
    ensures Flaps(moves, m) <==> !IsUp(m) && !m.slowStart && last.Some? && m.at - last.value <= 2.0 * Hold(moves)
  {
  }

  lemma {:induction false} OneMoreMove(moves: seq<Move>, m: Move, last: Option<real>)
    requires Linked(moves) && BacksOff(moves) && IsLastUp(moves, last)
    requires IsMove(m) && (moves != [] ==> Next(moves[|moves| - 1], m))
    requires m.hold == if Flaps(moves, m) then Doubled(Hold(moves)) else Hold(moves)
    ensures Linked(moves + [m]) && BacksOff(moves + [m])
    ensures IsLastUp(moves + [m], if IsStepUp(m) then Some(m.at) else last)
  {
    OneMoreHold(moves, m);
    hide BacksOff, Flaps;
    var all := moves + [m];
    assert all[|moves|] == m && forall i | 0 <= i < |moves| :: all[i] == moves[i];
    assert all[..|moves|] == moves;
  }

  lemma {:induction false} OneMoreHold(moves: seq<Move>, m: Move)
    requires BacksOff(moves)
    requires m.hold == if Flaps(moves, m) then Doubled(Hold(moves)) else Hold(moves)
    ensures BacksOff(moves + [m])
  {
    var all := moves + [m];
    forall j | 0 <= j < |all|
      ensures all[j].hold == if Flaps(all[..j], all[j]) then Doubled(Hold(all[..j])) else Hold(all[..j])
    {
      assert all[..j] == moves[..j];
      assert moves[..|moves|] == moves;
    }
  }

  /** So is any part of them, as between two points in time. */
  lemma {:induction false} PartOfLinked(moves: seq<Move>, i: nat, j: nat)
    requires Linked(moves) && i <= j <= |moves|
    ensures Linked(moves[i..j])
    decreases |moves|
  {
    var n := |moves| - 1;
    if j == |moves| && i < j {
      PartOfLinked(moves[..n], i, n);
      var part := moves[i..j];
      SliceInTwoSteps(moves, i, n, j);
      assert |part| - 1 == n - i;
    } else if i < j {
      PartOfLinked(moves[..n], i, j);
      assert moves[i..j] == moves[..n][i..j];
    } else {
      assert moves[i..j] == [];
    }
  }

  lemma {:induction false} LinkedInTwos(moves: seq<Move>, k: nat)
    requires Linked(moves) && 0 < k < |moves|
    ensures Next(moves[k - 1], moves[k])
    decreases |moves|
  {
    if k < |moves| - 1 {
      LinkedInTwos(moves[..|moves| - 1], k);
    }
  }

  /** The hold never shrinks. */
  lemma {:induction false} HoldsGrow(moves: seq<Move>, j: nat, k: nat)
    requires Linked(moves) && BacksOff(moves) && j <= k < |moves|
    ensures HOLD_UP <= moves[j].hold <= moves[k].hold <= MAX_HOLD_UP && moves[j].at <= moves[k].at
    decreases k
  {
    hide Flaps, Linked;
    if k > 0 {
      HoldsGrow(moves, if j < k then j else k - 1, k - 1);
      LinkedInTwos(moves, k);
      assert moves[..k][k - 1] == moves[k - 1];
    }
  }

  /** After a flap the next step up, and every later one, is put off by twice
      the hold before it, or by five minutes. */
  lemma {:induction false} AFlapDelaysStepsUp(moves: seq<Move>, j: nat, k: nat)
    requires Linked(moves) && BacksOff(moves) && j < k < |moves|
    requires Flaps(moves[..j], moves[j]) && IsStepUp(moves[k])
    ensures moves[k].at - moves[j].at >= 2.0 * Hold(moves[..j]) || moves[k].at - moves[j].at >= 300.0
  {
    assert moves[j].hold == Doubled(Hold(moves[..j]));
    hide Flaps, Linked, BacksOff, Hold;
    HoldsGrow(moves, j, k - 1);
    LinkedInTwos(moves, k);
  }

  /** In any T seconds outside slow start: at most 1 + T/4 up-steps, and at
      most six down-steps more than six for each up-step. */
  lemma {:induction false} StepsAreRare(moves: seq<Move>)
    requires Linked(moves) && moves != [] && forall m | m in moves :: !m.slowStart
    ensures 4.0 * Ups(moves) as real <= 4.0 + moves[|moves| - 1].at - moves[0].at
    ensures Downs(moves) <= 6 + 6 * Ups(moves)
  {
    UpsNeedTime(moves);
    DownsNeedUps(moves);
  }

  /** The bounds on the moves from number `i` up to number `j`, if none of them
      is of slow start. */
  ghost predicate RareBetween(moves: seq<Move>, i: nat, j: nat)
    requires i < j <= |moves|
  {
    (forall k | i <= k < j :: !moves[k].slowStart) ==>
      && 4.0 * Ups(moves[i..j]) as real <= 4.0 + moves[j - 1].at - moves[i].at
      && Downs(moves[i..j]) <= 6 + 6 * Ups(moves[i..j])
  }

  /** However a stretch of time is chosen, it holds few moves. */
  ghost predicate AlwaysRare(moves: seq<Move>) {
    forall i: nat, j: nat | i < j <= |moves| :: RareBetween(moves, i, j)
  }

  lemma {:induction false} LinkedIsRare(moves: seq<Move>)
    requires Linked(moves)
    ensures AlwaysRare(moves)
  {
    forall i: nat, j: nat | i < j <= |moves|
      ensures RareBetween(moves, i, j)
    {
      PartOfLinked(moves, i, j);
      hide Linked, Ups, Downs;
      if forall k | i <= k < j :: !moves[k].slowStart {
        StepsAreRare(moves[i..j]);
      }
    }
  }

  lemma {:induction false} UpsNeedTime(moves: seq<Move>)
    requires Linked(moves) && moves != [] && forall m | m in moves :: !m.slowStart
    ensures 4.0 * Ups(moves) as real <= 4.0 + moves[|moves| - 1].at - moves[0].at
  {
    var n := |moves| - 1;
    if n > 0 {
      assert forall m | m in moves[..n] :: m in moves;
      UpsNeedTime(moves[..n]);
      assert moves[n] in moves;
    } else {
      assert Ups(moves[..0]) == 0;
    }
  }

  lemma {:induction false} DownsNeedUps(moves: seq<Move>)
    requires Linked(moves) && moves != []
    ensures Downs(moves) <= moves[|moves| - 1].after - moves[0].before + 6 * Ups(moves)
  {
    var n := |moves| - 1;
    if n > 0 {
      DownsNeedUps(moves[..n]);
    } else {
      assert Ups(moves[..0]) == 0 && Downs(moves[..0]) == 0;
    }
  }

  /** No rate evidence moves the ladder off this level while the rate stays. */
  predicate Stays(level: nat, rate: real, s: Stream, slowStart: bool) {
    && Select(rate, s, DOWN_FLOOR_MULT) <= level
    && level <= Select(rate, s, if slowStart then 1.0 else 1.25)
  }

  /** One time the ladder is asked: whether there is evidence that was not
      app-limited, and whether the link is in slow start or was congested. */
  datatype Asked = Asked(now: real, evidence: bool, slowStart: bool, congested: bool)

  /** The same with what the link measured, and the stream. */
  datatype Question = Question(asked: Asked, rate: Option<real>, stream: Stream)

  /** In order of time, and no rate is negative. */
  ghost predicate InTime(questions: seq<Question>, since: Option<real>) {
    && (forall i, j | 0 <= i < j < |questions| :: questions[i].asked.now <= questions[j].asked.now)
    && forall i | 0 <= i < |questions| ::
         && (since.Some? ==> questions[i].asked.now >= since.value)
         && (questions[i].rate.Some? ==> questions[i].rate.value >= 0.0)
  }

  class Ladder {
    var index: nat
    var holdUp: real
    var belowSince: Option<real>
    var lastChange: Option<real>
    var lastStepUp: Option<real>
    ghost var moves: seq<Move>

    constructor (start: nat)
      ensures Valid() && moves == [] && (start < RUNGS ==> index == start)
    {
      index := if start < RUNGS then start else RUNGS - 1;
      holdUp, belowSince, lastChange, lastStepUp := HOLD_UP, None, None, None;
      moves := [];
    }

    ghost predicate Valid()
      reads this
    {
      && index < RUNGS
      && HOLD_UP <= holdUp <= MAX_HOLD_UP && holdUp == Hold(moves)
      && Linked(moves) && BacksOff(moves) && IsLastUp(moves, lastStepUp)
      && AtTheLast()
    }

    ghost predicate AtTheLast()
      reads `moves, `lastChange, `index
    {
      if moves == [] then lastChange == None
      else lastChange == Some(moves[|moves| - 1].at) && moves[|moves| - 1].after == index
    }

    /** The evidence for a move is complete, for the levels selected at the
        floor, below it and above it. */
    predicate Moves(now: real, sel: nat, down: nat, up: nat, evidence: bool, slowStart: bool, congested: bool)
      reads this
    {
      if slowStart then sel < index || (down > index && evidence && congested)
      else if sel < index then up < index && (lastChange == None || now - lastChange.value >= holdUp)
      else down > index && evidence && (congested || (belowSince.Some? && now - belowSince.value >= HOLD_DOWN))
    }

    /** There is evidence that the level is too good for the rate. */
    predicate Below(sel: nat, down: nat, evidence: bool)
      reads this
    {
      sel >= index && down > index && evidence
    }

    /** The last step up is no longer ago than twice the hold. */
    predicate SteppedUpSince(now: real)
      reads this
    {
      lastStepUp.Some? && now - lastStepUp.value <= 2.0 * holdUp
    }

    /** Since when the level has been too good, unless a move settles it. */
    ghost function NextBelow(now: real, sel: nat, down: nat, evidence: bool, slowStart: bool, moved: Option<nat>): Option<real>
      reads this
    {
      if moved.Some? then None
      else if slowStart then belowSince
      else if Below(sel, down, evidence) then Some(if belowSince.Some? then belowSince.value else now)
      else None
    }

    /** A flap doubles the hold, up to its maximum. */
    ghost function NextHold(now: real): real
      reads this
    {
      if SteppedUpSince(now) then Doubled(holdUp) else holdUp
    }

    /** Consider a move. Up-steps need headroom and a full hold; down-steps
        real evidence, and congestion or two seconds below the floor. */
    method Consider(now: real, rate: Option<real>, evidence: bool, slowStart: bool, congested: bool, s: Stream)
      returns (moved: Option<nat>)
      requires Valid() && (lastChange.Some? ==> now >= lastChange.value)
      requires rate.Some? ==> rate.value >= 0.0
      modifies this
      ensures Valid() && holdUp >= old(holdUp) && (lastChange.Some? ==> now >= lastChange.value)
      ensures moved == None ==> index == old(index) && moves == old(moves)
      ensures moved.Some? ==>
                && moved.value == index && rate.Some?
                && moves == old(moves) + [Move(now, old(index), index, slowStart, holdUp)]
                && Stays(index, rate.value, s, slowStart) && Stays(index, rate.value, s, false)
      ensures moved.Some? && index < old(index) ==>
                Select(rate.value, s, 1.0) < old(index)
                && index == Select(rate.value, s, if slowStart then 1.0 else 1.25)
      ensures moved.Some? && index > old(index) ==>
                evidence && Select(rate.value, s, DOWN_FLOOR_MULT) > old(index)
                && index == Select(rate.value, s, 1.0)
      ensures moved.Some? && index < old(index) && !slowStart && old(lastChange.Some?) ==>
                now - old(lastChange.value) >= old(holdUp)
      ensures moved.Some? && index > old(index) && !congested ==>
                !slowStart && old(belowSince.Some?) && now - old(belowSince.value) >= HOLD_DOWN
      ensures belowSince.Some? ==> belowSince == old(belowSince) || (old(belowSince) == None && belowSince == Some(now))
      ensures rate.Some? && slowStart && Select(rate.value, s, 1.0) < old(index) ==> moved.Some?
      ensures rate.Some? && evidence && congested && Select(rate.value, s, DOWN_FLOOR_MULT) > old(index) ==> moved.Some?
      ensures rate.Some? && Stays(old(index), rate.value, s, slowStart) ==> moved == None
      ensures lastStepUp == if moved.Some? && index < old(index) && !slowStart then Some(now) else old(lastStepUp)
      ensures rate == None ==> moved == None && unchanged(this)
      ensures rate.Some? ==>
                var sel, down := Select(rate.value, s, 1.0), Select(rate.value, s, DOWN_FLOOR_MULT);
                && (moved.Some? <==> old(Moves(now, sel, down, Select(rate.value, s, 1.25), evidence, slowStart, congested)))
                && belowSince == old(NextBelow(now, sel, down, evidence, slowStart, moved))
      ensures holdUp == if moved.Some? && index > old(index) && !slowStart then old(NextHold(now)) else old(holdUp)
    {
      if rate == None {
        return None;
      }
      var sel, down := Select(rate.value, s, 1.0), Select(rate.value, s, DOWN_FLOOR_MULT);
      var up := Select(rate.value, s, 1.25);
      SelectIsMonotone(rate.value, rate.value, s, 1.0, DOWN_FLOOR_MULT);
      SelectIsMonotone(rate.value, rate.value, s, 1.25, 1.0);
      hide Select, Linked, Moves, Valid;
      moved := Decide(now, sel, down, up, evidence, slowStart, congested);
    }

    /** The move for the levels selected at the floor, below and above it. */
    method Decide(now: real, sel: nat, down: nat, up: nat, evidence: bool, slowStart: bool, congested: bool)
      returns (moved: Option<nat>)
      requires Valid() && (lastChange.Some? ==> now >= lastChange.value)
      requires down <= sel <= up < RUNGS
      modifies this
      ensures Valid() && holdUp >= old(holdUp) && (lastChange.Some? ==> now >= lastChange.value)
      ensures moved == None ==> index == old(index) && moves == old(moves)
      ensures moved.Some? ==> moved.value == index && moves == old(moves) + [Move(now, old(index), index, slowStart, holdUp)]
      ensures moved.Some? && index < old(index) ==> sel < old(index) && index == if slowStart then sel else up
      ensures moved.Some? && index >= old(index) ==> index == sel > old(index) && evidence && down > old(index)
      ensures moved.Some? && index < old(index) && !slowStart && old(lastChange.Some?) ==>
                now - old(lastChange.value) >= old(holdUp)
      ensures moved.Some? && index > old(index) && !congested ==>
                !slowStart && old(belowSince.Some?) && now - old(belowSince.value) >= HOLD_DOWN
      ensures belowSince.Some? ==> belowSince == old(belowSince) || (old(belowSince) == None && belowSince == Some(now))
      ensures (slowStart && sel < old(index)) || (evidence && congested && down > old(index)) ==> moved.Some?
      ensures moved.Some? <==> old(Moves(now, sel, down, up, evidence, slowStart, congested))
      ensures lastStepUp == if moved.Some? && index < old(index) && !slowStart then Some(now) else old(lastStepUp)
      ensures belowSince == old(NextBelow(now, sel, down, evidence, slowStart, moved))
      ensures holdUp == if moved.Some? && index > old(index) && !slowStart then old(NextHold(now)) else old(holdUp)
    {
      ghost var last := lastStepUp;
      hide Linked, BacksOff, IsLastUp, Flaps;
      if slowStart {
        if sel < index || (down > index && evidence && congested) {
          MoveTo(now, sel, true, last);
          return Some(sel);
        }
        return None;
      }
      if sel < index {
        belowSince := None;
        var held := lastChange == None || now - lastChange.value >= holdUp;
        if up < index && held {
          lastStepUp := Some(now);
          MoveTo(now, up, false, last);
          return Some(up);
        }
      } else if down > index && evidence {
        var since := if belowSince.Some? then belowSince.value else now;
        belowSince := Some(since);
        if congested || now - since >= HOLD_DOWN {
          if SteppedUpSince(now) {
            holdUp := Doubled(holdUp);
          }
          MoveTo(now, sel, false, last);
          return Some(sel);
        }
      } else {
        belowSince := None;
      }
      return None;
    }

    /** `last` is the last step up before this move. */
    method MoveTo(now: real, to: nat, ghost slowStart: bool, ghost last: Option<real>)
      requires index < RUNGS && HOLD_UP <= holdUp <= MAX_HOLD_UP
      requires Linked(moves) && BacksOff(moves) && IsLastUp(moves, last) && AtTheLast()
      requires to < RUNGS && to != index
      requires lastChange.Some? ==> now >= lastChange.value
      requires to < index && !slowStart && lastChange.Some? ==> now - lastChange.value >= holdUp
      requires holdUp == if to > index && !slowStart && last.Some? && now - last.value <= 2.0 * Hold(moves)
                         then Doubled(Hold(moves)) else Hold(moves)
      requires lastStepUp == if to < index && !slowStart then Some(now) else last
      modifies `index, `lastChange, `belowSince, `moves
      ensures Valid() && index == to && lastChange == Some(now) && belowSince == None
      ensures moves == old(moves) + [Move(now, old(index), to, slowStart, holdUp)]
    {
      hide Linked, BacksOff, IsLastUp, Flaps, Doubled;
      ghost var move := Move(now, index, to, slowStart, holdUp);
      TheLastUpTells(moves, last, move);
      OneMoreMove(moves, move, last);
      moves := moves + [move];
      index, lastChange, belowSince := to, Some(now), None;
    }

    /** Any questions, whatever the link measured and the stream was: in every
        stretch of time outside slow start the moves are few; exactly the flaps
        double the hold, and every step up waits for it. */
    method Run(questions: seq<Question>)
      requires Valid() && InTime(questions, lastChange)
      modifies this
      ensures Valid() && old(moves) <= moves && |moves| <= |old(moves)| + |questions|
      ensures AlwaysRare(moves) && BacksOff(moves) && Linked(moves)
    {
      ghost var before := moves;
      for k := 0 to |questions|
        invariant Valid() && before <= moves && |moves| <= |before| + k
        invariant forall i | k <= i < |questions| && lastChange.Some? :: lastChange.value <= questions[i].asked.now
      {
        hide Ladder.Valid, Stays, Select, Ladder.Moves, Ladder.NextBelow, Ladder.NextHold;
        var a := questions[k].asked;
        var moved := Consider(a.now, questions[k].rate, a.evidence, a.slowStart, a.congested, questions[k].stream);
      }
      LinkedIsRare(moves);
    }

    /** A link that measures the same rate for one hold, outside slow start and
        never app-limited, brings the ladder to a level where that rate keeps
        it. */
    method Settles(rate: real, s: Stream, asked: seq<Asked>)
      requires Valid() && rate >= 0.0
      requires |asked| >= 2 && forall a | a in asked :: !a.slowStart && a.evidence
      requires forall i | 0 < i < |asked| :: asked[i].now >= asked[i - 1].now
      requires lastChange.Some? ==> asked[0].now >= lastChange.value
      requires belowSince.Some? ==> asked[0].now >= belowSince.value
      requires asked[|asked| - 1].now - asked[0].now >= holdUp
      modifies this
      ensures Valid() && Stays(index, rate, s, false)
    {
      ghost var start := asked[0].now;
      for k := 0 to |asked|
        invariant Valid() && (k == 0 ==> unchanged(this))
        invariant k > 0 ==> asked[k - 1].now >= start
        invariant k < |asked| && lastChange.Some? ==> asked[k].now >= lastChange.value
        invariant Stays(index, rate, s, false) || k == 0
                  || (k < |asked| && Unsettled(old(index), old(holdUp), old(lastChange), rate, s, start))
      {
        hide Ladder.Valid, Select, Stays;
        var a := asked[k];
        assert a in asked && !a.slowStart && a.evidence;
        AskAgain(a, rate, s, start);
      }
    }

    /** One question more; the hold is over when it has taken that long. */
    method AskAgain(a: Asked, rate: real, s: Stream, ghost start: real)
      requires Valid() && rate >= 0.0 && !a.slowStart && a.evidence && a.now >= start
      requires lastChange.Some? ==> lastChange.value <= a.now
      modifies this
      ensures Valid() && (lastChange.Some? ==> lastChange.value <= a.now)
      ensures old(Stays(index, rate, s, false)) ==> Stays(index, rate, s, false)
      ensures old(belowSince.Some? ==> belowSince.value <= start) && a.now == start ==>
                Stays(index, rate, s, false) || Unsettled(old(index), old(holdUp), old(lastChange), rate, s, start)
      ensures old(Unsettled(index, holdUp, lastChange, rate, s, start)) ==>
                Stays(index, rate, s, false)
                || (Unsettled(old(index), old(holdUp), old(lastChange), rate, s, start)
                    && (a.now - start < holdUp || (lastChange.Some? && lastChange.value > start)))
    {
      SelectIsMonotone(rate, rate, s, 1.0, DOWN_FLOOR_MULT);
      SelectIsMonotone(rate, rate, s, 1.25, 1.0);
      assert HOLD_DOWN <= HOLD_UP <= holdUp;
      hide Ladder.Valid, Select;
      var moved := Consider(a.now, Some(rate), a.evidence, a.slowStart, a.congested, s);
    }

    /** Where it was, and since `start` either too good a level or held back. */
    ghost predicate Unsettled(level: nat, hold: real, changed: Option<real>, rate: real, s: Stream, start: real)
      reads this
    {
      && index == level && holdUp == hold && lastChange == changed
      && (Select(rate, s, DOWN_FLOOR_MULT) > index ==> belowSince.Some? && belowSince.value <= start)
    }

    /** A link that always measures the same rate: once slow start is over for
        good, one move is the most it ever causes. */
    method AtAConstantRate(rate: real, s: Stream, asked: seq<Asked>)
      requires Valid() && rate >= 0.0
      requires asked != [] && lastChange.Some? ==> asked[0].now >= lastChange.value
      requires forall i | 0 < i < |asked| ::
                 asked[i].now >= asked[i - 1].now && (asked[i].slowStart ==> asked[i - 1].slowStart)
      modifies this
      ensures Valid() && |old(moves)| <= |moves| <= |old(moves)| + 1
    {
      hide *;
      ghost var n := |moves|;
      for k := 0 to |asked|
        invariant Valid() && n <= |moves| <= n + 1
        invariant k < |asked| && lastChange.Some? ==> asked[k].now >= lastChange.value
        invariant |moves| > n ==> k > 0 && Stays(index, rate, s, asked[k - 1].slowStart) && Stays(index, rate, s, false)
      {
        var a := asked[k];
        var moved := Consider(a.now, Some(rate), a.evidence, a.slowStart, a.congested, s);
      }
    }
  }
}
