/** The rate controller: the CBR target for what the link was measured to
    carry. Slow start doubles it towards the best rate, once a flight; later it
    is evaluated now and then, cut after two bad evaluations in a row and raised
    after a quiet hold. Times are seconds. */
module RateControl {
  import opened Common
  import opened Link
  import Arithmetic

  const MAX_BPP := 0.1
  const MIN_BPP := 0.005
  const INITIAL_BPS := 3_000_000
  const MAX_BPS := 80_000_000
  const STARTUP_TIMEOUT := 5.0
  const CONGESTION_RECENCY := 2.0

  datatype Reason = SlowStart | Grow | Track | Rtt | Rate

  function MaxNat(a: nat, b: nat): (r: nat)
    ensures r >= a && r >= b && (r == a || r == b)
  {
    if a < b then b else a
  }

  function MinNat(a: nat, b: nat): (r: nat)
    ensures r <= a && r <= b && (r == a || r == b)
  {
    if b < a then b else a
  }

  function ClampNat(x: nat, low: nat, high: nat): (r: nat)
    requires low <= high
    ensures low <= r <= high
  {
    MinNat(MaxNat(x, low), high)
  }

  /** `as u64` and `as u32` of a float: truncated and saturated at both ends. */
  function AsU64(x: real): nat { MinNat(ToNat(x), 0xFFFF_FFFF_FFFF_FFFF) }

  function AsU32(x: real): nat { MinNat(ToNat(x), 0xFFFF_FFFF) }

  /** Rounded down, and at most `cap`. */
  function Capped(x: real, cap: nat): nat {
    if x < 0.0 then 0 else if x < cap as real then x.Floor else cap
  }

  /** The casts of the bounds lose nothing of the higher, nor of a lower that
      fits 32 bits. */
  lemma {:induction false} CastsStayExact(high: real, low: real)
    ensures Low32(MinNat(AsU64(high), MAX_BPS)) == Capped(high, MAX_BPS) <= MAX_BPS
    ensures 0.0 <= low < 4294967296.0 ==> Low32(MaxNat(AsU64(low), 100_000)) == MaxNat(low.Floor, 100_000)
  {
  }

  /** `as u32` of an integer: the low 32 bits. */
  function Low32(x: nat): nat { x % 0x1_0000_0000 }

  /** The target after a cut to 0.85 of what was delivered: a twentieth lower
      at least, but not below the floor. */
  function CutTo(target: nat, min: nat, basis: real): nat {
    MinNat(target, ClampNat(AsU32(0.85 * basis), min, MaxNat(AsU32(target as real * 0.95), min)))
  }

  function Tracked(rate: real): nat { AsU32(0.85 * rate) }

  /** Eight per cent more for a second. */
  function Growth(target: nat, dt: real): real { target as real * (1.0 + 0.08 * dt) }

  function Grown(target: nat, dt: real): nat { AsU32(Growth(target, dt)) }

  /** The target behind a step, and the reason given for it. */
  datatype Verdict = Verdict(target: nat, reason: Option<Reason>)

  /** Two overused evaluations in a row. */
  function CutBack(target: nat, min: nat, basis: real, delayed: bool): Verdict {
    var next := CutTo(target, min, basis);
    Verdict(next, if next == target then None else Some(if delayed then Rtt else Reason.Rate))
  }

  /** A quiet hold: what the link carries when that is more, else a little
      growth. */
  function Raised(target: nat, max: nat, rate: Option<real>, dt: real): Verdict {
    if rate.Some? && Tracked(rate.value) > target then Verdict(MinNat(Tracked(rate.value), max), Some(Track))
    else if MinNat(Grown(target, dt), max) > target then Verdict(MinNat(Grown(target, dt), max), Some(Grow))
    else Verdict(target, None)
  }

  // ---- What an ack comes to ----

  /** What the controller takes from the estimator. */
  datatype Seen = Seen(
    rate: Option<real>,
    recent: Option<real>,
    base: Option<real>,
    threshold: real,
    delivered: nat)

  /** What its answer depends on in the controller itself. */
  datatype Control = Control(
    target: nat,
    min: nat,
    max: nat,
    slowStart: bool,
    since: real,
    lastEval: Option<real>,
    lastChange: Option<real>,
    raisedAt: nat,
    overuse: nat,
    blocked: bool)

  function EvalEvery(base: Option<real>): (r: real)
    ensures r >= 0.25 && (base.Some? ==> r >= base.value / 1000.0)
    ensures r == 0.25 || (base.Some? && r == base.value / 1000.0)
  {
    Max(0.25, (if base.Some? then base.value else 0.0) / 1000.0)
  }

  function GrowAfter(base: Option<real>): (r: real)
    ensures r >= 1.5 && (base.Some? ==> r >= 2.0 * base.value / 1000.0)
    ensures r == 1.5 || (base.Some? && r == 2.0 * base.value / 1000.0)
  {
    Max(1.5, 2.0 * (if base.Some? then base.value else 0.0) / 1000.0)
  }

  /** What a cut follows: the recent rate, else the best, else the target. */
  function Basis(seen: Seen, target: nat): real {
    if seen.recent.Some? then seen.recent.value else if seen.rate.Some? then seen.rate.value else target as real
  }

  /** Queueing beyond jitter, or outside slow start a delivered rate well
      under the best. */
  predicate Overused(seen: Seen, queueing: real, starting: bool) {
    || queueing > seen.threshold
    || (!starting && seen.recent.Some? && seen.rate.Some? && seen.recent.value < 0.7 * seen.rate.value)
  }

  /** A full hold since the last cut or jump. */
  predicate Quiet(c: Control, seen: Seen, now: real) {
    now - (if c.lastChange.Some? then c.lastChange.value else c.since) >= GrowAfter(seen.base)
  }

  /** What an evaluation with an ack to go by comes to. */
  function Judged(c: Control, seen: Seen, now: real, bad: bool, delayed: bool): Verdict {
    if bad then
      if c.overuse == 1 then CutBack(c.target, c.min, Basis(seen, c.target), delayed) else Verdict(c.target, None)
    else if c.slowStart || !Quiet(c, seen, now) then Verdict(c.target, None)
    else Raised(c.target, c.max, seen.rate, EvalEvery(seen.base))
  }

  /** An evaluation is due; the first ack only starts the clock. */
  predicate IsTime(c: Control, seen: Seen, now: real) {
    c.lastEval.Some? && now - c.lastEval.value >= EvalEvery(seen.base)
  }

  /** The least round trip of the window, over the base; none without an
      ack. */
  function Queueing(seen: Seen, least: Option<real>): Option<real> {
    if least == None || seen.base == None then None else Some(Max(least.value - seen.base.value, 0.0))
  }

  function NextEval(c: Control, seen: Seen, now: real): Option<real> {
    if c.lastEval == None || IsTime(c, seen, now) then Some(now) else c.lastEval
  }

  /** It is due, and an ack came in the window. */
  predicate Due(c: Control, seen: Seen, least: Option<real>, now: real) {
    IsTime(c, seen, now) && Queueing(seen, least).Some?
  }

  /** What comes of an ack that slow start does not answer. */
  function Evaluated(c: Control, seen: Seen, least: Option<real>, now: real): Verdict {
    if !IsTime(c, seen, now) then Verdict(c.target, None) else Weighed(c, seen, least, now)
  }

  function Weighed(c: Control, seen: Seen, least: Option<real>, now: real): Verdict {
    if Queueing(seen, least) == None then Verdict(c.target, None)
    else
      var queueing := Queueing(seen, least).value;
      Judged(c, seen, now, c.blocked && Overused(seen, queueing, c.slowStart), queueing > seen.threshold)
  }

  /** Within slow start and its time, with a rate and acks since the last
      raise. */
  predicate HasEvidence(c: Control, seen: Seen, now: real) {
    c.slowStart && now - c.since <= STARTUP_TIMEOUT && seen.rate.Some? && seen.delivered > c.raisedAt
  }

  /** Slow start raises the target. */
  predicate Jumps(c: Control, seen: Seen, now: real) {
    HasEvidence(c, seen, now) && c.target < c.max && AsU32(2.0 * seen.rate.value) > c.target
  }

  /** Slow start goes on without a raise: there is time, and the target is not
      known to be all there is. */
  predicate Starting(c: Control, seen: Seen, now: real) {
    c.slowStart && now - c.since <= STARTUP_TIMEOUT && !(HasEvidence(c, seen, now) && c.target == c.max)
  }

  /** What comes of an ack. */
  function Answered(c: Control, seen: Seen, least: Option<real>, now: real): Verdict {
    if Jumps(c, seen, now) then Verdict(MinNat(AsU32(2.0 * seen.rate.value), c.max), Some(SlowStart))
    else Evaluated(c.(slowStart := Starting(c, seen, now)), seen, least, now)
  }

  /** A quiet controller at its ceiling, on a link that carries more. */
  predicate TracksInPlace(c: Control, seen: Seen, least: Option<real>, now: real) {
    && c.target == c.max
    && !Starting(c, seen, now)
    && Due(c, seen, least, now)
    && !(c.blocked && Overused(seen, Queueing(seen, least).value, false))
    && Quiet(c, seen, now)
    && seen.rate.Some? && Tracked(seen.rate.value) > c.target
  }

  /** A reason is promised when the target changes. It comes with an unchanged
      target exactly when the controller tracks in place. */
  lemma {:induction false} ReportsInPlaceExactlyAtTheCeiling(c: Control, seen: Seen, least: Option<real>, now: real)
    requires c.min <= c.target <= c.max
    ensures var v := Answered(c, seen, least, now);
            && (v.target != c.target ==> v.reason.Some?)
            && (v.reason.Some? && v.target == c.target <==> TracksInPlace(c, seen, least, now))
            && (TracksInPlace(c, seen, least, now) ==> v.reason == Some(Track))
  {
    hide AsU32, Overused, Basis, Queueing, EvalEvery, GrowAfter;
  }

  // ---- What a move goes by ----

  /** Down to 0.85 of `basis`, but by a twentieth at least and not below the
      floor; rounded down. */
  ghost predicate DownTo(after: nat, before: nat, min: nat, basis: real) {
    && min <= after && after as real <= Max(min as real, 0.85 * basis)
    && after as real > Min(0.85 * basis, 0.95 * before as real) - 1.0
  }

  /** `x`, but not above the ceiling; rounded down. */
  ghost predicate UpTo(after: nat, max: nat, x: real) {
    Min(x, max as real) - 1.0 < after as real <= Min(x, max as real)
  }

  /** A cut goes by the mean of `rates`, those of the samples that tell what the
      link delivers now; without any by the best rate, and without that by the
      target. A jump goes by the best rate. */
  ghost predicate GoesBy(
    reason: Option<Reason>, before: nat, after: nat, min: nat, max: nat, rates: seq<real>, best: Option<real>)
  {
    && (after < before && rates != [] ==> DownTo(after, before, min, Mean(rates)))
    && (after < before && rates == [] && best.Some? ==> DownTo(after, before, min, best.value))
    && (after < before && rates == [] && best == None ==> DownTo(after, before, min, before as real))
    && (reason == Some(SlowStart) ==> best.Some? && UpTo(after, max, 2.0 * best.value))
    && (reason == Some(Track) ==> best.Some? && UpTo(after, max, 0.85 * best.value))
  }

  /** A move outside slow start comes a quarter second after the last
      evaluation, a raise one and a half after the last cut or jump; on a long
      link they come one round trip and two after those. */
  ghost predicate InDueTime(reason: Option<Reason>, c: Control, base: Option<real>, now: real) {
    && (reason.Some? && reason != Some(SlowStart) ==>
          c.lastEval.Some? && now - c.lastEval.value >= 0.25 && (base.Some? ==> now - c.lastEval.value >= base.value / 1000.0))
    && (reason == Some(Track) || reason == Some(Grow) ==>
          var last := if c.lastChange.Some? then c.lastChange.value else c.since;
          now - last >= 1.5 && (base.Some? ==> now - last >= 2.0 * base.value / 1000.0))
  }

  /** A cut has its cause: a frame waited, and the least round trip of the
      window is above the base by more than jitter, or `rates` are on average
      well under the best rate. */
  ghost predicate HasCause(
    blocked: bool, least: Option<real>, base: Option<real>, threshold: real, rates: seq<real>, best: Option<real>)
  {
    && blocked && least.Some? && base.Some?
    && (|| least.value - base.value > threshold
        || (rates != [] && best.Some? && Mean(rates) < 0.7 * best.value))
  }

  /** It is time for an evaluation, and an ack came since the last. */
  predicate IsDue(c: Control, least: Option<real>, base: Option<real>, now: real) {
    && least.Some? && base.Some? && c.lastEval.Some?
    && now - c.lastEval.value >= 0.25 && now - c.lastEval.value >= base.value / 1000.0
  }

  /** A full hold has passed since the last cut or jump. */
  predicate HasHeld(c: Control, base: real, now: real) {
    var last := if c.lastChange.Some? then c.lastChange.value else c.since;
    now - last >= 1.5 && now - last >= 2.0 * base / 1000.0
  }

  /** Outside slow start, an evaluation that is due follows the link: a cause
      for the second time brings the target down to 0.85 of the recent rate, or
      to the floor; without one and after a full hold it is no lower than 0.85
      of the best rate, and unless that was above it, two per cent higher than
      before, or at the ceiling; rounded down. */
  ghost predicate KeepsUp(
    c: Control, after: nat, least: Option<real>, base: Option<real>, threshold: real, now: real,
    rates: seq<real>, best: Option<real>)
  {
    !c.slowStart && IsDue(c, least, base, now) ==>
      && (HasCause(c.blocked, least, base, threshold, rates, best) && c.overuse == 1 && rates != [] ==>
            after as real <= Max(c.min as real, 0.85 * Mean(rates)))
      && (!HasCause(c.blocked, least, base, threshold, rates, best) && HasHeld(c, base.value, now) ==>
            && (best.Some? ==> after as real > Min(0.85 * best.value, c.max as real) - 1.0)
            && (best == None || 0.85 * best.value <= c.target as real ==>
                  after as real > Min(1.02 * c.target as real, c.max as real) - 1.0))
  }

  lemma {:induction false} EvaluationsKeepUp(c: Control, seen: Seen, least: Option<real>, now: real, rates: seq<real>)
    requires c.min <= c.target <= c.max <= MAX_BPS
    requires seen.threshold >= 0.0 && seen.recent == if rates == [] then None else Some(Mean(rates))
    ensures KeepsUp(c, Answered(c, seen, least, now).target, least, seen.base, seen.threshold, now, rates, seen.rate)
  {
    hide AsU32, CutTo, Mean, Tracked, Grown, Jumps, Starting;
    if !c.slowStart && IsDue(c, least, seen.base, now) {
      assert IsTime(c, seen, now) && Queueing(seen, least).Some?;
      assert !Jumps(c, seen, now) && !Starting(c, seen, now) by {
        NotStarting(c, seen, now);
      }
      CutToStays(c.target, c.min, Basis(seen, c.target));
      RaisedReaches(c.target, c.max, seen.rate, EvalEvery(seen.base));
    }
  }

  lemma {:induction false} NotStarting(c: Control, seen: Seen, now: real)
    requires !c.slowStart
    ensures !Jumps(c, seen, now) && !Starting(c, seen, now)
  {
  }

  lemma {:induction false} CutToStays(target: nat, min: nat, basis: real)
    requires min <= target
    ensures CutTo(target, min, basis) as real <= Max(min as real, 0.85 * basis)
  {
  }

  lemma {:induction false} RaisedReaches(target: nat, max: nat, best: Option<real>, dt: real)
    requires target <= max <= MAX_BPS && dt >= 0.25
    ensures var v := Raised(target, max, best, dt);
            && (best.Some? ==> v.target as real > Min(0.85 * best.value, max as real) - 1.0)
            && (best == None || 0.85 * best.value <= target as real ==>
                  v.target as real > Min(1.02 * target as real, max as real) - 1.0)
  {
    hide Grown, Tracked;
    GrownReaches(target, max, dt);
    if best.Some? {
      TrackedReaches(best.value, max);
    }
  }

  lemma {:induction false} GrownReaches(target: nat, max: nat, dt: real)
    requires max <= MAX_BPS && dt >= 0.25
    ensures MinNat(Grown(target, dt), max) as real > Min(1.02 * target as real, max as real) - 1.0
  {
    hide Growth, AsU32;
    GrowsByTwoPerCent(target, dt);
    CastReaches(Growth(target, dt), 1.02 * target as real, max);
  }

  lemma {:induction false} GrowsByTwoPerCent(target: nat, dt: real)
    requires dt >= 0.25
    ensures Growth(target, dt) >= 1.02 * target as real
  {
    assert target as real * (0.08 * dt - 0.02) >= 0.0;
  }

  lemma {:induction false} TrackedReaches(rate: real, max: nat)
    requires max <= MAX_BPS
    ensures MinNat(Tracked(rate), max) as real > Min(0.85 * rate, max as real) - 1.0
    ensures Tracked(rate) as real <= Max(0.85 * rate, 0.0)
  {
    CastReaches(0.85 * rate, 0.85 * rate, max);
  }

  lemma {:induction false} CastReaches(x: real, y: real, max: nat)
    requires max <= MAX_BPS && y <= x
    ensures MinNat(AsU32(x), max) as real > Min(y, max as real) - 1.0
  {
  }

  lemma {:induction false} CutToGoesDown(target: nat, min: nat, basis: real)
    requires min <= target <= MAX_BPS && CutTo(target, min, basis) < target
    ensures DownTo(CutTo(target, min, basis), target, min, basis)
  {
  }

  lemma {:induction false} CappedGoesUp(x: real, max: nat)
    requires max <= MAX_BPS && AsU32(x) > 0
    ensures UpTo(MinNat(AsU32(x), max), max, x)
  {
  }

  lemma {:induction false} AnswersGoByTheSamples(c: Control, seen: Seen, least: Option<real>, now: real, rates: seq<real>)
    requires c.min <= c.target <= c.max <= MAX_BPS
    requires seen.threshold >= 0.0 && seen.recent == if rates == [] then None else Some(Mean(rates))
    ensures var v := Answered(c, seen, least, now);
            && GoesBy(v.reason, c.target, v.target, c.min, c.max, rates, seen.rate) && InDueTime(v.reason, c, seen.base, now)
            && (v.target < c.target ==> HasCause(c.blocked, least, seen.base, seen.threshold, rates, seen.rate))
  {
    hide AsU32, CutTo, UpTo, DownTo, EvalEvery, GrowAfter, Grown, Mean;
    var v := Answered(c, seen, least, now);
    if v.target < c.target {
      CutToGoesDown(c.target, c.min, Basis(seen, c.target));
    }
    if v.reason == Some(SlowStart) || v.reason == Some(Track) {
      CappedGoesUp(if v.reason == Some(SlowStart) then 2.0 * seen.rate.value else 0.85 * seen.rate.value, c.max);
    }
  }

  /** What an answer to an ack depends on. */
  datatype Standing = Standing(target: nat, slowStart: bool, evals: seq<bool>)

  /** What an answer to an ack says. The target falls only after two blocked,
      overused evaluations in a row, and then by a twentieth at least; it rises
      in slow start, or when the last evaluation was not overused. */
  ghost predicate Answers(reason: Option<Reason>, a: Standing, b: Standing, min: nat, max: nat) {
    && (b.slowStart ==> a.slowStart)
    && a.evals <= b.evals && |b.evals| <= |a.evals| + 1
    && (reason == None ==> b.target == a.target)
    && (reason == Some(SlowStart) ==> b.target > a.target && a.slowStart && b.evals == a.evals)
    && (reason == Some(Rtt) || reason == Some(Reason.Rate) <==> b.target < a.target)
    && (b.target < a.target ==>
          && b.target <= MaxNat(min, AsU32(a.target as real * 0.95))
          && |b.evals| == |a.evals| + 1 >= 2 && b.evals[|b.evals| - 2] && b.evals[|b.evals| - 1])
    && (b.target > a.target && reason != Some(SlowStart) ==>
          && !b.slowStart
          && |b.evals| == |a.evals| + 1 && !b.evals[|b.evals| - 1])
    && (reason == Some(Track) ==> (b.target == a.target <==> a.target == max))
    && (reason == Some(Grow) ==> b.target > a.target)
  }

  lemma {:induction false} AnswersNothing(a: Standing, min: nat, max: nat)
    ensures Answers(None, a, a, min, max)
  {
  }

  lemma {:induction false} AnswersInSlowStart(a: Standing, b: Standing, min: nat, max: nat)
    requires a.slowStart && b.target > a.target && b.evals == a.evals
    ensures Answers(Some(SlowStart), a, b, min, max)
  {
  }

  lemma {:induction false} AnswersAfterSlowStart(reason: Option<Reason>, a: Standing, b: Standing, c: Standing, min: nat, max: nat)
    requires Answers(reason, b, c, min, max) && reason != Some(SlowStart)
    requires b.target == a.target && b.evals == a.evals && (b.slowStart ==> a.slowStart)
    ensures Answers(reason, a, c, min, max)
  {
  }

  class RateController {
    var min: nat
    var max: nat
    var target: nat
    const fixedCap: Option<nat>
    var slowStart: bool
    var started: Option<real>
    var startupIdleSince: Option<real>
    var lastCongestion: Option<real>
    var lastEval: Option<real>
    var lastChange: Option<real>
    var raisedAtDelivered: nat
    var overuseEvals: nat
    var blockedAtCap: bool
    var writerBlocked: bool
    var streams: nat
    var pixels: nat
    /** Every evaluation that had an ack to go by: was the sender blocked and
        the link overused? */
    ghost var evals: seq<bool>

    ghost function Now(): Standing
      reads `target, `slowStart, `evals
    {
      Standing(target, slowStart, evals)
    }

    /** Every clamp has its bounds in order. */
    ghost predicate Bounded()
      reads this
    {
      && 1 <= min <= EffectiveMax() <= MAX_BPS
      && streams >= 1
    }

    ghost predicate Valid()
      reads this
    {
      && Bounded() && min <= target <= EffectiveMax()
      && overuseEvals <= 1 && overuseEvals <= |evals|
      && (overuseEvals == 1 ==> evals[|evals| - 1])
    }

    constructor (pixels: nat, streams: nat, maxFps: nat, fixedCap: Option<nat>)
      ensures Valid() && slowStart && evals == [] && raisedAtDelivered == 0
      ensures started == lastEval == lastChange == None && !blockedAtCap && !writerBlocked
      ensures fixedCap.Some? && fixedCap.value >= 1 ==> EffectiveMax() <= fixedCap.value
      ensures target == ClampNat(INITIAL_BPS, min, EffectiveMax())
      ensures this.fixedCap == fixedCap && EffectiveMax() == EffectiveMaxRaw()
      ensures max == Capped(pixels as real * MaxNat(streams, 1) as real * maxFps as real * MAX_BPP, MAX_BPS)
    {
      this.fixedCap := fixedCap;
      slowStart, blockedAtCap, writerBlocked := true, false, false;
      started, startupIdleSince, lastCongestion, lastEval, lastChange := None, None, None, None, None;
      raisedAtDelivered, overuseEvals, evals := 0, 0, [];
      min, max, target, this.streams, this.pixels := 0, 0, 0, MaxNat(streams, 1), pixels;
      new;
      SetBounds(pixels, streams, maxFps);
      target := ClampNat(INITIAL_BPS, min, EffectiveMax());
    }

    function EffectiveMaxRaw(): (r: nat)
      reads `max
      ensures r >= 1
    {
      MaxNat(if fixedCap.Some? then MinNat(fixedCap.value, max) else max, 1)
    }

    function EffectiveMax(): (r: nat)
      reads `max, `min
      ensures r >= min
    {
      MaxNat(EffectiveMaxRaw(), min)
    }

    /** The bounds for a geometry; whatever the cap and however small the
        stream, they are in order, and a cap is never exceeded. */
    method SetBounds(pixels: nat, streams: nat, maxFps: nat)
      modifies `pixels, `streams, `max, `min
      ensures Bounded() && this.pixels == pixels && this.streams == MaxNat(streams, 1)
      ensures max == Capped(pixels as real * MaxNat(streams, 1) as real * maxFps as real * MAX_BPP, MAX_BPS)
      ensures var low := pixels as real * MIN_BPP * 5.0;
              low < 4294967296.0 ==> min == MinNat(MaxNat(low.Floor, 100_000), EffectiveMax())
      ensures EffectiveMax() == EffectiveMaxRaw()
      ensures fixedCap.Some? && fixedCap.value >= 1 ==> EffectiveMax() <= fixedCap.value
    {
      ghost var high, low := pixels as real * MaxNat(streams, 1) as real * maxFps as real * MAX_BPP, pixels as real * MIN_BPP * 5.0;
      CastsStayExact(high, low);
      hide Low32, AsU64, Capped;
      this.pixels, this.streams := pixels, MaxNat(streams, 1);
      max := Low32(MinNat(AsU64(pixels as real * MaxNat(streams, 1) as real * maxFps as real * MAX_BPP), MAX_BPS));
      min := MaxNat(MinNat(Low32(MaxNat(AsU64(pixels as real * MIN_BPP * 5.0), 100_000)), EffectiveMaxRaw()), 1);
    }

    method Reconfigure(pixels: nat, streams: nat, maxFps: nat)
      requires Valid()
      modifies `pixels, `streams, `max, `min, `target
      ensures Valid() && this.pixels == pixels && this.streams == MaxNat(streams, 1)
      ensures target == ClampNat(old(target), min, EffectiveMax())
    {
      SetBounds(pixels, streams, maxFps);
      target := ClampNat(target, min, EffectiveMax());
    }

    predicate CongestedRecently(now: real)
      reads `lastCongestion
    {
      lastCongestion.Some? && now - lastCongestion.value <= CONGESTION_RECENCY
    }

    method NoteIdle(now: real)
      requires Valid()
      modifies `startupIdleSince
      ensures Valid() && startupIdleSince == if slowStart && old(startupIdleSince) == None then Some(now) else old(startupIdleSince)
    {
      if slowStart && startupIdleSince == None {
        startupIdleSince := Some(now);
      }
    }

    /** Idle time does not count towards the start-up timeout. */
    method NoteFrameSent(now: real)
      requires Valid()
      modifies `started, `startupIdleSince
      ensures Valid() && startupIdleSince == None
      ensures started == if old(started.Some? && startupIdleSince.Some?)
                         then Some(old(started.value) + (now - old(startupIdleSince.value))) else old(started)
    {
      var idle := startupIdleSince;
      startupIdleSince := None;
      if started.Some? && idle.Some? {
        started := Some(started.value + (now - idle.value));
      }
    }

    method NoteBlocked(atCap: bool)
      requires Valid()
      modifies `blockedAtCap, `writerBlocked
      ensures Valid() && blockedAtCap == (old(blockedAtCap) || atCap) && writerBlocked == (old(writerBlocked) || !atCap)
    {
      if atCap {
        blockedAtCap := true;
      } else {
        writerBlocked := true;
      }
    }

    ghost function State(since: real): Control
      reads this
    {
      Control(target, min, EffectiveMax(), slowStart, since, lastEval, lastChange, raisedAtDelivered, overuseEvals,
              blockedAtCap || writerBlocked)
    }

    /** When the first ack came. */
    function Since(now: real): real
      reads `started
    {
      if started.Some? then started.value else now
    }

    method Apply(now: real, next: nat, reason: Reason)
      requires Bounded() && min <= next <= EffectiveMax()
      modifies `target, `lastChange
      ensures target == next && lastChange == if reason == Grow then old(lastChange) else Some(now)
    {
      target := next;
      if reason != Grow {
        lastChange := Some(now);
      }
    }

    /** Slow start: double towards the measured rate, once per flight of new
        evidence. */
    method SlowStartStep(now: real, since: real, link: LinkEstimator) returns (raised: bool)
      requires Valid() && slowStart
      modifies `slowStart, `raisedAtDelivered, `target, `lastChange
      ensures Valid()
      ensures raised ==> target > old(target) && now - since <= STARTUP_TIMEOUT
      ensures var rate := link.RateMaxBps();
              target == if now - since <= STARTUP_TIMEOUT && rate.Some? && link.delivered > old(raisedAtDelivered)
                        then ClampNat(AsU32(2.0 * rate.value), old(target), EffectiveMax()) else old(target)
      ensures !raised ==> target == old(target) && lastChange == old(lastChange)
      ensures raised ==> link.delivered > old(raisedAtDelivered)
      ensures raisedAtDelivered == old(raisedAtDelivered) || raisedAtDelivered == link.delivered + link.inflight
      ensures raised ==> slowStart && raisedAtDelivered == link.delivered + link.inflight
      ensures now - since > STARTUP_TIMEOUT ==> !slowStart
      ensures raised <==> Jumps(old(State(since)), See(link, now), now)
      ensures raised ==> Verdict(target, Some(SlowStart)) == Answered(old(State(since)), See(link, now), link.windowMinMs, now)
      ensures See(link, now) == old(See(link, now)) && started == old(started)
      ensures !raised ==>
                State(since) == old(State(since)).(slowStart := Starting(old(State(since)), See(link, now), now), raisedAt := raisedAtDelivered)
    {
      hide LinkEstimator.RateMaxBps, LinkEstimator.RateRecentBps, LinkEstimator.BaseRttMs, LinkEstimator.QueueThresholdMs,
        AsU32, Evaluated;
      raised := false;
      var rate := link.RateMaxBps();
      if now - since > STARTUP_TIMEOUT {
        slowStart := false;
      } else if rate.Some? && link.delivered > raisedAtDelivered {
        var next := ClampNat(AsU32(2.0 * rate.value), target, EffectiveMax());
        raisedAtDelivered := link.delivered + link.inflight;
        if next > target {
          Apply(now, next, SlowStart);
          return true;
        }
        if next >= EffectiveMax() {
          slowStart := false;
        }
      }
    }

    /** Two blocked, overused evaluations in a row: follow what the link really
        delivered down, by a twentieth at least. */
    method Cut(now: real, link: LinkEstimator, delayed: bool) returns (reason: Option<Reason>)
      requires Bounded() && min <= target <= EffectiveMax()
      modifies `target, `lastChange
      ensures min <= target <= old(target)
      ensures reason == if target == old(target) then None else Some(if delayed then Rtt else Reason.Rate)
      ensures target == old(target) || target <= MaxNat(min, AsU32(old(target) as real * 0.95))
      ensures reason == None ==> lastChange == old(lastChange)
      ensures Verdict(target, reason) == CutBack(old(target), min, Basis(See(link, now), old(target)), delayed)
    {
      var recent, top := link.RateRecentBps(now), link.RateMaxBps();
      var basis := if recent.Some? then recent.value else if top.Some? then top.value else target as real;
      var ceiling := MaxNat(AsU32(target as real * 0.95), min);
      var next := ClampNat(AsU32(0.85 * basis), min, ceiling);
      hide AsU32, LinkEstimator.RateRecentBps, LinkEstimator.RateMaxBps;
      if next < target {
        reason := Some(if delayed then Rtt else Reason.Rate);
        Apply(now, next, reason.value);
        return;
      }
      return None;
    }

    /** Quiet for a full hold: jump to what the link carries, or grow by eight
        per cent a second. */
    method Raise(now: real, since: real, link: LinkEstimator) returns (reason: Option<Reason>)
      requires Bounded() && min <= target <= EffectiveMax()
      modifies `target, `lastChange
      ensures old(target) <= target <= EffectiveMax()
      ensures reason == None ==> target == old(target) && lastChange == old(lastChange)
      ensures reason == Some(Track) ==> (target == old(target) <==> old(target) == EffectiveMax())
      ensures reason == Some(Grow) ==>
                target > old(target) && target <= Grown(old(target), EvalEvery(link.BaseRttMs()))
      ensures reason.Some? ==> reason.value == Track || reason.value == Grow
      ensures Verdict(target, reason)
           == if Quiet(old(State(since)), See(link, now), now)
              then Raised(old(target), EffectiveMax(), link.RateMaxBps(), EvalEvery(link.BaseRttMs()))
              else Verdict(old(target), None)
    {
      hide EvalEvery, GrowAfter, LinkEstimator.RateMaxBps, LinkEstimator.BaseRttMs, Tracked, Grown;
      var last := if lastChange.Some? then lastChange.value else since;
      if now - last < GrowAfter(link.BaseRttMs()) {
        return None;
      }
      var rate := link.RateMaxBps();
      var dt := EvalEvery(link.BaseRttMs());
      if rate.Some? {
        var track := Tracked(rate.value);
        if track > target {
          Apply(now, MinNat(track, EffectiveMax()), Track);
          return Some(Track);
        }
      }
      var next := MinNat(Grown(target, dt), EffectiveMax());
      if next > target {
        Apply(now, next, Grow);
        return Some(Grow);
      }
      return None;
    }

    /** One evaluation with an ack to go by. */
    method Judge(now: real, since: real, link: LinkEstimator, queueing: real, blocked: bool) returns (reason: Option<Reason>)
      requires Valid()
      modifies `target, `lastChange, `overuseEvals, `evals, `slowStart, `lastCongestion
      ensures reason == None ==> lastChange == old(lastChange)
      ensures Valid() && evals == old(evals) + [blocked && Overused(See(link, now), queueing, old(slowStart))]
      ensures reason != Some(SlowStart) && Answers(reason, old(Now()), Now(), min, EffectiveMax())
      ensures Verdict(target, reason)
           == Judged(old(State(since)), See(link, now), now, blocked && Overused(See(link, now), queueing, old(slowStart)),
                     queueing > See(link, now).threshold)
    {
      hide LinkEstimator.QueueThresholdMs, LinkEstimator.RateRecentBps, LinkEstimator.RateMaxBps, Judged, Answers;
      var recent, top := link.RateRecentBps(now), link.RateMaxBps();
      var delayed := queueing > link.QueueThresholdMs();
      var overused := delayed || (!slowStart && recent.Some? && top.Some? && recent.value < 0.7 * top.value);
      var bad := blocked && overused;
      ghost var before := evals;
      evals := evals + [bad];
      assert evals[..|before|] == before;
      JudgedAnswers(State(since), See(link, now), now, bad, delayed, before);
      reason := Act(now, since, link, bad, delayed);
    }

    /** The evaluation is on record: cut, hold or raise. */
    method Act(now: real, since: real, link: LinkEstimator, bad: bool, delayed: bool) returns (reason: Option<Reason>)
      requires Bounded() && min <= target <= EffectiveMax() && overuseEvals <= 1
      modifies `target, `lastChange, `overuseEvals, `slowStart, `lastCongestion
      ensures Verdict(target, reason) == Judged(old(State(since)), See(link, now), now, bad, delayed)
      ensures min <= target <= EffectiveMax() && (reason == None ==> lastChange == old(lastChange))
      ensures overuseEvals == if bad && old(overuseEvals) == 0 then 1 else 0
      ensures slowStart == (old(slowStart) && !(bad && old(overuseEvals) == 1))
      ensures bad && old(overuseEvals) == 1 ==> lastCongestion == Some(now)
    {
      hide Basis, EvalEvery, GrowAfter, LinkEstimator.BaseRttMs, LinkEstimator.RateMaxBps, LinkEstimator.RateRecentBps,
        LinkEstimator.QueueThresholdMs, AsU32, CutBack, Raised;
      overuseEvals := if bad then overuseEvals + 1 else 0;
      if overuseEvals >= 2 {
        overuseEvals, slowStart, lastCongestion := 0, false, Some(now);
        reason := Cut(now, link, delayed);
        return;
      }
      if overuseEvals > 0 || slowStart {
        return None;
      }
      reason := Raise(now, since, link);
    }

    /** The first ack starts the clock; what slow start makes of this one, if it
        is still on. */
    method StartUp(now: real, link: LinkEstimator) returns (raised: bool)
      requires Valid()
      modifies `slowStart, `raisedAtDelivered, `target, `lastChange, `started
      ensures Valid() && (slowStart ==> old(slowStart)) && See(link, now) == old(See(link, now))
      ensures started == Some(old(Since(now)))
      ensures raised ==>
                && old(slowStart) && Now() == old(Now()).(slowStart := slowStart, target := target) && target > old(target)
                && Verdict(target, Some(SlowStart)) == Answered(old(State(Since(now))), See(link, now), link.windowMinMs, now)
                && link.delivered > old(raisedAtDelivered) && raisedAtDelivered == link.delivered + link.inflight
      ensures !raised ==>
                && Now() == old(Now()).(slowStart := slowStart) && lastChange == old(lastChange)
                && !Jumps(old(State(Since(now))), See(link, now), now)
                && State(started.value) == old(State(Since(now))).(
                     slowStart := Starting(old(State(Since(now))), See(link, now), now), raisedAt := raisedAtDelivered)
                && (raisedAtDelivered == old(raisedAtDelivered) || raisedAtDelivered == link.delivered + link.inflight)
    {
      var since := Since(now);
      started := Some(since);
      assert !slowStart ==> !Starting(State(since), See(link, now), now) && !Jumps(State(since), See(link, now), now);
      assert Starting(State(since), See(link, now), now) ==> slowStart;
      assert State(since) == old(State(Since(now)));
      hide See, LinkEstimator.RateMaxBps, AsU32, Starting, Jumps, Answered, ClampNat, State;
      raised := false;
      if slowStart {
        raised := SlowStartStep(now, since, link);
      }
    }

    /** Feed one ack. The reason is there when the target changed, as promised,
        and in one case more. */
    method OnAck(now: real, link: LinkEstimator) returns (reason: Option<Reason>)
      requires Valid()
      modifies `target, `lastChange, `overuseEvals, `evals, `slowStart, `lastCongestion, `started, `lastEval,
        `raisedAtDelivered, `blockedAtCap, `writerBlocked, link`windowMinMs
      ensures Valid() && Answers(reason, old(Now()), Now(), min, EffectiveMax())
      ensures Verdict(target, reason) == Answered(old(State(Since(now))), See(link, now), old(link.windowMinMs), now)
      ensures reason.Some? && target == old(target) <==>
              TracksInPlace(old(State(Since(now))), See(link, now), old(link.windowMinMs), now)
      ensures GoesBy(reason, old(target), target, min, EffectiveMax(), link.RecentRates(now), link.RateMaxBps())
      ensures InDueTime(reason, old(State(Since(now))), link.BaseRttMs(), now)
      ensures target < old(target) ==>
                HasCause(old(blockedAtCap || writerBlocked), old(link.windowMinMs), link.BaseRttMs(), link.QueueThresholdMs(),
                         link.RecentRates(now), link.RateMaxBps())
      ensures KeepsUp(old(State(Since(now))), target, old(link.windowMinMs), link.BaseRttMs(), link.QueueThresholdMs(), now,
                      link.RecentRates(now), link.RateMaxBps())
      ensures started == Some(old(Since(now))) && (reason == None ==> lastChange == old(lastChange))
      ensures reason != Some(SlowStart) ==> lastEval == NextEval(old(State(Since(now))), See(link, now), now)
      ensures if reason != Some(SlowStart) && IsTime(old(State(Since(now))), See(link, now), now)
              then !blockedAtCap && !writerBlocked && link.windowMinMs == None
              else unchanged(`blockedAtCap, `writerBlocked, link`windowMinMs)
      ensures reason == Some(SlowStart) ==> link.delivered > old(raisedAtDelivered)
      ensures raisedAtDelivered == old(raisedAtDelivered) || raisedAtDelivered == link.delivered + link.inflight
      ensures reason == Some(SlowStart) ==> raisedAtDelivered == link.delivered + link.inflight
    {
      hide Since, Answered, TracksInPlace, NextEval, IsTime, Answers, GoesBy, InDueTime, HasCause, KeepsUp;
      ghost var c, seen, rates := State(Since(now)), See(link, now), link.RecentRates(now);
      ReportsInPlaceExactlyAtTheCeiling(c, seen, link.windowMinMs, now);
      AnswersGoByTheSamples(c, seen, link.windowMinMs, now, rates);
      EvaluationsKeepUp(c, seen, link.windowMinMs, now, rates);
      assert c.target == target && c.min == min && c.max == EffectiveMax();
      assert seen.rate == link.RateMaxBps() && seen.base == link.BaseRttMs() && seen.threshold == link.QueueThresholdMs();
      assert c.blocked == (blockedAtCap || writerBlocked);
      hide *;
      reason := React(now, link);
    }

    /** Slow start, while it is on, and then an evaluation. */
    method React(now: real, link: LinkEstimator) returns (reason: Option<Reason>)
      requires Valid()
      modifies `target, `lastChange, `overuseEvals, `evals, `slowStart, `lastCongestion, `started, `lastEval,
        `raisedAtDelivered, `blockedAtCap, `writerBlocked, link`windowMinMs
      ensures Valid() && Answers(reason, old(Now()), Now(), min, EffectiveMax())
      ensures Verdict(target, reason) == Answered(old(State(Since(now))), See(link, now), old(link.windowMinMs), now)
      ensures See(link, now) == old(See(link, now)) && EffectiveMax() == old(EffectiveMax())
      ensures started == Some(old(Since(now))) && (reason == None ==> lastChange == old(lastChange))
      ensures reason != Some(SlowStart) ==> lastEval == NextEval(old(State(Since(now))), See(link, now), now)
      ensures if reason != Some(SlowStart) && IsTime(old(State(Since(now))), See(link, now), now)
              then !blockedAtCap && !writerBlocked && link.windowMinMs == None
              else unchanged(`blockedAtCap, `writerBlocked, link`windowMinMs)
      ensures reason == Some(SlowStart) ==> link.delivered > old(raisedAtDelivered)
      ensures raisedAtDelivered == old(raisedAtDelivered) || raisedAtDelivered == link.delivered + link.inflight
      ensures reason == Some(SlowStart) ==> raisedAtDelivered == link.delivered + link.inflight
    {
      hide Since, Answered, NextEval, IsTime, Answers;
      ghost var c, seen, first := State(Since(now)), See(link, now), Now();
      assert c.target == target == first.target && first.slowStart == slowStart;
      hide *;
      var raised := StartUp(now, link);
      if raised {
        AnswersInSlowStart(first, Now(), min, EffectiveMax());
        return Some(SlowStart);
      }
      ghost var second := Now();
      StartUpThenEvaluate(c, State(started.value), seen, link.windowMinMs, now);
      reason := Evaluate(now, started.value, link);
      AnswersAfterSlowStart(reason, first, second, Now(), min, EffectiveMax());
      assert Verdict(target, reason) == Answered(c, seen, old(link.windowMinMs), now);
    }

    /** Look at what happened since the last evaluation, when it is time and an
        ack came. */
    method Evaluate(now: real, since: real, link: LinkEstimator) returns (reason: Option<Reason>)
      requires Valid()
      modifies `target, `lastChange, `overuseEvals, `evals, `slowStart, `lastCongestion, `lastEval,
        `blockedAtCap, `writerBlocked, link`windowMinMs
      ensures Valid() && reason != Some(SlowStart) && Answers(reason, old(Now()), Now(), min, EffectiveMax())
      ensures See(link, now) == old(See(link, now))
      ensures Verdict(target, reason) == Evaluated(old(State(since)), See(link, now), old(link.windowMinMs), now)
      ensures !IsTime(old(State(since)), See(link, now), now) ==>
                unchanged(`evals, `blockedAtCap, `writerBlocked, link)
      ensures IsTime(old(State(since)), See(link, now), now) ==>
                !blockedAtCap && !writerBlocked && link.windowMinMs == None
      ensures lastEval == NextEval(old(State(since)), See(link, now), now) && (reason == None ==> lastChange == old(lastChange))
      ensures |evals| > |old(evals)| <==> Due(old(State(since)), See(link, now), old(link.windowMinMs), now)
    {
      hide Weighed, Answers, EvalEvery, See, LinkEstimator.BaseRttMs, IsTime;
      ghost var c := State(since);
      var due := EvaluationDue(now, since, link);
      if !due {
        AnswersNothing(Now(), min, EffectiveMax());
        return None;
      }
      TheClockDoesNotMatter(c, State(since), See(link, now), link.windowMinMs, now);
      reason := Weigh(now, since, link);
    }

    /** Consume the marks and the window, and judge if an ack came in it. */
    method Weigh(now: real, since: real, link: LinkEstimator) returns (reason: Option<Reason>)
      requires Valid()
      modifies `target, `lastChange, `overuseEvals, `evals, `slowStart, `lastCongestion,
        `blockedAtCap, `writerBlocked, link`windowMinMs
      ensures Valid() && reason != Some(SlowStart) && Answers(reason, old(Now()), Now(), min, EffectiveMax())
      ensures See(link, now) == old(See(link, now))
      ensures Verdict(target, reason) == Weighed(old(State(since)), See(link, now), old(link.windowMinMs), now)
      ensures !blockedAtCap && !writerBlocked && link.windowMinMs == None
      ensures reason == None ==> lastChange == old(lastChange)
      ensures |evals| > |old(evals)| <==> Queueing(See(link, now), old(link.windowMinMs)).Some?
    {
      hide Overused, Judged, Answers, EvalEvery, LinkEstimator.BaseRttMs, LinkEstimator.QueueThresholdMs,
        LinkEstimator.RateMaxBps, LinkEstimator.RateRecentBps;
      ghost var c, seen := State(since), See(link, now);
      var blocked := blockedAtCap || writerBlocked;
      blockedAtCap, writerBlocked := false, false;
      var queueing := link.TakeWindowQueueingMs();
      if queueing == None {
        AnswersNothing(Now(), min, EffectiveMax());
        return None;
      }
      TheMarksDoNotMatter(c, State(since), seen, now);
      reason := Judge(now, since, link, queueing.value, blocked);
    }

    method EvaluationDue(now: real, ghost since: real, link: LinkEstimator) returns (due: bool)
      modifies `lastEval
      ensures lastEval.Some?
      ensures due <==> IsTime(old(State(since)), See(link, now), now)
      ensures lastEval == if due || old(lastEval) == None then Some(now) else old(lastEval)
    {
      var last := if lastEval.Some? then lastEval.value else now;
      lastEval := Some(last);
      if now - last < EvalEvery(link.BaseRttMs()) {
        return false;
      }
      lastEval := Some(now);
      return true;
    }
  }

  ghost function See(link: LinkEstimator, now: real): Seen
    reads link`rateSamples, link`rttWindow, link`mdevMs, link`delivered
  {
    Seen(link.RateMaxBps(), link.RateRecentBps(now), link.BaseRttMs(), link.QueueThresholdMs(), link.delivered)
  }

  /** What a judged evaluation answers, for the ones before it. */
  lemma {:induction false} JudgedAnswers(c: Control, seen: Seen, now: real, bad: bool, delayed: bool, evals: seq<bool>)
    requires c.min <= c.target <= c.max
    requires c.overuse <= |evals| && (c.overuse == 1 ==> evals[|evals| - 1])
    ensures var v := Judged(c, seen, now, bad, delayed);
            && v.reason != Some(SlowStart)
            && Answers(v.reason, Standing(c.target, c.slowStart, evals),
                       Standing(v.target, c.slowStart && !(bad && c.overuse == 1), evals + [bad]), c.min, c.max)
  {
    hide AsU32, Basis, Quiet, EvalEvery, Tracked, Grown;
  }

  /** An evaluation does not depend on the evidence of slow start. */
  lemma {:induction false} StartUpThenEvaluate(c: Control, d: Control, seen: Seen, least: Option<real>, now: real)
    requires d == c.(slowStart := Starting(c, seen, now), raisedAt := d.raisedAt)
    ensures NextEval(c, seen, now) == NextEval(d, seen, now) && IsTime(c, seen, now) == IsTime(d, seen, now)
    ensures !Jumps(c, seen, now) ==> Answered(c, seen, least, now) == Evaluated(d, seen, least, now)
  {
    hide Overused, Basis, CutBack, Raised, EvalEvery, GrowAfter;
  }

  /** Nor does an evaluation depend on the clock and the marks it has
      consumed. */
  lemma {:induction false} TheClockDoesNotMatter(c: Control, d: Control, seen: Seen, least: Option<real>, now: real)
    requires d == c.(lastEval := d.lastEval)
    ensures Weighed(c, seen, least, now) == Weighed(d, seen, least, now)
  {
    hide CutBack, Raised, EvalEvery, GrowAfter, Overused;
  }

  lemma {:induction false} TheMarksDoNotMatter(c: Control, d: Control, seen: Seen, now: real)
    requires d == c.(blocked := d.blocked)
    ensures forall bad, delayed :: Judged(c, seen, now, bad, delayed) == Judged(d, seen, now, bad, delayed)
  {
    hide CutBack, Raised, EvalEvery, GrowAfter;
  }

  // ---- Whole runs ----

  /** What happens to a session's pacing. */
  datatype Event =
    | Sent(start: real, now: real, frameId: nat, bytes: nat, appLimited: bool)
    | Acknowledged(now: real, frameId: nat)
    | Handshake(now: real, rttMs: real)
    | Reconfigured(now: real, pixels: nat, streams: nat, maxFps: nat)
    | Blocked(now: real, atCap: bool)
    | Idle(now: real)

  /** A frame takes the time of its encode. */
  function Begins(e: Event): real { if e.Sent? then e.start else e.now }

  /** No event begins before the one before it is over. */
  ghost predicate InTime(events: seq<Event>, clock: real) {
    events == [] || (clock <= Begins(events[0]) <= events[0].now && InTime(events[1..], events[0].now))
  }

  /** An answer to an ack: between which bounds, how many frames had been
      acknowledged and sent by then, the rates of the samples that told, and the
      best rate. */
  datatype Step = Step(
    reason: Option<Reason>, before: Standing, after: Standing, min: nat, max: nat, gone: nat, sent: nat,
    rates: seq<real>, best: Option<real>)

  ghost predicate IsRight(s: Step) {
    && Answers(s.reason, s.before, s.after, s.min, s.max)
    && GoesBy(s.reason, s.before.target, s.after.target, s.min, s.max, s.rates, s.best)
    && 1 <= s.min <= s.after.target <= s.max
  }

  /** Every answer of a run is a right one, within its bounds; slow start and
      the evaluations carry over from one to the next. */
  ghost predicate AllAnswer(log: seq<Step>) {
    forall i | 0 <= i < |log| ::
      && IsRight(log[i])
      && (i > 0 ==> log[i].before == log[i - 1].after.(target := log[i].before.target))
  }

  /** A raise in slow start answers the ack of a frame that was sent after
      every raise before it. */
  ghost predicate RaisesAreApart(log: seq<Step>) {
    forall i, j | 0 <= i < j < |log| && log[i].reason == Some(SlowStart) && log[j].reason == Some(SlowStart) ::
      log[j].gone > log[i].sent
  }

  /** A session's estimator and controller together. */
  class Pacer {
    const link: LinkEstimator
    const ctl: RateController
    /** The answers so far. */
    ghost var log: seq<Step>
    /** Frames that had been sent when slow start last looked for evidence. */
    ghost var looked: nat

    constructor (pixels: nat, streams: nat, maxFps: nat, fixedCap: Option<nat>)
      ensures Valid() && fresh(link) && fresh(ctl) && log == [] && link.log.clock == 0.0
      ensures link.sent == [] && link.log.acks == [] && link.log.seen == [] && link.InMemory() == Memory([], [], None)
      ensures ctl.started == ctl.lastEval == ctl.lastChange == None && !ctl.blockedAtCap && !ctl.writerBlocked
      ensures ctl.raisedAtDelivered == 0
      ensures fixedCap.Some? && fixedCap.value >= 1 ==> ctl.EffectiveMax() <= fixedCap.value
    {
      link := new LinkEstimator();
      ctl := new RateController(pixels, streams, maxFps, fixedCap);
      log, looked := [], 0;
    }

    ghost predicate Valid()
      reads this, link, ctl
    {
      && link.Valid() && ctl.Valid()
      && LookedSoFar(looked, link.History(), ctl.raisedAtDelivered)
      && LoggedSoFar(log, looked, ctl.Now())
    }

    /** A frame encoded from `start` on goes out at `now`; it counts as under
        way since its encode began. */
    method FrameSent(start: real, now: real, frameId: nat, bytes: nat, appLimited: bool)
      requires Valid() && link.log.clock <= start <= now
      modifies link, ctl`started, ctl`startupIdleSince
      ensures Valid() && ctl.target == old(ctl.target) && link.log.clock == start
      ensures var f := old(link.Snapshot(start, frameId, bytes, appLimited));
              link.sent == old(link.sent) + [f] && link.log == LogSent(old(link.log), f)
      ensures link.InMemory() == old(link.InMemory())
      ensures old(ctl.startupIdleSince) == None ==> ctl.started == old(ctl.started)
      ensures ctl.startupIdleSince == None
    {
      ghost var history := link.History();
      hide Bytes, LoggedSoFar, LinkEstimator.Valid, RateController.Valid;
      ctl.NoteFrameSent(now);
      link.OnSent(start, frameId, bytes, appLimited);
      assert link.History()[..looked] == history[..looked];
    }

    /** An ack comes in, and the controller answers. */
    method FrameAcked(now: real, frameId: nat) returns (reason: Option<Reason>)
      requires Valid() && now >= link.log.clock
      modifies this, link, ctl
      ensures Valid() && link.log.clock <= now
      ensures log == old(log) + [Step(reason, old(ctl.Now()), ctl.Now(), ctl.min, ctl.EffectiveMax(), |link.log.gone|, |link.History()|,
                                      link.RecentRates(now), link.RateMaxBps())]
    {
      ghost var pos, sample;
      hide LinkEstimator.Valid, RateController.Valid, LookedSoFar, LoggedSoFar;
      pos, sample := link.OnAck(now, frameId);
      reason := Answer(now);
    }

    method Answer(now: real) returns (reason: Option<Reason>)
      requires Valid()
      modifies this, link`windowMinMs, ctl
      ensures Valid()
      ensures log == old(log) + [Step(reason, old(ctl.Now()), ctl.Now(), ctl.min, ctl.EffectiveMax(), |link.log.gone|, |link.History()|,
                                      link.RecentRates(now), link.RateMaxBps())]
    {
      hide LookedSoFar, LoggedSoFar, LinkEstimator.Valid, RateController.Valid, IsRight, LinkEstimator.RecentRates,
        LinkEstimator.RateMaxBps, LinkEstimator.History, RateController.Now, RateController.EffectiveMax, Bytes;
      ghost var raisedAt, h := ctl.raisedAtDelivered, link.History();
      ghost var step;
      reason, step := Consult(now);
      ghost var next := OneMoreAnswer(log, looked, step, h, raisedAt, ctl.raisedAtDelivered);
      log, looked := log + [step], next;
    }

    /** The controller's answer, and the frames it rests on. */
    method Consult(now: real) returns (reason: Option<Reason>, ghost step: Step)
      requires link.Valid() && ctl.Valid()
      modifies link`windowMinMs, ctl
      ensures link.Valid() && ctl.Valid()
      ensures step == Step(reason, old(ctl.Now()), ctl.Now(), ctl.min, ctl.EffectiveMax(), |link.log.gone|, |link.History()|,
                           link.RecentRates(now), link.RateMaxBps())
      ensures IsRight(step) && step.gone <= step.sent && link.History() == old(link.History())
      ensures reason == Some(SlowStart) ==>
                Bytes(link.History()[..step.gone]) > old(ctl.raisedAtDelivered) && ctl.raisedAtDelivered == Bytes(link.History())
      ensures ctl.raisedAtDelivered == old(ctl.raisedAtDelivered) || ctl.raisedAtDelivered == Bytes(link.History())
    {
      ghost var h := link.History();
      Totals(link);
      hide *;
      ghost var before := ctl.Now();
      reason := ctl.OnAck(now, link);
      Within(ctl);
      step := Step(reason, before, ctl.Now(), ctl.min, ctl.EffectiveMax(), |link.log.gone|, |h|,
                   link.RecentRates(now), link.RateMaxBps());
      assert link.History() == h;
    }

    method Reconfigure(pixels: nat, streams: nat, maxFps: nat)
      requires Valid()
      modifies ctl`pixels, ctl`streams, ctl`max, ctl`min, ctl`target
      ensures Valid()
    {
      ctl.Reconfigure(pixels, streams, maxFps);
    }

    /** One event, of any kind. */
    method Take(e: Event, ghost clock: real)
      requires Valid() && link.log.clock <= clock <= Begins(e) <= e.now
      modifies this, link, ctl
      ensures Valid() && link.log.clock <= e.now && old(log) <= log
      ensures if e.Acknowledged? then |log| == |old(log)| + 1 else log == old(log)
    {
      hide LinkEstimator.Valid, RateController.Valid, LookedSoFar, LoggedSoFar;
      match e {
        case Sent(start, now, frameId, bytes, appLimited) => FrameSent(start, now, frameId, bytes, appLimited);
        case Acknowledged(now, frameId) => var reason := FrameAcked(now, frameId);
        case Handshake(now, rttMs) => link.SeedRtt(now, rttMs);
        case Reconfigured(_, pixels, streams, maxFps) => Reconfigure(pixels, streams, maxFps);
        case Blocked(_, atCap) => ctl.NoteBlocked(atCap);
        case Idle(now) => ctl.NoteIdle(now);
      }
    }

    /** Any events, in any order: every answer is right and within its bounds,
        and the raises of slow start are a flight apart. */
    method Run(events: seq<Event>)
      requires Valid() && log == [] && InTime(events, link.log.clock)
      modifies this, link, ctl
      ensures Valid() && AllAnswer(log) && RaisesAreApart(log)
      ensures |log| == Acks(events)
    {
      ghost var clock := link.log.clock;
      assert events[0..] == events && events[..0] == [];
      for i := 0 to |events|
        invariant Valid() && link.log.clock <= clock && InTime(events[i..], clock)
        invariant |log| == Acks(events[..i])
      {
        hide Valid;
        assert events[i..][1..] == events[i + 1..] && events[..i + 1][..i] == events[..i];
        Take(events[i], clock);
        clock := events[i].now;
      }
      assert events[..|events|] == events;
    }
  }

  /** Acks among the events. */
  function Acks(events: seq<Event>): nat {
    if events == [] then 0
    else Acks(events[..|events| - 1]) + if events[|events| - 1].Acknowledged? then 1 else 0
  }

  lemma {:induction false} Totals(link: LinkEstimator)
    requires link.Valid()
    ensures |link.log.gone| <= |link.History()| && link.delivered == Bytes(link.History()[..|link.log.gone|])
    ensures link.delivered + link.inflight == Bytes(link.History())
  {
    BytesInParts(link.log.gone, link.sent);
    assert link.History()[..|link.log.gone|] == link.log.gone;
  }

  lemma {:induction false} DeliveredIsAcked(link: LinkEstimator)
    requires link.Valid()
    ensures link.delivered == Acked(link.log.acks) && link.inflight == Bytes(link.sent)
    ensures link.deliveredTime == if link.log.acks == [] then None else Some(link.log.acks[|link.log.acks| - 1].at)
  {
  }

  lemma {:induction false} Within(ctl: RateController)
    requires ctl.Valid()
    ensures 1 <= ctl.min <= ctl.Now().target <= ctl.EffectiveMax()
  {
  }

  /** Slow start has counted what the frames sent by then added up to. */
  ghost predicate LookedSoFar(looked: nat, history: seq<SentFrame>, raisedAt: nat) {
    looked <= |history| && raisedAt == Bytes(history[..looked])
  }

  /** It looks on when it finds evidence; a raise needs an ack of a frame sent
      since. */
  lemma {:induction false} LooksOn(
    looked: nat, next: nat, history: seq<SentFrame>, gone: nat, raisedAt: nat, raisedAt': nat, raised: bool)
    requires LookedSoFar(looked, history, raisedAt) && gone <= |history|
    requires raised ==> Bytes(history[..gone]) > raisedAt && raisedAt' == Bytes(history)
    requires raisedAt' == raisedAt || raisedAt' == Bytes(history)
    requires next == if raised || raisedAt' != raisedAt then |history| else looked
    ensures LookedSoFar(next, history, raisedAt') && looked <= next && (raised ==> gone > looked)
  {
    assert history[..|history|] == history;
    if raised {
      MoreBytesAreMoreFrames(history, looked, gone);
    }
  }

  /** The answers so far, up to where the controller stands. */
  ghost predicate LoggedSoFar(log: seq<Step>, looked: nat, now: Standing) {
    && AllAnswer(log) && RaisesAreApart(log)
    && (log != [] ==> now == log[|log| - 1].after.(target := now.target))
    && (forall i | 0 <= i < |log| && log[i].reason == Some(SlowStart) :: log[i].sent <= looked)
  }

  /** The record stays in order with one more answer. */
  lemma {:induction false} OneMoreStep(log: seq<Step>, looked: nat, next: nat, step: Step)
    requires LoggedSoFar(log, looked, step.before) && looked <= next
    requires IsRight(step)
    requires step.reason == Some(SlowStart) ==> step.gone > looked && step.sent <= next
    ensures LoggedSoFar(log + [step], next, step.after)
  {
    hide IsRight;
  }

  lemma {:induction false} OneMoreAnswer(
    log: seq<Step>, looked: nat, step: Step, history: seq<SentFrame>, raisedAt: nat, raisedAt': nat)
    returns (next: nat)
    requires LoggedSoFar(log, looked, step.before) && LookedSoFar(looked, history, raisedAt)
    requires IsRight(step)
    requires step.gone <= step.sent == |history|
    requires step.reason == Some(SlowStart) ==> Bytes(history[..step.gone]) > raisedAt && raisedAt' == Bytes(history)
    requires raisedAt' == raisedAt || raisedAt' == Bytes(history)
    ensures LookedSoFar(next, history, raisedAt') && LoggedSoFar(log + [step], next, step.after)
  {
    hide *;
    next := if step.reason == Some(SlowStart) || raisedAt' != raisedAt then |history| else looked;
    LooksOn(looked, next, history, step.gone, raisedAt, raisedAt', step.reason == Some(SlowStart));
    OneMoreStep(log, looked, next, step);
  }

  lemma {:induction false} MoreBytesAreMoreFrames(h: seq<SentFrame>, i: nat, j: nat)
    requires i <= |h| && j <= |h| && Bytes(h[..i]) < Bytes(h[..j])
    ensures i < j
  {
    if j <= i {
      assert h[..i] == h[..j] + h[j..i];
      BytesInParts(h[..j], h[j..i]);
      assert false;
    }
  }

  // ---- The promise that a reason means a change ----

  lemma {:induction false} TheFirstRoundTrip()
    ensures Remembered(Memory([], [], None), 0.1, 100.0, None, false) == Memory([Timed(0.1, 100.0)], [], Some(100.0))
  {
  }

  /** A frame of 1000 bytes out and back in 100 ms: a round trip, and no rate
      yet. */
  method OneFrame() returns (link: LinkEstimator)
    ensures fresh(link) && link.Valid()
    ensures link.log.clock == 0.1 && link.sent == [] && link.log.seen == [] && link.log.acks == [Timed(0.1, 1000)]
    ensures link.InMemory() == Memory([Timed(0.1, 100.0)], [], Some(100.0)) && link.RateMaxBps() == None
    ensures link.delivered == 1000 && link.inflight == 0
  {
    link := new LinkEstimator();
    ghost var f := link.Snapshot(0.0, 0, 1000, false);
    DeliveredIsAcked(link);
    assert f.deliveredTimeAtSend == None;
    link.OnSent(0.0, 0, 1000, false);
    TheFirstRoundTrip();
    hide LinkEstimator.Valid, IsLeast, IsLower, Remembered, MinRtt, MaxRate, Measures, Acked, Knows;
    ghost var pos, sample;
    pos, sample := link.OnAck(0.1, 0);
    assert pos == Some(0) && sample == None;
    assert [f][..1] == [f] && [f][1..] == [] && Bytes([f]) == 1000;
    DeliveredIsAcked(link);
    assert link.log.acks[1..] == [] && Acked(link.log.acks[1..]) == 0 && Bytes([]) == 0;
  }

  /** A second one, sent at once and back in 1.9 s: the first rate. */
  method TwoFrames(link: LinkEstimator) returns (ghost bps: real)
    requires link.Valid() && link.log.clock == 0.1 && link.sent == [] && link.log.seen == []
    requires link.log.acks == [Timed(0.1, 1000)]
    requires link.InMemory() == Memory([Timed(0.1, 100.0)], [], Some(100.0))
    modifies link
    ensures link.Valid() && link.delivered == 2000 && 1.9 * bps == 8000.0
    ensures link.BaseRttMs() == Some(100.0) && link.RateMaxBps() == Some(bps) && link.windowMinMs == Some(100.0)
  {
    ghost var f, acks := link.Snapshot(0.1, 1, 1000, false), link.log.acks;
    DeliveredIsAcked(link);
    assert f.deliveredTimeAtSend == Some(0.1);
    link.OnSent(0.1, 1, 1000, false);
    ghost var pos, sample;
    hide LinkEstimator.Valid, IsLeast, IsLower;
    pos, sample := link.OnAck(2.0, 1);
    assert pos == Some(0);
    assert [f][..1] == [f] && [f][1..] == [] && Bytes([f]) == 1000;
    bps := sample.value;
    ghost var x := Timed(2.0, Link.Rate.Rate(bps, false));
    assert link.InMemory() == Memory([Timed(0.1, 100.0), Timed(2.0, 1900.0)], [x], Some(100.0));
    assert [x][1..] == [] && MaxRate([x]) == Some(bps);
    ghost var both := link.log.acks;
    ghost var behind: seq<Timed<nat>> := both[1..];
    assert both == [Timed(0.1, 1000), Timed(2.0, 1000)] && behind == [Timed(2.0, 1000)];
    assert Acked(behind) == 1000 && Acked(both) == 2000;
    DeliveredIsAcked(link);
  }

  lemma {:induction false} TheFirstAckOnlyStartsTheClock(c: Control, seen: Seen, least: Option<real>, now: real)
    requires c.lastEval == None && seen.rate == None
    ensures Answered(c, seen, least, now) == Verdict(c.target, None)
    ensures NextEval(c, seen, now) == Some(now) && !IsTime(c, seen, now)
  {
  }

  lemma {:induction false} NowhereToGo(c: Control, seen: Seen, bps: real)
    requires c.target == c.max == 1000 && !c.blocked && c.since == 0.1 && c.lastEval == Some(0.1) && c.lastChange == None
    requires seen.rate == Some(bps) && 1.9 * bps == 8000.0 && seen.base == Some(100.0) && seen.delivered > c.raisedAt
    ensures TracksInPlace(c, seen, Some(100.0), 2.0)
  {
  }

  /** Two streams of a 1920 x 1080 screen under a cap of 1000 bit/s: the target
      is at its ceiling at once. */
  method FirstAnswer(link: LinkEstimator) returns (ctl: RateController)
    requires link.Valid() && link.RateMaxBps() == None && link.delivered + link.inflight == 1000
    modifies link`windowMinMs
    ensures fresh(ctl) && ctl.Valid() && link.windowMinMs == old(link.windowMinMs)
    ensures ctl.started == ctl.lastEval == Some(0.1) && ctl.lastChange == None
    ensures !ctl.blockedAtCap && !ctl.writerBlocked && ctl.raisedAtDelivered <= 1000
    ensures ctl.target == ctl.EffectiveMax() == 1000
  {
    ctl := new RateController(1920 * 1080, 2, 60, Some(1000));
    assert ctl.EffectiveMax() == 1000 && ctl.target == 1000;
    TheFirstAckOnlyStartsTheClock(ctl.State(0.1), See(link, 0.1), link.windowMinMs, 0.1);
    hide LinkEstimator.Valid, Answers, Answered, TracksInPlace, NextEval, IsTime;
    var reason := ctl.OnAck(0.1, link);
  }

  /** The second ack is answered with a reason, and the target is what it
      was. */
  method AnUnchangedTargetIsReported() returns (ctl: RateController, ghost target: nat, reason: Option<Reason>)
    ensures reason == Some(Track) && ctl.target == target
  {
    hide LinkEstimator.Valid, RateController.Valid, Answers, Answered, TracksInPlace, NextEval, IsTime, GoesBy, InDueTime,
      HasCause, Mean, LinkEstimator.QueueThresholdMs, LinkEstimator.RateMaxBps, LinkEstimator.BaseRttMs;
    var link := OneFrame();
    ctl := FirstAnswer(link);
    ghost var bps := TwoFrames(link);
    target := ctl.target;
    NowhereToGo(ctl.State(0.1), See(link, 2.0), bps);
    Within(ctl);
    ReportsInPlaceExactlyAtTheCeiling(ctl.State(0.1), See(link, 2.0), link.windowMinMs, 2.0);
    reason := ctl.OnAck(2.0, link);
  }
}
