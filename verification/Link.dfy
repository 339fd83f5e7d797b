/** What the server measures of the link: round trips, the delivered rate and
    the bytes in flight. Times are seconds on a clock that never goes back. */
module Link {
  import opened Common

  const BASE_WINDOW := 10.0
  const FPS_WINDOW := 2.0

  /** A frame in flight, with what had been delivered when it was sent. */
  datatype SentFrame = SentFrame(
    frameId: nat,
    bytes: nat,
    sentAt: real,
    appLimited: bool,
    deliveredAtSend: nat,
    deliveredTimeAtSend: Option<real>)

  datatype Timed<+T> = Timed(at: real, value: T)

  datatype Rate = Rate(bps: real, appLimited: bool)

  function Max(a: real, b: real): (r: real)
    ensures r >= a && r >= b && (r == a || r == b)
  {
    if a < b then b else a
  }

  function Min(a: real, b: real): (r: real)
    ensures r <= a && r <= b && (r == a || r == b)
  {
    if b < a then b else a
  }

  function Clamp(x: real, low: real, high: real): real { Min(Max(x, low), high) }

  function Abs(x: real): real { if x < 0.0 then -x else x }

  /** A float cast to an unsigned integer: truncated, and saturated below. */
  function ToNat(x: real): nat { if x < 0.0 then 0 else x.Floor }

  function Bytes(frames: seq<SentFrame>): nat {
    if frames == [] then 0 else frames[0].bytes + Bytes(frames[1..])
  }

  lemma {:induction false} BytesInParts(a: seq<SentFrame>, b: seq<SentFrame>)
    ensures Bytes(a + b) == Bytes(a) + Bytes(b)
  {
    if a == [] {
      assert a + b == b;
    } else {
      BytesInParts(a[1..], b);
      assert (a + b)[1..] == a[1..] + b;
    }
  }

  /** Bytes acknowledged by these acks. */
  function Acked(acks: seq<Timed<nat>>): nat {
    if acks == [] then 0 else acks[0].value + Acked(acks[1..])
  }

  lemma {:induction false} AckedInParts(a: seq<Timed<nat>>, b: seq<Timed<nat>>)
    ensures Acked(a + b) == Acked(a) + Acked(b)
  {
    if a == [] {
      assert a + b == b;
    } else {
      AckedInParts(a[1..], b);
      assert (a + b)[1..] == a[1..] + b;
    }
  }

  // ---- Windows ----

  /** Without what is at the front and older than the window. */
  function Young<T>(s: seq<Timed<T>>, now: real, window: real): seq<Timed<T>> {
    if s != [] && now - s[0].at > window then Young(s[1..], now, window) else s
  }

  /** Drop from the front what is older than the window. */
  method DropOld<T>(s: seq<Timed<T>>, now: real, window: real) returns (r: seq<Timed<T>>, ghost n: nat)
    ensures r == Young(s, now, window)
    ensures n <= |s| && r == s[n..]
    ensures forall i | 0 <= i < n :: now - s[i].at > window
    ensures r != [] ==> now - r[0].at <= window
    ensures s != [] && now - s[|s| - 1].at <= window ==> n < |s|
  {
    r, n := s, 0;
    while r != [] && now - r[0].at > window
      invariant n <= |s| && r == s[n..]
      invariant forall i | 0 <= i < n :: now - s[i].at > window
      invariant Young(r, now, window) == Young(s, now, window)
      decreases |r|
    {
      assert r[1..] == s[n + 1..];
      r, n := r[1..], n + 1;
    }
  }

  function MinRtt(w: seq<Timed<real>>): Option<real> {
    if w == [] then None
    else match MinRtt(w[1..]) { case None => Some(w[0].value) case Some(m) => Some(Min(w[0].value, m)) }
  }

  /** It is one of these round trips, and none is less. */
  ghost predicate IsLeast(base: Option<real>, w: seq<Timed<real>>) {
    && (base == None <==> w == [])
    && (base.Some? ==> exists i | 0 <= i < |w| :: w[i].value == base.value)
    && (base.Some? ==> forall i | 0 <= i < |w| :: base.value <= w[i].value)
  }

  lemma {:induction false} MinRttIsTheLeast(w: seq<Timed<real>>)
    ensures IsLeast(MinRtt(w), w)
  {
    if w != [] {
      MinRttIsTheLeast(w[1..]);
      assert forall i | 0 < i < |w| :: w[i] == w[1..][i - 1];
      if MinRtt(w).value != w[0].value {
        var i :| 0 <= i < |w| - 1 && w[1..][i].value == MinRtt(w[1..]).value;
        assert w[i + 1].value == MinRtt(w).value;
      } else {
        assert w[0].value == MinRtt(w).value;
      }
    }
  }

  /** The least of those before, and of one more. */
  predicate IsLower(least: Option<real>, before: Option<real>, x: real) {
    && least.Some? && least.value <= x && (before.Some? ==> least.value <= before.value)
    && (least.value == x || least == before)
  }

  function MaxRate(w: seq<Timed<Rate>>): Option<real> {
    if w == [] then None
    else match MaxRate(w[1..]) { case None => Some(w[0].value.bps) case Some(m) => Some(Max(w[0].value.bps, m)) }
  }

  /** The rate samples kept behind one more. */
  function NextSamples(before: seq<Timed<Rate>>, bps: real, appLimited: bool, now: real, window: real): seq<Timed<Rate>> {
    if appLimited && bps <= (if MaxRate(before).Some? then MaxRate(before).value else 0.0) then before
    else Young(before + [Timed(now, Rate(bps, appLimited))], now, window)
  }

  /** What the estimator remembers of round trips and rates. */
  datatype Memory = Memory(rtts: seq<Timed<real>>, rates: seq<Timed<Rate>>, least: Option<real>)

  /** The memory behind an ack that took `rtt` and measured `sample`. */
  function Remembered(m: Memory, now: real, rtt: real, sample: Option<real>, appLimited: bool): Memory {
    var rtts := Young(m.rtts + [Timed(now, rtt)], now, BASE_WINDOW);
    Memory(rtts,
           if sample == None then m.rates else NextSamples(m.rates, sample.value, appLimited, now, SampleWindow(MinRtt(rtts))),
           Some(if m.least == None then rtt else Min(m.least.value, rtt)))
  }

  /** Ten round trips, within bounds. */
  function SampleWindow(base: Option<real>): (r: real)
    ensures 1.0 <= r <= 15.0
    ensures base.Some? && 100.0 <= base.value <= 1500.0 ==> r == base.value / 100.0
    ensures base == None || base.value <= 100.0 ==> r == 1.0
  {
    Clamp(10.0 * (if base.Some? then base.value else 100.0) / 1000.0, 1.0, 15.0)
  }

  predicate NoLess(a: Option<real>, b: Option<real>) {
    b.Some? ==> a.Some? && a.value >= b.value
  }

  lemma {:induction false} MaxRateIsTheMaximum(w: seq<Timed<Rate>>)
    ensures MaxRate(w) == None <==> w == []
    ensures w != [] ==> exists i | 0 <= i < |w| :: w[i].value.bps == MaxRate(w).value
    ensures forall i | 0 <= i < |w| :: w[i].value.bps <= MaxRate(w).value
  {
    if w != [] {
      MaxRateIsTheMaximum(w[1..]);
      assert forall i | 0 < i < |w| :: w[i] == w[1..][i - 1];
      if w[1..] != [] && MaxRate(w).value != w[0].value.bps {
        var i :| 0 <= i < |w| - 1 && w[1..][i].value.bps == MaxRate(w[1..]).value;
        assert w[i + 1].value.bps == MaxRate(w).value;
      } else {
        assert w[0].value.bps == MaxRate(w).value;
      }
    }
  }

  /** A sample above all the others is the maximum whatever was dropped in
      front of it. */
  lemma {:induction false} ANewMaximumStays(w: seq<Timed<Rate>>, n: nat, x: Timed<Rate>)
    requires n <= |w| && (MaxRate(w).Some? ==> x.value.bps > MaxRate(w).value)
    ensures MaxRate((w + [x])[n..]) == Some(x.value.bps)
  {
    MaxRateIsTheMaximum(w);
    var r := (w + [x])[n..];
    MaxRateIsTheMaximum(r);
    assert r[|r| - 1] == x;
    forall i | 0 <= i < |r|
      ensures r[i].value.bps <= x.value.bps
    {
      assert i < |r| - 1 ==> r[i] == w[n + i];
    }
  }

  /** Samples that were not app-limited, within the window. */
  function Recent(w: seq<Timed<Rate>>, now: real, window: real): seq<real> {
    if w == [] then []
    else
      var last := w[|w| - 1];
      Recent(w[..|w| - 1], now, window) + if !last.value.appLimited && now - last.at <= window then [last.value.bps] else []
  }

  function Sum(s: seq<real>): real {
    if s == [] then 0.0 else s[0] + Sum(s[1..])
  }

  function Mean(s: seq<real>): real
    requires s != []
  {
    Sum(s) / |s| as real
  }

  /** A sample that tells what the link delivers now. */
  predicate Tells(s: Timed<Rate>, now: real, window: real) {
    !s.value.appLimited && now - s.at <= window
  }

  /** Rates of exactly the samples that tell, each once and in order: `rank`
      counts those before a sample. */
  ghost predicate Picked(rates: seq<real>, rank: seq<nat>, w: seq<Timed<Rate>>, now: real, window: real) {
    && |rank| == |w| + 1 && rank[0] == 0 && rank[|w|] == |rates|
    && (forall i | 0 <= i < |w| ::
          if Tells(w[i], now, window) then rank[i] < |rates| && rates[rank[i]] == w[i].value.bps && rank[i + 1] == rank[i] + 1
          else rank[i + 1] == rank[i])
  }

  lemma {:induction false} RecentIsPicked(w: seq<Timed<Rate>>, now: real, window: real)
    returns (rank: seq<nat>)
    ensures Picked(Recent(w, now, window), rank, w, now, window)
  {
    if w == [] {
      rank := [0];
    } else {
      var n := |w| - 1;
      var before := RecentIsPicked(w[..n], now, window);
      rank := before + [before[n] + if Tells(w[n], now, window) then 1 else 0];
      assert forall i | 0 <= i < n :: w[..n][i] == w[i];
    }
  }

  /** Every rate picked is that of a sample that tells. */
  lemma {:induction false} PickedFrom(rates: seq<real>, rank: seq<nat>, w: seq<Timed<Rate>>, now: real, window: real, k: nat)
    returns (i: nat)
    requires Picked(rates, rank, w, now, window) && k < |rates|
    ensures i < |w| && Tells(w[i], now, window) && w[i].value.bps == rates[k]
  {
    i := 0;
    while rank[i + 1] <= k
      invariant i < |w| && rank[i] <= k
      decreases |w| - i
    {
      i := i + 1;
    }
  }

  lemma {:induction false} Extremes(s: seq<real>) returns (i: nat, j: nat)
    requires s != []
    ensures i < |s| && j < |s| && forall k | 0 <= k < |s| :: s[i] <= s[k] <= s[j]
  {
    i, j := 0, 0;
    if |s| > 1 {
      var a, b := Extremes(s[1..]);
      assert forall k | 0 < k < |s| :: s[k] == s[1..][k - 1];
      i, j := if s[1..][a] < s[0] then a + 1 else 0, if s[1..][b] > s[0] then b + 1 else 0;
    }
  }

  lemma {:induction false} SumIsBetween(s: seq<real>, low: real, high: real)
    requires forall k | 0 <= k < |s| :: low <= s[k] <= high
    ensures |s| as real * low <= Sum(s) <= |s| as real * high
  {
    if s != [] {
      SumIsBetween(s[1..], low, high);
    }
  }

  lemma {:induction false} MeanIsBetween(s: seq<real>)
    requires s != []
    ensures exists i, j | 0 <= i < |s| && 0 <= j < |s| :: s[i] <= Mean(s) <= s[j]
  {
    var i, j := Extremes(s);
    SumIsBetween(s, s[i], s[j]);
    QuotientIsBetween(Sum(s), |s| as real, s[i], s[j]);
  }

  lemma {:induction false} QuotientIsBetween(sum: real, n: real, low: real, high: real)
    requires n > 0.0 && n * low <= sum <= n * high
    ensures low <= sum / n <= high
  {
    var m := sum / n;
    QuotientTimes(sum, n);
    assert m < low ==> (low - m) * n > 0.0;
    assert m > high ==> (m - high) * n > 0.0;
  }

  // ---- The estimator ----

  /** What a frame in flight knows of the acks before it: how many it had
      seen, and the time of the last unless that was long ago. */
  ghost predicate Knows(f: SentFrame, seen: nat, acks: seq<Timed<nat>>) {
    && seen <= |acks|
    && f.deliveredAtSend == Acked(acks[..seen])
    && (f.deliveredTimeAtSend.Some? ==>
          seen > 0 && f.deliveredTimeAtSend == Some(acks[seen - 1].at) && acks[seen - 1].at <= f.sentAt)
  }

  /** A frame was sent `seen` acks into `acks`; its ack now measured this
      rate: times the time since the ack last seen, eight times the bytes
      acknowledged after that. */
  ghost predicate Measures(bps: real, now: real, seen: nat, acks: seq<Timed<nat>>) {
    && 0 < seen <= |acks| && now > acks[seen - 1].at
    && bps * (now - acks[seen - 1].at) == 8.0 * Acked(acks[seen..]) as real
  }

  /** What happened so far: every ack, how many of them each frame in flight
      had seen, the frames delivered in the order they were sent, the bytes
      ever sent, and the time. */
  datatype Log = Log(acks: seq<Timed<nat>>, seen: seq<nat>, gone: seq<SentFrame>, total: nat, clock: real)

  function LogSent(log: Log, f: SentFrame): Log {
    log.(seen := log.seen + [|log.acks|], total := log.total + f.bytes, clock := f.sentAt)
  }

  /** The frames up to `pos` left, and their bytes are one ack. */
  function LogAck(log: Log, sent: seq<SentFrame>, pos: nat, now: real): Log
    requires pos < |sent| == |log.seen|
  {
    log.(acks := log.acks + [Timed(now, Bytes(sent[..pos + 1]))],
         seen := log.seen[pos + 1..],
         gone := log.gone + sent[..pos + 1],
         clock := now)
  }

  ghost predicate AllKnow(sent: seq<SentFrame>, seen: seq<nat>, acks: seq<Timed<nat>>, clock: real) {
    |seen| == |sent| && forall i | 0 <= i < |sent| :: Knows(sent[i], seen[i], acks) && sent[i].sentAt <= clock
  }

  lemma {:induction false} OthersKnow(
    sent: seq<SentFrame>, seen: seq<nat>, acks: seq<Timed<nat>>, clock: real, step: Timed<nat>, from: nat)
    requires AllKnow(sent, seen, acks, clock) && step.at >= clock && from <= |sent|
    ensures AllKnow(sent[from..], seen[from..], acks + [step], step.at)
  {
    forall i | from <= i < |sent|
      ensures Knows(sent[i], seen[i], acks + [step])
    {
      assert (acks + [step])[..seen[i]] == acks[..seen[i]];
    }
  }

  /** Bytes sent are delivered or in flight; in flight is what the frames in
      flight add up to; and each of those knows the acks it had seen. */
  ghost predicate Consistent(sent: seq<SentFrame>, inflight: nat, delivered: nat, deliveredTime: Option<real>, log: Log) {
    && inflight == Bytes(sent)
    && delivered == Acked(log.acks) == Bytes(log.gone)
    && delivered + inflight == log.total
    && AllKnow(sent, log.seen, log.acks, log.clock)
    && deliveredTime == (if log.acks == [] then None else Some(log.acks[|log.acks| - 1].at))
    && (log.acks != [] ==> log.acks[|log.acks| - 1].at <= log.clock)
  }

  lemma {:induction false} ANewFrameKnows(sent: seq<SentFrame>, seen: seq<nat>, acks: seq<Timed<nat>>, clock: real, f: SentFrame)
    requires AllKnow(sent, seen, acks, clock) && f.sentAt >= clock
    requires f.deliveredAtSend == Acked(acks)
    requires f.deliveredTimeAtSend.Some? ==>
               acks != [] && f.deliveredTimeAtSend.value == acks[|acks| - 1].at <= f.sentAt
    ensures AllKnow(sent + [f], seen + [|acks|], acks, f.sentAt)
  {
    assert acks[..|acks|] == acks;
  }

  lemma {:induction false} SendingKeepsAccounts(
    sent: seq<SentFrame>, inflight: nat, delivered: nat, deliveredTime: Option<real>, log: Log, f: SentFrame)
    requires Consistent(sent, inflight, delivered, deliveredTime, log) && f.sentAt >= log.clock
    requires f.deliveredAtSend == delivered
    requires f.deliveredTimeAtSend.Some? ==> f.deliveredTimeAtSend == deliveredTime
    ensures Consistent(sent + [f], inflight + f.bytes, delivered, deliveredTime, LogSent(log, f))
  {
    ANewFrameKnows(sent, log.seen, log.acks, log.clock, f);
    hide AllKnow, Knows, Acked;
    BytesInParts(sent, [f]);
    assert [f][1..] == [];
  }

  lemma {:induction false} AckingKeepsAccounts(
    sent: seq<SentFrame>, inflight: nat, delivered: nat, deliveredTime: Option<real>, log: Log, pos: nat, now: real)
    requires Consistent(sent, inflight, delivered, deliveredTime, log) && now >= log.clock && pos < |sent|
    ensures var n := Bytes(sent[..pos + 1]);
            && n <= inflight && inflight - n == Bytes(sent[pos + 1..])
            && Consistent(sent[pos + 1..], inflight - n, delivered + n, Some(now), LogAck(log, sent, pos, now))
            && LogAck(log, sent, pos, now).gone + sent[pos + 1..] == log.gone + sent
  {
    var step: Timed<nat> := Timed(now, Bytes(sent[..pos + 1]));
    hide AllKnow, Bytes, Acked;
    BytesAtThePosition(sent, log.gone, pos);
    OneMoreAck(log.acks, step);
    OthersKnow(sent, log.seen, log.acks, log.clock, step, pos + 1);
  }

  lemma {:induction false} BytesAtThePosition(sent: seq<SentFrame>, gone: seq<SentFrame>, pos: nat)
    requires pos < |sent|
    ensures Bytes(sent) == Bytes(sent[..pos + 1]) + Bytes(sent[pos + 1..])
    ensures Bytes(gone + sent[..pos + 1]) == Bytes(gone) + Bytes(sent[..pos + 1])
    ensures gone + sent[..pos + 1] + sent[pos + 1..] == gone + sent
  {
    hide Bytes;
    assert sent == sent[..pos + 1] + sent[pos + 1..];
    BytesInParts(sent[..pos + 1], sent[pos + 1..]);
    BytesInParts(gone, sent[..pos + 1]);
  }

  lemma {:induction false} OneMoreAck(acks: seq<Timed<nat>>, step: Timed<nat>)
    ensures Acked(acks + [step]) == Acked(acks) + step.value
  {
    AckedInParts(acks, [step]);
    assert [step][1..] == [];
  }

  lemma {:induction false} InStepWithTheLog(
    sent: seq<SentFrame>, inflight: nat, delivered: nat, deliveredTime: Option<real>, log: Log, pos: nat)
    requires Consistent(sent, inflight, delivered, deliveredTime, log)
    ensures |log.seen| == |sent| && delivered == Acked(log.acks)
    ensures pos < |sent| ==> Knows(sent[pos], log.seen[pos], log.acks)
  {
  }

  lemma {:induction false} KnowsMore(f: SentFrame, n: nat, acks: seq<Timed<nat>>, more: seq<Timed<nat>>)
    requires Knows(f, n, acks) && acks <= more
    ensures Knows(f, n, more)
  {
    assert more[..n] == acks[..n];
  }

  /** The first of these frames with this id. */
  ghost predicate IsFirst(sent: seq<SentFrame>, frameId: nat, pos: nat) {
    pos < |sent| && sent[pos].frameId == frameId && forall i | 0 <= i < pos :: sent[i].frameId != frameId
  }

  /** What the ack of this frame added to the rate samples. An app-limited
      frame never lowers the maximum, whatever left the window. */
  ghost predicate Learns(
    sample: Option<real>, now: real, frame: SentFrame, seen: nat, acks: seq<Timed<nat>>,
    before: seq<Timed<Rate>>, after: seq<Timed<Rate>>)
  {
    && (sample.Some? <==> frame.deliveredTimeAtSend.Some? && Max(now - frame.deliveredTimeAtSend.value, now - frame.sentAt) > 0.0)
    && (sample.Some? ==> Measures(sample.value, now, seen, acks))
    && (sample == None ==> after == before)
    && (frame.appLimited ==> NoLess(MaxRate(after), MaxRate(before)))
    && (sample.Some? && !frame.appLimited ==>
          after != [] && after[|after| - 1] == Timed(now, Rate(sample.value, false)))
  }

  class LinkEstimator {
    var sent: seq<SentFrame>
    var delivered: nat
    var deliveredTime: Option<real>
    var rttWindow: seq<Timed<real>>
    var srttMs: Option<real>
    var mdevMs: real
    var rateSamples: seq<Timed<Rate>>
    var ackTimes: seq<Timed<()>>
    var windowMinMs: Option<real>
    var inflight: nat
    var largestFrame: nat
    var avgFrameBytes: real
    ghost var log: Log

    constructor ()
      ensures Valid() && log == Log([], [], [], 0, 0.0) && sent == [] && InMemory() == Memory([], [], None)
    {
      sent, delivered, deliveredTime, inflight := [], 0, None, 0;
      rttWindow, srttMs, mdevMs, windowMinMs := [], None, 0.0, None;
      rateSamples, ackTimes, largestFrame, avgFrameBytes := [], [], 0, 0.0;
      log := Log([], [], [], 0, 0.0);
    }

    ghost predicate Valid()
      reads `sent, `inflight, `delivered, `deliveredTime, `log, `avgFrameBytes
    {
      Consistent(sent, inflight, delivered, deliveredTime, log) && avgFrameBytes >= 0.0
    }

    /** Every frame sent so far. */
    ghost function History(): seq<SentFrame>
      reads `log, `sent
    {
      log.gone + sent
    }

    ghost function InMemory(): Memory
      reads `rttWindow, `rateSamples, `windowMinMs
    {
      Memory(rttWindow, rateSamples, windowMinMs)
    }

    /** Minimum round trip over the base window. */
    function BaseRttMs(): Option<real>
      reads `rttWindow
    {
      MinRtt(rttWindow)
    }

    function RateWindow(): (r: real)
      reads `rttWindow
      ensures 1.0 <= r <= 15.0
    {
      SampleWindow(BaseRttMs())
    }

    function RateMaxBps(): Option<real>
      reads `rateSamples
    {
      MaxRate(rateSamples)
    }

    /** The last round trip, or half a second when that is more. */
    function RecentWindow(): (r: real)
      reads `rttWindow
      ensures r >= 0.5 && (BaseRttMs().Some? ==> r >= BaseRttMs().value / 1000.0)
      ensures r == 0.5 || (BaseRttMs().Some? && r == BaseRttMs().value / 1000.0)
    {
      var base := BaseRttMs();
      Max((if base.Some? then base.value else 500.0) / 1000.0, 0.5)
    }

    function RecentRates(now: real): seq<real>
      reads `rateSamples, `rttWindow
    {
      Recent(rateSamples, now, RecentWindow())
    }

    function RateRecentBps(now: real): Option<real>
      reads `rateSamples, `rttWindow
    {
      var recent := RecentRates(now);
      if recent == [] then None else Some(Mean(recent))
    }

    /** The mean of exactly the samples that tell; there is none only without
        such a sample. */
    lemma {:induction false} RecentRateIsTheMean(now: real)
      ensures exists rank :: Picked(RecentRates(now), rank, rateSamples, now, RecentWindow())
      ensures RateRecentBps(now) == None <==> forall s | s in rateSamples :: !Tells(s, now, RecentWindow())
      ensures RateRecentBps(now).Some? ==>
                exists a, b | a in rateSamples && b in rateSamples && Tells(a, now, RecentWindow()) && Tells(b, now, RecentWindow()) ::
                  a.value.bps <= RateRecentBps(now).value <= b.value.bps
    {
      var rates, window := RecentRates(now), RecentWindow();
      var rank := RecentIsPicked(rateSamples, now, window);
      hide Recent, LinkEstimator.RecentWindow, Mean;
      if rates == [] {
        forall s | s in rateSamples
          ensures !Tells(s, now, window)
        {
          var i :| 0 <= i < |rateSamples| && rateSamples[i] == s;
          assert rank[i + 1] == rank[i] + if Tells(s, now, window) then 1 else 0;
        }
      } else {
        MeanIsBetween(rates);
        var i, j :| 0 <= i < |rates| && 0 <= j < |rates| && rates[i] <= Mean(rates) <= rates[j];
        var a := PickedFrom(rates, rank, rateSamples, now, window, i);
        var b := PickedFrom(rates, rank, rateSamples, now, window, j);
        assert rateSamples[a] in rateSamples && rateSamples[b] in rateSamples;
      }
    }

    function QueueThresholdMs(): (r: real)
      reads `rttWindow, `mdevMs
      ensures r >= 50.0
      ensures BaseRttMs().Some? && r > 50.0 ==> r <= 2.0 * BaseRttMs().value && r <= 4.0 * mdevMs
      ensures BaseRttMs().Some? && 50.0 <= 4.0 * mdevMs <= 2.0 * BaseRttMs().value ==> r == 4.0 * mdevMs
    {
      var base := BaseRttMs();
      Clamp(4.0 * mdevMs, 50.0, Max(2.0 * (if base.Some? then base.value else 50.0), 50.0))
    }

    /** The next frame's likely size. */
    function EstFrameBytes(): nat
      reads `avgFrameBytes
    {
      ToNat(Max(avgFrameBytes, 1.0))
    }

    /** Bytes allowed in flight: never less than two frames as large as the
        largest, so an idle link can always send. */
    function CapBytes(slowStart: bool): (r: nat)
      reads `rttWindow, `rateSamples, `largestFrame, `avgFrameBytes
      ensures r >= EstFrameBytes() && r >= 2 * largestFrame && r >= 96 * 1024
    {
      var larger := if largestFrame < ToNat(avgFrameBytes) then ToNat(avgFrameBytes) else largestFrame;
      var floor := if 2 * larger < 96 * 1024 then 96 * 1024 else 2 * larger;
      var rate, base := RateMaxBps(), BaseRttMs();
      if rate == None || base == None then floor
      else
        var gain := if slowStart then 2.0 else 1.5;
        ToNat(Max(gain * (rate.value / 8.0 * base.value / 1000.0), floor as real))
    }

    /** A frame about to be sent, with what was delivered so far. */
    function Snapshot(now: real, frameId: nat, bytes: nat, appLimited: bool): SentFrame
      reads `deliveredTime, `rttWindow, `delivered
    {
      SentFrame(frameId, bytes, now, appLimited, delivered,
                if deliveredTime.Some? && now - deliveredTime.value <= RateWindow() then deliveredTime else None)
    }

    method OnSent(now: real, frameId: nat, bytes: nat, appLimited: bool)
      requires Valid() && now >= log.clock
      modifies `sent, `inflight, `largestFrame, `avgFrameBytes, `log
      ensures Valid()
      ensures var f := old(Snapshot(now, frameId, bytes, appLimited));
              sent == old(sent) + [f] && log == LogSent(old(log), f)
    {
      var f := Snapshot(now, frameId, bytes, appLimited);
      SendingKeepsAccounts(sent, inflight, delivered, deliveredTime, log, f);
      hide Consistent, LogSent;
      sent := sent + [f];
      inflight := inflight + bytes;
      log := LogSent(log, f);
      NoteSize(bytes);
    }

    method NoteSize(bytes: nat)
      requires avgFrameBytes >= 0.0
      modifies `largestFrame, `avgFrameBytes
      ensures avgFrameBytes >= 0.0
      ensures largestFrame == if bytes > old(largestFrame) then bytes else old(largestFrame)
      ensures avgFrameBytes == if old(avgFrameBytes) == 0.0 then bytes as real else 0.8 * old(avgFrameBytes) + 0.2 * bytes as real
    {
      largestFrame := if bytes > largestFrame then bytes else largestFrame;
      avgFrameBytes := if avgFrameBytes == 0.0 then bytes as real else 0.8 * avgFrameBytes + 0.2 * bytes as real;
    }

    /** The handshake round trip counts only before any other. */
    method SeedRtt(now: real, rttMs: real)
      requires Valid() && now >= log.clock
      modifies `rttWindow, `srttMs, `mdevMs, `windowMinMs
      ensures Valid()
      ensures if old(srttMs.Some?) then unchanged(`rttWindow, `srttMs, `mdevMs, `windowMinMs)
              else srttMs == Some(rttMs) && mdevMs == rttMs / 2.0
    {
      if srttMs == None {
        RecordRtt(now, rttMs);
      }
    }

    /** Smallest round trip since the last call, above the base: the queueing
        every packet saw. */
    method TakeWindowQueueingMs() returns (queueing: Option<real>)
      modifies `windowMinMs
      ensures windowMinMs == None && IsLeast(BaseRttMs(), rttWindow)
      ensures queueing == if old(windowMinMs) == None || BaseRttMs() == None then None
                          else Some(Max(old(windowMinMs).value - BaseRttMs().value, 0.0))
      ensures queueing.Some? <==> old(windowMinMs).Some? && rttWindow != []
      ensures queueing.Some? ==>
                && queueing.value >= 0.0
                && (forall i | 0 <= i < |rttWindow| :: old(windowMinMs).value - rttWindow[i].value <= queueing.value)
                && exists i | 0 <= i < |rttWindow| :: queueing.value == Max(old(windowMinMs).value - rttWindow[i].value, 0.0)
    {
      MinRttIsTheLeast(rttWindow);
      hide MinRtt;
      var least := windowMinMs;
      windowMinMs := None;
      if least == None || BaseRttMs() == None {
        return None;
      }
      return Some(Max(least.value - BaseRttMs().value, 0.0));
    }

    method RecordRtt(now: real, rttMs: real)
      modifies `rttWindow, `srttMs, `mdevMs, `windowMinMs
      ensures srttMs == Some(if old(srttMs) == None then rttMs else 0.875 * old(srttMs.value) + 0.125 * rttMs)
      ensures mdevMs == if old(srttMs) == None then rttMs / 2.0
                        else 0.75 * old(mdevMs) + 0.25 * Abs(rttMs - old(srttMs.value))
      ensures windowMinMs == Some(if old(windowMinMs) == None then rttMs else Min(old(windowMinMs.value), rttMs))
      ensures IsLower(windowMinMs, old(windowMinMs), rttMs)
      ensures rttWindow == Young(old(rttWindow) + [Timed(now, rttMs)], now, BASE_WINDOW)
      ensures rttWindow != [] && rttWindow[|rttWindow| - 1] == Timed(now, rttMs) && now - rttWindow[0].at <= BASE_WINDOW
    {
      ghost var n;
      var all := rttWindow + [Timed(now, rttMs)];
      rttWindow, n := DropOld(all, now, BASE_WINDOW);
      if srttMs == None {
        srttMs, mdevMs := Some(rttMs), rttMs / 2.0;
      } else {
        mdevMs := 0.75 * mdevMs + 0.25 * Abs(rttMs - srttMs.value);
        srttMs := Some(0.875 * srttMs.value + 0.125 * rttMs);
      }
      windowMinMs := Some(if windowMinMs == None then rttMs else Min(windowMinMs.value, rttMs));
    }

    /** An app-limited sample counts only above the current maximum. */
    method RecordRate(now: real, bps: real, appLimited: bool)
      requires avgFrameBytes >= 0.0
      modifies `rateSamples, `largestFrame
      ensures rateSamples == NextSamples(old(rateSamples), bps, appLimited, now, RateWindow())
      ensures appLimited ==> NoLess(RateMaxBps(), old(RateMaxBps()))
      ensures !appLimited || bps > (if old(RateMaxBps()).Some? then old(RateMaxBps()).value else 0.0) ==>
                rateSamples != [] && rateSamples[|rateSamples| - 1] == Timed(now, Rate(bps, appLimited))
      ensures appLimited && bps <= (if old(RateMaxBps()).Some? then old(RateMaxBps()).value else 0.0) ==>
                rateSamples == old(rateSamples)
    {
      var max := RateMaxBps();
      if appLimited && bps <= (if max.Some? then max.value else 0.0) {
        return;
      }
      ghost var n;
      var x := Timed(now, Rate(bps, appLimited));
      var all := rateSamples + [x];
      ghost var before := rateSamples;
      rateSamples, n := DropOld(all, now, RateWindow());
      if appLimited {
        ANewMaximumStays(before, n, x);
      }
      largestFrame := ToNat(avgFrameBytes);
    }

    /** The first frame in flight with this id. */
    method Find(frameId: nat) returns (pos: Option<nat>)
      ensures pos == None ==> forall i | 0 <= i < |sent| :: sent[i].frameId != frameId
      ensures pos.Some? ==> IsFirst(sent, frameId, pos.value)
    {
      for i := 0 to |sent|
        invariant forall j | 0 <= j < i :: sent[j].frameId != frameId
      {
        if sent[i].frameId == frameId {
          return Some(i);
        }
      }
      return None;
    }

    /** The frames up to `pos` are delivered. */
    method Deliver(now: real, pos: nat)
      requires Valid() && now >= log.clock && pos < |sent|
      modifies `sent, `inflight, `delivered, `deliveredTime, `log
      ensures |old(log).seen| == |old(sent)| && |log.seen| == |sent|
      ensures Valid() && sent == old(sent)[pos + 1..] && log == LogAck(old(log), old(sent), pos, now)
      ensures History() == old(History())
      ensures Knows(old(sent)[pos], old(log).seen[pos], log.acks) && delivered == Acked(log.acks)
    {
      AckingKeepsAccounts(sent, inflight, delivered, deliveredTime, log, pos, now);
      InStepWithTheLog(sent, inflight, delivered, deliveredTime, log, pos);
      hide Consistent, Bytes, Acked, Knows;
      DrainUpTo(pos);
      ghost var acks := log.acks;
      log := LogAck(log, sent, pos, now);
      KnowsMore(sent[pos], old(log).seen[pos], acks, log.acks);
      sent := sent[pos + 1..];
      deliveredTime := Some(now);
      InStepWithTheLog(sent, inflight, delivered, deliveredTime, log, 0);
    }

    /** Move their bytes from in flight to delivered, one frame at a time; the
        subtraction never saturates. */
    method DrainUpTo(pos: nat)
      requires pos < |sent| && Bytes(sent[..pos + 1]) <= inflight
      modifies `inflight, `delivered
      ensures inflight == old(inflight) - Bytes(sent[..pos + 1]) && delivered == old(delivered) + Bytes(sent[..pos + 1])
    {
      assert Bytes(sent[..0]) == 0;
      for i := 0 to pos + 1
        invariant inflight + Bytes(sent[..i]) == old(inflight) && delivered == old(delivered) + Bytes(sent[..i])
      {
        BytesGrow(sent, i, pos + 1);
        hide Bytes;
        inflight := SaturatingSub(inflight, sent[i].bytes);
        delivered := delivered + sent[i].bytes;
      }
    }

    /** The rate the ack of this frame measured. */
    method Sample(now: real, frame: SentFrame, ghost n: nat) returns (ghost sample: Option<real>)
      requires Knows(frame, n, log.acks) && delivered == Acked(log.acks) && avgFrameBytes >= 0.0
      modifies `rateSamples, `largestFrame
      ensures Learns(sample, now, frame, n, log.acks, old(rateSamples), rateSamples)
      ensures rateSamples == if sample == None then old(rateSamples)
                             else NextSamples(old(rateSamples), sample.value, frame.appLimited, now, RateWindow())
    {
      sample := None;
      if frame.deliveredTimeAtSend.Some? {
        var elapsed := Max(now - frame.deliveredTimeAtSend.value, now - frame.sentAt);
        if elapsed > 0.0 {
          SampleMeasures(frame, n, log.acks, now, delivered);
          hide Knows, Measures, Acked, NextSamples, SampleWindow;
          var bps := (delivered - frame.deliveredAtSend) as real * 8.0 / elapsed;
          sample := Some(bps);
          RecordRate(now, bps, frame.appLimited);
        }
      }
    }

    /** An ack for a frame, and by order of the transport for those sent before
        it. `sample` is the rate it measured. */
    method OnAck(now: real, frameId: nat) returns (ghost pos: Option<nat>, ghost sample: Option<real>)
      requires Valid() && now >= log.clock
      modifies this
      ensures Valid() && History() == old(History())
      ensures |log.seen| == |sent| && |old(log).seen| == |old(sent)|
      ensures pos == None ==>
                && unchanged(this)
                && forall i | 0 <= i < |sent| :: sent[i].frameId != frameId
      ensures pos.Some? ==>
                && IsFirst(old(sent), frameId, pos.value)
                && sent == old(sent)[pos.value + 1..] && log == LogAck(old(log), old(sent), pos.value, now)
                && IsLower(windowMinMs, old(windowMinMs), (now - old(sent)[pos.value].sentAt) * 1000.0)
                && IsLeast(BaseRttMs(), rttWindow)
                && Learns(sample, now, old(sent)[pos.value], old(log).seen[pos.value], log.acks, old(rateSamples), rateSamples)
                && InMemory() == Remembered(old(InMemory()), now, (now - old(sent)[pos.value].sentAt) * 1000.0, sample,
                                            old(sent)[pos.value].appLimited)
    {
      InStepWithTheLog(sent, inflight, delivered, deliveredTime, log, 0);
      pos := None;
      sample := None;
      hide LogAck, Knows, Learns, Consistent, Remembered, MinRtt, MaxRate, IsLower, IsLeast;
      var found := Find(frameId);
      if found.Some? {
        pos := found;
        sample := Credit(now, found.value);
        MinRttIsTheLeast(rttWindow);
      }
    }

    /** Credit the frames up to `pos` and learn from the last of them. */
    method Credit(now: real, pos: nat) returns (ghost sample: Option<real>)
      requires Valid() && now >= log.clock && pos < |sent|
      modifies this
      ensures |log.seen| == |sent| && |old(log).seen| == |old(sent)|
      ensures Valid() && History() == old(History())
      ensures sent == old(sent)[pos + 1..] && log == LogAck(old(log), old(sent), pos, now)
      ensures IsLower(windowMinMs, old(windowMinMs), (now - old(sent)[pos].sentAt) * 1000.0)
      ensures Learns(sample, now, old(sent)[pos], old(log).seen[pos], log.acks, old(rateSamples), rateSamples)
      ensures InMemory() == Remembered(old(InMemory()), now, (now - old(sent)[pos].sentAt) * 1000.0, sample, old(sent)[pos].appLimited)
    {
      var frame := sent[pos];
      assert avgFrameBytes >= 0.0;
      hide *;
      Deliver(now, pos);
      sample := Learn(now, frame, old(log).seen[pos]);
    }

    /** The round trip and the rate an ack of this frame measured. */
    method Learn(now: real, frame: SentFrame, ghost n: nat) returns (ghost sample: Option<real>)
      requires Knows(frame, n, log.acks) && delivered == Acked(log.acks) && avgFrameBytes >= 0.0
      modifies `rttWindow, `srttMs, `mdevMs, `windowMinMs, `rateSamples, `largestFrame, `ackTimes
      ensures IsLower(windowMinMs, old(windowMinMs), (now - frame.sentAt) * 1000.0)
      ensures Learns(sample, now, frame, n, log.acks, old(rateSamples), rateSamples)
      ensures InMemory() == Remembered(old(InMemory()), now, (now - frame.sentAt) * 1000.0, sample, frame.appLimited)
    {
      hide Knows, Learns, Acked, Young, NextSamples, SampleWindow;
      RecordRtt(now, (now - frame.sentAt) * 1000.0);
      sample := Sample(now, frame, n);
      ghost var dropped;
      ackTimes, dropped := DropOld(ackTimes + [Timed(now, ())], now, FPS_WINDOW);
    }
  }
  /** The larger of the two intervals is always the one since the ack last
      seen, and what was delivered in it is what was acked after that. */
  lemma {:induction false} SampleMeasures(f: SentFrame, seen: nat, acks: seq<Timed<nat>>, now: real, delivered: nat)
    requires seen <= |acks| && Knows(f, seen, acks) && f.deliveredTimeAtSend.Some?
    requires delivered == Acked(acks)
    requires Max(now - f.deliveredTimeAtSend.value, now - f.sentAt) > 0.0
    ensures delivered >= f.deliveredAtSend
    ensures var elapsed := Max(now - f.deliveredTimeAtSend.value, now - f.sentAt);
            Measures((delivered - f.deliveredAtSend) as real * 8.0 / elapsed, now, seen, acks)
  {
    assert acks == acks[..seen] + acks[seen..];
    AckedInParts(acks[..seen], acks[seen..]);
    hide Acked;
    var elapsed := Max(now - f.deliveredTimeAtSend.value, now - f.sentAt);
    assert elapsed == now - acks[seen - 1].at;
    QuotientTimes((delivered - f.deliveredAtSend) as real * 8.0, elapsed);
    assert delivered - f.deliveredAtSend == Acked(acks[seen..]);
  }

  lemma {:induction false} QuotientTimes(x: real, y: real)
    requires y > 0.0
    ensures x / y * y == x
  {
  }

  lemma {:induction false} BytesGrow(frames: seq<SentFrame>, i: nat, n: nat)
    requires i < n <= |frames|
    ensures Bytes(frames[..i + 1]) == Bytes(frames[..i]) + frames[i].bytes
    ensures Bytes(frames[..i + 1]) <= Bytes(frames[..n])
  {
    assert frames[..i + 1] == frames[..i] + [frames[i]];
    BytesInParts(frames[..i], [frames[i]]);
    assert [frames[i]][1..] == [];
    assert frames[..n] == frames[..i + 1] + frames[i + 1..n];
    BytesInParts(frames[..i + 1], frames[i + 1..n]);
  }
}
