/** The server session's side of the stream geometry: every step that may
    change what the encoder is made for, and the frames in between. */
module ServerSession {
  import opened Common
  import opened SendQueue
  import opened Writer
  import opened Levels
  import opened Extent

  /** Stream pixels to the remote's logical space, in thousandths. */
  function ScaleOf(outputScale: real, streamWidth: nat, outputWidth: nat): nat {
    var scale := outputScale * streamWidth as real / AtLeast(outputWidth, 1) as real;
    if scale <= 0.0 then 0 else Floor(scale * 1000.0 + 0.5)
  }

  /** The scale of the output, times the factor the stream is shrunk by. */
  lemma {:induction false} ScaleOfFollowsTheStream(outputScale: real, streamWidth: nat, outputWidth: nat)
    requires outputScale > 0.0 && streamWidth > 0 && outputWidth > 0
    ensures var want, have := 1000.0 * (outputScale * streamWidth as real),
                              ScaleOf(outputScale, streamWidth, outputWidth) as real * outputWidth as real;
            -0.5 * outputWidth as real <= have - want <= 0.5 * outputWidth as real
  {
    var w, x := outputWidth as real, outputScale * streamWidth as real / outputWidth as real;
    assert outputScale * streamWidth as real > 0.0;
    assert x * w == outputScale * streamWidth as real && x > 0.0;
    var r := ScaleOf(outputScale, streamWidth, outputWidth) as real;
    assert -0.5 <= r - 1000.0 * x <= 0.5;
    Ordered(-0.5, r - 1000.0 * x, w);
    Ordered(r - 1000.0 * x, 0.5, w);
    assert (r - 1000.0 * x) * w == r * w - 1000.0 * (x * w);
  }

  /** The chroma of a session: both streams for a client that decodes them,
      unless it is to save bandwidth or the CPU encodes. */
  function Negotiated(caps: set<Chroma>, gpu: bool, lowBandwidth: bool, fullChroma: bool): Chroma {
    var preferSingle := lowBandwidth || (!gpu && !fullChroma);
    if Dual420 !in caps || (preferSingle && Single420 in caps) then Single420 else Dual420
  }

  /** One the client decodes; it has the choice only when it decodes both. */
  lemma {:induction false} NegotiatedIsDecoded(caps: set<Chroma>, gpu: bool, lowBandwidth: bool, fullChroma: bool)
    requires caps != {}
    ensures var base := Negotiated(caps, gpu, lowBandwidth, fullChroma);
            base in caps && (caps == {base} || (base == Single420 <==> lowBandwidth || !(gpu || fullChroma)))
  {
    var c :| c in caps;
    assert c == Dual420 || c == Single420;
    assert forall d | d in caps :: d == Dual420 || d == Single420;
  }

  /** A frame of a chroma the client decodes, decoded under the geometry it was
      encoded with, and a keyframe when the decoder is new. */
  ghost predicate Right(e: Event, caps: set<Chroma>) {
    e.Shown? ==> e.frame.encoded == e.config.geometry && e.frame.encoded.chroma in caps && (e.reset ==> e.frame.keyframe)
  }

  ghost predicate AllRight(log: seq<Event>, caps: set<Chroma>) {
    forall i | 0 <= i < |log| :: Right(log[i], caps)
  }

  /** A session goes on, or ends because no encoder works. */
  datatype Flow = Continue | Ended

  /** What the environment decides about one encode. */
  datatype Encode = Encode(fails: bool, cpuEncoderFails: bool, cpuEncodeFails: bool, keyframe: bool)

  class Session {
    const headless: bool
    const caps: set<Chroma>
    const baseChroma: Chroma
    const cpuMax: Size
    const maxWindow: Size
    const queue: Queue
    var output: Size
    var outputScale: real
    var baseStream: Size
    var stream: Size
    var chroma: Chroma
    var encoderMax: Size
    var encoder: Geometry
    var settings: Size
    var level: nat
    var gpu: bool
    var gpuEncoded: bool
    var wantKeyframe: bool
    var clientExtent: Size
    var pending: Option<Size>
    var lastFrame: Option<Size>
    var frameId: nat

    /** The first configuration, that of the output at the starting level, was
        written before the queue existed. */
    constructor (output: Size, outputScale: real, headless: bool, gpu: bool, encoderMax: Size, cpuMax: Size,
                 caps: set<Chroma>, lowBandwidth: bool, fullChroma: bool, maxWindow: Size)
      requires caps != {}
      ensures Valid() && fresh(queue) && queue.pushed == queue.packets == queue.delivered == []
      ensures queue.first == CurrentConfig() && wantKeyframe && level == START_LEVEL
      ensures baseStream == FitExtent(output, encoderMax) && stream == baseStream && this.caps == caps
      ensures chroma == baseChroma && (caps == {baseChroma} || (baseChroma == Single420 <==> lowBandwidth || !(gpu || fullChroma)))
      ensures this.output == output && this.outputScale == outputScale && this.gpu == gpu && this.encoderMax == encoderMax
    {
      NegotiatedIsDecoded(caps, gpu, lowBandwidth, fullChroma);
      hide FitExtent, ScaleOf, FpsCap, Negotiated;
      var stream, chroma := FitExtent(output, encoderMax), Negotiated(caps, gpu, lowBandwidth, fullChroma);
      this.headless, this.caps, this.baseChroma, this.cpuMax := headless, caps, chroma, cpuMax;
      this.output, this.outputScale, this.encoderMax, this.gpu := output, outputScale, encoderMax, gpu;
      this.stream, this.baseStream, this.settings, this.chroma := stream, stream, stream, chroma;
      this.encoder := Geometry(stream.width, stream.height, chroma);
      level, gpuEncoded, wantKeyframe, clientExtent := START_LEVEL, false, true, maxWindow;
      this.maxWindow := maxWindow;
      pending, lastFrame, frameId := None, None, 0;
      queue := new Queue(Config(Geometry(stream.width, stream.height, chroma), stream.width, stream.height,
                                ScaleOf(outputScale, stream.width, output.width), FpsCap(START_LEVEL), gpu));
      new;
      assert Read(Start(queue.first), []) == Start(queue.first);
    }

    function ActiveGeometry(): Geometry
      reads `stream, `chroma
    {
      Geometry(stream.width, stream.height, chroma)
    }

    /** What a client that read everything pushed so far would show. */
    ghost function Pushed(): View
      reads queue
    {
      Read(Start(queue.first), queue.pushed)
    }

    /** The encoder and its settings are for the active geometry, in a chroma
        the client decodes: the negotiated one, or the single stream. */
    predicate Fits()
      reads `level, `encoder, `settings, `stream, `chroma
    {
      && level < |LEVELS|
      && encoder == ActiveGeometry() && settings == stream
      && chroma in caps && baseChroma in caps && (chroma == baseChroma || chroma == Single420)
    }

    /** Every frame so far was right; a decoder replaced since the last one is
        answered by a keyframe. */
    ghost predicate Answered()
      reads `wantKeyframe, queue
    {
      && queue.Valid()
      && (Pushed().reset ==> wantKeyframe)
      && AllRight(Pushed().log, caps)
    }

    /** The last configuration pushed is the active one. */
    ghost predicate Valid()
      reads `level, `encoder, `settings, `stream, `chroma, `wantKeyframe, queue
    {
      && Fits() && Answered()
      && Pushed().config.geometry == ActiveGeometry()
    }

    function ActiveChroma(): Chroma
      requires level < |LEVELS|
      reads this
    {
      if LEVELS[level].aux || Single420 !in caps then baseChroma else Single420
    }

    /** The geometry the ladder level and the full-quality size call for. */
    function WantedGeometry(): Geometry
      requires level < |LEVELS|
      reads this
    {
      var want := FitExtent(LevelSize(baseStream, LEVELS[level].scale), encoderMax);
      Geometry(want.width, want.height, ActiveChroma())
    }

    /** The level's part of the full-quality size, as far as the encoder takes
        it; a level may drop the auxiliary stream only for a client that decodes
        one stream. */
    ghost predicate AsTheLevelAsks()
      requires level < |LEVELS|
      reads `level, `stream, `chroma, `baseStream, `encoderMax
    {
      && Shared(stream, baseStream, LEVELS[level].scale, encoderMax)
      && (LEVELS[level].aux ==> chroma == baseChroma)
      && (!LEVELS[level].aux ==> (chroma == Single420 <==> Single420 in caps))
    }

    lemma {:induction false} WantedIsAsked()
      requires Fits() && ActiveGeometry() == WantedGeometry()
      ensures AsTheLevelAsks()
    {
      hide Shared, FitExtent, LevelSize, LEVELS;
      LevelSizeIsTheShare(baseStream, LEVELS[level].scale, encoderMax);
    }

    /** The configuration the client is told. */
    function CurrentConfig(): Config
      requires level < |LEVELS|
      reads `stream, `chroma, `baseStream, `outputScale, `output, `level, `gpu
    {
      Config(ActiveGeometry(), baseStream.width, baseStream.height, ScaleMilli(), FpsCap(level), gpu)
    }

    method SendConfig()
      requires Fits() && Answered()
      requires Pushed().config.geometry != ActiveGeometry() ==> wantKeyframe
      modifies queue
      ensures Valid()
      ensures queue.delivered == old(queue.delivered)
      ensures old(NoVideo(queue.packets)) ==> NoVideo(queue.packets)
      ensures queue.pushed == old(queue.pushed) + [StreamConfig(CurrentConfig())]
    {
      var config := CurrentConfig();
      PushKeepsAnswered(queue.first, queue.pushed, StreamConfig(config), caps);
      hide Queue.Valid, AllRight, Right;
      if NoVideo(queue.packets) {
        NoVideoIsPushed(queue.packets, StreamConfig(config));
      }
      hide NoVideo, SendQueue.Pushed;
      queue.Push(StreamConfig(config));
    }

    /** The scale from stream pixels to the remote's logical space. */
    function ScaleMilli(): nat
      reads `outputScale, `stream, `output
    {
      ScaleOf(outputScale, stream.width, output.width)
    }

    /** Make an encoder for the wanted geometry, if that is a new one; keep the
        old one when it is rejected. */
    method ApplyStreamParams(accepts: bool) returns (ok: bool)
      requires Fits()
      modifies `encoder, `settings, `stream, `chroma, `wantKeyframe
      ensures Fits() && WantedGeometry() == old(WantedGeometry())
      ensures ok <==> accepts || old(WantedGeometry() == ActiveGeometry())
      ensures ActiveGeometry() == if ok then WantedGeometry() else old(ActiveGeometry())
      ensures ok ==> AsTheLevelAsks()
      ensures wantKeyframe <==> old(wantKeyframe) || ActiveGeometry() != old(ActiveGeometry())
    {
      var wanted := WantedGeometry();
      hide FitExtent, LevelSize, LEVELS, Session.AsTheLevelAsks;
      if wanted.width == stream.width && wanted.height == stream.height && wanted.chroma == chroma {
        WantedIsAsked();
        return true;
      }
      if accepts {
        encoder, settings := wanted, Size(wanted.width, wanted.height);
        stream, chroma := settings, wanted.chroma;
        wantKeyframe := true;
        WantedIsAsked();
        return true;
      }
      return false;
    }

    /** A ladder step: the level stays even when the encoder is rejected. */
    method LadderStep(to: nat, accepts: bool)
      requires Valid() && to < |LEVELS|
      modifies this, queue
      ensures Valid() && queue.delivered == old(queue.delivered)
      ensures level == to && baseStream == old(baseStream)
      ensures ActiveGeometry() == if accepts then WantedGeometry() else old(ActiveGeometry())
      ensures accepts || WantedGeometry() == old(ActiveGeometry()) ==> AsTheLevelAsks()
      ensures queue.pushed == old(queue.pushed) +
                (if accepts || WantedGeometry() == old(ActiveGeometry()) then [StreamConfig(CurrentConfig())] else [])
    {
      hide Queue.Valid, AllRight, FitExtent, Session.AsTheLevelAsks;
      level := to;
      var ok := ApplyStreamParams(accepts);
      if ok {
        SendConfig();
      }
    }

    /** Fit a mirrored screen into the client's window, never scaling up. */
    method FitMirror(window: Size, accepts: bool)
      requires Valid()
      modifies this, queue
      ensures Valid() && queue.delivered == old(queue.delivered)
      ensures output == old(output) && pending == old(pending) && encoderMax == old(encoderMax)
      ensures clientExtent == old(clientExtent) && outputScale == old(outputScale)
      ensures accepts ==> baseStream == FitExtent(MirrorSize(output, window), encoderMax)
      ensures baseStream != old(baseStream) ==>
                ActiveGeometry() == WantedGeometry() && AsTheLevelAsks()
                && queue.pushed == old(queue.pushed) + [StreamConfig(CurrentConfig())]
      ensures baseStream == old(baseStream) ==> ActiveGeometry() == old(ActiveGeometry()) && queue.pushed == old(queue.pushed)
    {
      hide Queue.Valid, AllRight, FitExtent, Session.AsTheLevelAsks;
      var base := FitExtent(MirrorSize(output, window), encoderMax);
      if base == baseStream {
        return;
      }
      var oldBase := baseStream;
      baseStream := base;
      var ok := ApplyStreamParams(accepts);
      if ok {
        SendConfig();
      } else {
        baseStream := oldBase;
      }
    }

    /** The window the client asks for, unless it is too small to stream. */
    function WindowSize(width: nat, height: nat): Option<Size> {
      var size := Size(Even(AtMost(width, maxWindow.width)), Even(AtMost(height, maxWindow.height)));
      if size.width < 320 || size.height < 240 then None else Some(size)
    }

    /** The client's window changed. A headless output takes its size (`modeSet`
        says whether the compositor agreed), a mirrored one is fitted. */
    method Resize(width: nat, height: nat, scale: real, modeSet: bool, applied: real, accepts: bool)
      requires Valid()
      modifies this, queue
      ensures Valid() && queue.delivered == old(queue.delivered)
      ensures WindowSize(width, height) == None ==> unchanged(this) && queue.pushed == old(queue.pushed)
      ensures WindowSize(width, height).Some? ==> clientExtent == WindowSize(width, height).value
      ensures !headless && WindowSize(width, height).Some? && accepts ==>
                baseStream == FitExtent(MirrorSize(output, clientExtent), encoderMax)
      ensures headless && modeSet && accepts && WindowSize(width, height).Some?
              && (clientExtent != old(output) || !Near(ClampScale(scale), old(outputScale))) ==>
                && output == clientExtent && outputScale == applied
                && queue.pushed == old(queue.pushed) + [StreamConfig(CurrentConfig())]
      ensures headless && output != old(output) ==>
                && baseStream == FitExtent(output, encoderMax) && ActiveGeometry() == WantedGeometry() && AsTheLevelAsks()
                && queue.pushed == old(queue.pushed) + [StreamConfig(CurrentConfig())]
      ensures output == old(output) && headless ==> ActiveGeometry() == old(ActiveGeometry()) && baseStream == old(baseStream)
    {
      hide Queue.Valid, AllRight, FitExtent, Session.AsTheLevelAsks;
      var size := Size(Even(AtMost(width, maxWindow.width)), Even(AtMost(height, maxWindow.height)));
      if size.width < 320 || size.height < 240 {
        return;
      }
      clientExtent := size;
      if !headless {
        FitMirror(size, accepts);
        return;
      }
      if (size == output && Near(ClampScale(scale), outputScale)) || !modeSet {
        return;
      }
      if size != output {
        var oldBase, oldOutput := baseStream, output;
        baseStream, output := FitExtent(size, encoderMax), size;
        var ok := ApplyStreamParams(accepts);
        if !ok {
          baseStream, output := oldBase, oldOutput;
          return;
        }
      }
      outputScale := applied;
      SendConfig();
    }

    /** A captured frame; a mirrored output may have changed size with it. */
    method OnCapture(width: nat, height: nat, monitorScale: real, accepts: bool)
      requires Valid()
      modifies this, queue
      ensures Valid() && queue.delivered == old(queue.delivered)
      ensures pending == Some(Size(width, height))
      ensures !headless && Size(Even(width), Even(height)) != old(output) ==>
                && output == Size(Even(width), Even(height)) && outputScale == monitorScale
                && (accepts ==> baseStream == FitExtent(MirrorSize(output, clientExtent), encoderMax))
                && |queue.pushed| > |old(queue.pushed)|
                && queue.pushed[|queue.pushed| - 1] == StreamConfig(CurrentConfig())
                && (stream == old(stream) ==> wantKeyframe)
      ensures headless || Size(Even(width), Even(height)) == old(output) ==>
                queue.pushed == old(queue.pushed) && wantKeyframe == old(wantKeyframe)
    {
      hide Queue.Valid, AllRight, FitExtent, MirrorSize, Session.AsTheLevelAsks;
      var size := Size(Even(width), Even(height));
      if !headless && size != output {
        output, outputScale := size, monitorScale;
        var previous := stream;
        FitMirror(clientExtent, accepts);
        if stream == previous {
          SendConfig();
          wantKeyframe := true;
        }
      }
      pending := Some(Size(width, height));
    }

    method RequestKeyframe()
      requires Valid()
      modifies `wantKeyframe
      ensures Valid() && wantKeyframe
    {
      wantKeyframe := true;
    }

    /** Cursor, pong and clipboard messages do not touch the stream. */
    method SendOther(m: Message)
      requires Valid() && !m.VideoFrame? && !m.StreamConfig?
      modifies queue
      ensures Valid() && queue.delivered == old(queue.delivered) && queue.pushed == old(queue.pushed) + [m]
    {
      PushKeepsAnswered(queue.first, queue.pushed, m, caps);
      hide Queue.Valid, AllRight, Right;
      queue.Push(m);
    }

    /** Encode the pending frame, or the kept one to refine it, when the link
        has room (`room`, beyond the queue) and the timers are due. */
    method PumpEncoder(room: bool, due: bool, refineDue: bool, e: Encode) returns (flow: Flow)
      requires Valid()
      modifies this, queue
      ensures flow == Continue ==> Valid()
      ensures queue.delivered == old(queue.delivered)
      ensures flow == Continue ==>
                && var open := room && due && old(NoVideo(queue.packets));
                && pending == (if open then None else old(pending))
                && lastFrame == KeptFrame(open, refineDue, old(pending), old(lastFrame))
                && (if open && Current(if old(pending).Some? then old(pending) else if refineDue then old(lastFrame) else None)
                    then SentFrame(e, old(queue.pushed), old(frameId), old(wantKeyframe))
                    else queue.pushed == old(queue.pushed) && frameId == old(frameId) && wantKeyframe == old(wantKeyframe))
    {
      assert level < |LEVELS|;
      hide Session.Valid, Session.SentFrame, NoVideo, Queue.Valid;
      flow := Continue;
      var ready := queue.VideoReady();
      if ready && room && due {
        if pending.Some? {
          var frame := pending.value;
          pending := None;
          flow := EncodeCurrent(frame, e);
        } else if refineDue && lastFrame.Some? {
          var frame := lastFrame.value;
          lastFrame := None;
          flow := EncodeCurrent(frame, e);
        }
      }
    }

    /** Encode a frame and keep it to be refined, unless it is stale. */
    method EncodeCurrent(frame: Size, e: Encode) returns (flow: Flow)
      requires Valid() && NoVideo(queue.packets)
      modifies `lastFrame, `gpu, `encoderMax, `encoder, `gpuEncoded, `frameId, `wantKeyframe, queue
      ensures flow == Continue ==> Valid()
      ensures queue.delivered == old(queue.delivered)
      ensures !Matches(frame) ==> unchanged(this) && unchanged(queue) && flow == Continue
      ensures Matches(frame) && flow == Continue ==>
                lastFrame == Some(frame) && SentFrame(e, old(queue.pushed), old(frameId), old(wantKeyframe))
    {
      assert level < |LEVELS|;
      hide Session.Valid, Session.SentFrame, NoVideo, Queue.Valid, Session.Matches;
      flow := Continue;
      if Matches(frame) {
        flow := EncodeAndSend(e);
        lastFrame := Some(frame);
      }
    }

    /** The frame kept to be refined: the one just encoded, else the last one
        until it turns out to be of another size. */
    ghost function KeptFrame(open: bool, refineDue: bool, pending: Option<Size>, lastFrame: Option<Size>): Option<Size>
      reads `output
    {
      if !open || (pending == None && !refineDue) then lastFrame
      else if pending.Some? then if Current(pending) then pending else lastFrame
      else if Current(lastFrame) then lastFrame else None
    }

    ghost predicate Current(frame: Option<Size>)
      reads `output
    {
      frame.Some? && Matches(frame.value)
    }

    /** One frame at the geometry the client was told, behind the configuration
        of a failover if there was one. */
    ghost predicate SentFrame(e: Encode, pushed: seq<Message>, id: nat, key: bool)
      requires level < |LEVELS|
      reads this, queue
    {
      var f := Frame(id, key || e.fails || e.keyframe, ActiveGeometry());
      && queue.pushed == pushed + (if e.fails then [StreamConfig(CurrentConfig())] else []) + [VideoFrame(f)]
      && !wantKeyframe && frameId == id + 1
    }

    /** Captured at the size of the output, not before a resize. */
    predicate Matches(frame: Size)
      reads `output
    {
      Size(Even(frame.width), Even(frame.height)) == output
    }

    /** Encode one frame and queue it. The first GPU encode may fail over to
        the CPU, once; any other failure ends the session. */
    method EncodeAndSend(e: Encode) returns (flow: Flow)
      requires Valid() && NoVideo(queue.packets)
      modifies `gpu, `encoderMax, `encoder, `gpuEncoded, `frameId, `wantKeyframe, queue
      ensures flow == Continue ==> Valid()
      ensures queue.delivered == old(queue.delivered)
      ensures flow == Ended <==> e.fails && (!old(gpu) || old(gpuEncoded) || e.cpuEncoderFails || e.cpuEncodeFails)
      ensures flow == Continue ==> SentFrame(e, old(queue.pushed), old(frameId), old(wantKeyframe))
    {
      var key := wantKeyframe;
      assert queue.pushed + [] == queue.pushed;
      hide Fits, Answered, NoVideo, Queue.Valid, AllRight;
      assert level < |LEVELS|;
      hide *;
      if e.fails {
        if !gpu || gpuEncoded || e.cpuEncoderFails {
          return Ended;
        }
        FallBack();
        if e.cpuEncodeFails {
          return Ended;
        }
        key := true;
      }
      gpuEncoded := true;
      QueueFrame(key || e.keyframe);
      return Continue;
    }

    /** The CPU encoder takes over at the same geometry. */
    method FallBack()
      requires Valid() && NoVideo(queue.packets)
      modifies `gpu, `encoderMax, `encoder, queue
      ensures Valid() && NoVideo(queue.packets) && queue.delivered == old(queue.delivered)
      ensures queue.pushed == old(queue.pushed) + [StreamConfig(CurrentConfig())]
      ensures ActiveGeometry() == old(ActiveGeometry()) && !gpu && encoderMax == cpuMax
    {
      hide Queue.Valid, AllRight;
      gpu, encoderMax := false, cpuMax;
      encoder := Geometry(settings.width, settings.height, chroma);
      SendConfig();
    }

    method QueueFrame(keyframe: bool)
      requires Valid() && NoVideo(queue.packets)
      requires wantKeyframe ==> keyframe
      modifies `frameId, `wantKeyframe, queue
      ensures Valid() && queue.delivered == old(queue.delivered)
      ensures queue.pushed == old(queue.pushed) + [VideoFrame(Frame(old(frameId), keyframe, ActiveGeometry()))]
      ensures frameId == old(frameId) + 1 && !wantKeyframe
    {
      hide Queue.Valid, AllRight;
      var frame := Frame(frameId, keyframe, encoder);
      PushFrameKeepsAnswered(queue.first, queue.pushed, frame, caps);
      queue.Push(VideoFrame(frame));
      frameId, wantKeyframe := frameId + 1, false;
    }
  }

  lemma {:induction false} NoVideoIsPushed(q: seq<Message>, m: Message)
    requires NoVideo(q) && !m.VideoFrame?
    ensures NoVideo(SendQueue.Pushed(q, m))
  {
    NoVideoIsCountZero(q);
    NoVideoIsCountZero(SendQueue.Pushed(q, m));
    CountPushed(q, m, Video);
  }

  lemma {:induction false} PushKeepsAnswered(first: Config, pushed: seq<Message>, m: Message, caps: set<Chroma>)
    requires AllRight(Read(Start(first), pushed).log, caps) && !m.VideoFrame?
    ensures var before, after := Read(Start(first), pushed), Read(Start(first), pushed + [m]);
            && AllRight(after.log, caps)
            && after.config == (if m.StreamConfig? then m.config else before.config)
            && (after.reset <==> before.reset || after.config.geometry != before.config.geometry)
  {
    ReadInParts(Start(first), pushed, [m]);
    ReadOne(Read(Start(first), pushed), m);
  }

  lemma {:induction false} PushFrameKeepsAnswered(first: Config, pushed: seq<Message>, f: Frame, caps: set<Chroma>)
    requires AllRight(Read(Start(first), pushed).log, caps)
    requires f.encoded == Read(Start(first), pushed).config.geometry && f.encoded.chroma in caps
    requires Read(Start(first), pushed).reset ==> f.keyframe
    ensures var before, after := Read(Start(first), pushed), Read(Start(first), pushed + [VideoFrame(f)]);
            AllRight(after.log, caps) && after.config == before.config && !after.reset
  {
    ReadInParts(Start(first), pushed, [VideoFrame(f)]);
    ReadOne(Read(Start(first), pushed), VideoFrame(f));
  }

  function ClampScale(scale: real): real {
    if scale < 0.5 then 0.5 else if scale > 4.0 then 4.0 else scale
  }

  predicate Near(a: real, b: real) {
    -0.01 < a - b < 0.01
  }
}
