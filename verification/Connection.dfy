/** A server session and a client with the send queue between them. */
module Connection {
  import opened Common
  import opened SendQueue
  import opened Writer
  import opened Levels
  import opened Extent
  import opened ServerSession
  import opened ClientLoop

  /** What the environment decides about one message: how the client's
      decoders and its UI answer, and whether a new decoder is on the GPU. */
  datatype Answer = Answer(mainReady: bool, auxReady: bool, gpu: Decoded, offer: Offer, makesGpu: bool)

  /** Every frame the client has read was encoded for the geometry of the
      decoder that got it, and a new decoder got a keyframe first. */
  lemma {:induction false} DeliveredFramesAreRight(s: Session)
    requires s.Valid()
    ensures AllRight(Read(Start(s.queue.first), s.queue.delivered).log, s.caps)
  {
    DeliveredAsPushed(s.queue);
    var d, p := Read(Start(s.queue.first), s.queue.delivered), Read(Start(s.queue.first), s.queue.pushed);
    forall i | 0 <= i < |d.log|
      ensures Right(d.log[i], s.caps)
    {
      assert SameEvent(d.log[i], p.log[i]) && Right(p.log[i], s.caps);
    }
  }

  /** The next message is right too: it is an event of what the client reads
      next. */
  lemma {:induction false} TheNextFrameIsRight(s: Session, f: Frame)
    requires s.Valid() && s.queue.packets != [] && s.queue.packets[0] == VideoFrame(f)
    ensures var view := Read(Start(s.queue.first), s.queue.delivered);
            f.encoded == view.config.geometry && f.encoded.chroma in s.caps && (view.reset ==> f.keyframe)
  {
    var v, q := Start(s.queue.first), s.queue;
    var whole := Read(v, q.delivered + q.packets);
    var view := Read(v, q.delivered);
    assert q.delivered + q.packets == q.delivered + [VideoFrame(f)] + q.packets[1..];
    ReadInParts(v, q.delivered, [VideoFrame(f)]);
    ReadOne(view, VideoFrame(f));
    TheLogGrows(v, q.delivered + [VideoFrame(f)], q.packets[1..]);
    var i := |view.log|;
    assert whole.log[i] == Shown(f, view.config, view.reset);
    assert SameEvent(whole.log[i], s.Pushed().log[i]);
    assert Right(s.Pushed().log[i], s.caps);
  }

  /** Anything that may happen next at either end. */
  datatype Action =
    | Ladder(level: nat, accepts: bool)
    | Window(width: nat, height: nat, scale: real, modeSet: bool, applied: real, accepts: bool)
    | Capture(width: nat, height: nat, scale: real, accepts: bool)
    | Keyframe
    | Pump(room: bool, due: bool, refineDue: bool, encode: Encode)
    | Other(message: Message)
    | Deliver(answer: Answer)
    | Idle(flushFails: bool, offer: Offer)
    | Zoom(zoom: nat, redraws: bool, offer: Offer)

  /** A frame as it met a decoder: how that was made, and whether it had been
      fed before. */
  datatype Meeting = Meeting(frame: Frame, decoder: Made, fed: bool)

  /** By a client that announced the chromas `caps`. */
  ghost predicate Decodable(m: Meeting, caps: set<Chroma>) {
    m.frame.encoded.chroma in caps && MadeFor(m.decoder, m.frame.encoded) && (m.fed || m.frame.keyframe)
  }

  ghost predicate AllDecodable(met: seq<Meeting>, caps: set<Chroma>) {
    forall i | 0 <= i < |met| :: Decodable(met[i], caps)
  }

  /** The frames among the events, in order. */
  ghost function FramesOf(log: seq<Event>): seq<Event> {
    if log == [] then []
    else
      var last := log[|log| - 1];
      FramesOf(log[..|log| - 1]) + if last.Shown? then [last] else []
  }

  /** What a message adds to them. */
  ghost function FrameOf(m: Message, view: View): seq<Event> {
    if m.VideoFrame? then [Shown(m.frame, view.config, view.reset)] else []
  }

  lemma {:induction false} OneMoreEvent(log: seq<Event>, e: Event)
    ensures FramesOf(log + [e]) == FramesOf(log) + if e.Shown? then [e] else []
  {
    assert (log + [e])[..|log|] == log;
  }

  /** A client that has read one message more. */
  lemma {:induction false} OneMoreMessage(first: Config, before: seq<Message>, m: Message)
    ensures Read(Start(first), before + [m]) == Apply(Read(Start(first), before), m)
    ensures Count(before + [m], Video) == Count(before, Video) + if m.VideoFrame? then 1 else 0
    ensures var view := Read(Start(first), before);
            FramesOf(Apply(view, m).log) == FramesOf(view.log) + FrameOf(m, view)
  {
    CountAppend(before, [m], Video);
    assert [m][1..] == [];
    assert Count([m], Video) == if m.VideoFrame? then 1 else 0;
    var view := Read(Start(first), before);
    ReadInParts(Start(first), before, [m]);
    ReadOne(view, m);
    hide Read, Count;
    match m {
      case VideoFrame(f) => OneMoreEvent(view.log, Shown(f, view.config, view.reset));
      case Clipboard(p) => OneMoreEvent(view.log, Received(p));
      case _ =>
    }
  }

  lemma {:induction false} FramesAreRight(log: seq<Event>, caps: set<Chroma>)
    requires AllRight(log, caps)
    ensures AllRight(FramesOf(log), caps)
    ensures forall i | 0 <= i < |FramesOf(log)| :: FramesOf(log)[i].Shown?
  {
    if log != [] {
      FramesAreRight(log[..|log| - 1], caps);
    }
  }

  /** Each unit was read under the configuration of its frame. */
  ghost predicate ReadAs(units: seq<Tag>, frames: seq<Event>) {
    && |units| == |frames|
    && forall i | 0 <= i < |units| :: frames[i].Shown? && units[i] == TagOf(frames[i].config)
  }

  /** The picture of a frame, painted with the tag of the configuration before
      it, and so at the size the server encoded. */
  ghost predicate PaintedAs(p: Picture, e: Event) {
    && e.Shown? && p.tag == TagOf(e.config)
    && p.tag.width == e.frame.encoded.width && p.tag.height == e.frame.encoded.height
  }

  /** What the UI got, each picture no older than the one before. */
  ghost predicate Painted(shown: seq<Picture>, frames: seq<Event>) {
    && InOrder(shown)
    && forall i | 0 <= i < |shown| :: shown[i].unit < |frames| && PaintedAs(shown[i], frames[shown[i].unit])
  }

  class Link {
    const server: Session
    const client: Client

    constructor (server: Session, config: Config, onGpu: bool)
      requires server.Valid() && server.queue.delivered == [] && config == server.queue.first
      ensures Valid() && this.server == server && fresh(client) && fresh(client.cpu)
    {
      this.server := server;
      client := new Client(config, onGpu);
    }

    ghost predicate Valid()
      reads this, server, server.queue, client, client.cpu
    {
      server.Valid() && client.Valid() && Together()
    }

    /** The client stands where the delivered messages leave it. */
    ghost predicate Together()
      reads this, server.queue`delivered, client
    {
      && client.config == Seen().config && (Seen().reset <==> client.fed == 0)
      && ReadAs(client.units, FramesOf(Seen().log))
    }

    /** What the delivered messages mean. */
    ghost function Seen(): View
      reads server.queue`delivered
    {
      Read(Start(server.queue.first), server.queue.delivered)
    }

    /** What the UI got is right, as long as no decode has failed and the UI
        is there. */
    ghost predicate PaintsRight()
      reads this, server.queue`delivered, client
    {
      client.clean ==> Painted(client.shown, FramesOf(Seen().log))
    }

    lemma {:induction false} ValidPaintsRight()
      requires Valid()
      ensures PaintsRight()
    {
      DeliveredFramesAreRight(server);
      FramesAreRight(Seen().log, server.caps);
      hide FramesOf, Session.Valid;
      if client.clean {
        assert Tagged(client.shown, client.units) && InOrder(client.shown);
        var frames := FramesOf(Seen().log);
        forall i | 0 <= i < |client.shown|
          ensures client.shown[i].unit < |frames| && PaintedAs(client.shown[i], frames[client.shown[i].unit])
        {
          assert Right(frames[client.shown[i].unit], server.caps);
        }
      }
    }

    /** The writer task sends the front message and the client acts on it. */
    method Deliver(a: Answer) returns (met: Option<Meeting>)
      requires Valid()
      modifies server.queue, client, client.cpu
      ensures Valid() && (client.cpu == old(client.cpu) || fresh(client.cpu))
      ensures met.Some? ==> Decodable(met.value, server.caps)
      ensures met.Some? <==> old(server.queue.packets) != [] && old(server.queue.packets)[0].VideoFrame?
      ensures Count(server.queue.delivered, Video)
           == old(Count(server.queue.delivered, Video)) + if met.Some? then 1 else 0
    {
      hide Session.Valid, Client.Valid, Apply, Seen, FramesOf, TagOf, Decodable, Count;
      ghost var view, units := Seen(), client.units;
      var m := Take();
      met := None;
      if m.Some? {
        met := Act(m.value, a, view);
        assert ReadAs(client.units, FramesOf(view.log) + FrameOf(m.value, view));
      }
    }

    /** The writer task takes the front message. */
    method Take() returns (m: Option<Message>)
      requires server.Valid()
      modifies server.queue
      ensures server.Valid() && (m == None ==> Seen() == old(Seen()))
      ensures m.Some? <==> old(server.queue.packets) != []
      ensures m.Some? ==> m.value == old(server.queue.packets)[0] && Seen() == Apply(old(Seen()), m.value)
      ensures m.Some? && m.value.VideoFrame? ==>
                var view := old(Seen());
                && m.value.frame.encoded == view.config.geometry && m.value.frame.encoded.chroma in server.caps
                && (view.reset ==> m.value.frame.keyframe)
      ensures m.Some? ==> FramesOf(Seen().log) == FramesOf(old(Seen()).log) + FrameOf(m.value, old(Seen()))
      ensures Count(server.queue.delivered, Video)
           == old(Count(server.queue.delivered, Video)) + if m.Some? && m.value.VideoFrame? then 1 else 0
    {
      ghost var before, packets := server.queue.delivered, server.queue.packets;
      if packets != [] && packets[0].VideoFrame? {
        TheNextFrameIsRight(server, packets[0].frame);
      }
      m := server.queue.Pop();
      if m.Some? {
        OneMoreMessage(server.queue.first, before, m.value);
      }
      hide Session.Answered, Session.Fits, Read, Count, FramesOf, ReadAs, TagOf, Apply;
    }

    /** What the client, standing at `view`, makes of the next message. */
    method Act(m: Message, a: Answer, ghost view: View) returns (met: Option<Meeting>)
      requires client.Valid() && client.config == view.config && (view.reset <==> client.fed == 0)
      requires m.VideoFrame? ==> m.frame.encoded == view.config.geometry && m.frame.encoded.chroma in server.caps && (view.reset ==> m.frame.keyframe)
      modifies client, client.cpu
      ensures client.Valid() && client.config == Apply(view, m).config && (Apply(view, m).reset <==> client.fed == 0)
      ensures client.units == old(client.units) + if m.VideoFrame? then [TagOf(view.config)] else []
      ensures client.cpu == old(client.cpu) || fresh(client.cpu)
      ensures met.Some? <==> m.VideoFrame?
      ensures met.Some? ==> Decodable(met.value, server.caps)
    {
      met := None;
      assert MadeFor(client.InUse(), client.config.geometry);
      assert client.units + [] == client.units;
      hide Client.Valid, TagOf;
      match m {
        case VideoFrame(f) =>
          met := Some(Meeting(f, client.InUse(), client.fed > 0));
          client.OnVideoFrame(a.mainReady, a.auxReady, a.gpu, a.offer);
        case StreamConfig(c) =>
          client.OnConfig(c, a.makesGpu);
        case _ =>
      }
    }

    /** One step at the server's end. */
    method Serve(a: Action) returns (flow: Flow)
      requires Valid()
      modifies server, server.queue
      ensures flow == Continue ==> Valid()
      ensures client.Valid() && Together() && (old(PaintsRight()) ==> PaintsRight())
      ensures server.queue.delivered == old(server.queue.delivered)
    {
      flow := Continue;
      hide Client.Valid, Session.Answered, Session.Fits, Read;
      match a {
        case Ladder(level, accepts) =>
          if level < |LEVELS| {
            server.LadderStep(level, accepts);
          }
        case Window(width, height, scale, modeSet, applied, accepts) =>
          server.Resize(width, height, scale, modeSet, applied, accepts);
        case Capture(width, height, scale, accepts) => server.OnCapture(width, height, scale, accepts);
        case Keyframe => server.RequestKeyframe();
        case Pump(room, due, refineDue, encode) => flow := server.PumpEncoder(room, due, refineDue, encode);
        case Other(m) =>
          if !m.VideoFrame? && !m.StreamConfig? {
            server.SendOther(m);
          }
        case _ =>
      }
    }

    /** One step at the client's end that reads nothing. */
    method Idle(a: Action)
      requires Valid()
      modifies client, client.cpu
      ensures Valid() && client.cpu == old(client.cpu)
    {
      hide Session.Answered, Session.Fits, Read;
      match a {
        case Idle(flushFails, offer) =>
          if client.undelivered.Some? || (!client.onGpu && client.cpu.held > 0) {
            client.Drain(flushFails, offer);
          }
        case Zoom(zoom, redraws, offer) =>
          var keyframe := client.OnZoom(zoom, redraws, offer);
        case _ =>
      }
    }

    /** Any run: whatever the ladder, the window, the captured output, the
        encoders and the network do, every frame is in a chroma the client
        decodes and meets a decoder made for it, a new one a keyframe first. What
        the UI gets is in decode order, each picture painted as its own frame was
        encoded. */
    method Run(actions: seq<Action>) returns (met: seq<Meeting>)
      requires Valid()
      modifies server, server.queue, client, client.cpu
      ensures AllDecodable(met, server.caps) && client.Valid() && Together() && PaintsRight()
      ensures |met| == Count(server.queue.delivered, Video) - old(Count(server.queue.delivered, Video))
    {
      met := [];
      ValidPaintsRight();
      for i := 0 to |actions|
        invariant Valid() && PaintsRight() && (client.cpu == old(client.cpu) || fresh(client.cpu))
        invariant AllDecodable(met, server.caps)
        invariant |met| == Count(server.queue.delivered, Video) - old(Count(server.queue.delivered, Video))
      {
        hide Link.Valid, Decodable, AllDecodable, Count, Client.Valid, Link.Together, Link.PaintsRight;
        match actions[i] {
          case Deliver(answer) =>
            var m := Deliver(answer);
            if m.Some? {
              met := met + [m.value];
            }
          case Idle(_, _) => Idle(actions[i]);
          case Zoom(_, _, _) => Idle(actions[i]);
          case _ =>
            var flow := Serve(actions[i]);
            if flow == Ended {
              return;
            }
        }
        ValidPaintsRight();
      }
      assert client.Valid() && Together();
    }
  }

  /** A session from its first configuration on; a client that decodes no chroma
      of the server's has been turned away before. */
  method WholeSession(output: Size, outputScale: real, headless: bool, gpu: bool, encoderMax: Size, cpuMax: Size,
                      caps: set<Chroma>, lowBandwidth: bool, fullChroma: bool, maxWindow: Size, clientOnGpu: bool,
                      actions: seq<Action>)
    returns (link: Link, met: seq<Meeting>)
    requires caps != {}
    ensures AllDecodable(met, caps) && |met| == Count(link.server.queue.delivered, Video)
    ensures link.client.Valid() && link.Together() && link.PaintsRight()
  {
    var server := new Session(output, outputScale, headless, gpu, encoderMax, cpuMax, caps, lowBandwidth, fullChroma, maxWindow);
    var config := server.CurrentConfig();
    link := new Link(server, config, clientOnGpu);
    met := link.Run(actions);
  }
}
