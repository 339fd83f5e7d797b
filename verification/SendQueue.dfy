/** The server's queue of messages waiting for the socket. A newer message
    drops the queued ones it supersedes; what the client makes of the stream
    must not change. */
module SendQueue {
  import opened Common

  datatype Chroma = Dual420 | Single420

  /** What a decoder is made for. */
  datatype Geometry = Geometry(width: nat, height: nat, chroma: Chroma)

  datatype Config = Config(geometry: Geometry, viewWidth: nat, viewHeight: nat, scaleMilli: nat, fpsCap: nat, gpu: bool)

  /** A coded frame, with the geometry its encoder was made for. */
  datatype Frame = Frame(id: nat, keyframe: bool, encoded: Geometry)

  datatype Message =
    | VideoFrame(frame: Frame)
    | StreamConfig(config: Config)
    | CursorShape(shape: nat)
    | CursorPos(x: int, y: int, visible: bool)
    | Pong(t: nat)
    | Clipboard(part: nat)

  // ---- What a client makes of a stream ----

  /** A frame, with the configuration it arrives under and whether the decoder
      was replaced since the frame before; or a clipboard message. */
  datatype Event =
    | Shown(frame: Frame, config: Config, reset: bool)
    | Received(part: nat)

  datatype View = View(
    config: Config,
    reset: bool,
    shape: Option<nat>,
    pos: Option<Message>,
    pong: Option<nat>,
    log: seq<Event>)

  /** A client that has just made its decoder for the first configuration. */
  function Start(config: Config): View {
    View(config, true, None, None, None, [])
  }

  /** What each message means on the wire. A shape takes the position before
      it along: the position of the old shape says nothing of the new one.
      (A client is free to make less of it; the present one draws its own
      pointer and ignores positions.) */
  function Apply(v: View, m: Message): View {
    match m
    case VideoFrame(f) => v.(log := v.log + [Shown(f, v.config, v.reset)], reset := false)
    case StreamConfig(c) => v.(config := c, reset := v.reset || c.geometry != v.config.geometry)
    case CursorShape(s) => v.(shape := Some(s), pos := None)
    case CursorPos(_, _, _) => v.(pos := Some(m))
    case Pong(t) => v.(pong := Some(t))
    case Clipboard(p) => v.(log := v.log + [Received(p)])
  }

  function Read(v: View, l: seq<Message>): View
    decreases l
  {
    if l == [] then v else Read(Apply(v, l[0]), l[1..])
  }

  lemma {:induction false} ReadInParts(v: View, a: seq<Message>, b: seq<Message>)
    ensures Read(v, a + b) == Read(Read(v, a), b)
    decreases a
  {
    if a == [] {
      assert a + b == b;
    } else {
      ReadInParts(Apply(v, a[0]), a[1..], b);
      assert (a + b)[1..] == a[1..] + b;
    }
  }

  ghost predicate SameEvent(a: Event, b: Event) {
    match a
    case Shown(f, c, reset) => b.Shown? && f == b.frame && c == b.config && (reset ==> b.reset)
    case Received(p) => b == Received(p)
  }

  ghost predicate SameLog(a: seq<Event>, b: seq<Event>) {
    |a| == |b| && forall i | 0 <= i < |a| :: SameEvent(a[i], b[i])
  }

  /** The same to the user, with no more decoder replacements: every frame
      under the same configuration, every clipboard message once and in
      order, the same cursor and the same pong. */
  ghost predicate SameView(a: View, b: View) {
    && a.config == b.config && (a.reset ==> b.reset)
    && a.shape == b.shape && a.pos == b.pos && a.pong == b.pong
    && SameLog(a.log, b.log)
  }

  lemma {:induction false} SameViewIsTransitive(a: View, b: View, c: View)
    requires SameView(a, b) && SameView(b, c)
    ensures SameView(a, c)
  {
  }

  lemma {:induction false} ApplyKeepsSame(a: View, b: View, m: Message)
    requires SameView(a, b)
    ensures SameView(Apply(a, m), Apply(b, m))
  {
  }

  lemma {:induction false} ReadKeepsSame(a: View, b: View, l: seq<Message>)
    requires SameView(a, b)
    ensures SameView(Read(a, l), Read(b, l))
    decreases l
  {
    if l != [] {
      ApplyKeepsSame(a, b, l[0]);
      hide SameView, Apply;
      ReadKeepsSame(Apply(a, l[0]), Apply(b, l[0]), l[1..]);
    }
  }

  // ---- Coalescing ----

  /** Pushing `m` drops the queued `x`. */
  predicate Supersedes(m: Message, x: Message) {
    match m
    case StreamConfig(_) => x.StreamConfig?
    case CursorShape(_) => x.CursorShape? || x.CursorPos?
    case CursorPos(_, _, _) => x.CursorPos?
    case Pong(_) => x.Pong?
    case _ => false
  }

  function Kept(q: seq<Message>, m: Message): (r: seq<Message>)
    ensures |r| <= |q|
  {
    if q == [] then []
    else if Supersedes(m, q[0]) then Kept(q[1..], m)
    else [q[0]] + Kept(q[1..], m)
  }

  ghost predicate NoVideo(q: seq<Message>) {
    forall i | 0 <= i < |q| :: !q[i].VideoFrame?
  }

  /** Just behind the last queued frame. */
  function AfterVideo(q: seq<Message>): (n: nat)
    ensures n <= |q|
  {
    if q == [] then 0 else if q[|q| - 1].VideoFrame? then |q| else AfterVideo(q[..|q| - 1])
  }

  lemma {:induction false} AfterVideoIsBehindTheLast(q: seq<Message>)
    ensures NoVideo(q[AfterVideo(q)..])
    ensures AfterVideo(q) > 0 ==> q[AfterVideo(q) - 1].VideoFrame?
  {
    if q != [] && !q[|q| - 1].VideoFrame? {
      AfterVideoIsBehindTheLast(q[..|q| - 1]);
      assert q[AfterVideo(q)..] == q[..|q| - 1][AfterVideo(q)..] + [q[|q| - 1]];
    }
  }

  /** The queue after a push: a configuration supersedes only those behind the
      last frame, the others supersede anywhere. */
  function Pushed(q: seq<Message>, m: Message): seq<Message> {
    var from := if m.StreamConfig? then AfterVideo(q) else 0;
    q[..from] + Kept(q[from..], m) + [m]
  }

  /** Equal up to what the next message of this kind overwrites. */
  ghost predicate SameButFor(a: View, b: View, m: Message) {
    match m
    case StreamConfig(_) =>
      a.shape == b.shape && a.pos == b.pos && a.pong == b.pong && a.log == b.log
      && (b.reset || a.config.geometry == b.config.geometry)
      && (a.reset ==> b.reset)
    case CursorShape(_) => a == b.(shape := a.shape, pos := a.pos)
    case CursorPos(_, _, _) => a == b.(pos := a.pos)
    case Pong(_) => a == b.(pong := a.pong)
    case _ => a == b
  }

  lemma {:induction false} ReadKeptIsSameButFor(a: View, b: View, q: seq<Message>, m: Message)
    requires SameButFor(a, b, m)
    requires m.StreamConfig? ==> NoVideo(q)
    ensures SameButFor(Read(a, Kept(q, m)), Read(b, q), m)
    decreases q
  {
    if q != [] {
      var a' := if Supersedes(m, q[0]) then a else Apply(a, q[0]);
      assert m.StreamConfig? ==> !q[0].VideoFrame?;
      assert SameButFor(a', Apply(b, q[0]), m);
      assert m.StreamConfig? ==> NoVideo(q[1..]);
      hide SameButFor, Apply, NoVideo;
      ReadKeptIsSameButFor(a', Apply(b, q[0]), q[1..], m);
      var rest := Kept(q[1..], m);
      assert ([q[0]] + rest)[1..] == rest;
    }
  }

  lemma {:induction false} TheNewMessageDecides(a: View, b: View, m: Message)
    requires SameButFor(a, b, m)
    ensures SameView(Apply(a, m), Apply(b, m))
  {
  }

  /** Dropping what a push supersedes changes nothing for the client. */
  lemma {:induction false} PushKeepsTheView(v: View, q: seq<Message>, m: Message)
    ensures SameView(Read(v, Pushed(q, m)), Read(v, q + [m]))
  {
    var from := if m.StreamConfig? then AfterVideo(q) else 0;
    AfterVideoIsBehindTheLast(q);
    var v1 := Read(v, q[..from]);
    var rest := q[from..];
    ReadInParts(v, q[..from] + Kept(rest, m), [m]);
    ReadInParts(v, q[..from], Kept(rest, m));
    ReadInParts(v, q, [m]);
    ReadInParts(v, q[..from], rest);
    assert q == q[..from] + rest;
    ReadKeptIsSameButFor(v1, v1, rest, m);
    TheNewMessageDecides(Read(v1, Kept(rest, m)), Read(v1, rest), m);
    hide SameView, SameButFor, Kept, AfterVideo, NoVideo;
    ReadOne(Read(v1, Kept(rest, m)), m);
    ReadOne(Read(v1, rest), m);
  }

  lemma {:induction false} ReadOne(v: View, m: Message)
    ensures Read(v, [m]) == Apply(v, m)
  {
  }

  // ---- Bounds ----

  datatype Kind = Video | Configuration | Shape | Position | Pongs | Clip

  function KindOf(m: Message): Kind {
    match m
    case VideoFrame(_) => Video
    case StreamConfig(_) => Configuration
    case CursorShape(_) => Shape
    case CursorPos(_, _, _) => Position
    case Pong(_) => Pongs
    case Clipboard(_) => Clip
  }

  function Count(q: seq<Message>, k: Kind): nat {
    if q == [] then 0 else (if KindOf(q[0]) == k then 1 else 0) + Count(q[1..], k)
  }

  /** Configurations ahead of the first queued frame. */
  function ConfigsAhead(q: seq<Message>): nat {
    if q == [] || q[0].VideoFrame? then 0
    else (if q[0].StreamConfig? then 1 else 0) + ConfigsAhead(q[1..])
  }

  /** No position is queued ahead of a shape. */
  ghost predicate ShapeFirst(q: seq<Message>) {
    q == [] || ((q[0].CursorPos? ==> Count(q[1..], Shape) == 0) && ShapeFirst(q[1..]))
  }

  /** What coalescing keeps: one frame, one configuration on either side of it,
      one shape, one position that belongs to it, one pong. */
  ghost predicate Tidy(q: seq<Message>) {
    && Count(q, Video) <= 1
    && ConfigsAhead(q) <= 1
    && Count(q, Configuration) <= ConfigsAhead(q) + Count(q, Video)
    && Count(q, Shape) <= 1 && Count(q, Position) <= 1 && Count(q, Pongs) <= 1
    && ShapeFirst(q)
  }

  lemma {:induction false} CountAppend(a: seq<Message>, b: seq<Message>, k: Kind)
    ensures Count(a + b, k) == Count(a, k) + Count(b, k)
  {
    if a == [] {
      assert a + b == b;
    } else {
      CountAppend(a[1..], b, k);
      assert (a + b)[1..] == a[1..] + b;
    }
  }

  lemma {:induction false} CountKept(q: seq<Message>, m: Message, k: Kind)
    ensures Count(Kept(q, m), k) <= Count(q, k)
    ensures k == KindOf(m) && k != Video && k != Clip ==> Count(Kept(q, m), k) == 0
    ensures m.CursorShape? && k == Position ==> Count(Kept(q, m), k) == 0
    ensures k == Video || k == Clip ==> Count(Kept(q, m), k) == Count(q, k)
  {
    if q != [] {
      CountKept(q[1..], m, k);
      var rest := Kept(q[1..], m);
      assert ([q[0]] + rest)[1..] == rest;
    }
  }

  lemma {:induction false} NoVideoIsCountZero(q: seq<Message>)
    ensures NoVideo(q) <==> Count(q, Video) == 0
  {
    if q != [] {
      NoVideoIsCountZero(q[1..]);
      assert forall i | 0 <= i < |q| - 1 :: q[i + 1] == q[1..][i];
      assert NoVideo(q) ==> forall i | 0 <= i < |q| - 1 :: !q[1..][i].VideoFrame?;
    }
  }

  lemma {:induction false} AheadAppend(a: seq<Message>, b: seq<Message>)
    ensures ConfigsAhead(a + b) == ConfigsAhead(a) + if Count(a, Video) == 0 then ConfigsAhead(b) else 0
  {
    if a == [] {
      assert a + b == b;
    } else {
      AheadAppend(a[1..], b);
      assert (a + b)[1..] == a[1..] + b;
    }
  }

  lemma {:induction false} AheadWithoutVideo(q: seq<Message>)
    ensures ConfigsAhead(q) <= Count(q, Configuration)
    ensures Count(q, Video) == 0 ==> ConfigsAhead(q) == Count(q, Configuration)
  {
    if q != [] {
      AheadWithoutVideo(q[1..]);
    }
  }

  lemma {:induction false} AheadKept(q: seq<Message>, m: Message)
    requires !m.StreamConfig?
    ensures ConfigsAhead(Kept(q, m)) == ConfigsAhead(q)
    ensures Count(Kept(q, m), Configuration) == Count(q, Configuration)
  {
    if q != [] {
      AheadKept(q[1..], m);
      var rest := Kept(q[1..], m);
      assert ([q[0]] + rest)[1..] == rest;
    }
  }

  lemma {:induction false} ShapeFirstKept(q: seq<Message>, m: Message)
    requires ShapeFirst(q)
    ensures ShapeFirst(Kept(q, m))
  {
    if q != [] {
      ShapeFirstKept(q[1..], m);
      CountKept(q[1..], m, Shape);
      var rest := Kept(q[1..], m);
      assert ([q[0]] + rest)[1..] == rest;
    }
  }

  lemma {:induction false} ShapeFirstAppend(a: seq<Message>, b: seq<Message>)
    ensures ShapeFirst(a + b) <==> ShapeFirst(a) && ShapeFirst(b) && (Count(a, Position) == 0 || Count(b, Shape) == 0)
  {
    if a == [] {
      assert a + b == b;
    } else {
      ShapeFirstAppend(a[1..], b);
      CountAppend(a[1..], b, Shape);
      assert (a + b)[1..] == a[1..] + b;
    }
  }

  /** A push keeps the bounds, as long as a frame is pushed only when none is
      queued. */
  lemma {:induction false} PushKeepsTidy(q: seq<Message>, m: Message)
    requires Tidy(q) && (m.VideoFrame? ==> NoVideo(q))
    ensures Tidy(Pushed(q, m))
  {
    var from := if m.StreamConfig? then AfterVideo(q) else 0;
    var head, rest := q[..from], q[from..];
    assert q == head + rest;
    var kept := Kept(rest, m);
    NoVideoIsCountZero(q);
    if m.StreamConfig? {
      PushConfigKeepsConfigs(q, m);
    } else {
      assert rest == q && head == [];
      AheadKept(q, m);
      AheadAppend(kept, [m]);
      AheadWithoutVideo(kept);
      assert head + kept == kept;
      CountPushed(q, m, Configuration);
    }
    CountPushed(q, m, Video);
    CountPushed(q, m, Shape);
    CountPushed(q, m, Position);
    CountPushed(q, m, Pongs);
    PushKeepsShapeFirst(q, m);
  }

  lemma {:induction false} CountPushed(q: seq<Message>, m: Message, k: Kind)
    ensures var from := if m.StreamConfig? then AfterVideo(q) else 0;
            && Count(Pushed(q, m), k) == Count(q[..from], k) + Count(Kept(q[from..], m), k) + (if k == KindOf(m) then 1 else 0)
            && Count(q, k) == Count(q[..from], k) + Count(q[from..], k)
            && Count(Kept(q[from..], m), k) <= Count(q[from..], k)
            && (k == KindOf(m) && k != Video && k != Clip ==> Count(Kept(q[from..], m), k) == 0)
            && (k == Video || k == Clip ==> Count(Kept(q[from..], m), k) == Count(q[from..], k))
  {
    var from := if m.StreamConfig? then AfterVideo(q) else 0;
    var head, rest := q[..from], q[from..];
    assert q == head + rest;
    CountAppend(head, rest, k);
    CountKept(rest, m, k);
    CountAppend(head + Kept(rest, m), [m], k);
    CountAppend(head, Kept(rest, m), k);
    assert [m][1..] == [];
  }

  lemma {:induction false} PushKeepsShapeFirst(q: seq<Message>, m: Message)
    requires ShapeFirst(q)
    ensures ShapeFirst(Pushed(q, m))
  {
    var from := if m.StreamConfig? then AfterVideo(q) else 0;
    var head, rest := q[..from], q[from..];
    assert q == head + rest;
    var kept := Kept(rest, m);
    ShapeFirstAppend(head, rest);
    ShapeFirstKept(rest, m);
    CountKept(rest, m, Shape);
    CountKept(rest, m, Position);
    ShapeFirstAppend(head, kept);
    ShapeFirstAppend(head + kept, [m]);
    CountAppend(head, kept, Position);
    assert [m][1..] == [];
    assert ShapeFirst([]) && ShapeFirst([m]);
    assert Count([], Shape) == 0 && Count([], Position) == 0;
    hide ShapeFirst;
    if m.CursorShape? {
      assert Count(head + kept, Position) == 0;
    } else {
      assert Count([m], Shape) == 0;
    }
  }

  lemma {:induction false} ConfigsBeforeTheLastVideo(q: seq<Message>)
    requires q != [] && q[|q| - 1].VideoFrame? && Count(q, Video) <= 1
    ensures Count(q, Video) == 1 && ConfigsAhead(q) == Count(q, Configuration)
  {
    var head, last := q[..|q| - 1], [q[|q| - 1]];
    assert q == head + last && last[1..] == [];
    CountAppend(head, last, Video);
    CountAppend(head, last, Configuration);
    AheadAppend(head, last);
    AheadWithoutVideo(head);
  }

  lemma {:induction false} PushConfigKeepsConfigs(q: seq<Message>, m: Message)
    requires m.StreamConfig? && Count(q, Video) <= 1 && ConfigsAhead(q) <= 1
    ensures ConfigsAhead(Pushed(q, m)) <= 1
    ensures Count(Pushed(q, m), Configuration) <= ConfigsAhead(Pushed(q, m)) + Count(Pushed(q, m), Video)
  {
    var from := AfterVideo(q);
    var head, rest := q[..from], q[from..];
    assert q == head + rest;
    var kept := Kept(rest, m);
    AfterVideoIsBehindTheLast(q);
    NoVideoIsCountZero(rest);
    CountPushed(q, m, Configuration);
    CountPushed(q, m, Video);
    AheadAppend(head, rest);
    AheadAppend(head + kept, [m]);
    AheadAppend(head, kept);
    AheadWithoutVideo(kept);
    CountAppend(head, kept, Video);
    if from > 0 {
      ConfigsBeforeTheLastVideo(head);
    }
  }

  /** Whatever is pushed, only clipboard messages make the queue longer than
      six. */
  lemma {:induction false} TidyIsShort(q: seq<Message>)
    requires Tidy(q)
    ensures |q| <= 6 + Count(q, Clip)
  {
    LengthIsTheCounts(q);
    AheadWithoutVideo(q);
  }

  lemma {:induction false} LengthIsTheCounts(q: seq<Message>)
    ensures |q| == Count(q, Video) + Count(q, Configuration) + Count(q, Shape) + Count(q, Position)
                 + Count(q, Pongs) + Count(q, Clip)
  {
    if q != [] {
      LengthIsTheCounts(q[1..]);
    }
  }
}
