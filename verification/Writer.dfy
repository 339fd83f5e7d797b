/** The queue object shared by the session, which pushes, and the writer task,
    which takes from the front. */
module Writer {
  import opened Common
  import opened SendQueue

  lemma {:induction false} KeptAppend(q: seq<Message>, x: Message, m: Message)
    ensures Kept(q + [x], m) == Kept(q, m) + if Supersedes(m, x) then [] else [x]
  {
    hide Supersedes;
    if q == [] {
      assert q + [x] == [x] && [x][1..] == [];
    } else {
      KeptAppend(q[1..], x, m);
      assert (q + [x])[1..] == q[1..] + [x];
    }
  }

  /** The first `n` messages, without what `m` supersedes from `from` on. */
  ghost function KeptUpTo(q: seq<Message>, from: nat, n: nat, m: Message): seq<Message>
    requires n <= |q|
  {
    if n <= from then q[..n] else q[..from] + Kept(q[from..n], m)
  }

  lemma {:induction false} KeptOneMore(q: seq<Message>, from: nat, n: nat, m: Message)
    requires n < |q|
    ensures KeptUpTo(q, from, n + 1, m) == KeptUpTo(q, from, n, m) + if n < from || !Supersedes(m, q[n]) then [q[n]] else []
  {
    hide Supersedes;
    if n >= from {
      KeptAppend(q[from..n], q[n], m);
      assert q[from..n + 1] == q[from..n] + [q[n]];
      assert n == from ==> Kept(q[from..n], m) == [];
    }
  }

  lemma {:induction false} KeptNone(q: seq<Message>, from: nat, m: Message)
    ensures KeptUpTo(q, from, 0, m) == []
  {
  }

  lemma {:induction false} KeptAll(q: seq<Message>, from: nat, m: Message)
    requires from <= |q|
    ensures KeptUpTo(q, from, |q|, m) == q[..from] + Kept(q[from..], m)
  {
    assert q[from..|q|] == q[from..];
    assert from == |q| ==> q[..from] + [] == q[..from];
  }

  /** The frames and clipboard messages of a stream. */
  function Reliable(l: seq<Message>): (r: seq<Message>)
    ensures |r| <= |l|
  {
    if l == [] then []
    else Reliable(l[..|l| - 1]) + if l[|l| - 1].VideoFrame? || l[|l| - 1].Clipboard? then [l[|l| - 1]] else []
  }

  /** The last configuration of a stream that begins under `first`. */
  function LastConfig(first: Config, l: seq<Message>): Config {
    if l == [] then first
    else if l[|l| - 1].StreamConfig? then l[|l| - 1].config
    else LastConfig(first, l[..|l| - 1])
  }

  /** An event stands for this message, a frame under this configuration. */
  ghost predicate StandsFor(e: Event, m: Message, c: Config) {
    if m.VideoFrame? then e.Shown? && e.frame == m.frame && e.config == c
    else m.Clipboard? && e == Received(m.part)
  }

  /** What a client reads: every frame and clipboard message once, in order,
      each frame under the last configuration before it. */
  lemma {:induction false} TheLogOfAStream(first: Config, l: seq<Message>)
    ensures Read(Start(first), l).config == LastConfig(first, l)
    ensures |Read(Start(first), l).log| == |Reliable(l)|
    ensures forall i | 0 <= i < |l| && (l[i].VideoFrame? || l[i].Clipboard?) ::
              |Reliable(l[..i])| < |Read(Start(first), l).log|
              && StandsFor(Read(Start(first), l).log[|Reliable(l[..i])|], l[i], LastConfig(first, l[..i]))
  {
    TheStateOfAStream(first, l);
    forall i | 0 <= i < |l| && (l[i].VideoFrame? || l[i].Clipboard?)
      ensures |Reliable(l[..i])| < |Read(Start(first), l).log|
      ensures StandsFor(Read(Start(first), l).log[|Reliable(l[..i])|], l[i], LastConfig(first, l[..i]))
    {
      hide Read, Reliable, LastConfig, StandsFor;
      OneMessageOfAStream(first, l, i);
    }
  }

  lemma {:induction false} TheStateOfAStream(first: Config, l: seq<Message>)
    ensures Read(Start(first), l).config == LastConfig(first, l)
    ensures |Read(Start(first), l).log| == |Reliable(l)|
  {
    if l != [] {
      TheStateOfAStream(first, l[..|l| - 1]);
      TheLastMessage(Start(first), l);
    }
  }

  lemma {:induction false} OneMessageOfAStream(first: Config, l: seq<Message>, i: nat)
    requires i < |l| && (l[i].VideoFrame? || l[i].Clipboard?)
    ensures |Reliable(l[..i])| < |Read(Start(first), l).log|
    ensures StandsFor(Read(Start(first), l).log[|Reliable(l[..i])|], l[i], LastConfig(first, l[..i]))
    decreases |l|
  {
    var n := |l| - 1;
    TheLastMessage(Start(first), l);
    TheStateOfAStream(first, l[..n]);
    hide Read, LastConfig, Reliable;
    if i < n {
      assert l[..n][..i] == l[..i] && l[..n][i] == l[i];
      OneMessageOfAStream(first, l[..n], i);
    }
  }

  lemma {:induction false} TheLastMessage(v: View, l: seq<Message>)
    requires l != []
    ensures Read(v, l) == Apply(Read(v, l[..|l| - 1]), l[|l| - 1])
  {
    var n := |l| - 1;
    assert l == l[..n] + [l[n]];
    ReadInParts(v, l[..n], [l[n]]);
    ReadOne(Read(v, l[..n]), l[n]);
  }

  lemma {:induction false} TheLogGrows(v: View, a: seq<Message>, b: seq<Message>)
    ensures Read(v, a).log <= Read(v, a + b).log
    decreases b
  {
    if b == [] {
      assert a + b == a;
    } else {
      TheLogGrows(v, a + [b[0]], b[1..]);
      assert a + [b[0]] + b[1..] == a + b;
      ReadInParts(v, a, [b[0]]);
      ReadOne(Read(v, a), b[0]);
    }
  }

  /** A queued position is the one the client ends up with. */
  lemma {:induction false} TheQueuedPositionStands(v: View, q: seq<Message>, i: nat)
    requires i < |q| && q[i].CursorPos? && ShapeFirst(q) && Count(q, Position) <= 1
    ensures Read(v, q).pos == Some(q[i])
    decreases q
  {
    if i == 0 {
      PositionStays(Apply(v, q[0]), q[1..]);
    } else {
      PositionIsCounted(q[1..], i - 1);
      TheQueuedPositionStands(Apply(v, q[0]), q[1..], i - 1);
    }
  }

  lemma {:induction false} PositionIsCounted(q: seq<Message>, i: nat)
    requires i < |q| && q[i].CursorPos?
    ensures Count(q, Position) > 0
  {
    if i > 0 {
      PositionIsCounted(q[1..], i - 1);
    }
  }

  lemma {:induction false} PositionStays(v: View, q: seq<Message>)
    requires Count(q, Shape) == 0 && Count(q, Position) == 0
    ensures Read(v, q).pos == v.pos
    decreases q
  {
    if q != [] {
      PositionStays(Apply(v, q[0]), q[1..]);
    }
  }

  class Queue {
    var packets: seq<Message>
    /** The configuration written before the queue was set up. */
    ghost const first: Config
    ghost var pushed: seq<Message>
    ghost var delivered: seq<Message>

    constructor (ghost first: Config)
      ensures Valid() && packets == [] && pushed == [] && delivered == [] && this.first == first
    {
      packets := [];
      this.first, pushed, delivered := first, [], [];
    }

    /** What was delivered and what is queued mean to a client what was
        pushed means. */
    ghost predicate Valid()
      reads this
    {
      && Tidy(packets)
      && SameView(Read(Start(first), delivered + packets), Read(Start(first), pushed))
    }

    method VideoReady() returns (ready: bool)
      ensures ready <==> NoVideo(packets)
    {
      for i := 0 to |packets|
        invariant forall j | 0 <= j < i :: !packets[j].VideoFrame?
      {
        if packets[i].VideoFrame? {
          return false;
        }
      }
      return true;
    }

    /** Just behind the last queued frame, searching from the back. */
    method BehindLastVideo() returns (n: nat)
      ensures n == AfterVideo(packets)
    {
      n := |packets|;
      assert packets[..n] == packets;
      while n > 0 && !packets[n - 1].VideoFrame?
        invariant n <= |packets| && AfterVideo(packets) == AfterVideo(packets[..n])
      {
        assert packets[..n][..n - 1] == packets[..n - 1];
        n := n - 1;
      }
    }

    /** Drop from position `from` on what `m` supersedes. */
    method Retain(from: nat, m: Message)
      requires from <= |packets|
      modifies `packets
      ensures packets == old(packets)[..from] + Kept(old(packets)[from..], m)
    {
      var kept: seq<Message> := [];
      hide KeptUpTo, Supersedes;
      assert KeptUpTo(packets, from, 0, m) == [] by {
        KeptNone(packets, from, m);
      }
      for index := 0 to |packets|
        invariant packets == old(packets)
        invariant kept == KeptUpTo(packets, from, index, m)
      {
        KeptOneMore(packets, from, index, m);
        if index < from || !Supersedes(m, packets[index]) {
          kept := kept + [packets[index]];
        }
      }
      KeptAll(packets, from, m);
      packets := kept;
    }

    method Push(m: Message)
      requires Valid() && (m.VideoFrame? ==> NoVideo(packets))
      modifies this
      ensures Valid() && packets == Pushed(old(packets), m)
      ensures pushed == old(pushed) + [m] && delivered == old(delivered)
    {
      ghost var q := packets;
      PushKeepsTidy(q, m);
      match m {
        case VideoFrame(_) => NothingSuperseded(q, m);
        case StreamConfig(_) =>
          var from := BehindLastVideo();
          Retain(from, m);
        case CursorShape(_) => Retain(0, m);
        case CursorPos(_, _, _) => Retain(0, m);
        case Pong(_) => Retain(0, m);
        case Clipboard(_) => NothingSuperseded(q, m);
      }
      packets := packets + [m];
      hide Tidy, AfterVideo, Kept, SameView, Apply;
      PushKeepsMeaning(first, delivered, q, pushed, m);
      pushed := pushed + [m];
    }

    /** The writer task takes the front message and writes it. */
    method Pop() returns (m: Option<Message>)
      requires Valid()
      modifies this
      ensures Valid() && pushed == old(pushed)
      ensures m == None ==> old(packets) == [] && packets == [] && delivered == old(delivered)
      ensures m.Some? ==> old(packets) != [] && m.value == old(packets)[0]
                          && packets == old(packets)[1..] && delivered == old(delivered) + [m.value]
    {
      if packets == [] {
        return None;
      }
      m := Some(packets[0]);
      PopKeepsTidy(packets);
      assert delivered + packets == delivered + [packets[0]] + packets[1..];
      hide Tidy, SameView;
      delivered := delivered + [packets[0]];
      packets := packets[1..];
    }
  }

  lemma {:induction false} NothingSuperseded(q: seq<Message>, m: Message)
    requires m.VideoFrame? || m.Clipboard?
    ensures Kept(q, m) == q && Pushed(q, m) == q + [m]
  {
    if q != [] {
      NothingSuperseded(q[1..], m);
    }
    assert q[..0] + q[0..] == q;
  }

  lemma {:induction false} PushKeepsMeaning(first: Config, delivered: seq<Message>, q: seq<Message>, pushed: seq<Message>, m: Message)
    requires SameView(Read(Start(first), delivered + q), Read(Start(first), pushed))
    ensures SameView(Read(Start(first), delivered + Pushed(q, m)), Read(Start(first), pushed + [m]))
  {
    var v := Start(first);
    var d := Read(v, delivered);
    hide Apply, Pushed;
    ReadInParts(v, delivered, Pushed(q, m));
    ReadInParts(v, delivered, q + [m]);
    ReadInParts(v, delivered + q, [m]);
    ReadInParts(v, pushed, [m]);
    assert delivered + (q + [m]) == delivered + q + [m];
    PushKeepsTheView(d, q, m);
    hide SameView;
    ReadKeepsSame(Read(v, delivered + q), Read(v, pushed), [m]);
    SameViewIsTransitive(Read(d, Pushed(q, m)), Read(d, q + [m]), Read(v, pushed + [m]));
  }

  lemma {:induction false} PopKeepsTidy(q: seq<Message>)
    requires Tidy(q) && q != []
    ensures Tidy(q[1..])
  {
    AheadWithoutVideo(q[1..]);
  }

  /** Over every run of pushes and pops: what was delivered is the beginning
      of what was pushed, each frame under the configuration it was pushed
      under; the queue is short and a queued position is the current one; and
      nothing is missing once the queue is empty. */
  lemma {:induction false} DeliveredAsPushed(queue: Queue)
    requires queue.Valid()
    ensures var d, p := Read(Start(queue.first), queue.delivered), Read(Start(queue.first), queue.pushed);
            && |d.log| <= |p.log| && SameLog(d.log, p.log[..|d.log|])
            && (queue.packets == [] ==> SameView(d, p))
            && |queue.packets| <= 6 + Count(queue.packets, Clip)
            && forall i | 0 <= i < |queue.packets| && queue.packets[i].CursorPos? :: p.pos == Some(queue.packets[i])
  {
    var v := Start(queue.first);
    TheLogGrows(v, queue.delivered, queue.packets);
    TidyIsShort(queue.packets);
    assert queue.packets == [] ==> queue.delivered + queue.packets == queue.delivered;
    ReadInParts(v, queue.delivered, queue.packets);
    forall i | 0 <= i < |queue.packets| && queue.packets[i].CursorPos?
      ensures Read(v, queue.pushed).pos == Some(queue.packets[i])
    {
      TheQueuedPositionStands(Read(v, queue.delivered), queue.packets, i);
    }
  }
}
