/** The client's session loop. It feeds the decoder of the current geometry,
    remembers with what tag each unit went in, and keeps a finished picture that
    the UI has no room for until it has. Pictures come out in decode order, so
    the oldest tag is always that of the next picture. */
module ClientLoop {
  import opened Common
  import opened SendQueue

  /** What a picture is painted with. */
  datatype Tag = Tag(width: nat, height: nat, viewWidth: nat, viewHeight: nat, scaleMilli: nat)

  function TagOf(c: Config): Tag {
    Tag(c.geometry.width, c.geometry.height, c.viewWidth, c.viewHeight, c.scaleMilli)
  }

  /** The picture of a unit; units are numbered as they are read. */
  datatype Picture = Picture(unit: nat, tag: Tag)

  /** What became of a picture offered to the UI's bounded channel. */
  datatype Offer = Taken | Full | Gone

  datatype Decoded = Ready(unit: nat) | NotYet | Failed

  /** One codec, by the units whose pictures it has not returned: it returns
      pictures in order, at most one for each unit fed, and keeps at most one
      back. `ready` is its choice where it has one. */
  function CodecFeed(inside: seq<nat>, unit: nat, ready: bool): (r: (seq<nat>, Option<nat>))
    ensures |inside| <= 1 ==> |r.0| <= 1
  {
    var all := inside + [unit];
    if |all| > 1 || ready then (all[1..], Some(all[0])) else (all, None)
  }

  function CodecFlush(inside: seq<nat>): (seq<nat>, Option<nat>) {
    if inside == [] then ([], None) else ([], Some(inside[0]))
  }

  /** The CPU decoder: a codec per stream and a count of what they hold. */
  class Decoder {
    var main: seq<nat>
    var aux: Option<seq<nat>>
    var held: nat

    constructor (dual: bool)
      ensures Valid() && main == [] && (aux.Some? <==> dual)
    {
      main, aux, held := [], if dual then Some([]) else None, 0;
    }

    ghost predicate Valid()
      reads this
    {
      held == |main| && |main| <= 1 && (aux.Some? ==> aux.value == main)
    }

    method HasPending() returns (pending: bool)
      ensures pending <==> held > 0
    {
      return held > 0;
    }

    /** Feed both streams; a picture comes out of both or of neither. */
    method Decode(unit: nat, mainReady: bool, auxReady: bool) returns (r: Decoded)
      modifies this
      ensures old(Valid()) ==>
                && (r.Failed? <==> old(main) == [] && aux.Some? && mainReady != auxReady)
                && (!r.Failed? ==> Valid())
                && (!r.Failed? ==> (r.Ready? <==> old(main) != [] || mainReady))
                && Feeds(old(main), unit, false, r, main)
      ensures aux.Some? == old(aux.Some?)
    {
      held := held + 1;
      var feed := CodecFeed(main, unit, mainReady);
      main := feed.0;
      var picture := feed.1;
      if aux.Some? {
        var other := CodecFeed(aux.value, unit, auxReady);
        aux := Some(other.0);
        if picture.Some? != other.1.Some? {
          return Failed;
        }
      }
      if picture == None {
        return NotYet;
      }
      held := SaturatingSub(held, 1);
      return Ready(picture.value);
    }

    /** Drain what the codecs hold. */
    method Flush() returns (r: Decoded)
      modifies this
      ensures old(Valid()) ==>
                && Valid() && main == []
                && r == if old(main) == [] then NotYet else Ready(old(main)[0])
      ensures aux.Some? == old(aux.Some?)
    {
      var drained := CodecFlush(main);
      main := drained.0;
      var picture := drained.1;
      if aux.Some? {
        var other := CodecFlush(aux.value);
        aux := Some(other.0);
        picture := if picture.Some? && other.1.Some? then picture else None;
      }
      if picture == None {
        held := 0;
        return NotYet;
      }
      held := SaturatingSub(held, 1);
      return Ready(picture.value);
    }
  }

  /** What the decoder in use was made for: one or two streams, and on the GPU
      a coded size. */
  datatype Made = OnGpu(dual: bool, width: nat, height: nat) | OnCpu(dual: bool)

  /** It takes a stream of this geometry: a second codec exactly for the second
      stream, and surfaces of its size. */
  ghost predicate MadeFor(m: Made, g: Geometry) {
    && (m.dual <==> g.chroma == Dual420)
    && (m.OnGpu? ==> m.width == g.width && m.height == g.height)
  }

  ghost predicate InOrder(shown: seq<Picture>) {
    forall i, j | 0 <= i < j < |shown| :: shown[i].unit <= shown[j].unit
  }

  /** Every picture carries the geometry in force when its unit was read. */
  ghost predicate Tagged(shown: seq<Picture>, units: seq<Tag>) {
    forall i | 0 <= i < |shown| :: shown[i].unit < |units| && shown[i].tag == units[shown[i].unit]
  }

  /** What the UI has and what waits for it: tagged, in order, from the units
      whose pictures are `out`, and ending with the newest picture. */
  ghost predicate Shows(shown: seq<Picture>, waiting: Option<Picture>, newest: Option<nat>, units: seq<Tag>, out: int) {
    && out <= |units|
    && Tagged(shown, units) && InOrder(shown)
    && (shown != [] ==> shown[|shown| - 1].unit < out)
    && (newest.Some? ==> newest.value < out)
    && (waiting.Some? ==>
          && waiting.value.unit < |units| && waiting.value.tag == units[waiting.value.unit]
          && newest == Some(waiting.value.unit)
          && (shown != [] ==> shown[|shown| - 1].unit <= waiting.value.unit))
    && (newest.Some? && waiting == None ==> shown != [] && shown[|shown| - 1].unit == newest.value)
  }

  /** The queue of tags is what the decoder holds: nothing, or the last unit. */
  ghost predicate Mirrors(inside: seq<nat>, inDecoder: seq<Tag>, units: seq<Tag>) {
    if inside == [] then inDecoder == []
    else |units| > 0 && inside == [|units| - 1] && inDecoder == [units[|units| - 1]]
  }

  /** The GPU decoder's last picture is the newest, and its tag is kept. */
  ghost predicate Redraws(gpuLast: Option<nat>, geometry: Option<Tag>, newest: Option<nat>, units: seq<Tag>, onGpu: bool) {
    gpuLast.Some? ==>
      onGpu && gpuLast == newest && gpuLast.value < |units| && geometry == Some(units[gpuLast.value])
  }

  /** What feeding unit `n` gave, from what was inside to what is. */
  ghost predicate Feeds(before: seq<nat>, n: nat, onGpu: bool, r: Decoded, after: seq<nat>) {
    match r
    case Ready(u) => if before == [] then u == n && after == [] else u == before[0] && after == [n]
    case NotYet => before == [] && after == (if onGpu then [] else [n])
    case Failed => true
  }

  /** Tagged as its unit was, and no older than what the UI has. */
  ghost predicate Follows(p: Picture, shown: seq<Picture>, newest: Option<nat>, units: seq<Tag>, out: int) {
    && p.unit < out <= |units| && p.tag == units[p.unit]
    && (shown != [] ==> shown[|shown| - 1].unit <= p.unit)
  }

  /** The tag at the front of the queue goes with what came out. */
  ghost predicate ComesOut(
    r: Decoded, inside: seq<nat>, inDecoder: seq<Tag>, units: seq<Tag>, onGpu: bool, shown: seq<Picture>, newest: Option<nat>)
  {
    && (r.Ready? ==>
          && inDecoder != [] && Mirrors(inside, inDecoder[1..], units)
          && Follows(Picture(r.unit, inDecoder[0]), shown, newest, units, |units| - |inside|))
    && (r == NotYet ==>
          if onGpu then inDecoder != [] && Mirrors(inside, inDecoder[1..], units)
          else Mirrors(inside, inDecoder, units))
  }

  /** What the UI got: the picture, with the tag of its unit. */
  ghost function TakenPicture(unit: Option<int>, units: seq<Tag>, offer: Offer): seq<Picture> {
    if unit.Some? && 0 <= unit.value < |units| && offer.Taken? then [Picture(unit.value, units[unit.value])] else []
  }

  lemma {:induction false} ShowKeepsOrder(
    shown: seq<Picture>, waiting: Option<Picture>, newest: Option<nat>, units: seq<Tag>, out: int, p: Picture)
    requires Shows(shown, waiting, newest, units, out) && Follows(p, shown, newest, units, out)
    ensures Shows(shown + [p], None, Some(p.unit), units, out)
    ensures Shows(shown, Some(p), Some(p.unit), units, out)
  {
  }

  class Client {
    var config: Config
    var onGpu: bool
    /** The GPU decoder, as it was made. */
    var gpuDual: bool
    var gpuWidth: nat
    var gpuHeight: nat
    var cpu: Decoder
    var gpuLast: Option<nat>
    var inDecoder: seq<Tag>
    var undelivered: Option<Picture>
    var lastGpuGeometry: Option<Tag>
    var zoom: nat
    var unitsRead: nat
    /** Units fed to this decoder. */
    var fed: nat
    /** The tag in force as each unit was read. */
    ghost var units: seq<Tag>
    /** The pictures the UI took. */
    ghost var shown: seq<Picture>
    /** The last picture out of this decoder. */
    ghost var newest: Option<nat>
    /** The UI is there and no decode has failed. */
    ghost var clean: bool

    constructor (config: Config, onGpu: bool)
      ensures Valid() && this.config == config && units == [] && shown == [] && clean && fed == 0
      ensures fresh(cpu)
    {
      this.config, this.onGpu := config, onGpu;
      var dual := config.geometry.chroma != Single420;
      gpuDual, gpuWidth, gpuHeight := dual, config.geometry.width, config.geometry.height;
      cpu := new Decoder(dual);
      gpuLast, inDecoder, undelivered, lastGpuGeometry := None, [], None, None;
      zoom, unitsRead, fed := 1, 0, 0;
      units, shown, newest, clean := [], [], None, true;
    }

    /** The units inside the decoder: on the CPU at most the last one read. */
    ghost function Inside(): seq<nat>
      reads `onGpu, `cpu, cpu
    {
      if onGpu then [] else cpu.main
    }

    function InUse(): Made
      reads `onGpu, `gpuDual, `gpuWidth, `gpuHeight, `cpu, cpu
    {
      if onGpu then OnGpu(gpuDual, gpuWidth, gpuHeight) else OnCpu(cpu.aux.Some?)
    }

    ghost predicate Valid()
      reads this, cpu
    {
      && MadeFor(InUse(), config.geometry) && unitsRead == |units|
      && (clean ==> Settled())
    }

    ghost predicate Settled()
      reads this, cpu
    {
      && cpu.Valid()
      && Mirrors(Inside(), inDecoder, units)
      && Redraws(gpuLast, lastGpuGeometry, newest, units, onGpu)
      && Shows(shown, undelivered, newest, units, |units| - |Inside()|)
    }

    /** Offer a new picture to the UI; one that does not fit waits, in place of
        any older one. */
    method Show(p: Picture, offer: Offer)
      requires clean ==> Shows(shown, undelivered, newest, units, |units| - |Inside()|)
      requires clean ==> Follows(p, shown, newest, units, |units| - |Inside()|)
      modifies `undelivered, `shown, `newest, `clean
      ensures clean ==> Shows(shown, undelivered, newest, units, |units| - |Inside()|)
      ensures clean <==> old(clean) && !offer.Gone?
      ensures newest == Some(p.unit)
      ensures shown == old(shown) + if offer.Taken? then [p] else []
      ensures undelivered == match offer { case Taken => None case Full => Some(p) case Gone => old(undelivered) }
    {
      if clean {
        ShowKeepsOrder(shown, undelivered, newest, units, |units| - |Inside()|, p);
      }
      assert shown + [] == shown;
      hide Shows, Follows;
      newest := Some(p.unit);
      match offer {
        case Taken =>
          shown := shown + [p];
          undelivered := None;
        case Full => undelivered := Some(p);
        case Gone => clean := false;
      }
    }

    /** A configuration: only a new coded geometry replaces the decoder. */
    method OnConfig(c: Config, makesGpu: bool)
      requires Valid()
      modifies this
      ensures Valid() && config == c && units == old(units) && shown == old(shown) && clean == old(clean)
      ensures c.geometry == old(config.geometry) ==>
                fed == old(fed) && undelivered == old(undelivered) && cpu == old(cpu) && InUse() == old(InUse())
      ensures MadeFor(InUse(), c.geometry)
      ensures c.geometry != old(config.geometry) ==> fed == 0 && undelivered == None && Inside() == [] && fresh(cpu)
    {
      assert MadeFor(InUse(), config.geometry) && unitsRead == |units| && (clean ==> Settled());
      hide Settled, MadeFor, InUse;
      if c.geometry != config.geometry {
        NewDecoder(c.geometry, makesGpu);
      }
      config := c;
    }

    /** Make a decoder for this geometry; what is inside the old one and what
        waits goes with it. */
    method NewDecoder(g: Geometry, makesGpu: bool)
      requires clean ==> Settled()
      modifies `onGpu, `gpuDual, `gpuWidth, `gpuHeight, `cpu, `gpuLast, `undelivered, `inDecoder, `newest, `fed
      ensures MadeFor(InUse(), g) && (clean ==> Settled())
      ensures fed == 0 && undelivered == None && Inside() == [] && fresh(cpu)
    {
      hide Follows, TagOf, Shows, Mirrors, Redraws;
      if clean {
        ANewDecoderShowsNothing(shown, undelivered, newest, units, |units| - |Inside()|, lastGpuGeometry, makesGpu);
      }
      cpu := new Decoder(g.chroma != Single420);
      StartOver(g, makesGpu);
      assert cpu.Valid() && Inside() == [] && MadeFor(InUse(), g);
      hide *;
    }

    method StartOver(g: Geometry, makesGpu: bool)
      modifies `onGpu, `gpuDual, `gpuWidth, `gpuHeight, `gpuLast, `undelivered, `inDecoder, `newest, `fed
      ensures onGpu == makesGpu && MadeFor(OnGpu(gpuDual, gpuWidth, gpuHeight), g)
      ensures gpuLast == None && undelivered == None && inDecoder == [] && newest == None && fed == 0
    {
      onGpu, gpuDual, gpuWidth, gpuHeight := makesGpu, g.chroma != Single420, g.width, g.height;
      gpuLast, undelivered, inDecoder := None, None, [];
      newest, fed := None, 0;
    }

    /** Feed a unit to the decoder. On the GPU `gpu` says whether a picture
        comes out. */
    method Feed(unit: nat, mainReady: bool, auxReady: bool, gpu: Decoded) returns (r: Decoded)
      requires clean ==> cpu.Valid()
      modifies `gpuLast, `clean, cpu
      ensures clean <==> old(clean) && !r.Failed?
      ensures clean ==> cpu.Valid() && Feeds(old(Inside()), unit, onGpu, r, Inside())
      ensures clean ==> (r.Ready? <==> if onGpu then gpu.Ready? else mainReady || old(Inside()) != [])
      ensures gpuLast == if onGpu && r.Ready? then Some(r.unit) else old(gpuLast)
      ensures onGpu && r.Ready? ==> r.unit == unit
      ensures InUse() == old(InUse())
    {
      if onGpu {
        r := match gpu { case Ready(_) => Ready(unit) case other => other };
        gpuLast := if r.Ready? then Some(unit) else gpuLast;
      } else {
        r := cpu.Decode(unit, mainReady, auxReady);
      }
      clean := clean && !r.Failed?;
    }

    /** The tags, the pictures shown and what came out of the decoder fit
        together, before that is presented. */
    ghost predicate Due(r: Decoded)
      reads this, cpu
    {
      && cpu.Valid()
      && Shows(shown, undelivered, newest, units, |units| - |Inside()|)
      && ComesOut(r, Inside(), inDecoder, units, onGpu, shown, newest)
    }

    /** Read a frame and decode it. */
    method TakeUnit(mainReady: bool, auxReady: bool, gpu: Decoded) returns (r: Decoded)
      requires Valid()
      modifies `unitsRead, `fed, `inDecoder, `units, `gpuLast, `clean, cpu
      ensures unitsRead == |units| && units == old(units) + [TagOf(config)] && fed == old(fed) + 1
      ensures clean <==> old(clean) && !r.Failed?
      ensures InUse() == old(InUse())
      ensures clean ==> Due(r)
      ensures clean ==> (r.Ready? <==> if onGpu then gpu.Ready? else mainReady || old(Inside()) != [])
      ensures clean && r.Ready? ==> r.unit == |units| - |Inside()| - 1
      ensures clean && !(onGpu && r.Ready?) ==> Redraws(gpuLast, lastGpuGeometry, newest, units, onGpu)
      ensures gpuLast == if onGpu && r.Ready? then Some(r.unit) else old(gpuLast)
    {
      hide Shows, Mirrors, Feeds, ComesOut, TagOf, Redraws, MadeFor, InUse, Inside, Decoder.Valid;
      var tag, unit := TagOf(config), unitsRead;
      ghost var inside, tags := Inside(), inDecoder;
      unitsRead, fed := unitsRead + 1, fed + 1;
      inDecoder := inDecoder + [tag];
      r := Feed(unit, mainReady, auxReady, gpu);
      if clean {
        RedrawsAfterAnotherUnit(old(gpuLast), lastGpuGeometry, newest, units, tag, onGpu);
        UnitFed(inside, tags, units, tag, onGpu, r, Inside(), shown, undelivered, newest);
      }
      units := units + [tag];
    }

    /** Read a frame, decode it, and show the picture that comes out, with the
        tag its unit was read under. */
    method OnVideoFrame(mainReady: bool, auxReady: bool, gpu: Decoded, offer: Offer)
      requires Valid()
      modifies this, cpu
      ensures Valid() && config == old(config) && cpu == old(cpu) && InUse() == old(InUse())
      ensures units == old(units) + [TagOf(config)] && fed == old(fed) + 1
      ensures clean ==>
                var comes := if onGpu then gpu.Ready? else mainReady || old(Inside()) != [];
                var out := if comes then Some(|units| - |Inside()| - 1) else None;
                && newest == (if comes then out else old(newest))
                && shown == old(shown) + TakenPicture(out, units, offer)
    {
      hide Settled, Due, Redraws, TagOf, Inside, TakenPicture, Shows, Mirrors, Follows, Decoder.Valid;
      var decoded := TakeUnit(mainReady, auxReady, gpu);
      Settle(decoded, offer);
    }

    /** Present what came out of the decoder, and settle the queue of tags. */
    method Settle(decoded: Decoded, offer: Offer)
      requires clean ==> Due(decoded) && !decoded.Failed?
      requires clean && !(onGpu && decoded.Ready?) ==> Redraws(gpuLast, lastGpuGeometry, newest, units, onGpu)
      requires clean && onGpu && decoded.Ready? ==> gpuLast == Some(decoded.unit)
      modifies `inDecoder, `lastGpuGeometry, `undelivered, `shown, `newest, `clean
      ensures clean ==> Settled() && old(clean)
      ensures newest == if decoded.Ready? then Some(decoded.unit) else old(newest)
      ensures clean ==> shown == old(shown) + TakenPicture(if decoded.Ready? then Some(decoded.unit) else None, units, offer)
    {
      hide Shows, Mirrors, Follows, Redraws, Decoder.Valid;
      match decoded {
        case Ready(u) => Present(u, offer);
        case NotYet =>
          if onGpu {
            inDecoder := if inDecoder == [] then [] else inDecoder[1..];
          }
        case Failed =>
          inDecoder := [];
      }
    }

    /** A picture out of the decoder takes the oldest tag. */
    method Present(unit: nat, offer: Offer)
      requires clean ==> Due(Ready(unit)) && (onGpu || Redraws(gpuLast, lastGpuGeometry, newest, units, onGpu))
      requires clean && onGpu ==> gpuLast == Some(unit)
      modifies `inDecoder, `lastGpuGeometry, `undelivered, `shown, `newest, `clean
      ensures clean ==> Settled()
      ensures newest == Some(unit)
      ensures clean ==> old(clean) && shown == old(shown) + TakenPicture(Some(unit), units, offer)
    {
      hide Shows, Mirrors, TagOf, Decoder.Valid;
      var first := if inDecoder == [] then TagOf(config) else inDecoder[0];
      assert clean ==> unit < |units| && first == units[unit];
      hide Follows;
      inDecoder := if inDecoder == [] then [] else inDecoder[1..];
      if onGpu {
        lastGpuGeometry := Some(first);
      }
      Show(Picture(unit, first), offer);
    }

    /** The idle timer: retry the waiting picture, else drain the CPU decoder. */
    method Drain(flushFails: bool, offer: Offer)
      requires Valid() && (undelivered.Some? || (!onGpu && cpu.held > 0))
      modifies this, cpu
      ensures Valid() && config == old(config) && cpu == old(cpu) && units == old(units) && fed == old(fed)
      ensures InUse() == old(InUse())
      ensures clean && old(undelivered.Some?) ==>
                newest == old(newest) && shown == old(shown) + if offer.Taken? then [old(undelivered.value)] else []
      ensures clean && old(undelivered == None) ==>
                && Inside() == [] && newest == Some(|units| - 1)
                && shown == old(shown) + TakenPicture(Some(|units| - 1), units, offer)
    {
      hide Shows, Follows, Mirrors, Redraws, Decoder.Valid;
      if undelivered.Some? {
        var p := undelivered.value;
        if clean {
          TheWaitingPictureFollows(shown, p, newest, units, |units| - |Inside()|);
        }
        Show(p, offer);
        if offer.Gone? {
          undelivered := None;
        }
      } else {
        DrainDecoder(flushFails, offer);
      }
    }

    method DrainDecoder(flushFails: bool, offer: Offer)
      requires Valid() && undelivered == None && !onGpu && cpu.held > 0
      modifies `inDecoder, `lastGpuGeometry, `undelivered, `shown, `newest, `clean, cpu
      ensures Valid() && InUse() == old(InUse())
      ensures clean ==> Inside() == [] && newest == Some(|units| - 1)
      ensures clean ==> shown == old(shown) + TakenPicture(Some(|units| - 1), units, offer)
    {
      if flushFails {
        clean := false;
        return;
      }
      hide Shows, Follows, Mirrors;
      var r := cpu.Flush();
      match r {
        case Ready(u) => Present(u, offer);
        case NotYet =>
        case Failed => clean := false;
      }
    }

    /** The UI wants another zoom. The GPU decoder redraws its last picture; on
        the CPU the answer is to ask for a keyframe. */
    method OnZoom(z: nat, redraws: bool, offer: Offer) returns (keyframe: bool)
      requires Valid()
      modifies `zoom, `undelivered, `shown, `newest, `clean
      ensures Valid() && zoom == z
      ensures keyframe <==> z != old(zoom) && !onGpu
      ensures clean ==> newest == old(newest)
      ensures clean && z != old(zoom) && redraws && offer.Taken? && gpuLast.Some? ==>
                shown == old(shown) + [Picture(gpuLast.value, units[gpuLast.value])]
      ensures z == old(zoom) || !onGpu ==> shown == old(shown) && undelivered == old(undelivered)
    {
      if z == zoom {
        return false;
      }
      zoom := z;
      if !onGpu {
        return true;
      }
      if redraws && gpuLast.Some? {
        var tag := if lastGpuGeometry.Some? then lastGpuGeometry.value else TagOf(config);
        var p := Picture(gpuLast.value, tag);
        hide Shows, Follows, Mirrors;
        Show(p, offer);
      }
      return false;
    }
  }

  lemma {:induction false} TheWaitingPictureFollows(shown: seq<Picture>, p: Picture, newest: Option<nat>, units: seq<Tag>, out: int)
    requires Shows(shown, Some(p), newest, units, out)
    ensures Follows(p, shown, newest, units, out) && newest == Some(p.unit)
  {
  }

  lemma {:induction false} ANewDecoderShowsNothing(
    shown: seq<Picture>, waiting: Option<Picture>, newest: Option<nat>, units: seq<Tag>, out: int, last: Option<Tag>, onGpu: bool)
    requires Shows(shown, waiting, newest, units, out)
    ensures Shows(shown, None, None, units, |units|) && Mirrors([], [], units) && Redraws(None, last, None, units, onGpu)
  {
  }

  lemma {:induction false} RedrawsAfterAnotherUnit(
    gpuLast: Option<nat>, geometry: Option<Tag>, newest: Option<nat>, units: seq<Tag>, tag: Tag, onGpu: bool)
    requires Redraws(gpuLast, geometry, newest, units, onGpu)
    ensures Redraws(gpuLast, geometry, newest, units + [tag], onGpu)
  {
  }

  /** The tag taken from the queue is that of the unit whose picture came. */
  lemma {:induction false} UnitFed(
    inside: seq<nat>, inDecoder: seq<Tag>, units: seq<Tag>, tag: Tag, onGpu: bool, r: Decoded, inside': seq<nat>,
    shown: seq<Picture>, waiting: Option<Picture>, newest: Option<nat>)
    requires Mirrors(inside, inDecoder, units) && Feeds(inside, |units|, onGpu, r, inside') && !r.Failed?
    requires Shows(shown, waiting, newest, units, |units| - |inside|)
    ensures var q, units', out := inDecoder + [tag], units + [tag], |units| + 1 - |inside'|;
            && Shows(shown, waiting, newest, units', out)
            && (r.Ready? ==> r.unit == out - 1) && ComesOut(r, inside', q, units', onGpu, shown, newest)
  {
  }
}
