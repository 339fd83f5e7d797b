/** The writing half of a connection: one vectored write per message, repeated
    from where a partial write stopped. */
module Writing {
  import opened Common
  import opened Framing

  const U32_MAX := 0xffff_ffff

  function SaturatingU32(n: nat): nat {
    if n <= U32_MAX then n else U32_MAX
  }

  /** What is left of `parts` behind the first `done` bytes, as a vectored write
      takes it: no slice is empty. */
  function Remainder(parts: seq<seq<byte>>, done: nat): (r: seq<seq<byte>>)
    ensures forall i | 0 <= i < |r| :: r[i] != []
  {
    if parts == [] then []
    else if done >= |parts[0]| then Remainder(parts[1..], done - |parts[0]|)
    else [parts[0][done..]] + Remainder(parts[1..], 0)
  }

  /** The slices rebuilt after a partial write are the unwritten bytes. */
  lemma {:induction false} RemainderIsTheUnwrittenBytes(parts: seq<seq<byte>>, done: nat)
    requires done <= |Flatten(parts)|
    ensures Flatten(Remainder(parts, done)) == Flatten(parts)[done..]
  {
    if parts != [] {
      var tail := Flatten(parts[1..]);
      if done >= |parts[0]| {
        RemainderIsTheUnwrittenBytes(parts[1..], done - |parts[0]|);
        assert Flatten(parts)[done..] == tail[done - |parts[0]|..];
      } else {
        RemainderIsTheUnwrittenBytes(parts[1..], 0);
        assert Flatten(parts)[done..] == parts[0][done..] + tail;
        var r := Remainder(parts, done);
        assert r[1..] == Remainder(parts[1..], 0);
      }
    }
  }

  lemma {:induction false} EncodeAllAppend(fs: seq<Frame>, f: Frame)
    requires AllAcceptable(fs) && Acceptable(f)
    ensures EncodeAll(fs + [f]) == EncodeAll(fs) + Encode(f)
  {
    if fs == [] {
      assert EncodeAll([f]) == Encode(f) + [];
    } else {
      EncodeAllAppend(fs[1..], f);
      assert (fs + [f])[1..] == fs[1..] + [f];
    }
  }

  /** Why a message is refused before a byte is written. */
  function Refused(body: seq<byte>, payloads: seq<seq<byte>>): Option<Error> {
    if |body| > MAX_FRAME_BODY then
      Some(BodyTooLarge(SaturatingU32(|body|)))
    else if FirstOversized(payloads) < |payloads| then
      Some(PayloadTooLarge(SaturatingU32(|payloads[FirstOversized(payloads)]|)))
    else if |Flatten(payloads)| > MAX_FRAME_PAYLOAD then
      Some(PayloadTooLarge(SaturatingU32(|Flatten(payloads)|)))
    else
      None
  }

  /** The first payload over the limit, or the number of payloads. */
  function FirstOversized(payloads: seq<seq<byte>>): (i: nat)
    ensures i <= |payloads|
    ensures forall j | 0 <= j < i :: |payloads[j]| <= MAX_PAYLOAD
    ensures i < |payloads| ==> |payloads[i]| > MAX_PAYLOAD
  {
    if payloads == [] || |payloads[0]| > MAX_PAYLOAD then 0
    else 1 + FirstOversized(payloads[1..])
  }

  /** The writer refuses exactly the messages a reader would turn down. */
  lemma {:induction false} WriterRefusesWhatTheReaderWould(body: seq<byte>, payloads: seq<seq<byte>>)
    ensures Refused(body, payloads) == None <==>
            && Acceptable(Frame(body, Flatten(payloads)))
            && (forall i | 0 <= i < |payloads| :: |payloads[i]| <= MAX_PAYLOAD)
  {
  }

  datatype WriteResult = Written | NotSent(error: Error) | Broken

  lemma {:induction false} FlattenOneMore(parts: seq<seq<byte>>, i: nat)
    requires i < |parts|
    ensures |Flatten(parts[..i + 1])| == |Flatten(parts[..i])| + |parts[i]|
  {
    FlattenAppend(parts[..i], [parts[i]]);
    assert parts[..i + 1] == parts[..i] + [parts[i]];
    assert Flatten([parts[i]]) == parts[i];
  }

  class FramedWriter {
    /** Every byte the stream has accepted. */
    var out: seq<byte>
    /** The frames written whole. */
    ghost var sent: seq<Frame>

    ghost predicate Valid()
      reads this
    {
      AllAcceptable(sent) && out == EncodeAll(sent)
    }

    constructor ()
      ensures Valid() && sent == []
    {
      out, sent := [], [];
    }

    /** One vectored write: the stream takes any prefix, possibly none, or
        fails. A healthy one takes at least a byte. */
    method WriteVectored(slices: seq<seq<byte>>, healthy: bool) returns (n: Option<nat>)
      modifies this`out
      ensures n == None ==> out == old(out) && !healthy
      ensures healthy && Flatten(slices) != [] ==> n != Some(0)
      ensures n.Some? ==>
                && n.value <= |Flatten(slices)|
                && out == old(out) + Flatten(slices)[..n.value]
    {
      var fails: bool := *;
      if fails && !healthy {
        return None;
      }
      var least: nat := if healthy && Flatten(slices) != [] then 1 else 0;
      var taken: nat :| least <= taken <= |Flatten(slices)|;
      out := out + Flatten(slices)[..taken];
      return Some(taken);
    }

    /** Whatever the stream takes at a time, success means the exact
        concatenation went out, and failure that a prefix of it did. */
    method WriteAllVectored(parts: seq<seq<byte>>, healthy: bool) returns (ok: bool)
      modifies this`out
      ensures ok ==> out == old(out) + Flatten(parts)
      ensures healthy ==> ok
      ensures old(out) <= out <= old(out) + Flatten(parts)
    {
      var total := 0;
      for i := 0 to |parts|
        invariant total == |Flatten(parts[..i])|
        invariant out == old(out)
      {
        FlattenOneMore(parts, i);
        hide *;
        total := total + |parts[i]|;
      }
      assert parts[..|parts|] == parts;
      ghost var before, all := out, Flatten(parts);
      hide *;
      var done := 0;
      assert out == before + all[..done];
      while done < total
        invariant done <= total == |all|
        invariant out == before + all[..done]
      {
        var slices := Slices(parts, done);
        var n := WriteVectored(slices, healthy);
        if n == None || n.value == 0 {
          return false;
        }
        done := done + n.value;
      }
      return true;
    }

    /** The unwritten remainder behind the first `done` bytes. */
    method Slices(parts: seq<seq<byte>>, done: nat) returns (slices: seq<seq<byte>>)
      requires done <= |Flatten(parts)|
      ensures slices == Remainder(parts, done)
      ensures Flatten(slices) == Flatten(parts)[done..]
    {
      slices := [];
      var skip: nat := done;
      for i := 0 to |parts|
        invariant Remainder(parts, done) == slices + Remainder(parts[i..], skip)
      {
        if skip >= |parts[i]| {
          skip := skip - |parts[i]|;
        } else {
          slices := slices + [parts[i][skip..]];
          skip := 0;
        }
      }
      RemainderIsTheUnwrittenBytes(parts, done);
    }

    method WriteMsgWithPayloads(body: seq<byte>, payloads: seq<seq<byte>>, healthy: bool) returns (r: WriteResult)
      requires Valid()
      modifies this
      ensures Refused(body, payloads).Some? ==> r == NotSent(Refused(body, payloads).value) && unchanged(this)
      ensures Refused(body, payloads) == None ==> !r.NotSent? && (healthy ==> r.Written?)
      ensures r.Written? ==> Valid() && sent == old(sent) + [Frame(body, Flatten(payloads))]
      ensures r.Broken? ==>
                && Acceptable(Frame(body, Flatten(payloads)))
                && old(out) <= out <= old(out) + Encode(Frame(body, Flatten(payloads)))
    {
      WriterRefusesWhatTheReaderWould(body, payloads);
      if |body| > MAX_FRAME_BODY {
        return NotSent(BodyTooLarge(SaturatingU32(|body|)));
      }
      var oversized := FirstOversized(payloads);
      if oversized < |payloads| {
        return NotSent(PayloadTooLarge(SaturatingU32(|payloads[oversized]|)));
      }
      var payloadLen := |Flatten(payloads)|;
      if payloadLen > MAX_FRAME_PAYLOAD {
        return NotSent(PayloadTooLarge(SaturatingU32(payloadLen)));
      }
      ghost var frame := Frame(body, Flatten(payloads));
      var header := ToLe32(|body|) + ToLe32(payloadLen);
      var parts := [header, body] + payloads;
      assert Flatten(parts) == Encode(frame) by {
        FlattenAppend([header, body], payloads);
        assert [header, body][1..] == [body];
        assert Flatten([body]) == body;
        assert Flatten([header, body]) == header + body;
      }
      var ok := WriteAllVectored(parts, healthy);
      if !ok {
        return Broken;
      }
      EncodeAllAppend(sent, frame);
      sent := sent + [frame];
      return Written;
    }
  }
}
