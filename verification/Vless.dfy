/**
 * VLESS responses: a header that is stripped once and then out of the way, and
 * the length-prefixed datagrams of a UDP destination stream. Both are read the
 * same however the transport splits them.
 */
module Vless {
  import opened Bytes
  import opened ProxyErrors
  import opened Sansio

  const VERSION: byte := 0
  const LENGTH_PREFIX: nat := 2

  datatype Decoded = Incomplete | Complete(consumed: nat) | Invalid(error: ProxyError)

  /** `decode_response`: a version octet and a length-prefixed addon block. */
  function DecodeResponse(bytes: seq<byte>): Decoded {
    if bytes == [] then Incomplete
    else if bytes[0] != VERSION then Invalid(Version(bytes[0]))
    else if |bytes| < 2 || |bytes| < 2 + (bytes[1] as int) then Incomplete
    else Complete(2 + (bytes[1] as int))
  }

  /** `ResponseHeader::decode`; the state is whether the header is stripped. */
  function Step(stripped: bool, input: seq<byte>): Verdict<bool> {
    if stripped then Transparent([], input)
    else
      match DecodeResponse(input)
      case Invalid(error) => Refused(error)
      case Incomplete => Framed(false, [], input)
      case Complete(consumed) => Transparent([], if consumed <= |input| then input[consumed..] else [])
  }

  function Decoding(): Decoder<bool> {
    (stripped, input) => Step(stripped, input)
  }

  /** A header as a server writes it is known by its end, not before it. */
  lemma {:induction false} HeaderRoundTrip(addons: seq<byte>, behind: seq<byte>, cut: nat)
    requires |addons| < 256 && cut < 2 + |addons|
    ensures DecodeResponse([VERSION, |addons|] + addons + behind) == Complete(2 + |addons|)
    ensures DecodeResponse(([VERSION, |addons|] + addons)[..cut]) == Incomplete
  {
  }

  lemma {:induction false} ResponseHeaderIsStable()
    ensures PrefixStable(Decoding())
  {
    forall stripped: bool, input: seq<byte>, more: seq<byte> | input != []
      ensures StableAt(Decoding(), stripped, input, more)
    {
      if !stripped && DecodeResponse(input).Complete? {
        var consumed := DecodeResponse(input).consumed;
        assert (input + more)[consumed..] == input[consumed..] + more;
      }
    }
  }

  /** What a whole response stream says: nothing while the header is short, a
      refusal for another version, and otherwise everything behind the header. */
  lemma {:induction false} HearTunnel(stream: seq<byte>)
    ensures Hear(Decoding(), false, stream)
         == match DecodeResponse(stream)
            case Invalid(error) => Heard([], Broken(error))
            case Incomplete => Heard([], Waiting(false, stream))
            case Complete(consumed) => Heard(stream[consumed..], Opened)
  {
  }

  /** A header as a server writes it, and its payload untouched behind it, over
      any split and any buffers. */
  method ReadTunnel(ghost addons: seq<byte>, ghost payload: seq<byte>, script: seq<Arrival>, capacities: seq<nat>)
    returns (said: seq<byte>, stop: Stop)
    requires |addons| < 256 && Stream(script) == [VERSION, |addons|] + addons + payload
    ensures said <= payload
    ensures stop.Ended? ==> said == payload
    ensures !stop.Refusing?
    ensures Flowing(script) && AllPositive(capacities) ==> |said| >= |capacities| || said == payload
  {
    ResponseHeaderIsStable();
    HearTunnel(Stream(script));
    assert Stream(script)[2 + |addons|..] == payload;
    assert [] + Stream(script) == Stream(script);
    said, stop := Listen(Decoding(), false, [], script, capacities);
  }

  // ------------------------------------------------------------ datagrams on a stream

  datatype Parsed = Parsed(datagrams: seq<seq<byte>>, rest: seq<byte>) {
    function Behind(before: seq<seq<byte>>): Parsed {
      Parsed(before + datagrams, rest)
    }
  }

  lemma {:induction false} BehindTwice(parsed: Parsed, outer: seq<seq<byte>>, inner: seq<seq<byte>>)
    ensures parsed.Behind(inner).Behind(outer) == parsed.Behind(outer + inner)
  {
    assert outer + (inner + parsed.datagrams) == (outer + inner) + parsed.datagrams;
  }

  /** Where the frame at the front ends, when it is whole. */
  function FrameEnd(bytes: seq<byte>): Option<nat> {
    if |bytes| < LENGTH_PREFIX || |bytes| < LENGTH_PREFIX + GetU16(bytes) then None
    else Some(LENGTH_PREFIX + GetU16(bytes))
  }

  /** The datagram of the frame ending at `end`; an empty frame carries none. */
  function Carried(bytes: seq<byte>, end: nat): seq<seq<byte>>
    requires LENGTH_PREFIX <= end <= |bytes|
  {
    if end > LENGTH_PREFIX then [bytes[LENGTH_PREFIX..end]] else []
  }

  /** The whole frames at the front of `bytes`. */
  function Frames(bytes: seq<byte>): Parsed
    decreases |bytes|
  {
    match FrameEnd(bytes)
    case None => Parsed([], bytes)
    case Some(end) => Frames(bytes[end..]).Behind(Carried(bytes, end))
  }

  lemma {:induction false} FrameEndStable(first: seq<byte>, second: seq<byte>)
    requires FrameEnd(first).Some?
    ensures FrameEnd(first + second) == FrameEnd(first)
    ensures Carried(first + second, FrameEnd(first).value) == Carried(first, FrameEnd(first).value)
    ensures (first + second)[FrameEnd(first).value..] == first[FrameEnd(first).value..] + second
  {
    var end := FrameEnd(first).value;
    assert (first + second)[LENGTH_PREFIX..end] == first[LENGTH_PREFIX..end];
  }

  lemma {:induction false} FramesSplit(first: seq<byte>, second: seq<byte>)
    ensures Frames(first + second) == Frames(Frames(first).rest + second).Behind(Frames(first).datagrams)
    decreases |first|
  {
    var whole := Frames(first + second);
    match FrameEnd(first)
    case None =>
      assert [] + whole.datagrams == whole.datagrams;
    case Some(end) =>
      FrameEndStable(first, second);
      FramesSplit(first[end..], second);
      BehindTwice(Frames(Frames(first[end..]).rest + second), Carried(first, end), Frames(first[end..]).datagrams);
  }

  /** The datagrams of a destination stream, header and all. */
  function Datagrams(stream: seq<byte>): seq<seq<byte>> {
    match DecodeResponse(stream)
    case Complete(consumed) => if consumed <= |stream| then Frames(stream[consumed..]).datagrams else []
    case Incomplete => []
    case Invalid(_) => []
  }

  /** The frame one datagram is sent as. */
  function Frame(datagram: seq<byte>): seq<byte>
    requires |datagram| < 0x1_0000
  {
    PutU16(|datagram|) + datagram
  }

  /** The datagrams that carry something. */
  ghost function Carrying(datagrams: seq<seq<byte>>): seq<seq<byte>> {
    if datagrams == [] then []
    else (if datagrams[0] == [] then [] else [datagrams[0]]) + Carrying(datagrams[1..])
  }

  /** A list of datagrams, framed one behind another, arrives back, less those
      that were empty; and every frame is taken, empty ones included. */
  lemma {:induction false} FramesInvertFraming(datagrams: seq<seq<byte>>, wire: seq<seq<byte>>)
    requires |wire| == |datagrams|
    requires forall i :: 0 <= i < |datagrams| ==> |datagrams[i]| < 0x1_0000 && wire[i] == Frame(datagrams[i])
    ensures Frames(Flatten(wire)) == Parsed(Carrying(datagrams), [])
    decreases |datagrams|
  {
    if datagrams != [] {
      FramesInvertFraming(datagrams[1..], wire[1..]);
      var bytes := Flatten(wire);
      var end := LENGTH_PREFIX + |datagrams[0]|;
      assert bytes[..2] == PutU16(|datagrams[0]|);
      assert FrameEnd(bytes) == Some(end);
      assert bytes[end..] == Flatten(wire[1..]);
      assert bytes[LENGTH_PREFIX..end] == datagrams[0];
    }
  }

  /** Takes every whole frame out of the held bytes. */
  method TakeFrames(bytes: seq<byte>) returns (datagrams: seq<seq<byte>>, held: seq<byte>)
    ensures Parsed(datagrams, held) == Frames(bytes)
  {
    held := bytes;
    datagrams := [];
    while FrameEnd(held).Some?
      invariant Frames(bytes) == Frames(held).Behind(datagrams)
      decreases |held|
    {
      var end := FrameEnd(held).value;
      ghost var behind := Frames(held[end..]).datagrams;
      assert datagrams + (Carried(held, end) + behind) == (datagrams + Carried(held, end)) + behind;
      datagrams := datagrams + Carried(held, end);
      held := held[end..];
    }
  }

  /** Behind a whole header the held bytes are what the frames offered leave over. */
  ghost predicate Reading(received: seq<byte>, held: seq<byte>, offered: seq<seq<byte>>) {
    && DecodeResponse(received).Complete?
    && DecodeResponse(received).consumed <= |received|
    && Frames(received[DecodeResponse(received).consumed..]) == Parsed(offered, held)
  }

  lemma {:induction false} ReadingOn(received: seq<byte>, held: seq<byte>, offered: seq<seq<byte>>, more: seq<byte>)
    requires Reading(received, held, offered)
    ensures var parsed := Frames(held + more); Reading(received + more, parsed.rest, offered + parsed.datagrams)
  {
    var consumed := DecodeResponse(received).consumed;
    assert (received + more)[consumed..] == received[consumed..] + more;
    FramesSplit(received[consumed..], more);
  }

  ghost predicate Agrees(received: seq<byte>, header: bool, held: seq<byte>, offered: seq<seq<byte>>) {
    if header then Reading(received, held, offered)
    else held == received && offered == [] && DecodeResponse(received).Incomplete?
  }

  /** One read: strip the header once it is whole, then take every whole frame. */
  method Accept(header: bool, held: seq<byte>, bytes: seq<byte>, ghost received: seq<byte>, ghost offered: seq<seq<byte>>)
    returns (stripped: bool, rest: seq<byte>, more: seq<seq<byte>>, refused: bool)
    requires Agrees(received, header, held, offered)
    ensures refused ==> DecodeResponse(received + bytes).Invalid? && offered == [] && more == []
    ensures !refused ==> Agrees(received + bytes, stripped, rest, offered + more)
  {
    stripped, rest, more, refused := header, held + bytes, [], false;
    if header {
      ReadingOn(received, held, offered, bytes);
    } else {
      match DecodeResponse(rest)
      case Invalid(_) =>
        refused := true;
        return;
      case Incomplete =>
        return;
      case Complete(consumed) =>
        rest := rest[consumed..];
        stripped := true;
    }
    more, rest := TakeFrames(rest);
  }

  /** `read_datagrams` over any sequence of reads offers exactly the datagrams
      of the concatenated stream, in order. */
  method ReadDatagrams(arrivals: seq<seq<byte>>) returns (offered: seq<seq<byte>>)
    ensures offered == Datagrams(Flatten(arrivals))
  {
    var held, header := [], false;
    offered := [];
    for i := 0 to |arrivals|
      invariant Agrees(Flatten(arrivals[..i]), header, held, offered)
    {
      FlattenAppend(arrivals[..i], arrivals[i]);
      assert arrivals[..i] + [arrivals[i]] == arrivals[..i + 1];
      var more, refused;
      header, held, more, refused := Accept(header, held, arrivals[i], Flatten(arrivals[..i]), offered);
      offered := offered + more;
      if refused {
        FlattenConcat(arrivals[..i + 1], arrivals[i + 1..]);
        assert arrivals[..i + 1] + arrivals[i + 1..] == arrivals;
        return;
      }
    }
    assert arrivals[..|arrivals|] == arrivals;
  }
}
