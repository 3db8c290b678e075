/**
 * The sans-IO read path: a codec, the adapter that feeds it from an inner
 * stream, and the proof that how the inner stream is split, and how small the
 * reader's buffers are, never changes what the reader hears.
 */
module Sansio {
  import opened Bytes
  import opened ProxyErrors

  // ------------------------------------------------------------ the codec

  /** What one call of `Codec::decode` reports; `rest` is what it left unread. */
  datatype Verdict<+S> =
    | Framed(next: S, out: seq<byte>, rest: seq<byte>)
    | Transparent(out: seq<byte>, rest: seq<byte>)
    | Refused(error: ProxyError)

  type Decoder<!S> = (S, seq<byte>) -> Verdict<S>

  ghost predicate IsSuffix(rest: seq<byte>, input: seq<byte>) {
    |rest| <= |input| && rest == input[|input| - |rest|..]
  }

  /** The law for one input and one continuation of it: a verdict that made
      progress is not changed by bytes that arrive later, and a call that made
      none left the codec as it was. */
  ghost predicate StableAt<S>(decode: Decoder<S>, codec: S, input: seq<byte>, more: seq<byte>) {
    match decode(codec, input)
    case Framed(next, out, rest) =>
      && IsSuffix(rest, input)
      && (if |rest| < |input| then decode(codec, input + more) == Framed(next, out, rest + more)
          else next == codec && out == [])
    case Transparent(out, rest) =>
      IsSuffix(rest, input) && decode(codec, input + more) == Transparent(out, rest + more)
    case Refused(error) =>
      decode(codec, input + more) == Refused(error)
  }

  /** The codec law, asked only of non-empty input: the adapter never offers less. */
  ghost predicate PrefixStable<S(!new)>(decode: Decoder<S>) {
    forall codec, input, more :: input != [] ==> StableAt(decode, codec, input, more)
  }

  // ------------------------------------------------- one-shot reference decoding

  datatype Ending<+S> =
    | Waiting(codec: S, held: seq<byte>)
    | Opened
    | Broken(error: ProxyError)

  datatype Heard<+S> = Heard(bytes: seq<byte>, ending: Ending<S>) {
    function After(before: seq<byte>): Heard<S> {
      Heard(before + bytes, ending)
    }
  }

  /** Everything a whole stream decodes to, handed to the codec in one piece. */
  function Hear<S>(decode: Decoder<S>, codec: S, stream: seq<byte>): Heard<S>
    decreases |stream|
  {
    if stream == [] then Heard([], Waiting(codec, []))
    else
      match decode(codec, stream)
      case Refused(error) => Heard([], Broken(error))
      case Transparent(out, rest) => Heard(out + rest, Opened)
      case Framed(next, out, rest) =>
        if |rest| < |stream| then Hear(decode, next, rest).After(out)
        else Heard([], Waiting(codec, stream))
  }

  /** What hearing `stream` after an earlier part ended this way adds. */
  function Resume<S>(decode: Decoder<S>, heard: Heard<S>, stream: seq<byte>): Heard<S> {
    match heard.ending
    case Waiting(codec, held) => Hear(decode, codec, held + stream).After(heard.bytes)
    case Opened => Heard(heard.bytes + stream, Opened)
    case Broken(error) => heard
  }

  /** Hearing a stream in two parts is hearing it whole. */
  lemma {:induction false} HearSplit<S(!new)>(decode: Decoder<S>, codec: S, first: seq<byte>, second: seq<byte>)
    requires PrefixStable(decode)
    ensures Hear(decode, codec, first + second) == Resume(decode, Hear(decode, codec, first), second)
    decreases |first|
  {
    if first == [] {
      assert first + second == second;
      assert Hear(decode, codec, first) == Heard([], Waiting(codec, []));
      assert [] + Hear(decode, codec, second).bytes == Hear(decode, codec, second).bytes;
    } else {
      assert StableAt(decode, codec, first, second);
      match decode(codec, first)
      case Refused(_) =>
      case Transparent(out, rest) =>
        assert out + (rest + second) == (out + rest) + second;
      case Framed(next, out, rest) =>
        if |rest| < |first| {
          HearSplit(decode, next, rest, second);
          var tail := Hear(decode, next, rest);
          match tail.ending
          case Waiting(c, held) =>
            assert out + (tail.bytes + Hear(decode, c, held + second).bytes)
                == (out + tail.bytes) + Hear(decode, c, held + second).bytes;
          case Opened =>
            assert out + (tail.bytes + second) == (out + tail.bytes) + second;
          case Broken(_) =>
        } else {
          var all := Hear(decode, codec, first + second);
          assert [] + all.bytes == all.bytes;
        }
    }
  }

  /** Feeding chunk after chunk, each resuming where the last one stopped. */
  function HearChunks<S>(decode: Decoder<S>, heard: Heard<S>, chunks: seq<seq<byte>>): Heard<S>
    decreases |chunks|
  {
    if chunks == [] then heard
    else HearChunks(decode, Resume(decode, heard, chunks[0]), chunks[1..])
  }

  /** Any chunking of a stream decodes to what the stream decodes to in one shot. */
  lemma {:induction false} ChunkingIsInvisible<S(!new)>(decode: Decoder<S>, codec: S, before: seq<byte>,
                                                       chunks: seq<seq<byte>>)
    requires PrefixStable(decode)
    ensures HearChunks(decode, Hear(decode, codec, before), chunks)
         == Hear(decode, codec, before + Flatten(chunks))
    decreases |chunks|
  {
    if chunks == [] {
      assert before + Flatten(chunks) == before;
    } else {
      HearSplit(decode, codec, before, chunks[0]);
      ChunkingIsInvisible(decode, codec, before + chunks[0], chunks[1..]);
      assert (before + chunks[0]) + Flatten(chunks[1..]) == before + Flatten(chunks);
    }
  }

  /** A codec that has heard `stream` up to `codec` holding `held` keeps agreeing
      with the one-shot decoding after `more` arrives. */
  lemma {:induction false} HearMore<S(!new)>(decode: Decoder<S>, start: S, stream: seq<byte>, before: seq<byte>,
                          codec: S, held: seq<byte>, more: seq<byte>)
    requires PrefixStable(decode)
    requires Hear(decode, start, stream) == Hear(decode, codec, held).After(before)
    ensures Hear(decode, start, stream + more) == Hear(decode, codec, held + more).After(before)
  {
    HearSplit(decode, start, stream, more);
    HearSplit(decode, codec, held, more);
    ResumeAfter(decode, Hear(decode, codec, held), before, more);
  }

  /** Bytes heard earlier do not disturb resuming. */
  lemma {:induction false} ResumeAfter<S>(decode: Decoder<S>, heard: Heard<S>, before: seq<byte>, more: seq<byte>)
    ensures Resume(decode, heard.After(before), more) == Resume(decode, heard, more).After(before)
  {
    match heard.ending
    case Waiting(c, h) =>
      var tail := Hear(decode, c, h + more).bytes;
      assert (before + heard.bytes) + tail == before + (heard.bytes + tail);
    case Opened =>
      assert (before + heard.bytes) + more == before + (heard.bytes + more);
    case Broken(_) =>
  }

  /** A part that decodes to its last byte hands over to the part behind it. */
  lemma {:induction false} HearOn<S(!new)>(decode: Decoder<S>, codec: S, first: seq<byte>, second: seq<byte>, bytes: seq<byte>, next: S)
    requires PrefixStable(decode)
    requires Hear(decode, codec, first) == Heard(bytes, Waiting(next, []))
    ensures Hear(decode, codec, first + second) == Hear(decode, next, second).After(bytes)
  {
    HearSplit(decode, codec, first, second);
    assert [] + second == second;
  }

  /** What one codec call makes of everything still to hear behind `before`. */
  ghost predicate Unfolds<S>(decode: Decoder<S>, codec: S, held: seq<byte>, before: seq<byte>) {
    var heard := Hear(decode, codec, held);
    match decode(codec, held)
    case Refused(error) => heard.After(before) == Heard(before, Broken(error))
    case Transparent(out, rest) =>
      IsSuffix(rest, held) && heard.After(before) == Heard(before + (out + rest), Opened)
    case Framed(next, out, rest) =>
      && IsSuffix(rest, held)
      && heard.After(before) == Hear(decode, next, rest).After(before + out)
      && (|rest| == |held| ==> out == [] && next == codec && heard == Heard([], Waiting(codec, held)))
  }

  lemma {:induction false} HearStep<S(!new)>(decode: Decoder<S>, codec: S, held: seq<byte>, before: seq<byte>)
    requires PrefixStable(decode) && held != []
    ensures Unfolds(decode, codec, held, before)
  {
    assert StableAt(decode, codec, held, []);
    match decode(codec, held)
    case Refused(_) =>
    case Transparent(_, _) =>
    case Framed(next, out, rest) =>
      if |rest| < |held| {
        var tail := Hear(decode, next, rest).bytes;
        assert before + (out + tail) == (before + out) + tail;
      } else {
        assert rest == held;
        assert before + out == before;
      }
  }

  // ------------------------------------------------------------ the inner stream

  datatype Event =
    | Chunk(bytes: seq<byte>)
    | NotYet
    | Closed
    | Fault(kind: nat)

  /** A chunk of no bytes is the end of a stream, so it is spelled `Closed`. */
  type Arrival = e: Event | e.Chunk? ==> e.bytes != [] witness Closed

  datatype ReadError = Fatal(error: ProxyError) | Io(kind: nat)

  datatype Poll =
    | Ready(bytes: seq<byte>)
    | Pending
    | Failed(error: ReadError)

  /** The bytes a script of arrivals delivers before it closes. */
  function Stream(arrivals: seq<Arrival>): seq<byte> {
    if arrivals == [] then []
    else
      match arrivals[0]
      case Chunk(bytes) => bytes + Stream(arrivals[1..])
      case Closed => []
      case NotYet => Stream(arrivals[1..])
      case Fault(_) => Stream(arrivals[1..])
  }

  function Weight(arrivals: seq<Arrival>): nat {
    if arrivals == [] then 0
    else (if arrivals[0].Chunk? then |arrivals[0].bytes| else 0) + 1 + Weight(arrivals[1..])
  }

  ghost predicate AtEnd(arrivals: seq<Arrival>) {
    arrivals != [] && arrivals[0] == Closed
  }

  /** A stream that never keeps its reader waiting, until its script is over. */
  ghost predicate Flowing(arrivals: seq<Arrival>) {
    forall i :: 0 <= i < |arrivals| ==> arrivals[i].Chunk? || arrivals[i].Closed?
  }

  /** What such a stream still is after an answer. */
  ghost predicate FlowsOn(before: seq<Arrival>, poll: Poll, after: seq<Arrival>) {
    Flowing(before) ==>
      && Flowing(after)
      && (poll.Pending? ==> after == [])
      && (poll.Failed? ==> poll.error.Fatal?)
  }

  /** An inner stream that answers each read however its script says. */
  class Inner {
    var arrivals: seq<Arrival>

    constructor (script: seq<Arrival>)
      ensures arrivals == script
    {
      arrivals := script;
    }

    method Read(capacity: nat) returns (poll: Poll)
      modifies this
      ensures poll.Ready? ==> |poll.bytes| <= capacity
      ensures Stream(old(arrivals)) == (if poll.Ready? then poll.bytes else []) + Stream(arrivals)
      ensures poll.Ready? && poll.bytes == [] && capacity > 0 ==> AtEnd(arrivals)
      ensures poll.Ready? && poll.bytes != [] ==> Weight(arrivals) < Weight(old(arrivals))
      ensures Weight(arrivals) <= Weight(old(arrivals))
      ensures poll.Failed? ==> poll.error.Io?
      ensures poll.Pending? <==> old(arrivals) == [] || old(arrivals)[0].NotYet?
      ensures FlowsOn(old(arrivals), poll, arrivals)
      ensures !poll.Ready? && old(arrivals) != [] ==> arrivals == old(arrivals)[1..]
    {
      if arrivals == [] {
        return Pending;
      }
      match arrivals[0]
      case NotYet =>
        arrivals := arrivals[1..];
        return Pending;
      case Fault(kind) =>
        arrivals := arrivals[1..];
        return Failed(Io(kind));
      case Closed =>
        return Ready([]);
      case Chunk(bytes) =>
        if capacity == 0 {
          return Ready([]);
        }
        if |bytes| <= capacity {
          arrivals := arrivals[1..];
          return Ready(bytes);
        }
        ghost var before := arrivals;
        arrivals := [Chunk(bytes[capacity..])] + arrivals[1..];
        assert arrivals[1..] == before[1..];
        assert bytes == bytes[..capacity] + bytes[capacity..];
        return Ready(bytes[..capacity]);
    }
  }

  const FRAMED_CHUNK: nat := 16 * 1024

  /** The read half of `Framed`: a consumed-prefix cursor over coded bytes, the
      decoded bytes not yet taken, and the codec between them. */
  class FramedReader<S(!new)> {
    const decode: Decoder<S>
    var codec: S
    var coded: seq<byte>
    var codedAt: nat
    var plain: seq<byte>
    var plainAt: nat
    var transparent: bool

    /** History: the codec at the start, all bytes taken from below, all bytes
        handed up, and whether a read has failed in the codec. */
    ghost const start: S
    ghost var received: seq<byte>
    ghost var delivered: seq<byte>
    ghost var broken: bool
    /** Bytes the codec consumed and bytes compaction moved, over the whole run. */
    ghost var consumed: nat
    ghost var moved: nat

    ghost predicate Cursors()
      reads this
    {
      && plainAt <= |plain|
      && (plainAt == |plain| ==> plain == [])
      && codedAt <= |coded|
      && (codedAt == 0 || codedAt * 2 < |coded|)
      && moved + codedAt <= consumed
      && consumed + (|coded| - codedAt) <= |received|
    }

    /** What is still to come out of the bytes held below. */
    ghost function Ahead(): Heard<S>
      requires codedAt <= |coded|
      reads this
    {
      if transparent then Heard([], Opened) else Hear(decode, codec, coded[codedAt..])
    }

    /** Nothing more comes out of the bytes held until there are others behind them. */
    ghost predicate Rests()
      requires codedAt <= |coded|
      reads this
    {
      Ahead() == Heard([], if transparent then Opened else Waiting(codec, coded[codedAt..]))
    }

    /** What has been handed up, what is waiting, and what the codec would make
        of the rest, is what the whole of `received` decodes to in one shot. */
    ghost predicate Agrees()
      requires plainAt <= |plain| && codedAt <= |coded|
      reads this
    {
      && (transparent ==> coded == [])
      && Hear(decode, start, received) == Ahead().After(delivered + plain[plainAt..])
    }

    ghost predicate Valid()
      reads this
    {
      PrefixStable(decode) && Cursors() && (!broken ==> Agrees())
    }

    /** `Framed::new` with no prefix, `Framed::with_prefix` otherwise. */
    constructor (decode: Decoder<S>, codec: S, prefix: seq<byte>)
      requires PrefixStable(decode)
      ensures Valid() && !broken
      ensures this.decode == decode && start == codec && received == prefix && delivered == []
    {
      this.decode := decode;
      this.codec := codec;
      coded := prefix;
      codedAt := 0;
      plain := [];
      plainAt := 0;
      transparent := false;
      start := codec;
      received := prefix;
      delivered := [];
      broken := false;
      consumed := 0;
      moved := 0;
      new;
      assert prefix[0..] == prefix;
      assert [] + Hear(decode, codec, prefix).bytes == Hear(decode, codec, prefix).bytes;
    }

    /** Hands decoded bytes to a buffer of `capacity`; nothing when none wait. */
    method Drain(capacity: nat) returns (got: Option<seq<byte>>)
      requires Valid() && !broken
      modifies `plain, `plainAt, `delivered
      ensures Valid()
      ensures got.None? <==> old(plainAt) == |old(plain)|
      ensures got.None? ==> plain == old(plain) && plainAt == old(plainAt)
      ensures got.Some? ==> |got.value| == Min(capacity, |old(plain)| - old(plainAt))
      ensures delivered == old(delivered) + (if got.Some? then got.value else [])
    {
      var held := plain[plainAt..];
      if held == [] {
        return None;
      }
      var moving := Min(|held|, capacity);
      got := Some(held[..moving]);
      ghost var said := delivered + held;
      delivered := delivered + held[..moving];
      plainAt := plainAt + moving;
      if plainAt == |plain| {
        plain := [];
        plainAt := 0;
      }
      assert plain[plainAt..] == held[moving..];
      assert delivered + plain[plainAt..] == said;
    }

    /** Offers the held bytes to the codec once, moves the cursor, and compacts
        once half the buffer is consumed. */
    method DecodeHeld() returns (error: Option<ProxyError>, progressed: bool)
      requires Valid() && !broken && plain == [] && codedAt < |coded|
      modifies this
      ensures Valid()
      ensures received == old(received) && delivered == old(delivered)
      ensures broken <==> error.Some?
      ensures broken ==> Hear(decode, start, received) == Heard(delivered, Broken(error.value))
      ensures progressed ==> |coded| - codedAt < |old(coded)| - old(codedAt)
      ensures !broken && !progressed ==> plain == [] && transparent == old(transparent) && Rests()
    {
      var held := coded[codedAt..];
      HearStep(decode, codec, held, delivered);
      assert delivered + plain[plainAt..] == delivered;
      error := None;
      match decode(codec, held)
      case Refused(refusal) =>
        error := Some(refusal);
        broken := true;
        progressed := false;
      case Transparent(out, rest) =>
        Open(out + rest);
        progressed := true;
      case Framed(next, out, rest) =>
        progressed := TakeFrame(next, out, rest);
    }

    /** Takes a framed verdict on the held bytes. */
    method TakeFrame(next: S, out: seq<byte>, rest: seq<byte>) returns (progressed: bool)
      requires Valid() && !broken && !transparent && plain == [] && codedAt < |coded|
      requires decode(codec, coded[codedAt..]) == Framed(next, out, rest)
      requires Unfolds(decode, codec, coded[codedAt..], delivered)
      modifies `codec, `coded, `codedAt, `plain, `consumed, `moved
      ensures Valid()
      ensures progressed ==> |coded| - codedAt < |old(coded)| - old(codedAt)
      ensures !progressed ==> plain == [] && Rests()
    {
      ghost var held := coded[codedAt..];
      var used := |coded| - codedAt - |rest|;
      assert coded[codedAt + used..] == rest;
      Advance(next, out, used);
      progressed := used > 0 || plain != [];
      assert !progressed ==> coded[codedAt..] == held;
    }

    /** Takes a transparent verdict: the surplus waits, the codec is done. */
    method Open(surplus: seq<byte>)
      requires Valid() && !broken && plain == [] && codedAt < |coded|
      requires Ahead().After(delivered) == Heard(delivered + surplus, Opened)
      modifies `coded, `codedAt, `plain, `transparent, `consumed
      ensures Valid() && coded == [] && codedAt == 0
      ensures consumed == old(consumed) + (|old(coded)| - old(codedAt))
    {
      assert delivered + plain[plainAt..] == delivered;
      plain := surplus;
      consumed := consumed + (|coded| - codedAt);
      coded := [];
      codedAt := 0;
      transparent := true;
      assert plain[plainAt..] == surplus;
      assert (delivered + surplus) + [] == delivered + surplus;
    }

    /** Takes a framed verdict: `used` more bytes are consumed and `out` waits. */
    method Advance(next: S, out: seq<byte>, used: nat)
      requires Valid() && !broken && !transparent && plain == [] && codedAt + used <= |coded|
      requires Ahead().After(delivered) == Hear(decode, next, coded[codedAt + used..]).After(delivered + out)
      modifies `codec, `coded, `codedAt, `plain, `consumed, `moved
      ensures Valid()
      ensures plain == out && codec == next && |coded| - codedAt == |old(coded)| - old(codedAt) - used
      ensures coded[codedAt..] == old(coded[codedAt + used..])
      ensures consumed == old(consumed) + used
      ensures moved == old(moved) + (if (old(codedAt) + used) * 2 >= |old(coded)| then |coded| else 0)
    {
      ghost var rest := coded[codedAt + used..];
      assert delivered + plain[plainAt..] == delivered;
      codec := next;
      plain := out;
      codedAt := codedAt + used;
      consumed := consumed + used;
      if codedAt * 2 >= |coded| {
        moved := moved + (|coded| - codedAt);
        coded := coded[codedAt..];
        codedAt := 0;
      }
      assert coded[codedAt..] == rest;
      assert plain[plainAt..] == out;
    }

    /** Appends freshly read bytes to the coded buffer. */
    method Buffer(bytes: seq<byte>)
      requires Valid() && !broken && !transparent
      modifies `coded, `received
      ensures Valid()
      ensures received == old(received) + bytes
    {
      HearMore(decode, start, received, delivered + plain[plainAt..], codec, coded[codedAt..], bytes);
      assert (coded + bytes)[codedAt..] == coded[codedAt..] + bytes;
      coded := coded + bytes;
      received := received + bytes;
    }

    /** Reads one chunk from below for a codec that has nothing left to decode. */
    method Fill(inner: Inner) returns (stop: Option<Poll>)
      requires Valid() && !broken && !transparent && plain == [] && Rests()
      modifies `coded, `received, inner
      ensures Valid()
      ensures received + Stream(inner.arrivals) == old(received) + Stream(old(inner.arrivals))
      ensures stop.None? ==> Weight(inner.arrivals) < Weight(old(inner.arrivals))
      ensures stop.Some? ==> delivered == Hear(decode, start, received).bytes && !Hear(decode, start, received).ending.Broken?
      ensures stop.Some? ==> stop.value == Pending || stop.value == Ready([])
                             || (stop.value.Failed? && stop.value.error.Io?)
      ensures stop == Some(Ready([])) ==> AtEnd(inner.arrivals)
      ensures FlowsOn(old(inner.arrivals), if stop.Some? then stop.value else Ready([]), inner.arrivals)
    {
      assert delivered + plain[plainAt..] + [] == delivered;
      var poll := inner.Read(FRAMED_CHUNK);
      match poll
      case Ready(bytes) =>
        if bytes == [] {
          return Some(poll);
        }
        Buffer(bytes);
        return None;
      case Pending =>
        return Some(poll);
      case Failed(_) =>
        return Some(poll);
    }

    /** A transparent read: the inner stream fills the reader's buffer itself. */
    method ReadThrough(inner: Inner, capacity: nat) returns (poll: Poll)
      requires Valid() && !broken && transparent && plain == []
      modifies `received, `delivered, inner
      ensures Valid()
      ensures received + Stream(inner.arrivals) == old(received) + Stream(old(inner.arrivals))
      ensures delivered == old(delivered) + (if poll.Ready? then poll.bytes else [])
      ensures delivered == Hear(decode, start, received).bytes && !Hear(decode, start, received).ending.Broken?
      ensures poll.Ready? ==> |poll.bytes| <= capacity
      ensures poll == Ready([]) && capacity > 0 ==> AtEnd(inner.arrivals)
      ensures poll.Failed? ==> poll.error.Io?
      ensures FlowsOn(old(inner.arrivals), poll, inner.arrivals)
    {
      poll := inner.Read(capacity);
      ghost var bytes := if poll.Ready? then poll.bytes else [];
      Regroup(received, bytes, Stream(inner.arrivals));
      PassUp(bytes);
    }

    /** Bytes read in transparent mode go up as they are. */
    ghost method PassUp(bytes: seq<byte>)
      requires Valid() && !broken && transparent && plain == []
      modifies `received, `delivered
      ensures Valid()
      ensures received == old(received) + bytes && delivered == old(delivered) + bytes
      ensures delivered == Hear(decode, start, received).bytes && !Hear(decode, start, received).ending.Broken?
    {
      HearSplit(decode, start, received, bytes);
      assert delivered + plain[plainAt..] == delivered;
      received := received + bytes;
      delivered := delivered + bytes;
      assert delivered + plain[plainAt..] == delivered;
    }

    /** What an answer to a reader tells about the stream below: no decodable
        byte is withheld when it parks or ends, and a refusal is the stream's own. */
    ghost predicate Tells(poll: Poll, capacity: nat, arrivals: seq<Arrival>)
      reads this
    {
      && (broken <==> poll.Failed? && poll.error.Fatal?)
      && (poll.Pending? ==> delivered == Hear(decode, start, received).bytes)
      && (poll == Ready([]) && capacity > 0 ==>
            AtEnd(arrivals) && delivered == Hear(decode, start, received).bytes
            && !Hear(decode, start, received).ending.Broken?)
      && (broken ==> Hear(decode, start, received) == Heard(delivered, Broken(poll.error.error)))
    }

    /** One turn of the read loop once no decoded byte waits. */
    method Turn(inner: Inner, capacity: nat) returns (stop: Option<Poll>)
      requires Valid() && !broken && plain == []
      modifies this, inner
      ensures Valid()
      ensures received + Stream(inner.arrivals) == old(received) + Stream(old(inner.arrivals))
      ensures stop.None? ==> !broken && delivered == old(delivered)
      ensures stop.None? ==>
                || Weight(inner.arrivals) < Weight(old(inner.arrivals))
                || (Weight(inner.arrivals) == Weight(old(inner.arrivals))
                    && |coded| - codedAt < |old(coded)| - old(codedAt))
      ensures stop.Some? ==> Tells(stop.value, capacity, inner.arrivals)
      ensures stop.Some? && stop.value.Ready? ==> |stop.value.bytes| <= capacity
      ensures delivered == old(delivered) + (if stop.Some? && stop.value.Ready? then stop.value.bytes else [])
      ensures FlowsOn(old(inner.arrivals), if stop.Some? then stop.value else Ready([]), inner.arrivals)
    {
      if transparent && codedAt == |coded| {
        var poll := ReadThrough(inner, capacity);
        return Some(poll);
      }
      if codedAt < |coded| {
        var error, progressed := DecodeHeld();
        if error.Some? {
          return Some(Failed(Fatal(error.value)));
        }
        if progressed {
          return None;
        }
      }
      stop := Fill(inner);
    }

    /** One `poll_read`: bytes come up in order and the answer tells the truth
        about the stream, however it was split and however small the buffer. */
    method PollRead(inner: Inner, capacity: nat) returns (poll: Poll)
      requires Valid() && !broken
      modifies this, inner
      ensures Valid()
      ensures received + Stream(inner.arrivals) == old(received) + Stream(old(inner.arrivals))
      ensures delivered == old(delivered) + (if poll.Ready? then poll.bytes else [])
      ensures poll.Ready? ==> |poll.bytes| <= capacity
      ensures Tells(poll, capacity, inner.arrivals)
      ensures FlowsOn(old(inner.arrivals), poll, inner.arrivals)
    {
      ghost var whole := received + Stream(inner.arrivals);
      while true
        invariant Valid() && !broken
        invariant received + Stream(inner.arrivals) == whole
        invariant delivered == old(delivered)
        invariant Flowing(old(inner.arrivals)) ==> Flowing(inner.arrivals)
        decreases Weight(inner.arrivals), |coded| - codedAt
      {
        var drained := Drain(capacity);
        if drained.Some? {
          return Ready(drained.value);
        }
        var stop := Turn(inner, capacity);
        if stop.Some? {
          return stop.value;
        }
      }
    }
  }

  lemma {:induction false} HearGrows<S(!new)>(decode: Decoder<S>, codec: S, first: seq<byte>, second: seq<byte>)
    requires PrefixStable(decode)
    ensures Hear(decode, codec, first).bytes <= Hear(decode, codec, first + second).bytes
    ensures Hear(decode, codec, first).ending.Broken? ==>
              Hear(decode, codec, first + second) == Hear(decode, codec, first)
  {
    HearSplit(decode, codec, first, second);
  }

  /** A stream that goes on past a frame boundary and stops inside the next frame is
      heard as if it had stopped at the boundary, and ends as cleanly: exactly when
      the codec takes nothing of what comes after it. */
  lemma {:induction false} CutGoesUnheard<S(!new)>(decode: Decoder<S>, codec: S, stream: seq<byte>, cut: seq<byte>)
    requires PrefixStable(decode) && cut != []
    requires Hear(decode, codec, stream).ending.Waiting? && Hear(decode, codec, stream).ending.held == []
    ensures var heard := Hear(decode, codec, stream);
      Hear(decode, codec, stream + cut) == Heard(heard.bytes, Waiting(heard.ending.codec, cut)) <==>
        var verdict := decode(heard.ending.codec, cut); verdict.Framed? && |verdict.rest| >= |cut|
  {
    HearSplit(decode, codec, stream, cut);
    var heard := Hear(decode, codec, stream);
    var next := heard.ending.codec;
    assert [] + cut == cut;
    HearStep(decode, next, cut, []);
    if decode(next, cut).Framed? && |decode(next, cut).rest| < |cut| {
      HeldIsShorter(decode, decode(next, cut).next, decode(next, cut).rest);
    }
  }

  /** What is held in the end is no longer than what came. */
  lemma {:induction false} HeldIsShorter<S(!new)>(decode: Decoder<S>, codec: S, stream: seq<byte>)
    ensures var heard := Hear(decode, codec, stream); heard.ending.Waiting? ==> |heard.ending.held| <= |stream|
    decreases |stream|
  {
    if stream != [] {
      var verdict := decode(codec, stream);
      if verdict.Framed? && |verdict.rest| < |stream| {
        HeldIsShorter(decode, verdict.next, verdict.rest);
      }
    }
  }

  ghost predicate AllPositive(capacities: seq<nat>) {
    forall i :: 0 <= i < |capacities| ==> capacities[i] > 0
  }

  datatype Stop = StillOpen | Ended | Refusing(error: ProxyError)

  /** One read of a stream that is `whole` in the end. */
  method ListenOnce<S(!new)>(reader: FramedReader<S>, inner: Inner, capacity: nat, ghost whole: seq<byte>)
    returns (poll: Poll)
    requires reader.Valid() && !reader.broken && reader.received + Stream(inner.arrivals) == whole
    modifies reader, inner
    ensures reader.Valid() && reader.received + Stream(inner.arrivals) == whole
    ensures reader.broken <==> poll.Failed? && poll.error.Fatal?
    ensures reader.delivered == old(reader.delivered) + (if poll.Ready? then poll.bytes else [])
    ensures reader.delivered <= Hear(reader.decode, reader.start, whole).bytes
    ensures reader.broken ==> Hear(reader.decode, reader.start, whole) == Heard(reader.delivered, Broken(poll.error.error))
    ensures (poll == Ready([]) && capacity > 0) || (poll.Pending? && Flowing(old(inner.arrivals))) ==>
              reader.delivered == Hear(reader.decode, reader.start, whole).bytes
    ensures poll == Ready([]) && capacity > 0 ==> !Hear(reader.decode, reader.start, whole).ending.Broken?
    ensures FlowsOn(old(inner.arrivals), poll, inner.arrivals)
  {
    poll := reader.PollRead(inner, capacity);
    HearGrows(reader.decode, reader.start, reader.received, Stream(inner.arrivals));
    assert Stream(inner.arrivals) == [] ==> reader.received == whole;
  }

  /** A whole conversation: whatever the script of arrivals and whatever buffers
      the reader brings, it hears a prefix of the one-shot decoding; all of it
      once the stream has ended; and a refusal exactly where the one-shot
      decoding refuses. While the stream below does not keep it waiting, every
      read brings something until there is no more to be had. */
  method Listen<S(!new)>(decode: Decoder<S>, codec: S, prefix: seq<byte>, script: seq<Arrival>, capacities: seq<nat>)
    returns (said: seq<byte>, stop: Stop)
    requires PrefixStable(decode)
    ensures said <= Hear(decode, codec, prefix + Stream(script)).bytes
    ensures stop.Ended? ==> var heard := Hear(decode, codec, prefix + Stream(script));
                            said == heard.bytes && !heard.ending.Broken?
    ensures stop.Refusing? ==> Hear(decode, codec, prefix + Stream(script)) == Heard(said, Broken(stop.error))
    ensures stop.StillOpen? && Flowing(script) && AllPositive(capacities) ==>
              |said| >= |capacities| || said == Hear(decode, codec, prefix + Stream(script)).bytes
  {
    var reader := new FramedReader(decode, codec, prefix);
    var inner := new Inner(script);
    ghost var whole := prefix + Stream(script);
    said, stop := [], StillOpen;
    for i := 0 to |capacities|
      invariant reader.Valid() && !reader.broken && stop.StillOpen?
      invariant reader.decode == decode && reader.start == codec
      invariant reader.received + Stream(inner.arrivals) == whole
      invariant reader.delivered == said <= Hear(decode, codec, whole).bytes
      invariant Flowing(script) ==> Flowing(inner.arrivals)
      invariant Flowing(script) && AllPositive(capacities) ==> |said| >= i || said == Hear(decode, codec, whole).bytes
    {
      var poll := ListenOnce(reader, inner, capacities[i], whole);
      if poll.Ready? {
        said := said + poll.bytes;
        if poll.bytes == [] && capacities[i] > 0 {
          return said, Ended;
        }
      }
      if poll.Failed? && poll.error.Fatal? {
        return said, Refusing(poll.error.error);
      }
    }
  }

  // ------------------------------------------------------------ the write half

  datatype Sealed<+W> = Sealed(next: W, out: seq<byte>) | Unsealed(error: ProxyError)

  type Encoder<!W> = (W, seq<byte>) -> Sealed<W>

  datatype Writing<+W> = Writing(codec: W, wire: seq<byte>)

  /** The frames of `payloads`, one after another, when all of them encode. */
  function EncodeAll<W>(encode: Encoder<W>, codec: W, payloads: seq<seq<byte>>): Option<Writing<W>> {
    if payloads == [] then Some(Writing(codec, []))
    else
      var last := |payloads| - 1;
      match EncodeAll(encode, codec, payloads[..last])
      case None => None
      case Some(before) =>
        match encode(before.codec, payloads[last])
        case Unsealed(_) => None
        case Sealed(next, out) => Some(Writing(next, before.wire + out))
  }

  lemma {:induction false} EncodeLast<W>(encode: Encoder<W>, codec: W, payloads: seq<seq<byte>>, last: seq<byte>)
    requires EncodeAll(encode, codec, payloads).Some?
    requires encode(EncodeAll(encode, codec, payloads).value.codec, last).Sealed?
    ensures var before := EncodeAll(encode, codec, payloads).value;
            var frame := encode(before.codec, last);
            EncodeAll(encode, codec, payloads + [last]) == Some(Writing(frame.next, before.wire + frame.out))
  {
    assert (payloads + [last])[..|payloads|] == payloads;
  }

  lemma {:induction false} EncodeOne<W>(encode: Encoder<W>, codec: W, first: seq<byte>)
    requires encode(codec, first).Sealed?
    ensures EncodeAll(encode, codec, [first]) == Some(Writing(encode(codec, first).next, encode(codec, first).out + []))
  {
    EncodeLast(encode, codec, [], first);
    assert [] + [first] == [first];
    assert [] + encode(codec, first).out == encode(codec, first).out + [];
  }

  /** A frame in front of the frames of `rest`. */
  ghost predicate EncodesBefore<W>(encode: Encoder<W>, codec: W, first: seq<byte>, rest: seq<seq<byte>>)
    requires encode(codec, first).Sealed?
  {
    var frame := encode(codec, first);
    var after := EncodeAll(encode, frame.next, rest);
    after.Some? ==>
      EncodeAll(encode, codec, [first] + rest) == Some(Writing(after.value.codec, frame.out + after.value.wire))
  }

  lemma {:induction false} EncodesBeforeOn<W>(
      encode: Encoder<W>, codec: W, first: seq<byte>, front: seq<seq<byte>>, last: seq<byte>)
    requires encode(codec, first).Sealed? && EncodesBefore(encode, codec, first, front)
    ensures EncodesBefore(encode, codec, first, front + [last])
  {
    var frame := encode(codec, first);
    assert (front + [last])[..|front|] == front;
    if EncodeAll(encode, frame.next, front + [last]).Some? {
      var before := EncodeAll(encode, frame.next, front).value;
      EncodeLast(encode, frame.next, front, last);
      EncodeLast(encode, codec, [first] + front, last);
      assert [first] + (front + [last]) == ([first] + front) + [last];
      Regroup(frame.out, before.wire, encode(before.codec, last).out);
    }
  }

  lemma {:induction false} EncodeFirst<W>(encode: Encoder<W>, codec: W, first: seq<byte>, rest: seq<seq<byte>>)
    requires encode(codec, first).Sealed?
    ensures EncodesBefore(encode, codec, first, rest)
    decreases |rest|
  {
    if rest == [] {
      EncodeOne(encode, codec, first);
      assert [first] + rest == [first];
    } else {
      var front, last := rest[..|rest| - 1], rest[|rest| - 1];
      EncodeFirst(encode, codec, first, front);
      EncodesBeforeOn(encode, codec, first, front, last);
      assert rest == front + [last];
    }
  }

  /** One frame decodes to its payload, leaving a reader that matches the writer. */
  ghost predicate Inverts<S, W>(decode: Decoder<S>, encode: Encoder<W>, side: W -> S, codec: W, payload: seq<byte>) {
    var frame := encode(codec, payload);
    && frame.Sealed?
    && Hear(decode, side(codec), frame.out) == Heard(payload, Waiting(side(frame.next), []))
  }

  ghost predicate Inverse<S, W(!new)>(decode: Decoder<S>, encode: Encoder<W>, side: W -> S, maxPayload: nat) {
    forall codec, payload :: |payload| <= maxPayload ==> Inverts(decode, encode, side, codec, payload)
  }

  ghost predicate AllWithin(payloads: seq<seq<byte>>, maxPayload: nat) {
    forall i :: 0 <= i < |payloads| ==> |payloads[i]| <= maxPayload
  }

  /** Everything an encoder writes, a decoder inverting single frames hears as
      the concatenated payloads. */
  lemma {:induction false} RoundTrip<S(!new), W(!new)>(decode: Decoder<S>, encode: Encoder<W>, side: W -> S,
                                                      maxPayload: nat, codec: W, payloads: seq<seq<byte>>)
    requires PrefixStable(decode) && Inverse(decode, encode, side, maxPayload) && AllWithin(payloads, maxPayload)
    ensures EncodeAll(encode, codec, payloads).Some?
    ensures Hear(decode, side(codec), EncodeAll(encode, codec, payloads).value.wire)
         == Heard(Flatten(payloads), Waiting(side(EncodeAll(encode, codec, payloads).value.codec), []))
    decreases |payloads|
  {
    if payloads != [] {
      var last := payloads[|payloads| - 1];
      var rest := payloads[..|payloads| - 1];
      RoundTrip(decode, encode, side, maxPayload, codec, rest);
      var before := EncodeAll(encode, codec, rest).value;
      assert Inverts(decode, encode, side, before.codec, last);
      HearOn(decode, side(codec), before.wire, encode(before.codec, last).out, Flatten(rest), side(before.codec));
      FlattenAppend(rest, last);
      assert rest + [last] == payloads;
    }
  }

  datatype Acceptance = Accepts(bytes: nat) | Busy | Fails(kind: nat)

  /** An inner stream that takes as much of each write as its script says. */
  class Outer {
    var acceptances: seq<Acceptance>
    var wire: seq<byte>

    constructor (script: seq<Acceptance>)
      ensures acceptances == script && wire == []
    {
      acceptances := script;
      wire := [];
    }

    method Write(bytes: seq<byte>) returns (answer: Acceptance)
      modifies this
      ensures old(acceptances) == [] ==> answer == Busy && acceptances == []
      ensures old(acceptances) != [] ==> answer == Within(old(acceptances)[0], |bytes|) && acceptances == old(acceptances)[1..]
      ensures answer.Accepts? ==> answer.bytes <= |bytes|
      ensures wire == old(wire) + (if answer.Accepts? then bytes[..answer.bytes] else [])
    {
      if acceptances == [] {
        return Busy;
      }
      answer := acceptances[0];
      acceptances := acceptances[1..];
      if answer.Accepts? {
        answer := Accepts(Min(answer.bytes, |bytes|));
        wire := wire + bytes[..answer.bytes];
      }
    }
  }

  /** No write takes more than it is offered. */
  ghost function Within(answer: Acceptance, length: nat): Acceptance {
    if answer.Accepts? then Accepts(Min(answer.bytes, length)) else answer
  }

  datatype WriteError = WriteZero | WriteFatal(error: ProxyError) | WriteIo(kind: nat)

  datatype Wrote =
    | Taken(bytes: nat)
    | Parked
    | WriteFailed(error: WriteError)

  /** How pushing came out: why it stopped, what is left, and the script left. */
  datatype Pushed = Pushed(stop: Option<Wrote>, left: nat, script: seq<Acceptance>)

  /** What pushing that many octets comes to: partial acceptances are followed up
      at once, and one that takes nothing is an error. */
  ghost function Pushing(script: seq<Acceptance>, left: nat): (pushed: Pushed)
    ensures |pushed.script| <= |script|
  {
    if left == 0 then Pushed(None, 0, script)
    else if script == [] then Pushed(Some(Parked), left, [])
    else
      match Within(script[0], left)
      case Busy => Pushed(Some(Parked), left, script[1..])
      case Fails(kind) => Pushed(Some(WriteFailed(WriteIo(kind))), left, script[1..])
      case Accepts(bytes) =>
        if bytes == 0 then Pushed(Some(WriteFailed(WriteZero)), left, script[1..])
        else Pushing(script[1..], left - bytes)
  }

  /** A stream that takes something of everything it is offered. */
  ghost predicate Willing(script: seq<Acceptance>) {
    forall i :: 0 <= i < |script| ==> script[i].Accepts? && script[i].bytes > 0
  }

  /** Such a stream takes the whole frame, or its script is over. */
  lemma {:induction false} WillingTakesAll(script: seq<Acceptance>, left: nat)
    requires Willing(script)
    ensures var pushed := Pushing(script, left);
            Willing(pushed.script) && (pushed.stop.None? || pushed.script == [])
    decreases |script|
  {
    if left > 0 && script != [] {
      WillingTakesAll(script[1..], left - Min(script[0].bytes, left));
    }
  }

  /** The write half of `Framed`: at most one frame in flight, sent whole. */
  class FramedWriter<W(!new)> {
    const encode: Encoder<W>
    const maxPayload: nat
    var codec: W
    var pending: seq<byte>
    var pendingAt: nat
    var taken: nat

    /** History: the codec at the start, the payload of every frame begun, how
        many of those the writer has been told of, and whether encoding failed. */
    ghost const start: W
    ghost var payloads: seq<seq<byte>>
    ghost var acknowledged: nat
    ghost var broken: bool

    /** What is on the wire and what is still pending are the frames begun. */
    ghost predicate Encodes(wire: seq<byte>)
      reads this
    {
      && pendingAt <= |pending|
      && EncodeAll(encode, start, payloads) == Some(Writing(codec, wire + pending[pendingAt..]))
    }

    /** Between calls a frame is either in flight or acknowledged. */
    ghost predicate Valid(wire: seq<byte>)
      reads this
    {
      && Encodes(wire)
      && |payloads| == acknowledged + (if pendingAt < |pending| then 1 else 0)
      && (pendingAt < |pending| ==> taken == |payloads[acknowledged]| > 0)
    }

    constructor (encode: Encoder<W>, codec: W, maxPayload: nat)
      ensures Valid([]) && !broken && payloads == [] && acknowledged == 0
      ensures this.encode == encode && start == codec && this.maxPayload == maxPayload
    {
      this.encode := encode;
      this.codec := codec;
      this.maxPayload := maxPayload;
      pending := [];
      pendingAt := 0;
      taken := 0;
      start := codec;
      payloads := [];
      acknowledged := 0;
      broken := false;
      new;
      assert [] + pending[pendingAt..] == [];
    }

    /** Encodes one frame, when none is in flight and the writer offers bytes. */
    method Begin(buf: seq<byte>, ghost wire: seq<byte>) returns (early: Option<Wrote>)
      requires Valid(wire) && !broken && pendingAt == |pending|
      modifies `codec, `pending, `pendingAt, `taken, `payloads, `broken
      ensures early.Some? ==> payloads == old(payloads) && pendingAt == |pending| == 0
      ensures early == Some(Taken(0)) <==> buf == [] || maxPayload == 0
      ensures early.Some? ==> early.value == Taken(0) || (early.value.WriteFailed? && early.value.error.WriteFatal?)
      ensures broken <==> early.Some? && early.value.WriteFailed?
      ensures !broken ==> Encodes(wire)
      ensures early.None? ==> payloads == old(payloads) + [buf[..Min(|buf|, maxPayload)]]
      ensures early.None? ==> taken == Min(|buf|, maxPayload) > 0
    {
      assert wire + pending[pendingAt..] == wire;
      pending := [];
      pendingAt := 0;
      var take := Min(|buf|, maxPayload);
      assert wire + pending[pendingAt..] == wire;
      if take == 0 {
        return Some(Taken(0));
      }
      match encode(codec, buf[..take])
      case Unsealed(error) =>
        broken := true;
        return Some(WriteFailed(WriteFatal(error)));
      case Sealed(next, out) =>
        ghost var before := payloads;
        payloads := payloads + [buf[..take]];
        assert payloads[..|payloads| - 1] == before;
        codec := next;
        pending := out;
        taken := take;
        assert pending[pendingAt..] == out;
        return None;
    }

    /** Offers what is left of the frame once. */
    method Offer(outer: Outer) returns (answer: Acceptance)
      requires Encodes(outer.wire)
      modifies `pendingAt, outer
      ensures Encodes(outer.wire)
      ensures old(outer.acceptances) == [] ==> answer == Busy && outer.acceptances == []
      ensures old(outer.acceptances) != [] ==>
                && answer == old(Within(outer.acceptances[0], |pending| - pendingAt))
                && outer.acceptances == old(outer.acceptances)[1..]
      ensures pendingAt == old(pendingAt) + (if answer.Accepts? then answer.bytes else 0)
    {
      ghost var rest := pending[pendingAt..];
      ghost var before := outer.wire + rest;
      answer := outer.Write(pending[pendingAt..]);
      if answer.Accepts? {
        pendingAt := pendingAt + answer.bytes;
        assert rest == rest[..answer.bytes] + rest[answer.bytes..];
        assert pending[pendingAt..] == rest[answer.bytes..];
      }
      assert outer.wire + pending[pendingAt..] == before;
    }

    /** Pushes the pending frame until the inner stream stops taking it. */
    method Push(outer: Outer) returns (stop: Option<Wrote>)
      requires Encodes(outer.wire)
      modifies `pendingAt, outer
      ensures Encodes(outer.wire)
      ensures Pushed(stop, |pending| - pendingAt, outer.acceptances) == old(Pushing(outer.acceptances, |pending| - pendingAt))
      ensures stop.None? <==> pendingAt == |pending|
      ensures stop.Some? ==> stop.value.Parked? || (stop.value.WriteFailed? && !stop.value.error.WriteFatal?)
    {
      while pendingAt < |pending|
        invariant Encodes(outer.wire)
        invariant Pushing(outer.acceptances, |pending| - pendingAt) == old(Pushing(outer.acceptances, |pending| - pendingAt))
        decreases |outer.acceptances|
      {
        var answer := Offer(outer);
        match answer
        case Accepts(bytes) =>
          if bytes == 0 {
            return Some(WriteFailed(WriteZero));
          }
        case Busy =>
          return Some(Parked);
        case Fails(kind) =>
          return Some(WriteFailed(WriteIo(kind)));
      }
      return None;
    }

    /** One `poll_write`: frames reach the wire whole and in order, and the
        count reported is the payload of the frame that just finished, which is
        a prefix of `buf` whenever the writer re-offers what it parked with. */
    method PollWrite(outer: Outer, buf: seq<byte>) returns (wrote: Wrote)
      requires Valid(outer.wire) && !broken
      modifies this, outer
      ensures broken <==> wrote.WriteFailed? && wrote.error.WriteFatal?
      ensures !broken ==> Valid(outer.wire)
      ensures old(pendingAt < |pending|) ==> payloads == old(payloads)
      ensures old(pendingAt == |pending|) ==>
                || payloads == old(payloads)
                || payloads == old(payloads) + [buf[..Min(|buf|, maxPayload)]]
      ensures wrote.Taken? && wrote.bytes > 0 ==>
                acknowledged == |payloads| == old(acknowledged) + 1 && wrote.bytes == |payloads[old(acknowledged)]|
      ensures !(wrote.Taken? && wrote.bytes > 0) ==> acknowledged == old(acknowledged)
      ensures wrote == Taken(0) ==> payloads == old(payloads) && (buf == [] || maxPayload == 0)
      ensures |outer.acceptances| <= |old(outer.acceptances)|
      ensures old(Willing(outer.acceptances)) ==> Willing(outer.acceptances)
      ensures old(Willing(outer.acceptances)) && !broken && buf != [] && maxPayload > 0 ==>
                (wrote.Taken? && wrote.bytes > 0) || outer.acceptances == []
    {
      if pendingAt == |pending| {
        var early := Begin(buf, outer.wire);
        if early.Some? {
          return early.value;
        }
      }
      if Willing(outer.acceptances) {
        WillingTakesAll(outer.acceptances, |pending| - pendingAt);
      }
      var stop := Push(outer);
      if stop.Some? {
        return stop.value;
      }
      acknowledged := |payloads|;
      return Taken(taken);
    }
  }

  /** The frame that comes after `sent` bytes. */
  function NextFrame(payload: seq<byte>, sent: nat, maxPayload: nat): seq<byte>
    requires sent <= |payload|
  {
    payload[sent..][..Min(|payload| - sent, maxPayload)]
  }

  /** `frames` are the acknowledged split of what was sent, and the writer is at
      most one frame ahead of them. */
  ghost predicate Paced(payloads: seq<seq<byte>>, frames: seq<seq<byte>>, payload: seq<byte>, sent: nat, maxPayload: nat) {
    && sent <= |payload|
    && Flatten(frames) == payload[..sent]
    && (forall i :: 0 <= i < |frames| ==> 0 < |frames[i]| <= maxPayload)
    && (payloads == frames || (sent < |payload| && payloads == frames + [NextFrame(payload, sent, maxPayload)]))
  }

  lemma {:induction false} PacedOn(
      payloads: seq<seq<byte>>, frames: seq<seq<byte>>, payload: seq<byte>, sent: nat, maxPayload: nat, frame: seq<byte>)
    requires Paced(payloads, frames, payload, sent, maxPayload) && payloads == frames + [frame] && 0 < |frame|
    ensures sent + |frame| <= |payload| && frame == payload[sent..][..|frame|]
    ensures Paced(payloads, frames + [frame], payload, sent + |frame|, maxPayload)
  {
    assert payloads[|frames|] == frame;
    FlattenAppend(frames, frame);
    assert payload[..sent] + frame == payload[..sent + |frame|];
  }

  /** One poll: nothing more acknowledged, or exactly the frame in flight. */
  method SpeakOnce<W(!new)>(writer: FramedWriter<W>, outer: Outer, payload: seq<byte>, frames: seq<seq<byte>>, sent: nat)
    returns (wrote: Wrote)
    requires writer.Valid(outer.wire) && !writer.broken && |frames| == writer.acknowledged
    requires Paced(writer.payloads, frames, payload, sent, writer.maxPayload)
    modifies writer, outer
    ensures writer.broken <==> wrote.WriteFailed? && wrote.error.WriteFatal?
    ensures !writer.broken ==>
              && writer.Valid(outer.wire)
              && Paced(writer.payloads, frames, payload, sent, writer.maxPayload)
              && writer.acknowledged == |frames| + (if wrote.Taken? && wrote.bytes > 0 then 1 else 0)
    ensures wrote.Taken? && wrote.bytes > 0 ==>
              sent + wrote.bytes <= |payload| && writer.payloads == frames + [payload[sent..][..wrote.bytes]]
    ensures |outer.acceptances| <= |old(outer.acceptances)|
    ensures old(Willing(outer.acceptances)) ==> Willing(outer.acceptances)
    ensures old(Willing(outer.acceptances)) && !writer.broken && sent < |payload| && writer.maxPayload > 0 ==>
              (wrote.Taken? && wrote.bytes > 0) || outer.acceptances == []
  {
    ghost var before := writer.payloads;
    wrote := writer.PollWrite(outer, payload[sent..]);
    assert writer.payloads == before + [NextFrame(payload, sent, writer.maxPayload)] ==>
        writer.payloads[|before|] == NextFrame(payload, sent, writer.maxPayload);
  }

  method SpeakOn<W(!new)>(writer: FramedWriter<W>, outer: Outer, payload: seq<byte>, frames: seq<seq<byte>>, sent: nat)
    returns (longer: seq<seq<byte>>, further: nat, refused: bool)
    requires writer.Valid(outer.wire) && !writer.broken && |frames| == writer.acknowledged
    requires Paced(writer.payloads, frames, payload, sent, writer.maxPayload)
    modifies writer, outer
    ensures refused ==> longer == frames && further == sent
    ensures further >= sent
    ensures !refused ==>
              && writer.Valid(outer.wire) && !writer.broken && |longer| == writer.acknowledged
              && Paced(writer.payloads, longer, payload, further, writer.maxPayload)
    ensures |outer.acceptances| <= |old(outer.acceptances)|
    ensures old(Willing(outer.acceptances)) ==> Willing(outer.acceptances)
    ensures old(Willing(outer.acceptances)) && !refused && sent < |payload| && writer.maxPayload > 0 ==>
              |longer| == |frames| + 1 || outer.acceptances == []
  {
    var wrote := SpeakOnce(writer, outer, payload, frames, sent);
    longer, further, refused := frames, sent, wrote.WriteFailed? && wrote.error.WriteFatal?;
    if wrote.Taken? && wrote.bytes > 0 {
      var frame := payload[sent..][..wrote.bytes];
      PacedOn(writer.payloads, frames, payload, sent, writer.maxPayload, frame);
      longer, further := frames + [frame], sent + |frame|;
    }
  }

  /** A whole write: `payload` offered over and over behind what was already
      taken. Whatever the inner stream accepts of each frame, the wire carries
      the frames of a split of the taken bytes and, while a frame is still in
      flight, a part of that one. While the stream takes something of every
      write, every poll finishes a frame. */
  method Speak<W(!new)>(encode: Encoder<W>, codec: W, maxPayload: nat, payload: seq<byte>,
                        script: seq<Acceptance>, polls: nat)
    returns (wire: seq<byte>, frames: seq<seq<byte>>, sent: nat, refused: bool, unused: seq<Acceptance>)
    ensures sent <= |payload| && Flatten(frames) == payload[..sent]
    ensures forall i :: 0 <= i < |frames| ==> 0 < |frames[i]| <= maxPayload
    ensures !refused ==> Carries(encode, codec, frames, NextFrame(payload, sent, maxPayload), wire)
    ensures !refused && Willing(script) && maxPayload > 0 ==> sent == |payload| || |frames| >= polls || unused == []
  {
    var writer := new FramedWriter(encode, codec, maxPayload);
    var outer := new Outer(script);
    frames, sent, refused := [], 0, false;
    for i := 0 to polls
      invariant writer.Valid(outer.wire) && !writer.broken
      invariant writer.encode == encode && writer.start == codec && writer.maxPayload == maxPayload
      invariant |frames| == writer.acknowledged && Paced(writer.payloads, frames, payload, sent, maxPayload)
      invariant !refused && (Willing(script) ==> Willing(outer.acceptances))
      invariant Willing(script) && maxPayload > 0 ==> sent == |payload| || |frames| >= i || outer.acceptances == []
    {
      frames, sent, refused := SpeakOn(writer, outer, payload, frames, sent);
      if refused {
        return outer.wire, frames, sent, true, outer.acceptances;
      }
    }
    wire, unused := outer.wire, outer.acceptances;
    assert |writer.payloads| == |frames| ==> writer.payloads == frames;
    WireCarries(encode, codec, writer.payloads, frames, payload, sent, maxPayload, wire, writer.pending[writer.pendingAt..]);
  }

  /** The wire holds the acknowledged frames, and maybe a part of the next. */
  ghost predicate Carries<W>(
      encode: Encoder<W>, codec: W, frames: seq<seq<byte>>, next: seq<byte>, wire: seq<byte>)
  {
    var done := EncodeAll(encode, codec, frames);
    var more := EncodeAll(encode, codec, frames + [next]);
    && done.Some?
    && (wire == done.value.wire || (next != [] && more.Some? && wire <= more.value.wire))
  }

  lemma {:induction false} WireCarries<W>(
      encode: Encoder<W>, codec: W, payloads: seq<seq<byte>>, frames: seq<seq<byte>>, payload: seq<byte>, sent: nat,
      maxPayload: nat, wire: seq<byte>, unsent: seq<byte>)
    requires Paced(payloads, frames, payload, sent, maxPayload)
    requires EncodeAll(encode, codec, payloads).Some? && EncodeAll(encode, codec, payloads).value.wire == wire + unsent
    requires payloads == frames ==> unsent == []
    requires payloads != frames ==> payloads[|frames|] != []
    ensures Carries(encode, codec, frames, NextFrame(payload, sent, maxPayload), wire)
  {
    if payloads == frames {
      assert wire + unsent == wire;
    } else {
      assert payloads[..|frames|] == frames;
    }
  }
}
