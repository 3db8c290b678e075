/**
 * gRPC messages over HTTP/2 DATA frames: protobuf varints, the message header,
 * and the stream that takes the headers out again, wherever DATA frames and
 * reads happen to cut.
 */
module Grpc {
  import opened Bytes

  // ------------------------------------------------------------ protobuf varints

  const U64: nat := 0x1_0000_0000_0000_0000

  function Pow128(n: nat): nat {
    if n == 0 then 1 else 128 * Pow128(n - 1)
  }

  /** Little-endian groups of seven bits, all but the last marked. */
  function Varint(value: nat): seq<byte> {
    if value < 128 then [value] else [value % 128 + 128] + Varint(value / 128)
  }

  method PutVarint(value: nat) returns (out: seq<byte>)
    ensures out == Varint(value)
  {
    out := [];
    var left := value;
    while left >= 128
      invariant Varint(value) == out + Varint(left)
      decreases left
    {
      out := out + [left % 128 + 128];
      left := left / 128;
    }
    out := out + [left];
  }

  datatype Number = Number(value: nat, used: nat)

  /** Reading on from group `index` with `value` so far. The groups below are
      disjoint bits, so joining the next one is an addition; bits past the
      sixty-fourth are shifted out. */
  function ReadGroups(bytes: seq<byte>, index: nat, value: nat): Option<Number>
    decreases |bytes|
  {
    if bytes == [] || index >= 10 then None
    else
      var joined := value + (bytes[0] % 128) * Pow128(index) % U64;
      if bytes[0] < 128 then Some(Number(joined, index + 1))
      else ReadGroups(bytes[1..], index + 1, joined)
  }

  function ReadVarint(bytes: seq<byte>): Option<Number> {
    ReadGroups(bytes, 0, 0)
  }

  method GetVarint(bytes: seq<byte>) returns (number: Option<Number>)
    ensures number == ReadVarint(bytes)
  {
    var value: nat := 0;
    for index := 0 to |bytes|
      invariant ReadVarint(bytes) == ReadGroups(bytes[index..], index, value)
    {
      if index >= 10 {
        return None;
      }
      value := value + (bytes[index] % 128) * Pow128(index) % U64;
      if bytes[index] < 128 {
        return Some(Number(value, index + 1));
      }
      assert bytes[index..][1..] == bytes[index + 1..];
    }
    return None;
  }

  lemma {:induction false} Pow128Grows(low: nat, high: nat)
    requires low <= high
    ensures 1 <= Pow128(low) <= Pow128(high)
    decreases high
  {
    if low < high {
      Pow128Grows(low, high - 1);
    } else if low > 0 {
      Pow128Grows(low - 1, high - 1);
    }
  }

  lemma {:induction false} TenGroupsOverflow(index: nat)
    requires Pow128(index) < U64
    ensures index < 10
  {
    if index >= 10 {
      Pow128Grows(10, index);
    }
  }

  lemma {:induction false} GroupFits(value: nat, power: nat)
    requires power > 0 && value * power < U64
    ensures (value % 128) * power % U64 == (value % 128) * power
    ensures value * power == (value % 128) * power + (value / 128) * (128 * power)
    ensures value >= 1 ==> power < U64
  {
    var quotient, group := value / 128, value % 128;
    assert value == quotient * 128 + group;
    assert value * power == (quotient * 128) * power + group * power;
    assert (quotient * 128) * power == quotient * (128 * power);
    assert 0 <= quotient * (128 * power);
    assert 0 <= group * power < U64;
  }

  /** The groups of `value`, read on behind `sofar`, add it in at their place. */
  lemma {:induction false} ReadBack(value: nat, tail: seq<byte>, index: nat, sofar: nat)
    requires value * Pow128(index) < U64 && (value == 0 ==> index == 0)
    ensures ReadGroups(Varint(value) + tail, index, sofar)
         == Some(Number(sofar + value * Pow128(index), index + |Varint(value)|))
    decreases value
  {
    var power := Pow128(index);
    Pow128Grows(0, index);
    GroupFits(value, power);
    TenGroupsOverflow(index);
    var bytes := Varint(value) + tail;
    if value < 128 {
      assert bytes[0] == value;
    } else {
      assert bytes[0] == value % 128 + 128;
      assert bytes[0] % 128 == value % 128;
      assert bytes[1..] == Varint(value / 128) + tail;
      ReadBack(value / 128, tail, index + 1, sofar + (value % 128) * power);
    }
  }

  /** Every u64 reads back, whatever follows it. */
  lemma {:induction false} VarintRoundTrip(value: nat, tail: seq<byte>)
    requires value < U64
    ensures ReadVarint(Varint(value) + tail) == Some(Number(value, |Varint(value)|))
  {
    ReadBack(value, tail, 0, 0);
  }

  /** Cut anywhere before its last octet, a varint is incomplete. */
  lemma {:induction false} VarintCut(value: nat, cut: nat, index: nat, sofar: nat)
    requires cut < |Varint(value)|
    ensures ReadGroups(Varint(value)[..cut], index, sofar).None?
    decreases value
  {
    if cut > 0 {
      assert Varint(value)[..cut][1..] == Varint(value / 128)[..cut - 1];
      var joined := sofar + (Varint(value)[0] % 128) * Pow128(index) % U64;
      VarintCut(value / 128, cut - 1, index + 1, joined);
    }
  }

  /** A number, once read, is not changed by what arrives behind it. */
  lemma {:induction false} GroupsStable(bytes: seq<byte>, more: seq<byte>, index: nat, value: nat)
    requires ReadGroups(bytes, index, value).Some?
    ensures ReadGroups(bytes + more, index, value) == ReadGroups(bytes, index, value)
    ensures index < ReadGroups(bytes, index, value).value.used <= index + |bytes|
    decreases |bytes|
  {
    if bytes[0] >= 128 {
      assert (bytes + more)[1..] == bytes[1..] + more;
      GroupsStable(bytes[1..], more, index + 1, value + (bytes[0] % 128) * Pow128(index) % U64);
    }
  }

  // ------------------------------------------------------------ message headers

  const GRPC_HEADER_MIN: nat := 6

  function PutU32(value: nat): seq<byte>
    requires value < 0x1_0000_0000
  {
    [value / 0x100_0000, value / 0x1_0000 % 256, value / 256 % 256, value % 256]
  }

  lemma {:induction false} FourOctets(a: byte, b: byte, c: byte, d: byte)
    ensures GetBE([a, b, c, d]) == ((a * 256 + b) * 256 + c) * 256 + d
  {
    assert [a, b, c, d][..3] == [a, b, c] && [a, b, c][..2] == [a, b] && [a, b][..1] == [a] && [a][..0] == [];
    assert GetBE([a, b]) == GetBE([a]) * 256 + b;
    assert GetBE([a, b, c]) == GetBE([a, b]) * 256 + c;
  }

  lemma {:induction false} U32Value(value: nat)
    requires value < 0x1_0000_0000
    ensures GetBE(PutU32(value)) == value
  {
    var low := value / 256;
    var mid := low / 256;
    assert value / 0x1_0000 == mid && value / 0x100_0000 == mid / 256;
    FourOctets(mid / 256, mid % 256, low % 256, value % 256);
  }

  /** `00 | u32be(total) | 0A | varint(length)`; the total keeps its low 32 bits. */
  function MessageHeader(length: nat): seq<byte> {
    [0] + PutU32((1 + |Varint(length)| + length) % 0x1_0000_0000) + [0x0A] + Varint(length)
  }

  function Message(payload: seq<byte>): seq<byte> {
    MessageHeader(|payload|) + payload
  }

  /** A message on the wire is uncompressed, its 32-bit length counts everything
      behind it, and what is behind it is one protobuf field: number 1, length
      delimited, holding the payload. */
  lemma {:induction false} MessageIsOneField(payload: seq<byte>)
    requires 1 + |Varint(|payload|)| + |payload| < 0x1_0000_0000
    ensures var message := Message(payload);
      && message[0] == 0
      && GetBE(message[1..5]) == |message| - 5
      && message[5] == 1 * 8 + 2
      && message[6..] == Varint(|payload|) + payload
  {
    var total := 1 + |Varint(|payload|)| + |payload|;
    var field := [0x0A] + (Varint(|payload|) + payload);
    U32Value(total);
    assert Message(payload) == ([0] + PutU32(total)) + field by {
      assert total % 0x1_0000_0000 == total;
    }
    assert ([0] + PutU32(total))[1..5] == PutU32(total);
    assert field[1..] == Varint(|payload|) + payload;
  }

  datatype Header = Header(length: nat, size: nat)

  /** `decode_grpc_header`: payload length and header size, or not yet. */
  function DecodeHeader(head: seq<byte>): Option<Header> {
    if |head| < GRPC_HEADER_MIN then None
    else
      match ReadVarint(head[GRPC_HEADER_MIN..])
      case None => None
      case Some(number) => Some(Header(number.value, GRPC_HEADER_MIN + number.used))
  }

  lemma {:induction false} HeaderStable(head: seq<byte>, more: seq<byte>)
    requires DecodeHeader(head).Some?
    ensures DecodeHeader(head + more) == DecodeHeader(head)
    ensures GRPC_HEADER_MIN < DecodeHeader(head).value.size <= |head|
  {
    assert (head + more)[GRPC_HEADER_MIN..] == head[GRPC_HEADER_MIN..] + more;
    GroupsStable(head[GRPC_HEADER_MIN..], more, 0, 0);
  }

  lemma {:induction false} HeaderRoundTrip(length: nat, behind: seq<byte>)
    requires length < U64
    ensures DecodeHeader(MessageHeader(length) + behind) == Some(Header(length, |MessageHeader(length)|))
  {
    assert (MessageHeader(length) + behind)[GRPC_HEADER_MIN..] == Varint(length) + behind;
    VarintRoundTrip(length, behind);
  }

  /** A header cut short is not yet a header. */
  lemma {:induction false} HeaderCut(length: nat, cut: nat)
    requires cut < |MessageHeader(length)|
    ensures DecodeHeader(MessageHeader(length)[..cut]).None?
  {
    if cut >= GRPC_HEADER_MIN {
      assert MessageHeader(length)[..cut][GRPC_HEADER_MIN..] == Varint(length)[..cut - GRPC_HEADER_MIN];
      VarintCut(length, cut - GRPC_HEADER_MIN, 0, 0);
    }
  }

  /** The longest header: ten groups hold any length. */
  const HEADER_MAX: nat := 16

  /** Ten marked groups where the length should be. */
  ghost predicate Endless(head: seq<byte>) {
    |head| >= HEADER_MAX && forall i :: GRPC_HEADER_MIN <= i < HEADER_MAX ==> head[i] >= 128
  }

  /** No number is read exactly where every group looked at is marked. */
  lemma {:induction false} NoGroups(bytes: seq<byte>, index: nat, value: nat)
    ensures ReadGroups(bytes, index, value).None? <==>
              forall i :: 0 <= i < |bytes| && index + i < 10 ==> bytes[i] >= 128
    decreases |bytes|
  {
    if bytes != [] && index < 10 && bytes[0] >= 128 {
      NoGroups(bytes[1..], index + 1, value + (bytes[0] % 128) * Pow128(index) % U64);
      forall i | 0 <= i < |bytes| - 1
        ensures bytes[1..][i] == bytes[i + 1]
      {
      }
      if forall i :: 0 <= i < |bytes[1..]| && index + 1 + i < 10 ==> bytes[1..][i] >= 128 {
        forall i | 0 <= i < |bytes| && index + i < 10
          ensures bytes[i] >= 128
        {
          assert i == 0 || bytes[i] == bytes[1..][i - 1];
        }
      }
    }
  }

  /** A header of sixteen octets or more is never whole exactly when it is endless,
      and then nothing that arrives behind it helps: the stream says nothing ever
      again, is never refused, and everything that arrives is held. */
  lemma {:induction false} EndlessExactly(head: seq<byte>, more: seq<byte>)
    ensures DecodeHeader(head).None? ==> |head| < HEADER_MAX || Endless(head)
    ensures Endless(head) ==> DecodeHeader(head).None? && Deframe(0, head + more) == Deframed([], 0, head + more)
  {
    NoHeader(head);
    if Endless(head) {
      assert Endless(head + more);
      NoHeader(head + more);
    }
  }

  lemma {:induction false} NoHeader(head: seq<byte>)
    ensures |head| >= HEADER_MAX ==> (DecodeHeader(head).None? <==> Endless(head))
  {
    if |head| >= HEADER_MAX {
      var groups := head[GRPC_HEADER_MIN..];
      NoGroups(groups, 0, 0);
      assert forall i :: 0 <= i < 10 ==> groups[i] == head[i + GRPC_HEADER_MIN];
      assert forall i :: GRPC_HEADER_MIN <= i < HEADER_MAX ==> head[i] == groups[i - GRPC_HEADER_MIN];
    }
  }

  // ------------------------------------------------------------ reference de-framing

  /** What a stream says, how much of the current message is still to come, and
      the octets of a header not yet whole. */
  datatype Deframed = Deframed(bytes: seq<byte>, remaining: nat, head: seq<byte>) {
    function After(before: seq<byte>): Deframed {
      Deframed(before + bytes, remaining, head)
    }
  }

  function Deframe(remaining: nat, stream: seq<byte>): Deframed
    decreases |stream|
  {
    if |stream| <= remaining then Deframed(stream, remaining - |stream|, [])
    else if remaining > 0 then Deframe(0, stream[remaining..]).After(stream[..remaining])
    else
      match DecodeHeader(stream)
      case None => Deframed([], 0, stream)
      case Some(header) =>
        HeaderStable(stream, []);
        Deframe(header.length, stream[header.size..])
  }

  lemma {:induction false} AfterTwice(said: Deframed, outer: seq<byte>, inner: seq<byte>)
    ensures said.After(inner).After(outer) == said.After(outer + inner)
  {
    assert outer + (inner + said.bytes) == (outer + inner) + said.bytes;
  }

  lemma {:induction false} AfterNothing(said: Deframed)
    ensures said.After([]) == said
  {
  }

  /** De-framing a stream in two parts is de-framing it whole. */
  lemma {:induction false} DeframeSplit(remaining: nat, first: seq<byte>, second: seq<byte>)
    ensures var said := Deframe(remaining, first);
            Deframe(remaining, first + second) == Deframe(said.remaining, said.head + second).After(said.bytes)
    decreases |first|
  {
    var said := Deframe(remaining, first);
    var whole := first + second;
    if |first| <= remaining {
      DeframePayload(remaining, first, second);
      assert said.head + second == second;
    } else if remaining > 0 {
      assert whole[remaining..] == first[remaining..] + second;
      assert whole[..remaining] == first[..remaining];
      DeframeSplit(0, first[remaining..], second);
      var tail := Deframe(0, first[remaining..]);
      AfterTwice(Deframe(tail.remaining, tail.head + second), first[..remaining], tail.bytes);
    } else {
      match DecodeHeader(first)
      case None =>
        AfterNothing(Deframe(0, whole));
      case Some(header) =>
        HeaderStable(first, second);
        assert whole[header.size..] == first[header.size..] + second;
        DeframeSplit(header.length, first[header.size..], second);
    }
  }

  /** A part wholly inside the current message is said as it is. */
  lemma {:induction false} DeframePayload(remaining: nat, part: seq<byte>, behind: seq<byte>)
    requires |part| <= remaining
    ensures Deframe(remaining, part + behind) == Deframe(remaining - |part|, behind).After(part)
  {
    var whole := part + behind;
    if |whole| > remaining {
      assert whole[remaining..] == behind[remaining - |part|..];
      assert whole[..remaining] == part + behind[..remaining - |part|];
      if |part| == remaining {
        assert behind[0..] == behind;
      } else {
        AfterTwice(Deframe(0, whole[remaining..]), part, behind[..remaining - |part|]);
      }
    } else if |part| == remaining {
      assert behind == [] && whole == part;
    }
  }

  lemma {:induction false} DeliverPart(remaining: nat, held: seq<byte>, moved: nat, before: seq<byte>)
    requires moved <= remaining && moved <= |held|
    ensures Deframe(remaining, held).After(before)
         == Deframe(remaining - moved, held[moved..]).After(before + held[..moved])
  {
    assert held == held[..moved] + held[moved..];
    DeframePayload(remaining, held[..moved], held[moved..]);
    AfterTwice(Deframe(remaining - moved, held[moved..]), before, held[..moved]);
  }

  /** A whole message says its payload and leaves a header to follow. */
  lemma {:induction false} DeframeMessage(payload: seq<byte>, behind: seq<byte>)
    requires |payload| < U64
    ensures Deframe(0, Message(payload) + behind) == Deframe(0, behind).After(payload)
  {
    var header := MessageHeader(|payload|);
    var stream := Message(payload) + behind;
    assert stream == header + (payload + behind);
    HeaderRoundTrip(|payload|, payload + behind);
    assert stream[|header|..] == payload + behind;
    DeframePayload(|payload|, payload, behind);
  }

  /** Any list of messages, empty ones included, says the concatenated payloads. */
  lemma {:induction false} DeframeMessages(payloads: seq<seq<byte>>, wire: seq<seq<byte>>)
    requires |wire| == |payloads|
    requires forall i :: 0 <= i < |wire| ==> |payloads[i]| < U64 && wire[i] == Message(payloads[i])
    ensures Deframe(0, Flatten(wire)) == Deframed(Flatten(payloads), 0, [])
    decreases |wire|
  {
    if wire != [] {
      DeframeMessages(payloads[1..], wire[1..]);
      DeframeMessage(payloads[0], Flatten(wire[1..]));
    }
  }

  /** A body that stops inside a message says the payloads before it and what it has
      of this one. The reader is told a clean end all the same, so the end hides a
      cut message exactly when octets of it are owed or some of its header is held:
      when the body stops strictly inside it. */
  lemma {:induction false} CutMessage(payloads: seq<seq<byte>>, wire: seq<seq<byte>>, payload: seq<byte>, cut: nat)
    requires |wire| == |payloads| && |payload| < U64 && cut <= |Message(payload)|
    requires forall i :: 0 <= i < |wire| ==> |payloads[i]| < U64 && wire[i] == Message(payloads[i])
    ensures var said, size := Deframe(0, Flatten(wire) + Message(payload)[..cut]), |MessageHeader(|payload|)|;
      && said.bytes == Flatten(payloads) + (if cut < size then [] else payload[..cut - size])
      && (said.remaining > 0 || said.head != [] <==> 0 < cut < |Message(payload)|)
  {
    var part := Message(payload)[..cut];
    DeframeMessages(payloads, wire);
    DeframeSplit(0, Flatten(wire), part);
    assert [] + part == part;
    CutAlone(payload, cut);
  }

  lemma {:induction false} CutAlone(payload: seq<byte>, cut: nat)
    requires |payload| < U64 && cut <= |Message(payload)|
    ensures var size := |MessageHeader(|payload|)|;
      Deframe(0, Message(payload)[..cut]) ==
        if cut < size then Deframed([], 0, Message(payload)[..cut])
        else Deframed(payload[..cut - size], |payload| - (cut - size), [])
  {
    var header := MessageHeader(|payload|);
    var part := Message(payload)[..cut];
    if cut < |header| {
      assert part == header[..cut];
      HeaderCut(|payload|, cut);
    } else {
      assert part == header + payload[..cut - |header|];
      HeaderRoundTrip(|payload|, payload[..cut - |header|]);
      assert part[|header|..] == payload[..cut - |header|];
    }
  }

  /** What is held goes on to say what the whole stream does. */
  lemma {:induction false} DataJoins(received: seq<byte>, remaining: nat, head: seq<byte>, bytes: seq<byte>, delivered: seq<byte>)
    requires Deframe(0, received) == Deframe(remaining, head).After(delivered)
    ensures Deframe(0, received + bytes) == Deframe(remaining, head + bytes).After(delivered)
  {
    DeframeSplit(0, received, bytes);
    DeframeSplit(remaining, head, bytes);
    var now := Deframe(remaining, head);
    AfterTwice(Deframe(now.remaining, now.head + bytes), delivered, now.bytes);
  }

  /** Of a stream made of messages no more than a header is ever held back. */
  lemma {:induction false} HonestHeadIsShort(
      payloads: seq<seq<byte>>, wire: seq<seq<byte>>, first: seq<byte>, second: seq<byte>)
    requires |wire| == |payloads| && first + second == Flatten(wire)
    requires forall i :: 0 <= i < |wire| ==> |payloads[i]| < U64 && wire[i] == Message(payloads[i])
    ensures |Deframe(0, first).head| < HEADER_MAX
  {
    var held := Deframe(0, first);
    HeldHead(0, first);
    DeframeMessages(payloads, wire);
    DeframeSplit(0, first, second);
    EndlessExactly(held.head, second);
  }

  /** What is held back as a header is none yet. */
  lemma {:induction false} HeldHead(remaining: nat, stream: seq<byte>)
    ensures var held := Deframe(remaining, stream);
            DecodeHeader(held.head).None? && (held.remaining > 0 ==> held.head == [])
    decreases |stream|
  {
    if |stream| > remaining {
      if remaining > 0 {
        HeldHead(0, stream[remaining..]);
      } else if DecodeHeader(stream).Some? {
        var header := DecodeHeader(stream).value;
        HeaderStable(stream, []);
        HeldHead(header.length, stream[header.size..]);
      }
    }
  }

  // ------------------------------------------------------------ the stream

  datatype Framing = Raw | Grpc

  datatype Response = Answered(status: nat) | Unanswered | NoAnswer(kind: nat)

  datatype Body = Data(bytes: seq<byte>) | NotYet | Broken(kind: nat)

  datatype Recv = Awaiting | Reading | Done

  datatype Poll = Ready(bytes: seq<byte>) | Pending | Failed

  /** Everything the DATA frames of a script carry. */
  function Carried(frames: seq<Body>): seq<byte> {
    if frames == [] then []
    else (if frames[0].Data? then frames[0].bytes else []) + Carried(frames[1..])
  }

  ghost predicate AllData(frames: seq<Body>) {
    forall i :: 0 <= i < |frames| ==> frames[i].Data?
  }

  ghost predicate AllPositive(capacities: seq<nat>) {
    forall i :: 0 <= i < |capacities| ==> capacities[i] > 0
  }

  /** The receive half of one HTTP/2 stream, answered by two scripts: how the
      response head arrives, and how the body does until it ends. */
  class H2Stream {
    const framing: Framing
    var response: seq<Response>
    var frames: seq<Body>
    var recv: Recv
    var pending: seq<byte>
    var remaining: nat
    var head: seq<byte>

    /** History: all DATA octets taken and all octets handed to the reader. */
    ghost var received: seq<byte>
    ghost var delivered: seq<byte>

    /** What the octets taken so far say. */
    ghost function Says(): Deframed
      reads this
    {
      if framing.Raw? then Deframed(received, 0, []) else Deframe(0, received)
    }

    /** What the octets still held will say. */
    ghost function Ahead(): Deframed
      reads this
    {
      if framing.Raw? then Deframed(pending, 0, []) else Deframe(remaining, head + pending)
    }

    ghost predicate Valid()
      reads this
    {
      && (framing.Raw? ==> head == [] && remaining == 0)
      && (remaining > 0 ==> head == [])
      && (pending != [] ==> head == [])
      && Says() == Ahead().After(delivered)
    }

    constructor (framing: Framing, response: seq<Response>, frames: seq<Body>)
      ensures Valid() && received == [] && delivered == [] && recv.Awaiting?
      ensures this.framing == framing && this.frames == frames && this.response == response
    {
      this.framing := framing;
      this.response := response;
      this.frames := frames;
      recv := Awaiting;
      pending, remaining, head := [], 0, [];
      received, delivered := [], [];
    }

    function Deliverable(): nat
      reads this
    {
      if framing.Raw? then |pending| else Min(remaining, |pending|)
    }

    /** Hands over payload octets of the current message. */
    method Deliver(capacity: nat) returns (bytes: seq<byte>)
      requires Valid() && Deliverable() > 0
      modifies `pending, `remaining, `delivered
      ensures Valid()
      ensures |bytes| == Min(capacity, old(Deliverable())) && delivered == old(delivered) + bytes
    {
      var moved := Min(capacity, Deliverable());
      bytes := pending[..moved];
      if framing.Grpc? {
        DeliverPart(remaining, pending, moved, delivered);
        assert head + pending == pending && head + pending[moved..] == pending[moved..];
      } else {
        assert delivered + pending == (delivered + bytes) + pending[moved..];
      }
      pending := pending[moved..];
      remaining := Max(remaining - moved, 0);
      delivered := delivered + bytes;
    }

    /** Takes a message header off the held octets once it is whole. */
    method TakeHeader() returns (taken: bool)
      requires Valid() && framing.Grpc? && remaining == 0
      modifies `pending, `remaining, `head
      ensures Valid()
      ensures taken ==> |head| + |pending| < |old(head)| + |old(pending)|
      ensures !taken ==> remaining == 0 && pending == [] && Ahead().bytes == [] && HeadBounded()
    {
      head := head + pending;
      pending := [];
      assert head + pending == head;
      match DecodeHeader(head)
      case None =>
        EndlessExactly(head, []);
        return false;
      case Some(header) =>
        HeaderStable(head, []);
        remaining := header.length;
        pending := head[header.size..];
        head := [];
        assert head + pending == pending;
        return true;
    }

    /** Takes one DATA frame: into the header while one is owed, else as payload. */
    method TakeData(bytes: seq<byte>)
      requires Valid() && pending == []
      modifies `pending, `head, `received
      ensures Valid() && received == old(received) + bytes
    {
      if framing.Grpc? {
        assert head + pending == head;
        DataJoins(received, remaining, head, bytes, delivered);
      }
      received := received + bytes;
      if framing.Grpc? && remaining == 0 {
        head := head + bytes;
        assert head + pending == head;
      } else {
        pending := bytes;
        assert head + pending == bytes;
      }
    }

    /** Awaits the response head; anything but a 200 ends the stream. */
    method AwaitResponse() returns (stop: Option<Poll>)
      requires recv.Awaiting?
      modifies `response, `recv
      ensures response == if old(response) == [] then [] else old(response)[1..]
      ensures var answer := if old(response) == [] then Unanswered else old(response)[0];
              if answer.Unanswered? then stop == Some(Pending) && recv.Awaiting?
              else if answer == Answered(200) then stop.None? && recv.Reading?
              else stop == Some(Failed) && recv.Done?
    {
      if response == [] {
        return Some(Pending);
      }
      var answer := response[0];
      response := response[1..];
      match answer
      case Unanswered =>
        return Some(Pending);
      case NoAnswer(_) =>
        recv := Done;
        return Some(Failed);
      case Answered(status) =>
        if status != 200 {
          recv := Done;
          return Some(Failed);
        }
        recv := Reading;
        return None;
    }

    /** The next DATA frame, or why there is none; the body ends with its script. */
    method PollData() returns (stop: Option<Poll>)
      requires Valid() && pending == []
      modifies `frames, `pending, `head, `received
      ensures Valid()
      ensures received + Carried(frames) == old(received) + Carried(old(frames))
      ensures frames == if old(frames) == [] then [] else old(frames)[1..]
      ensures stop.Some? ==> received == old(received) && pending == [] && head == old(head)
      ensures stop == if old(frames) == [] then Some(Ready([]))
                      else if old(frames)[0].NotYet? then Some(Pending)
                      else if old(frames)[0].Broken? then Some(Failed) else None
    {
      if frames == [] {
        return Some(Ready([]));
      }
      var next := frames[0];
      frames := frames[1..];
      match next
      case NotYet =>
        return Some(Pending);
      case Broken(_) =>
        return Some(Failed);
      case Data(bytes) =>
        assert received + (bytes + Carried(frames)) == (received + bytes) + Carried(frames);
        TakeData(bytes);
        return None;
    }

    /** What is held of a header is less than a whole one, unless it is endless. */
    ghost predicate HeadBounded()
      reads this
    {
      framing.Grpc? && remaining == 0 ==> |head| < HEADER_MAX || Endless(head)
    }

    /** The response is a 200 and the body keeps nobody waiting. */
    ghost predicate Steady()
      reads `response, `frames, `recv
    {
      && (recv.Reading? || (recv.Awaiting? && response != [] && response[0] == Answered(200)))
      && AllData(frames)
    }

    /** An answer that is not payload means nothing sayable is withheld, and an
        end of stream means the body ended or the response was refused. */
    ghost predicate Tells(poll: Poll, capacity: nat)
      reads this
    {
      && (!poll.Ready? || (poll.bytes == [] && capacity > 0) ==> delivered == Says().bytes && HeadBounded())
      && (poll == Ready([]) && capacity > 0 ==> frames == [] || recv.Done?)
    }

    /** One turn of the read loop when no payload octet waits. */
    method Turn(capacity: nat) returns (stop: Option<Poll>)
      requires Valid() && Deliverable() == 0
      modifies `response, `frames, `recv, `pending, `remaining, `head, `received
      ensures Valid()
      ensures received + Carried(frames) == old(received) + Carried(old(frames))
      ensures stop.None? ==> Decreased(old(frames), frames, old(response), response, |old(head) + old(pending)|, |head + pending|)
      ensures stop.Some? ==> Tells(stop.value, capacity) && (stop.value.Ready? ==> stop.value.bytes == [])
      ensures old(Steady()) ==> Steady() && (stop.Some? ==> stop.value.Ready? && recv.Reading?)
    {
      if framing.Grpc? && remaining == 0 {
        var taken := TakeHeader();
        if taken {
          return None;
        }
      }
      assert pending == [] && Ahead().bytes == [];
      assert delivered + [] == delivered;
      match recv
      case Done =>
        return Some(Ready([]));
      case Awaiting =>
        stop := AwaitResponse();
      case Reading =>
        stop := PollData();
    }

    static ghost predicate Decreased(frames: seq<Body>, frames': seq<Body>, response: seq<Response>, response': seq<Response>,
                                     held: nat, held': nat)
    {
      || |frames'| < |frames|
      || (|frames'| == |frames| && |response'| < |response|)
      || (|frames'| == |frames| && |response'| == |response| && held' < held)
    }

    /** One `poll_read`. */
    method PollRead(capacity: nat) returns (poll: Poll)
      requires Valid()
      modifies this
      ensures Valid()
      ensures received + Carried(frames) == old(received) + Carried(old(frames))
      ensures delivered == old(delivered) + (if poll.Ready? then poll.bytes else [])
      ensures poll.Ready? ==> |poll.bytes| <= capacity
      ensures Tells(poll, capacity)
      ensures old(Steady()) ==> Steady() && poll.Ready? && (poll.bytes == [] && capacity > 0 ==> recv.Reading?)
    {
      ghost var whole := received + Carried(frames);
      while true
        invariant old(Steady()) ==> Steady()
        invariant Valid() && received + Carried(frames) == whole && delivered == old(delivered)
        decreases |frames|, |response|, |head + pending|
      {
        if Deliverable() > 0 {
          var bytes := Deliver(capacity);
          return Ready(bytes);
        }
        var stop := Turn(capacity);
        if stop.Some? {
          return stop.value;
        }
      }
    }
  }

  /** A whole download: however the messages are cut into DATA frames and
      however small the reads, the reader hears the concatenated payloads and
      nothing else, and all of them once the stream has ended. While the stream
      does not keep it waiting, every read brings something until it ends. */
  method Download(ghost payloads: seq<seq<byte>>, ghost wire: seq<seq<byte>>,
                  response: seq<Response>, frames: seq<Body>, capacities: seq<nat>)
    returns (said: seq<byte>, ended: bool)
    requires |wire| == |payloads|
    requires forall i :: 0 <= i < |wire| ==> |payloads[i]| < U64 && wire[i] == Message(payloads[i])
    requires Carried(frames) == Flatten(wire)
    ensures said <= Flatten(payloads)
    ensures ended ==> said == Flatten(payloads)
    ensures response == [Answered(200)] && AllData(frames) && AllPositive(capacities) ==> ended || |said| >= |capacities|
  {
    DeframeMessages(payloads, wire);
    var stream := new H2Stream(Framing.Grpc, response, frames);
    said, ended := [], false;
    for i := 0 to |capacities|
      invariant stream.Valid() && stream.framing.Grpc?
      invariant stream.received + Carried(stream.frames) == Flatten(wire)
      invariant stream.delivered == said
      invariant response == [Answered(200)] && AllData(frames) ==> stream.Steady()
      invariant response == [Answered(200)] && AllData(frames) && AllPositive(capacities) ==> |said| >= i
    {
      var poll := stream.PollRead(capacities[i]);
      if poll.Ready? {
        said := said + poll.bytes;
        if poll.bytes == [] && capacities[i] > 0 && stream.recv.Reading? {
          assert stream.received == Flatten(wire);
          return said, true;
        }
      }
    }
    DeframeSplit(0, stream.received, Carried(stream.frames));
  }
}
