/**
 * Hysteria2 datagrams: a payload cut into self-describing pieces that fit a
 * QUIC DATAGRAM frame, and the reassembly of pieces that arrive in any order,
 * repeated, and among other traffic.
 */
module Hysteria2 {
  import opened Bytes

  const MAX_MESSAGE_LEN: nat := 2048
  const UDP_FIXED: nat := 8

  // ------------------------------------------------------------ QUIC varints

  /** Width of a variable-length integer (RFC 9000 section 16). */
  function VarintLen(value: nat): nat {
    if value < 0x40 then 1 else if value < 0x4000 then 2 else if value < 0x4000_0000 then 4 else 8
  }

  function Tag(width: nat): nat {
    if width == 1 then 0 else if width == 2 then 1 else if width == 4 then 2 else 3
  }

  function TaggedWidth(tag: nat): nat {
    if tag == 0 then 1 else if tag == 1 then 2 else if tag == 2 then 4 else 8
  }

  /** The weight of the first octet of a number this wide. */
  function Low(width: nat): (low: nat)
    ensures low > 0
  {
    if width == 1 then 1 else if width == 2 then 0x100 else if width == 4 then 0x100_0000 else 0x100_0000_0000_0000
  }

  lemma {:induction false} LowIsPower(tag: nat)
    requires tag < 4
    ensures Low(TaggedWidth(tag)) == Pow256(TaggedWidth(tag) - 1)
  {
    assert Pow256(1) == 0x100 && Pow256(3) == 0x100_0000;
    assert Pow256(5) == 0x100_0000_0000 && Pow256(7) == 0x100_0000_0000_0000;
  }

  /** The two top bits of the first octet name the width; the rest is the value. */
  function Varint(value: nat): seq<byte>
    requires value < 0x4000_0000_0000_0000
  {
    var width := VarintLen(value);
    [Tag(width) * 64 + value / Low(width)] + PutBE(value % Low(width), width - 1)
  }

  datatype Number = Number(value: nat, used: nat)

  function ReadVarint(bytes: seq<byte>): Option<Number> {
    if bytes == [] then None
    else
      var width := TaggedWidth(bytes[0] / 64);
      if |bytes| < width then None
      else Some(Number((bytes[0] % 64) * Low(width) + GetBE(bytes[1..width]), width))
  }

  lemma {:induction false} ReadTagged(tag: nat, top: nat, rest: nat, behind: seq<byte>)
    requires tag < 4 && top < 64 && rest < Low(TaggedWidth(tag))
    ensures var width := TaggedWidth(tag);
            var bytes: seq<byte> := [tag * 64 + top] + PutBE(rest, width - 1) + behind;
            ReadVarint(bytes) == Some(Number(top * Low(width) + rest, width))
  {
    var width := TaggedWidth(tag);
    var bytes: seq<byte> := [tag * 64 + top] + PutBE(rest, width - 1) + behind;
    TagSplits(tag, top);
    assert bytes[1..width] == PutBE(rest, width - 1);
    LowIsPower(tag);
    BigEndianRoundTrip(rest, width - 1);
  }

  lemma {:induction false} VarintRoundTrip(value: nat, behind: seq<byte>)
    requires value < 0x4000_0000_0000_0000
    ensures |Varint(value)| == VarintLen(value)
    ensures ReadVarint(Varint(value) + behind) == Some(Number(value, VarintLen(value)))
  {
    var width := VarintLen(value);
    DivisionSplits(value, Low(width));
    ReadTagged(Tag(width), value / Low(width), value % Low(width), behind);
  }

  lemma {:induction false} TagSplits(tag: nat, top: nat)
    requires tag < 4 && top < 64
    ensures (tag * 64 + top) / 64 == tag && (tag * 64 + top) % 64 == top
  {
  }

  lemma {:induction false} DivisionSplits(value: nat, divisor: nat)
    requires divisor > 0
    ensures value == (value / divisor) * divisor + value % divisor
    ensures value % divisor < divisor
  {
  }

  lemma {:induction false} QuotientIs(value: nat, divisor: nat, quotient: nat, remainder: nat)
    requires divisor > 0 && value == divisor * quotient + remainder && remainder < divisor
    ensures value / divisor == quotient
  {
    DivisionSplits(value, divisor);
    var q := value / divisor;
    assert q < quotient ==> divisor * (q + 1) <= divisor * quotient;
    assert q > quotient ==> divisor * (quotient + 1) <= divisor * q;
  }

  // ------------------------------------------------------------ messages

  /** One message; one piece of a datagram when there are several fragments. */
  datatype UdpMessage = UdpMessage(session: nat, packet: nat, fragment: nat, fragments: nat,
                                   address: seq<byte>, payload: seq<byte>)

  ghost predicate Encodable(message: UdpMessage) {
    && message.session < 0x1_0000_0000 && message.packet < 0x1_0000
    && message.fragment < 256 && message.fragments < 256
    && |message.address| < 0x4000_0000_0000_0000
  }

  function HeaderLen(address: seq<byte>): nat {
    UDP_FIXED + VarintLen(|address|) + |address|
  }

  function Write(message: UdpMessage): seq<byte>
    requires Encodable(message)
  {
    PutBE(message.session, 4) + PutBE(message.packet, 2) + [message.fragment, message.fragments]
    + Varint(|message.address|) + message.address + message.payload
  }

  /** `UdpMessage::read`; UTF-8 validity of the address is a library's verdict. */
  function Read(utf8: seq<byte> -> bool, bytes: seq<byte>): Option<UdpMessage> {
    if |bytes| < UDP_FIXED then None
    else
      match ReadVarint(bytes[UDP_FIXED..])
      case None => None
      case Some(length) =>
        var start := UDP_FIXED + length.used;
        if length.value == 0 || length.value > MAX_MESSAGE_LEN || |bytes| <= start + length.value then None
        else if !utf8(bytes[start..start + length.value]) then None
        else Some(UdpMessage(GetBE(bytes[..4]), GetBE(bytes[4..6]), bytes[6], bytes[7],
                             bytes[start..start + length.value], bytes[start + length.value..]))
  }

  /** A message with an address and a payload reads back as it was written. */
  lemma {:induction false} MessageRoundTrip(utf8: seq<byte> -> bool, message: UdpMessage)
    requires Encodable(message) && utf8(message.address)
    requires 0 < |message.address| <= MAX_MESSAGE_LEN && message.payload != []
    ensures Read(utf8, Write(message)) == Some(message)
    ensures |Write(message)| == HeaderLen(message.address) + |message.payload|
  {
    var session, packet := PutBE(message.session, 4), PutBE(message.packet, 2);
    assert Pow256(4) == 0x1_0000_0000 && Pow256(2) == 0x1_0000;
    BigEndianRoundTrip(message.session, 4);
    BigEndianRoundTrip(message.packet, 2);
    VarintRoundTrip(|message.address|, message.address + message.payload);
    Layout(session, packet, [message.fragment, message.fragments], Varint(|message.address|), message.address, message.payload);
  }

  /** Where each part of a message lies. */
  lemma {:induction false} Layout(
      session: seq<byte>, packet: seq<byte>, counts: seq<byte>, length: seq<byte>, address: seq<byte>, payload: seq<byte>)
    requires |session| == 4 && |packet| == |counts| == 2
    ensures var bytes, start := session + packet + counts + length + address + payload, UDP_FIXED + |length|;
      && bytes[..4] == session && bytes[4..6] == packet && bytes[6] == counts[0] && bytes[7] == counts[1]
      && bytes[UDP_FIXED..] == length + (address + payload)
      && bytes[start..start + |address|] == address && bytes[start + |address|..] == payload
  {
  }

  // ------------------------------------------------------------ fragmentation

  /** `payload.chunks(budget)`, with one empty chunk for an empty payload. */
  function Chunks(payload: seq<byte>, budget: nat): seq<seq<byte>>
    requires budget > 0
    decreases |payload|
  {
    if |payload| <= budget then [payload]
    else [payload[..budget]] + Chunks(payload[budget..], budget)
  }

  /** The chunks are the payload, each within the budget, none of them empty. */
  lemma {:induction false} ChunksCover(payload: seq<byte>, budget: nat)
    requires budget > 0
    ensures Flatten(Chunks(payload, budget)) == payload
    ensures forall i :: 0 <= i < |Chunks(payload, budget)| ==>
              |Chunks(payload, budget)[i]| <= budget && (payload != [] ==> Chunks(payload, budget)[i] != [])
    decreases |payload|
  {
    if |payload| > budget {
      ChunksCover(payload[budget..], budget);
      assert Chunks(payload, budget)[1..] == Chunks(payload[budget..], budget);
    } else {
      assert Flatten([payload]) == payload + Flatten([payload][1..]);
    }
  }

  /** `payload.len().div_ceil(budget).max(1)` is the number of chunks. */
  lemma {:induction false} CountChunks(payload: seq<byte>, budget: nat)
    requires budget > 0
    ensures |Chunks(payload, budget)| == Max((|payload| + budget - 1) / budget, 1)
    decreases |payload|
  {
    var length := |payload|;
    if length > budget {
      CountChunks(payload[budget..], budget);
      CeilStep(length, budget);
    } else if length > 0 {
      CeilOne(length, budget);
    } else {
      QuotientIs(budget - 1, budget, 0, budget - 1);
    }
  }

  lemma {:induction false} CeilStep(length: nat, budget: nat)
    requires 0 < budget < length
    ensures (length + budget - 1) / budget == (length - budget + budget - 1) / budget + 1
    ensures (length - budget + budget - 1) / budget >= 1
  {
    var below := length - 1;
    DivisionSplits(below, budget);
    var quotient := below / budget;
    assert below + budget == budget * (quotient + 1) + below % budget;
    QuotientIs(below + budget, budget, quotient + 1, below % budget);
    if quotient == 0 {
      assert false;
    }
  }

  lemma {:induction false} CeilOne(length: nat, budget: nat)
    requires 0 < length <= budget
    ensures (length + budget - 1) / budget == 1
  {
    QuotientIs(length - 1 + budget, budget, 1, length - 1);
  }

  method CountOf(payload: seq<byte>, budget: nat) returns (count: nat)
    requires budget > 0
    ensures count == |Chunks(payload, budget)|
  {
    CountChunks(payload, budget);
    count := Max((|payload| + budget - 1) / budget, 1);
  }

  /** The piece of a datagram at `index`. */
  function Piece(session: nat, packet: nat, address: seq<byte>, chunks: seq<seq<byte>>, index: nat): UdpMessage
    requires index < |chunks|
  {
    UdpMessage(session, packet, index, |chunks|, address, chunks[index])
  }

  method Pieces(session: nat, packet: nat, address: seq<byte>, chunks: seq<seq<byte>>, count: nat)
    returns (pieces: seq<UdpMessage>)
    requires count == |chunks|
    ensures |pieces| == |chunks|
    ensures forall i :: 0 <= i < |chunks| ==> pieces[i] == Piece(session, packet, address, chunks, i)
  {
    pieces := [];
    for index := 0 to |chunks|
      invariant |pieces| == index
      invariant forall i :: 0 <= i < index ==> pieces[i] == Piece(session, packet, address, chunks, i)
    {
      pieces := pieces + [UdpMessage(session, packet, index, count, address, chunks[index])];
    }
  }

  /** `fragment`: messages of at most `frame` octets, or nothing when the header
      leaves no room or the pieces outnumber a `u8`. */
  method Fragment(session: nat, packet: nat, address: seq<byte>, payload: seq<byte>, frame: nat)
    returns (pieces: Option<seq<UdpMessage>>)
    ensures pieces.Some? <==> HeaderLen(address) < frame
                              && |Chunks(payload, frame - HeaderLen(address))| < 256
    ensures pieces.Some? ==>
              var chunks := Chunks(payload, frame - HeaderLen(address));
              && |pieces.value| == |chunks|
              && (forall i :: 0 <= i < |chunks| ==> pieces.value[i] == Piece(session, packet, address, chunks, i))
  {
    if frame <= HeaderLen(address) {
      return None;
    }
    var budget := frame - HeaderLen(address);
    var count := CountOf(payload, budget);
    if count > 255 {
      return None;
    }
    var chunks := Chunks(payload, budget);
    var out := Pieces(session, packet, address, chunks, count);
    return Some(out);
  }

  /** Every piece of a non-empty payload fits the frame and reads back as itself. */
  lemma {:induction false} PieceFits(utf8: seq<byte> -> bool, session: nat, packet: nat, address: seq<byte>,
                                    payload: seq<byte>, frame: nat, index: nat)
    requires session < 0x1_0000_0000 && packet < 0x1_0000 && payload != []
    requires 0 < |address| <= MAX_MESSAGE_LEN && utf8(address) && HeaderLen(address) < frame
    requires index < |Chunks(payload, frame - HeaderLen(address))| < 256
    ensures var chunks := Chunks(payload, frame - HeaderLen(address));
            var piece := Piece(session, packet, address, chunks, index);
            Encodable(piece) && |Write(piece)| <= frame && Read(utf8, Write(piece)) == Some(piece)
  {
    var chunks := Chunks(payload, frame - HeaderLen(address));
    ChunksCover(payload, frame - HeaderLen(address));
    MessageRoundTrip(utf8, Piece(session, packet, address, chunks, index));
  }

  // ------------------------------------------------------------ reassembly, in terms of messages

  predicate IsPiece(message: UdpMessage) {
    message.fragments > 1 && message.fragment < message.fragments
  }

  predicate SameDatagram(a: UdpMessage, b: UdpMessage) {
    a.packet == b.packet && a.fragments == b.fragments
  }

  /** The payload of the last message of `group` with this index. */
  ghost function Latest(group: seq<UdpMessage>, index: nat): Option<seq<byte>> {
    if group == [] then None
    else
      var last := group[|group| - 1];
      if last.fragment == index then Some(last.payload) else Latest(group[..|group| - 1], index)
  }

  ghost predicate Complete(group: seq<UdpMessage>, count: nat) {
    forall index :: 0 <= index < count ==> Latest(group, index).Some?
  }

  ghost function Parts(group: seq<UdpMessage>, count: nat): (parts: seq<seq<byte>>)
    requires Complete(group, count)
    ensures |parts| == count
    ensures forall index :: 0 <= index < count ==> Some(parts[index]) == Latest(group, index)
  {
    seq(count, index requires 0 <= index < count => Latest(group, index).value)
  }

  ghost function Assembled(group: seq<UdpMessage>, count: nat): seq<byte>
    requires Complete(group, count)
  {
    Flatten(Parts(group, count))
  }

  function Values(slots: seq<Option<seq<byte>>>): (values: seq<seq<byte>>)
    requires None !in slots
    ensures |values| == |slots|
    ensures forall index :: 0 <= index < |slots| ==> Some(values[index]) == slots[index]
  {
    assert forall index :: 0 <= index < |slots| ==> slots[index] in slots && slots[index].Some?;
    seq(|slots|, index requires 0 <= index < |slots| && slots[index].Some? => slots[index].value)
  }

  /** A piece joins the pieces of its own datagram, or starts over without others. */
  ghost function Joined(group: seq<UdpMessage>, piece: UdpMessage): seq<UdpMessage> {
    if group != [] && SameDatagram(group[0], piece) then group + [piece] else [piece]
  }

  /** The pieces still waiting for the rest of their datagram after the first
      `n` messages. */
  ghost function Group(history: seq<UdpMessage>, n: nat): seq<UdpMessage>
    requires n <= |history|
  {
    if n == 0 then []
    else
      var before := Group(history, n - 1);
      var message := history[n - 1];
      if !IsPiece(message) then before
      else
        var joined := Joined(before, message);
        if Complete(joined, message.fragments) then [] else joined
  }

  /** What a message completes, given the messages before it. */
  ghost function Yielded(history: seq<UdpMessage>, n: nat, message: UdpMessage): Option<seq<byte>>
    requires n <= |history|
  {
    if message.fragments <= 1 then Some(message.payload)
    else if !IsPiece(message) then None
    else
      var joined := Joined(Group(history, n), message);
      if Complete(joined, message.fragments) then Some(Assembled(joined, message.fragments)) else None
  }

  lemma {:induction false} GroupStable(history: seq<UdpMessage>, more: seq<UdpMessage>, n: nat)
    requires n <= |history|
    ensures Group(history + more, n) == Group(history, n)
    decreases n
  {
    if n > 0 {
      GroupStable(history, more, n - 1);
    }
  }

  ghost predicate Uniform(group: seq<UdpMessage>) {
    forall i :: 0 <= i < |group| ==> IsPiece(group[i]) && SameDatagram(group[0], group[i])
  }

  lemma {:induction false} JoinedUniform(group: seq<UdpMessage>, piece: UdpMessage)
    requires Uniform(group) && IsPiece(piece)
    ensures Uniform(Joined(group, piece)) && SameDatagram(Joined(group, piece)[0], piece)
    ensures forall index :: Latest(Joined(group, piece), index)
              == if index == piece.fragment then Some(piece.payload)
                 else if group != [] && SameDatagram(group[0], piece) then Latest(group, index) else None
  {
    var joined := Joined(group, piece);
    assert joined[..|joined| - 1] == if group != [] && SameDatagram(group[0], piece) then group else [];
  }

  /** Pieces being assembled all belong to one datagram, and are incomplete. */
  lemma {:induction false} GroupUniform(history: seq<UdpMessage>, n: nat)
    requires n <= |history|
    ensures Uniform(Group(history, n))
    ensures var group := Group(history, n); group != [] ==> !Complete(group, group[0].fragments)
    decreases n
  {
    if n > 0 {
      GroupUniform(history, n - 1);
      if IsPiece(history[n - 1]) {
        JoinedUniform(Group(history, n - 1), history[n - 1]);
      }
    }
  }

  // ------------------------------------------------------------ the reassembler

  class Defragmenter {
    var packet: nat
    var fragments: nat
    var held: seq<Option<seq<byte>>>

    /** Every message pushed so far. */
    ghost var history: seq<UdpMessage>

    /** The slots hold the latest payload of each piece still waiting. */
    ghost predicate Valid()
      reads this
    {
      var group := Group(history, |history|);
      if group == [] then fragments == 0 && held == []
      else
        && packet == group[0].packet && fragments == group[0].fragments > 1 && |held| == fragments
        && (forall index :: 0 <= index < |held| ==> held[index] == Latest(group, index))
    }

    constructor ()
      ensures Valid() && history == []
    {
      packet, fragments, held, history := 0, 0, [], [];
    }

    /** Puts a piece in its slot, after clearing the slots of another datagram. */
    method Store(message: UdpMessage)
      requires Valid() && IsPiece(message)
      modifies `packet, `fragments, `held
      ensures packet == message.packet && fragments == message.fragments == |held|
      ensures forall index :: 0 <= index < |held| ==>
                held[index] == Latest(Joined(Group(history, |history|), message), index)
    {
      GroupUniform(history, |history|);
      JoinedUniform(Group(history, |history|), message);
      if packet != message.packet || fragments != message.fragments {
        packet := message.packet;
        fragments := message.fragments;
        held := seq(message.fragments, index => None);
      }
      held := held[message.fragment := Some(message.payload)];
    }

    /** `Defragmenter::push`: a payload exactly when the messages so far complete one. */
    method Push(message: UdpMessage) returns (whole: Option<seq<byte>>)
      requires Valid()
      modifies this
      ensures Valid() && history == old(history) + [message]
      ensures whole == Yielded(old(history), |old(history)|, message)
    {
      ghost var before := history;
      GroupStable(before, [message], |before|);
      if !IsPiece(message) {
        history := history + [message];
        return if message.fragments <= 1 then Some(message.payload) else None;
      }
      Store(message);
      GroupUniform(before, |before|);
      JoinedUniform(Group(before, |before|), message);
      history := history + [message];
      ghost var joined := Joined(Group(before, |before|), message);
      if None in held {
        var index :| 0 <= index < |held| && held[index] == None;
        assert !Complete(joined, message.fragments);
        return None;
      }
      SlotsFilled(held, joined, message.fragments);
      whole := Some(Flatten(Values(held)));
      held := [];
      fragments := 0;
    }
  }

  lemma {:induction false} SlotsFilled(slots: seq<Option<seq<byte>>>, group: seq<UdpMessage>, count: nat)
    requires |slots| == count && None !in slots
    requires forall index :: 0 <= index < count ==> slots[index] == Latest(group, index)
    ensures Complete(group, count) && Values(slots) == Parts(group, count)
  {
    forall index | 0 <= index < count
      ensures Latest(group, index).Some?
    {
      assert slots[index] in slots;
    }
  }

  // ------------------------------------------------------------ what reassembly promises

  /** A message of the run that carried this part of the datagram of `last`. */
  ghost predicate Carried(history: seq<UdpMessage>, n: nat, last: UdpMessage, index: nat, part: seq<byte>)
    requires n <= |history|
  {
    || (last.fragment == index && last.payload == part)
    || (exists i :: 0 <= i < n && SameDatagram(history[i], last) && history[i].fragment == index && history[i].payload == part)
  }

  lemma {:induction false} LatestWasSent(history: seq<UdpMessage>, n: nat, index: nat)
    requires n <= |history| && Latest(Group(history, n), index).Some?
    ensures exists i :: 0 <= i < n && SameDatagram(history[i], Group(history, n)[0])
              && history[i].fragment == index && history[i].payload == Latest(Group(history, n), index).value
    decreases n
  {
    var message := history[n - 1];
    if !IsPiece(message) {
      LatestWasSent(history, n - 1, index);
    } else {
      GroupUniform(history, n - 1);
      JoinedUniform(Group(history, n - 1), message);
      if index == message.fragment {
        assert SameDatagram(history[n - 1], Group(history, n)[0]);
      } else {
        LatestWasSent(history, n - 1, index);
        var i :| 0 <= i < n - 1 && SameDatagram(history[i], Group(history, n - 1)[0])
          && history[i].fragment == index && history[i].payload == Latest(Group(history, n - 1), index).value;
        assert SameDatagram(history[i], Group(history, n)[0]);
      }
    }
  }

  /** A yielded payload is made of one part for each index, every part carried by a
      message with the same packet id and count. */
  lemma {:induction false} YieldIsOneDatagram(history: seq<UdpMessage>, n: nat, last: UdpMessage) returns (parts: seq<seq<byte>>)
    requires n <= |history| && IsPiece(last) && Yielded(history, n, last).Some?
    ensures |parts| == last.fragments && Yielded(history, n, last) == Some(Flatten(parts))
    ensures forall index :: 0 <= index < |parts| ==> Carried(history, n, last, index, parts[index])
  {
    var group := Group(history, n);
    var joined := Joined(group, last);
    GroupUniform(history, n);
    JoinedUniform(group, last);
    parts := Parts(joined, last.fragments);
    forall index | 0 <= index < |parts|
      ensures Carried(history, n, last, index, parts[index])
    {
      if index != last.fragment {
        LatestWasSent(history, n, index);
        var i :| 0 <= i < n && SameDatagram(history[i], group[0])
          && history[i].fragment == index && history[i].payload == Latest(group, index).value;
        assert SameDatagram(history[i], last);
      }
    }
  }

  /** A piece of the datagram these chunks are cut from. */
  ghost predicate PieceOf(message: UdpMessage, packet: nat, chunks: seq<seq<byte>>) {
    && message.packet == packet && message.fragments == |chunks|
    && message.fragment < |chunks| && message.payload == chunks[message.fragment]
  }

  /** From message `start` on there is nothing but pieces of one datagram, in
      any order and repeated, and messages that are no pieces at all. */
  ghost predicate OnlyPiecesOf(history: seq<UdpMessage>, start: nat, packet: nat, chunks: seq<seq<byte>>) {
    forall i :: start <= i < |history| ==> PieceOf(history[i], packet, chunks) || !IsPiece(history[i])
  }

  ghost predicate Arrived(history: seq<UdpMessage>, start: nat, n: nat, index: nat)
    requires n <= |history|
  {
    exists i :: start <= i < n && IsPiece(history[i]) && history[i].fragment == index
  }

  ghost predicate AllArrived(history: seq<UdpMessage>, start: nat, n: nat, count: nat)
    requires n <= |history|
  {
    forall index :: 0 <= index < count ==> Arrived(history, start, n, index)
  }

  /** No datagram of the same id and count is half-assembled when the run starts. */
  ghost predicate FreshFor(history: seq<UdpMessage>, start: nat, packet: nat, count: nat)
    requires start <= |history|
  {
    var group := Group(history, start);
    group == [] || group[0].packet != packet || group[0].fragments != count
  }

  ghost function Mine(group: seq<UdpMessage>, packet: nat, count: nat): seq<UdpMessage> {
    if group != [] && group[0].packet == packet && group[0].fragments == count then group else []
  }

  /** What an earlier datagram of the same id and count left behind. */
  ghost function Stale(history: seq<UdpMessage>, start: nat, packet: nat, count: nat, index: nat): Option<seq<byte>>
    requires start <= |history|
  {
    Latest(Mine(Group(history, start), packet, count), index)
  }

  /** The piece held for an index: the new one where it arrived, else the stale one. */
  ghost function Slot(history: seq<UdpMessage>, start: nat, n: nat, packet: nat, chunks: seq<seq<byte>>, index: nat): Option<seq<byte>>
    requires start <= n <= |history| && index < |chunks|
  {
    if Arrived(history, start, n, index) then Some(chunks[index]) else Stale(history, start, packet, |chunks|, index)
  }

  ghost predicate Filled(history: seq<UdpMessage>, start: nat, n: nat, packet: nat, chunks: seq<seq<byte>>)
    requires start <= n <= |history|
  {
    forall index :: 0 <= index < |chunks| ==> Slot(history, start, n, packet, chunks, index).Some?
  }

  ghost function Mixed(history: seq<UdpMessage>, start: nat, n: nat, packet: nat, chunks: seq<seq<byte>>): (mixed: seq<seq<byte>>)
    requires start <= n <= |history| && Filled(history, start, n, packet, chunks)
    ensures |mixed| == |chunks|
    ensures forall index :: 0 <= index < |chunks| ==> Some(mixed[index]) == Slot(history, start, n, packet, chunks, index)
  {
    seq(|chunks|, index requires 0 <= index < |chunks| => Slot(history, start, n, packet, chunks, index).value)
  }

  /** Until every slot is filled, the pieces held are those. */
  lemma {:induction false} HeldAre(history: seq<UdpMessage>, start: nat, n: nat, packet: nat, chunks: seq<seq<byte>>, index: nat)
    requires start <= n <= |history| && 1 < |chunks| && index < |chunks|
    requires OnlyPiecesOf(history, start, packet, chunks) && !Filled(history, start, n, packet, chunks)
    ensures Latest(Mine(Group(history, n), packet, |chunks|), index) == Slot(history, start, n, packet, chunks, index)
    decreases n, 0
  {
    if n > start {
      EarlierMissing(history, start, n, packet, chunks);
      HeldAre(history, start, n - 1, packet, chunks, index);
      ArrivedOn(history, start, n - 1, index);
      var message := history[n - 1];
      if IsPiece(message) {
        GroupUniform(history, n - 1);
        JoinedUniform(Group(history, n - 1), message);
        NotYetComplete(history, start, n, packet, chunks);
      }
    }
  }

  lemma {:induction false} ArrivedOn(history: seq<UdpMessage>, start: nat, n: nat, index: nat)
    requires start <= n < |history|
    ensures Arrived(history, start, n + 1, index) <==>
              Arrived(history, start, n, index) || (IsPiece(history[n]) && history[n].fragment == index)
  {
    if Arrived(history, start, n, index) {
      var i :| start <= i < n && IsPiece(history[i]) && history[i].fragment == index;
      assert start <= i < n + 1 && IsPiece(history[i]) && history[i].fragment == index;
    }
  }

  lemma {:induction false} EarlierMissing(history: seq<UdpMessage>, start: nat, n: nat, packet: nat, chunks: seq<seq<byte>>)
    requires start < n <= |history| && !Filled(history, start, n, packet, chunks)
    ensures !Filled(history, start, n - 1, packet, chunks)
  {
    var index :| 0 <= index < |chunks| && Slot(history, start, n, packet, chunks, index).None?;
    ArrivedOn(history, start, n - 1, index);
    assert Slot(history, start, n - 1, packet, chunks, index).None?;
  }

  /** The pieces held together with the one that comes. */
  lemma {:induction false} JoinsAre(history: seq<UdpMessage>, start: nat, n: nat, packet: nat, chunks: seq<seq<byte>>, index: nat)
    requires start <= n < |history| && 1 < |chunks| && index < |chunks|
    requires OnlyPiecesOf(history, start, packet, chunks) && !Filled(history, start, n, packet, chunks) && IsPiece(history[n])
    ensures Latest(Joined(Group(history, n), history[n]), index) == Slot(history, start, n + 1, packet, chunks, index)
    decreases n, 1
  {
    GroupUniform(history, n);
    JoinedUniform(Group(history, n), history[n]);
    HeldAre(history, start, n, packet, chunks, index);
    ArrivedOn(history, start, n, index);
  }

  lemma {:induction false} NotYetComplete(history: seq<UdpMessage>, start: nat, n: nat, packet: nat, chunks: seq<seq<byte>>)
    requires start < n <= |history| && 1 < |chunks|
    requires OnlyPiecesOf(history, start, packet, chunks) && !Filled(history, start, n, packet, chunks) && IsPiece(history[n - 1])
    ensures !Complete(Joined(Group(history, n - 1), history[n - 1]), |chunks|)
    decreases n - 1, 2
  {
    var index :| 0 <= index < |chunks| && Slot(history, start, n, packet, chunks, index).None?;
    EarlierMissing(history, start, n, packet, chunks);
    JoinsAre(history, start, n - 1, packet, chunks, index);
  }

  /** Pushed in any order, with repeats and with unfragmented messages between
      them, the pieces of a datagram yield nothing until the last slot is filled,
      and then each new piece where it arrived and the stale one elsewhere. */
  lemma {:induction false} FirstYield(history: seq<UdpMessage>, start: nat, n: nat, packet: nat, chunks: seq<seq<byte>>)
    requires start <= n < |history| && 1 < |chunks|
    requires OnlyPiecesOf(history, start, packet, chunks) && !Filled(history, start, n, packet, chunks) && IsPiece(history[n])
    ensures Yielded(history, n, history[n]) ==
              if Filled(history, start, n + 1, packet, chunks) then Some(Flatten(Mixed(history, start, n + 1, packet, chunks)))
              else None
  {
    var joined := Joined(Group(history, n), history[n]);
    forall index | 0 <= index < |chunks|
      ensures Latest(joined, index) == Slot(history, start, n + 1, packet, chunks, index)
    {
      JoinsAre(history, start, n, packet, chunks, index);
    }
    if Filled(history, start, n + 1, packet, chunks) {
      assert Parts(joined, |chunks|) == Mixed(history, start, n + 1, packet, chunks);
    } else {
      var index :| 0 <= index < |chunks| && Slot(history, start, n + 1, packet, chunks, index).None?;
      assert Latest(joined, index).None?;
    }
  }

  /** Parts of the same sizes spell the same only if they are the same. */
  lemma {:induction false} FlattenTells(left: seq<seq<byte>>, right: seq<seq<byte>>)
    requires |left| == |right| && (forall i :: 0 <= i < |left| ==> |left[i]| == |right[i]|)
    requires Flatten(left) == Flatten(right)
    ensures left == right
    decreases |left|
  {
    if left != [] {
      assert Flatten(left)[..|left[0]|] == left[0] && Flatten(right)[..|right[0]|] == right[0];
      assert Flatten(left)[|left[0]|..] == Flatten(left[1..]) && Flatten(right)[|right[0]|..] == Flatten(right[1..]);
      FlattenTells(left[1..], right[1..]);
      assert left == [left[0]] + left[1..] && right == [right[0]] + right[1..];
    }
  }

  /** A stale piece of the size of the one it stands in for. */
  ghost predicate SameSizes(history: seq<UdpMessage>, start: nat, packet: nat, chunks: seq<seq<byte>>)
    requires start <= |history|
  {
    forall index :: 0 <= index < |chunks| ==>
      var stale := Stale(history, start, packet, |chunks|, index);
      stale.Some? ==> |stale.value| == |chunks[index]|
  }

  /** So the first yield is the payload exactly if every stale piece that was not
      replaced is the piece it stands in for. */
  lemma {:induction false} YieldsPayloadExactly(history: seq<UdpMessage>, start: nat, n: nat, packet: nat, chunks: seq<seq<byte>>)
    requires start <= n < |history| && 1 < |chunks|
    requires OnlyPiecesOf(history, start, packet, chunks) && !Filled(history, start, n, packet, chunks) && IsPiece(history[n])
    requires Filled(history, start, n + 1, packet, chunks) && SameSizes(history, start, packet, chunks)
    ensures Yielded(history, n, history[n]) == Some(Flatten(chunks)) <==>
              forall index :: 0 <= index < |chunks| && !Arrived(history, start, n + 1, index) ==>
                Stale(history, start, packet, |chunks|, index) == Some(chunks[index])
  {
    FirstYield(history, start, n, packet, chunks);
    var mixed := Mixed(history, start, n + 1, packet, chunks);
    if Flatten(mixed) == Flatten(chunks) {
      FlattenTells(mixed, chunks);
    }
    if forall index :: 0 <= index < |chunks| && !Arrived(history, start, n + 1, index) ==>
         Stale(history, start, packet, |chunks|, index) == Some(chunks[index])
    {
      assert mixed == chunks;
    }
  }

  /** With nothing stale, they yield nothing until the last index that is missing
      arrives, and then exactly the payload they were cut from. */
  lemma {:induction false} AnyOrderReassembles(history: seq<UdpMessage>, start: nat, n: nat, packet: nat, chunks: seq<seq<byte>>)
    requires start <= n < |history| && 1 < |chunks|
    requires OnlyPiecesOf(history, start, packet, chunks) && FreshFor(history, start, packet, |chunks|)
    requires !AllArrived(history, start, n, |chunks|) && IsPiece(history[n])
    ensures Yielded(history, n, history[n])
         == if AllArrived(history, start, n + 1, |chunks|) then Some(Flatten(chunks)) else None
  {
    assert forall index :: 0 <= index < |chunks| ==> Stale(history, start, packet, |chunks|, index).None?;
    var index :| 0 <= index < |chunks| && !Arrived(history, start, n, index);
    assert Slot(history, start, n, packet, chunks, index).None?;
    FirstYield(history, start, n, packet, chunks);
    if AllArrived(history, start, n + 1, |chunks|) {
      assert Mixed(history, start, n + 1, packet, chunks) == chunks;
    } else {
      var missing :| 0 <= missing < |chunks| && !Arrived(history, start, n + 1, missing);
      assert Slot(history, start, n + 1, packet, chunks, missing).None?;
    }
  }

  /** The identifier of a send: its number, cut to sixteen bits. */
  function PacketId(sends: nat): nat {
    sends % 0x1_0000
  }

  /** Half of one datagram and half of another, under one identifier. */
  lemma {:induction false} HalvesYield(first: UdpMessage, second: UdpMessage)
    requires first.fragments == second.fragments == 2 && first.fragment == 0 && second.fragment == 1
    requires first.packet == second.packet
    ensures Yielded([first], 1, second) == Some(first.payload + second.payload)
  {
    var group := [first];
    assert Group([first], 0) == [];
    assert group[..0] == [] && Latest(group, 0) == Some(first.payload) && Latest(group, 1).None?;
    assert Group([first], 1) == group;
    JoinedUniform(group, second);
    var joined := Joined(group, second);
    assert Complete(joined, 2);
    var parts := Parts(joined, 2);
    assert parts == [first.payload] + [second.payload];
    FlattenAppend([first.payload], second.payload);
    FlattenAppend([], first.payload);
    assert [] + [first.payload] == [first.payload];
    assert Flatten<byte>([]) + first.payload == first.payload;
  }

  /** The witness: of one datagram only the first piece comes; 65536 sends later,
      only the second of another, to another address; and half of each is yielded. */
  method MixesTwo(sends: nat) returns (mixed: Option<seq<byte>>)
    ensures mixed == Some([1, 4])
  {
    var defragmenter := new Defragmenter();
    var first := UdpMessage(0, PacketId(sends), 0, 2, [9], [1]);
    var second := UdpMessage(0, PacketId(sends + 0x1_0000), 1, 2, [8], [4]);
    var nothing := defragmenter.Push(first);
    assert defragmenter.history == [first];
    mixed := defragmenter.Push(second);
    IdComesAgain(sends);
    HalvesYield(first, second);
    assert [1] + [4] == [1, 4];
  }

  lemma {:induction false} IdComesAgain(sends: nat)
    ensures PacketId(sends + 0x1_0000) == PacketId(sends)
  {
    assert sends == 0x1_0000 * (sends / 0x1_0000) + sends % 0x1_0000;
  }

  ghost predicate Placed(order: seq<nat>, n: nat, index: nat)
    requires n <= |order|
  {
    exists i :: 0 <= i < n && order[i] == index
  }

  ghost predicate Covered(order: seq<nat>, n: nat, count: nat)
    requires n <= |order|
  {
    forall index :: 0 <= index < count ==> Placed(order, n, index)
  }

  /** The answer owed to the message at `n`, as long as none was complete before it. */
  ghost predicate Owed(order: seq<nat>, n: nat, count: nat, payload: seq<byte>, result: Option<seq<byte>>)
    requires n < |order|
  {
    !Covered(order, n, count) ==> result == if Covered(order, n + 1, count) then Some(payload) else None
  }

  /** The run so far is the pieces of one datagram in this order. */
  ghost predicate Follows(history: seq<UdpMessage>, order: seq<nat>, session: nat, packet: nat, address: seq<byte>, chunks: seq<seq<byte>>) {
    && |history| <= |order|
    && forall i :: 0 <= i < |history| ==>
         order[i] < |chunks| && history[i] == Piece(session, packet, address, chunks, order[i])
  }

  lemma {:induction false} CoveredIsArrived(history: seq<UdpMessage>, order: seq<nat>, n: nat, session: nat, packet: nat,
                                           address: seq<byte>, chunks: seq<seq<byte>>)
    requires Follows(history, order, session, packet, address, chunks) && n <= |history| && 1 < |chunks|
    ensures Covered(order, n, |chunks|) <==> AllArrived(history, 0, n, |chunks|)
  {
    forall index | 0 <= index < |chunks|
      ensures Arrived(history, 0, n, index) <==> Placed(order, n, index)
    {
      if Placed(order, n, index) {
        var i :| 0 <= i < n && order[i] == index;
        assert IsPiece(history[i]) && history[i].fragment == index;
      }
      if Arrived(history, 0, n, index) {
        var i :| 0 <= i < n && IsPiece(history[i]) && history[i].fragment == index;
        assert order[i] == index;
      }
    }
  }

  /** The answer to the last piece of such a run. */
  lemma {:induction false} LastOfRun(history: seq<UdpMessage>, order: seq<nat>, session: nat, packet: nat,
                                    address: seq<byte>, chunks: seq<seq<byte>>)
    requires Follows(history, order, session, packet, address, chunks) && history != [] && chunks != []
    requires !Covered(order, |history| - 1, |chunks|)
    ensures Yielded(history, |history| - 1, history[|history| - 1])
         == if Covered(order, |history|, |chunks|) then Some(Flatten(chunks)) else None
  {
    var n := |history| - 1;
    if |chunks| == 1 {
      assert chunks[1..] == [] && Flatten(chunks) == chunks[0] + [] == chunks[0];
      assert order[n] == 0;
      assert Placed(order, n + 1, 0);
    } else {
      CoveredIsArrived(history, order, n, session, packet, address, chunks);
      CoveredIsArrived(history, order, n + 1, session, packet, address, chunks);
      AnyOrderReassembles(history, 0, n, packet, chunks);
    }
  }

  lemma {:induction false} FollowsOn(history: seq<UdpMessage>, message: UdpMessage, order: seq<nat>, session: nat, packet: nat,
                                    address: seq<byte>, chunks: seq<seq<byte>>)
    requires Follows(history, order, session, packet, address, chunks) && |history| < |order| && order[|history|] < |chunks|
    requires message == Piece(session, packet, address, chunks, order[|history|])
    ensures Follows(history + [message], order, session, packet, address, chunks)
  {
  }

  /** Over the wire and back. */
  method Carry(utf8: seq<byte> -> bool, pieces: seq<UdpMessage>) returns (messages: seq<UdpMessage>)
    requires forall i :: 0 <= i < |pieces| ==> Encodable(pieces[i]) && Read(utf8, Write(pieces[i])) == Some(pieces[i])
    ensures messages == pieces
  {
    messages := [];
    for i := 0 to |pieces|
      invariant messages == pieces[..i]
    {
      messages := messages + [Read(utf8, Write(pieces[i])).value];
    }
  }

  /** Pieces pushed in any order. */
  method PushAll(pieces: seq<UdpMessage>, order: seq<nat>, ghost session: nat, ghost packet: nat,
                 ghost address: seq<byte>, ghost chunks: seq<seq<byte>>)
    returns (results: seq<Option<seq<byte>>>)
    requires |pieces| == |chunks| > 0
    requires forall i :: 0 <= i < |pieces| ==> pieces[i] == Piece(session, packet, address, chunks, i)
    requires forall i :: 0 <= i < |order| ==> order[i] < |pieces|
    ensures |results| == |order|
    ensures forall n {:trigger results[n]} :: 0 <= n < |order| ==> Owed(order, n, |chunks|, Flatten(chunks), results[n])
  {
    var defragmenter := new Defragmenter();
    results := [];
    for n := 0 to |order|
      invariant defragmenter.Valid() && |defragmenter.history| == n == |results|
      invariant Follows(defragmenter.history, order, session, packet, address, chunks)
      invariant forall i {:trigger results[i]} :: 0 <= i < n ==> Owed(order, i, |chunks|, Flatten(chunks), results[i])
    {
      var result := Receive(defragmenter, pieces[order[n]], order, session, packet, address, chunks);
      results := results + [result];
    }
  }

  /** From payload to payload: fragment, write, lose nothing but let the pieces
      arrive in any order and as often as they like, read and push. Nothing
      comes out until the last missing piece is in, and then the payload does. */
  method Transfer(utf8: seq<byte> -> bool, session: nat, packet: nat, address: seq<byte>, payload: seq<byte>, frame: nat,
                  order: seq<nat>)
    returns (results: seq<Option<seq<byte>>>)
    requires session < 0x1_0000_0000 && packet < 0x1_0000 && payload != []
    requires 0 < |address| <= MAX_MESSAGE_LEN && utf8(address) && HeaderLen(address) < frame
    requires |Chunks(payload, frame - HeaderLen(address))| < 256
    requires forall i :: 0 <= i < |order| ==> order[i] < |Chunks(payload, frame - HeaderLen(address))|
    ensures |results| == |order|
    ensures forall n {:trigger results[n]} :: 0 <= n < |order| ==>
              Owed(order, n, |Chunks(payload, frame - HeaderLen(address))|, payload, results[n])
  {
    var pieces := Fragment(session, packet, address, payload, frame);
    ghost var chunks := Chunks(payload, frame - HeaderLen(address));
    ChunksCover(payload, frame - HeaderLen(address));
    forall i | 0 <= i < |chunks|
      ensures Encodable(pieces.value[i]) && Read(utf8, Write(pieces.value[i])) == Some(pieces.value[i])
    {
      PieceFits(utf8, session, packet, address, payload, frame, i);
    }
    var messages := Carry(utf8, pieces.value);
    results := PushAll(messages, order, session, packet, address, chunks);
  }

  method Receive(defragmenter: Defragmenter, message: UdpMessage, ghost order: seq<nat>, ghost session: nat, ghost packet: nat,
                 ghost address: seq<byte>, ghost chunks: seq<seq<byte>>)
    returns (result: Option<seq<byte>>)
    requires defragmenter.Valid() && |defragmenter.history| < |order| && order[|defragmenter.history|] < |chunks|
    requires Follows(defragmenter.history, order, session, packet, address, chunks)
    requires message == Piece(session, packet, address, chunks, order[|defragmenter.history|])
    modifies defragmenter
    ensures defragmenter.Valid() && |defragmenter.history| == |old(defragmenter.history)| + 1
    ensures Follows(defragmenter.history, order, session, packet, address, chunks)
    ensures Owed(order, |old(defragmenter.history)|, |chunks|, Flatten(chunks), result)
  {
    ghost var before := defragmenter.history;
    FollowsOn(before, message, order, session, packet, address, chunks);
    result := defragmenter.Push(message);
    GroupStable(before, [message], |before|);
    if !Covered(order, |before|, |chunks|) {
      LastOfRun(defragmenter.history, order, session, packet, address, chunks);
    }
  }
}
