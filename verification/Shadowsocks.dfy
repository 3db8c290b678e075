/**
 * The SIP022 stream codec over an ideal AEAD: its law, the round trip of
 * everything `encode` writes, and the converse, that whatever decodes was
 * sealed block by block in counter order.
 */
module Shadowsocks {
  import opened Bytes
  import opened ProxyErrors
  import opened Sansio

  const TAG: nat := 16
  const MAX_CHUNK: nat := 0xffff
  const CLOCK_SKEW_SECONDS: nat := 30
  const TYPE_RESPONSE: byte := 1

  type Key = seq<byte>

  datatype Aead = Aead(seal: (Key, nat, seq<byte>) -> seq<byte>, open: (Key, nat, seq<byte>) -> Option<seq<byte>>)

  ghost predicate OpensSealed(aead: Aead, key: Key, nonce: nat, plain: seq<byte>) {
    var block := aead.seal(key, nonce, plain);
    |block| == |plain| + TAG && aead.open(key, nonce, block) == Some(plain)
  }

  /** Opening undoes sealing, and a block is its plaintext and a tag. */
  ghost predicate Ideal(aead: Aead) {
    forall key, nonce, plain :: OpensSealed(aead, key, nonce, plain)
  }

  ghost predicate OpensOnlySealed(aead: Aead, key: Key, nonce: nat, block: seq<byte>) {
    var plain := aead.open(key, nonce, block);
    plain.Some? ==> aead.seal(key, nonce, plain.value) == block
  }

  /** Only a sealed block opens, under the nonce it was sealed with. */
  ghost predicate Authentic(aead: Aead) {
    forall key, nonce, block :: OpensOnlySealed(aead, key, nonce, block)
  }

  datatype Method = Aes128Gcm | Aes256Gcm | ChaCha20Poly1305 {
    function KeyBits(): nat {
      match this
      case Aes128Gcm => 128
      case Aes256Gcm => 256
      case ChaCha20Poly1305 => 256
    }

    /** A salt is as long as the key. */
    function SaltLen(): (octets: nat)
      ensures octets * 8 == KeyBits()
    {
      if Aes128Gcm? then 16 else 32
    }
  }

  /** One direction's key and its nonce counter. */
  datatype Session = Session(key: Key, counter: nat)

  datatype ReadState = Salt | FixedHeader | Length | Payload(length: nat)

  /** The part of the codec its reads change. */
  datatype ReadSide = ReadSide(state: ReadState, reader: Option<Session>)

  /** What a connection is opened with, and the clock its response is checked
      against. `subkey` is the key derivation from the pre-shared key. */
  datatype Peer = Peer(aead: Aead, cipher: Method, subkey: seq<byte> -> Key, requestSalt: seq<byte>, now: nat)

  function CheckTimestamp(theirs: nat, ours: nat): Option<ProxyError> {
    var skew := if ours < theirs then theirs - ours else ours - theirs;
    if skew > CLOCK_SKEW_SECONDS then Some(Stale(skew)) else None
  }

  datatype Fixed = FixedLength(length: nat) | FixedError(error: ProxyError)

  function DecodeResponseFixed(plain: seq<byte>, requestSalt: seq<byte>, now: nat): Fixed {
    var salt := |requestSalt|;
    if |plain| != 1 + 8 + salt + 2 then FixedError(Header)
    else if plain[0] != TYPE_RESPONSE then FixedError(Header)
    else
      match CheckTimestamp(GetBE(plain[1..9]), now)
      case Some(stale) => FixedError(stale)
      case None =>
        if plain[9..9 + salt] != requestSalt then FixedError(SaltMismatch)
        else FixedLength(GetU16(plain[9 + salt..]))
  }

  function Needed(peer: Peer, state: ReadState): nat {
    match state
    case Salt => peer.cipher.SaltLen()
    case FixedHeader => 1 + 8 + peer.cipher.SaltLen() + 2 + TAG
    case Length => 2 + TAG
    case Payload(length) => length + TAG
  }

  datatype Opening = Opening(plain: seq<byte>, next: Session) | OpenError(error: ProxyError)

  /** `Session::open`: one block under the next counter value. */
  function OpenBlock(peer: Peer, reader: Option<Session>, block: seq<byte>): Opening {
    match reader
    case None => OpenError(Header)
    case Some(session) =>
      match peer.aead.open(session.key, session.counter, block)
      case None => OpenError(Crypto)
      case Some(plain) => Opening(plain, session.(counter := session.counter + 1))
  }

  /** What one whole block does in each state. */
  function TakeBlock(peer: Peer, side: ReadSide, block: seq<byte>, rest: seq<byte>): Verdict<ReadSide> {
    if side.state.Salt? then
      Framed(ReadSide(FixedHeader, Some(Session(peer.subkey(block), 0))), [], rest)
    else
      match OpenBlock(peer, side.reader, block)
      case OpenError(error) => Refused(error)
      case Opening(plain, next) =>
        match side.state
        case Payload(_) => Framed(ReadSide(Length, Some(next)), plain, rest)
        case Length =>
          if |plain| < 2 then Refused(Header)
          else Framed(ReadSide(Payload(GetU16(plain)), Some(next)), [], rest)
        case FixedHeader =>
          match DecodeResponseFixed(plain, peer.requestSalt, peer.now)
          case FixedError(error) => Refused(error)
          case FixedLength(length) => Framed(ReadSide(Payload(length), Some(next)), [], rest)
  }

  /** `StreamCodec::decode`: nothing until the block the state needs is whole. */
  function Step(peer: Peer, side: ReadSide, input: seq<byte>): Verdict<ReadSide> {
    var needed := Needed(peer, side.state);
    if |input| < needed then Framed(side, [], input)
    else TakeBlock(peer, side, input[..needed], input[needed..])
  }

  function Decoding(peer: Peer): Decoder<ReadSide> {
    (side, input) => Step(peer, side, input)
  }

  lemma {:induction false} StreamCodecIsStable(peer: Peer)
    ensures PrefixStable(Decoding(peer))
  {
    forall side: ReadSide, input: seq<byte>, more: seq<byte> | input != []
      ensures StableAt(Decoding(peer), side, input, more)
    {
      var needed := Needed(peer, side.state);
      if needed <= |input| {
        assert (input + more)[..needed] == input[..needed];
        assert (input + more)[needed..] == input[needed..] + more;
      }
    }
  }

  // ------------------------------------------------------------ writing

  /** `StreamCodec::encode`: a sealed length and a sealed payload. The length
      field keeps the low sixteen bits. */
  function SealChunk(aead: Aead, writer: Session, payload: seq<byte>): Sealed<Session> {
    Sealed(writer.(counter := writer.counter + 2),
           aead.seal(writer.key, writer.counter, PutU16(|payload| % 0x1_0000))
           + aead.seal(writer.key, writer.counter + 1, payload))
  }

  function Encoding(aead: Aead): Encoder<Session> {
    (writer, payload) => SealChunk(aead, writer, payload)
  }

  /** Encoding never refuses, and spends two counter values for each chunk. */
  lemma {:induction false} EncodeSpends(aead: Aead, writer: Session, chunks: seq<seq<byte>>)
    ensures EncodeAll(Encoding(aead), writer, chunks).Some?
    ensures EncodeAll(Encoding(aead), writer, chunks).value.codec
         == Session(writer.key, writer.counter + 2 * |chunks|)
  {
    if chunks != [] {
      EncodeSpends(aead, writer, chunks[..|chunks| - 1]);
    }
  }

  /** A block that opens, at the front of what is held, is taken. */
  lemma {:induction false} HearBlock(peer: Peer, side: ReadSide, block: seq<byte>, rest: seq<byte>)
    requires |block| == Needed(peer, side.state) && block != []
    requires TakeBlock(peer, side, block, rest).Framed? && TakeBlock(peer, side, block, rest).rest == rest
    ensures Hear(Decoding(peer), side, block + rest)
         == Hear(Decoding(peer), TakeBlock(peer, side, block, rest).next, rest)
            .After(TakeBlock(peer, side, block, rest).out)
  {
    assert (block + rest)[..|block|] == block;
    assert (block + rest)[|block|..] == rest;
  }

  /** A reader between chunks whose counter matches the writer's. */
  function Between(session: Session): ReadSide {
    ReadSide(Length, Some(session))
  }

  /** A block whose plaintext is a length moves the reader on to that payload. */
  lemma {:induction false} HearLength(peer: Peer, session: Session, block: seq<byte>, length: nat, rest: seq<byte>)
    requires length <= MAX_CHUNK && |block| == 2 + TAG
    requires peer.aead.open(session.key, session.counter, block) == Some(PutU16(length))
    ensures Hear(Decoding(peer), Between(session), block + rest)
         == Hear(Decoding(peer), ReadSide(Payload(length), Some(Session(session.key, session.counter + 1))), rest)
  {
    HearBlock(peer, Between(session), block, rest);
  }

  lemma {:induction false} HearPayload(peer: Peer, session: Session, block: seq<byte>, payload: seq<byte>)
    requires |block| == |payload| + TAG
    requires peer.aead.open(session.key, session.counter, block) == Some(payload)
    ensures Hear(Decoding(peer), ReadSide(Payload(|payload|), Some(session)), block)
         == Heard(payload, Waiting(Between(Session(session.key, session.counter + 1)), []))
  {
    assert block + [] == block;
    HearBlock(peer, ReadSide(Payload(|payload|), Some(session)), block, []);
    assert payload + [] == payload;
  }

  lemma {:induction false} HearPair(peer: Peer, session: Session, length: seq<byte>, body: seq<byte>, payload: seq<byte>)
    requires |payload| <= MAX_CHUNK && |length| == 2 + TAG && |body| == |payload| + TAG
    requires peer.aead.open(session.key, session.counter, length) == Some(PutU16(|payload|))
    requires peer.aead.open(session.key, session.counter + 1, body) == Some(payload)
    ensures Hear(Decoding(peer), Between(session), length + body)
         == Heard(payload, Waiting(Between(Session(session.key, session.counter + 2)), []))
  {
    calc {
      Hear(Decoding(peer), Between(session), length + body);
      { HearLength(peer, session, length, |payload|, body); }
      Hear(Decoding(peer), ReadSide(Payload(|payload|), Some(Session(session.key, session.counter + 1))), body);
      { HearPayload(peer, Session(session.key, session.counter + 1), body, payload); }
      Heard(payload, Waiting(Between(Session(session.key, session.counter + 2)), []));
    }
  }

  /** One chunk as `encode` writes it decodes to itself and moves both counters by two. */
  lemma {:induction false} HearChunk(peer: Peer, session: Session, payload: seq<byte>)
    requires Ideal(peer.aead) && |payload| <= MAX_CHUNK
    ensures Hear(Decoding(peer), Between(session), SealChunk(peer.aead, session, payload).out)
         == Heard(payload, Waiting(Between(Session(session.key, session.counter + 2)), []))
  {
    var length := peer.aead.seal(session.key, session.counter, PutU16(|payload|));
    var body := peer.aead.seal(session.key, session.counter + 1, payload);
    assert OpensSealed(peer.aead, session.key, session.counter, PutU16(|payload|));
    assert OpensSealed(peer.aead, session.key, session.counter + 1, payload);
    HearPair(peer, session, length, body, payload);
  }

  lemma {:induction false} ChunksInvert(peer: Peer)
    requires Ideal(peer.aead)
    ensures Inverse(Decoding(peer), Encoding(peer.aead), Between, MAX_CHUNK)
  {
    forall session: Session, payload: seq<byte> | |payload| <= MAX_CHUNK
      ensures Inverts(Decoding(peer), Encoding(peer.aead), Between, session, payload)
    {
      HearChunk(peer, session, payload);
    }
  }

  /** Any list of chunks as `encode` writes them decodes to their concatenation,
      the reader's counter standing at the number of blocks opened. */
  lemma {:induction false} HearChunksSealed(peer: Peer, session: Session, chunks: seq<seq<byte>>)
    requires Ideal(peer.aead) && AllWithin(chunks, MAX_CHUNK)
    ensures EncodeAll(Encoding(peer.aead), session, chunks).Some?
    ensures Hear(Decoding(peer), Between(session), EncodeAll(Encoding(peer.aead), session, chunks).value.wire)
         == Heard(Flatten(chunks), Waiting(Between(Session(session.key, session.counter + 2 * |chunks|)), []))
  {
    StreamCodecIsStable(peer);
    ChunksInvert(peer);
    EncodeSpends(peer.aead, session, chunks);
    RoundTrip(Decoding(peer), Encoding(peer.aead), Between, MAX_CHUNK, session, chunks);
  }

  // ------------------------------------------------------------ a whole response

  const START := ReadSide(Salt, None)

  /** The salt keys the reader; the sealed header behind it is then judged by
      `DecodeResponseFixed`, and nothing behind a refused header is heard. */
  lemma {:induction false} HearHeader(peer: Peer, salt: seq<byte>, plain: seq<byte>, rest: seq<byte>)
    requires Ideal(peer.aead) && |salt| == peer.cipher.SaltLen() && |plain| == 11 + peer.cipher.SaltLen()
    ensures Hear(Decoding(peer), START, salt + (peer.aead.seal(peer.subkey(salt), 0, plain) + rest))
         == match DecodeResponseFixed(plain, peer.requestSalt, peer.now)
            case FixedError(error) => Heard([], Broken(error))
            case FixedLength(length) =>
              Hear(Decoding(peer), ReadSide(Payload(length), Some(Session(peer.subkey(salt), 1))), rest)
  {
    var key := peer.subkey(salt);
    var header := peer.aead.seal(key, 0, plain);
    var keyed := ReadSide(FixedHeader, Some(Session(key, 0)));
    HearBlock(peer, START, salt, header + rest);
    assert OpensSealed(peer.aead, key, 0, plain);
    assert (header + rest)[..|header|] == header && (header + rest)[|header|..] == rest;
    assert Step(peer, keyed, header + rest) == TakeBlock(peer, keyed, header, rest);
  }

  function ResponseHeader(peer: Peer, stamp: seq<byte>, first: seq<byte>): seq<byte>
    requires |first| <= MAX_CHUNK
  {
    [TYPE_RESPONSE] + stamp + peer.requestSalt + PutU16(|first|)
  }

  /** A response as a server writes it: salt, sealed header, first payload, and
      then chunks as `encode` writes them. */
  function Response(peer: Peer, salt: seq<byte>, stamp: seq<byte>, first: seq<byte>, chunks: seq<seq<byte>>): seq<byte>
    requires |first| <= MAX_CHUNK
    requires EncodeAll(Encoding(peer.aead), Session(peer.subkey(salt), 2), chunks).Some?
  {
    var key := peer.subkey(salt);
    salt + (peer.aead.seal(key, 0, ResponseHeader(peer, stamp, first))
            + (peer.aead.seal(key, 1, first)
               + EncodeAll(Encoding(peer.aead), Session(key, 2), chunks).value.wire))
  }

  ghost predicate WellFormedResponse(peer: Peer, salt: seq<byte>, stamp: seq<byte>, first: seq<byte>, chunks: seq<seq<byte>>) {
    && |salt| == |peer.requestSalt| == peer.cipher.SaltLen()
    && |stamp| == 8 && -30 <= GetBE(stamp) - peer.now <= 30
    && |first| <= MAX_CHUNK && AllWithin(chunks, MAX_CHUNK)
  }

  /** A response from further than half a minute away is refused, with how far. */
  lemma {:induction false} StaleIsRefused(peer: Peer, stamp: seq<byte>, first: seq<byte>)
    requires |stamp| == 8 && |first| <= MAX_CHUNK && !(-30 <= GetBE(stamp) - peer.now <= 30)
    ensures DecodeResponseFixed(ResponseHeader(peer, stamp, first), peer.requestSalt, peer.now)
         == FixedError(Stale(if GetBE(stamp) < peer.now then peer.now - GetBE(stamp) else GetBE(stamp) - peer.now))
  {
    assert ResponseHeader(peer, stamp, first)[1..9] == stamp;
  }

  lemma {:induction false} HeaderNamesLength(peer: Peer, stamp: seq<byte>, first: seq<byte>)
    requires |stamp| == 8 && |first| <= MAX_CHUNK && -30 <= GetBE(stamp) - peer.now <= 30
    ensures DecodeResponseFixed(ResponseHeader(peer, stamp, first), peer.requestSalt, peer.now) == FixedLength(|first|)
  {
    var plain := ResponseHeader(peer, stamp, first);
    var salt := |peer.requestSalt|;
    assert plain[1..9] == stamp;
    assert plain[9..9 + salt] == peer.requestSalt;
    assert plain[9 + salt..] == PutU16(|first|);
  }

  /** A whole response decodes to its first payload and its chunks, with one
      counter value opened for the header, one for the first payload and two
      for each chunk. */
  lemma {:induction false} HearResponse(peer: Peer, salt: seq<byte>, stamp: seq<byte>, first: seq<byte>, chunks: seq<seq<byte>>)
    requires Ideal(peer.aead) && WellFormedResponse(peer, salt, stamp, first, chunks)
    ensures EncodeAll(Encoding(peer.aead), Session(peer.subkey(salt), 2), chunks).Some?
    ensures Hear(Decoding(peer), START, Response(peer, salt, stamp, first, chunks))
         == Heard(first + Flatten(chunks),
                  Waiting(Between(Session(peer.subkey(salt), 2 + 2 * |chunks|)), []))
  {
    var key := peer.subkey(salt);
    EncodeSpends(peer.aead, Session(key, 2), chunks);
    var wire := EncodeAll(Encoding(peer.aead), Session(key, 2), chunks).value.wire;
    HeaderNamesLength(peer, stamp, first);
    HearHeader(peer, salt, ResponseHeader(peer, stamp, first), peer.aead.seal(key, 1, first) + wire);
    HearBehindHeader(peer, key, first, chunks, wire);
  }

  lemma {:induction false} HearBehindHeader(peer: Peer, key: Key, first: seq<byte>, chunks: seq<seq<byte>>, wire: seq<byte>)
    requires Ideal(peer.aead) && AllWithin(chunks, MAX_CHUNK)
    requires EncodeAll(Encoding(peer.aead), Session(key, 2), chunks) == Some(Writing(Session(key, 2 + 2 * |chunks|), wire))
    ensures Hear(Decoding(peer), ReadSide(Payload(|first|), Some(Session(key, 1))), peer.aead.seal(key, 1, first) + wire)
         == Heard(first + Flatten(chunks), Waiting(Between(Session(key, 2 + 2 * |chunks|)), []))
  {
    HearChunksSealed(peer, Session(key, 2), chunks);
    HearFirst(peer, Session(key, 1), first, peer.aead.seal(key, 1, first), wire);
  }

  lemma {:induction false} HearFirst(peer: Peer, session: Session, first: seq<byte>, body: seq<byte>, wire: seq<byte>)
    requires Ideal(peer.aead) && body == peer.aead.seal(session.key, session.counter, first)
    ensures Hear(Decoding(peer), ReadSide(Payload(|first|), Some(session)), body + wire)
         == Hear(Decoding(peer), Between(Session(session.key, session.counter + 1)), wire).After(first)
  {
    assert OpensSealed(peer.aead, session.key, session.counter, first);
    HearBlock(peer, ReadSide(Payload(|first|), Some(session)), body, wire);
  }

  /** Reading a response over any split into arrivals and any buffers. */
  method ReadResponse(peer: Peer, ghost salt: seq<byte>, ghost stamp: seq<byte>, ghost first: seq<byte>,
                      ghost chunks: seq<seq<byte>>, script: seq<Arrival>, capacities: seq<nat>)
    returns (said: seq<byte>, stop: Stop)
    requires Ideal(peer.aead) && WellFormedResponse(peer, salt, stamp, first, chunks)
    requires EncodeAll(Encoding(peer.aead), Session(peer.subkey(salt), 2), chunks).Some?
    requires Stream(script) == Response(peer, salt, stamp, first, chunks)
    ensures said <= first + Flatten(chunks)
    ensures stop.Ended? ==> said == first + Flatten(chunks)
    ensures !stop.Refusing?
    ensures Flowing(script) && AllPositive(capacities) ==> |said| >= |capacities| || said == first + Flatten(chunks)
  {
    StreamCodecIsStable(peer);
    HearResponse(peer, salt, stamp, first, chunks);
    assert [] + Stream(script) == Stream(script);
    said, stop := Listen(Decoding(peer), START, [], script, capacities);
  }

  // ------------------------------------------------------------ only what was sealed

  /** A block that opens is the sealing of its plaintext. */
  lemma {:induction false} OpenedBlock(aead: Aead, session: Session, block: seq<byte>)
    requires Ideal(aead) && Authentic(aead) && aead.open(session.key, session.counter, block).Some?
    ensures aead.seal(session.key, session.counter, aead.open(session.key, session.counter, block).value) == block
    ensures |block| == |aead.open(session.key, session.counter, block).value| + TAG
  {
    assert OpensOnlySealed(aead, session.key, session.counter, block);
    assert OpensSealed(aead, session.key, session.counter, aead.open(session.key, session.counter, block).value);
  }

  /** The chunk at the front of `stream`, if a whole one opens there. */
  ghost function FrontChunk(peer: Peer, session: Session, stream: seq<byte>): Option<seq<byte>> {
    if |stream| < 2 + TAG then None
    else
      match peer.aead.open(session.key, session.counter, stream[..2 + TAG])
      case None => None
      case Some(plain) =>
        if |plain| < 2 || |stream| < 2 + TAG + GetU16(plain) + TAG then None
        else peer.aead.open(session.key, session.counter + 1, stream[2 + TAG..2 + TAG + GetU16(plain) + TAG])
  }

  /** With no chunk at the front nothing more is heard. */
  lemma {:induction false} NoFrontChunk(peer: Peer, session: Session, stream: seq<byte>)
    requires FrontChunk(peer, session, stream).None?
    ensures Hear(Decoding(peer), Between(session), stream).bytes == []
  {
    if 2 + TAG <= |stream| {
      match peer.aead.open(session.key, session.counter, stream[..2 + TAG])
      case None =>
      case Some(plain) =>
        if |plain| >= 2 {
          var next := ReadSide(Payload(GetU16(plain)), Some(Session(session.key, session.counter + 1)));
          var rest := stream[2 + TAG..];
          assert Step(peer, Between(session), stream) == Framed(next, [], rest);
          assert Hear(Decoding(peer), Between(session), stream) == Hear(Decoding(peer), next, rest).After([]);
          if GetU16(plain) + TAG <= |rest| {
            assert rest[..GetU16(plain) + TAG] == stream[2 + TAG..2 + TAG + GetU16(plain) + TAG];
            assert Step(peer, next, rest) == Refused(Crypto);
          }
        }
    }
  }

  /** The chunk at the front is the sealing of its payload under the next two
      counter values, and the rest is heard behind it. */
  lemma {:induction false} FrontWasSealed(peer: Peer, session: Session, stream: seq<byte>) returns (rest: seq<byte>)
    requires Ideal(peer.aead) && Authentic(peer.aead) && FrontChunk(peer, session, stream).Some?
    ensures var payload := FrontChunk(peer, session, stream).value;
            && |payload| <= MAX_CHUNK
            && stream == SealChunk(peer.aead, session, payload).out + rest
            && Hear(Decoding(peer), Between(session), stream)
               == Hear(Decoding(peer), Between(Session(session.key, session.counter + 2)), rest).After(payload)
  {
    var payload := FrontChunk(peer, session, stream).value;
    var head := stream[..2 + TAG];
    var second := Session(session.key, session.counter + 1);
    OpenedBlock(peer.aead, session, head);
    var plain := peer.aead.open(session.key, session.counter, head).value;
    var length := GetU16(plain);
    assert plain == PutU16(length);
    var body := stream[2 + TAG..2 + TAG + length + TAG];
    OpenedBlock(peer.aead, second, body);
    rest := stream[2 + TAG + length + TAG..];
    assert stream == head + (body + rest);
    assert head + (body + rest) == (head + body) + rest;
    HearLength(peer, session, head, length, body + rest);
    HearFirst(peer, second, payload, body, rest);
  }

  /** What `HeardWasSealed` finds in a stream. */
  ghost predicate WasSealed(peer: Peer, session: Session, stream: seq<byte>, chunks: seq<seq<byte>>, tail: seq<byte>) {
    && AllWithin(chunks, MAX_CHUNK)
    && EncodeAll(Encoding(peer.aead), session, chunks).Some?
    && stream == EncodeAll(Encoding(peer.aead), session, chunks).value.wire + tail
    && Hear(Decoding(peer), Between(session), stream).bytes == Flatten(chunks)
  }

  lemma {:induction false} SealedBefore(
      peer: Peer, session: Session, stream: seq<byte>, payload: seq<byte>, rest: seq<byte>,
      more: seq<seq<byte>>, tail: seq<byte>)
    requires Ideal(peer.aead) && |payload| <= MAX_CHUNK
    requires stream == SealChunk(peer.aead, session, payload).out + rest
    requires Hear(Decoding(peer), Between(session), stream)
             == Hear(Decoding(peer), Between(Session(session.key, session.counter + 2)), rest).After(payload)
    requires WasSealed(peer, Session(session.key, session.counter + 2), rest, more, tail)
    ensures WasSealed(peer, session, stream, [payload] + more, tail)
  {
    var sealing := SealChunk(peer.aead, session, payload);
    assert OpensSealed(peer.aead, session.key, session.counter + 1, payload);
    EncodeFirst(Encoding(peer.aead), session, payload, more);
    Regroup(sealing.out, EncodeAll(Encoding(peer.aead), sealing.next, more).value.wire, tail);
    assert ([payload] + more)[1..] == more;
  }

  /** Everything heard from a reader between chunks is the payload of chunks
      sealed under this session's consecutive counter values, in order, none
      missing, repeated or swapped, and found at the front of the stream. */
  lemma {:induction false} HeardWasSealed(peer: Peer, session: Session, stream: seq<byte>)
    returns (chunks: seq<seq<byte>>, tail: seq<byte>)
    requires Ideal(peer.aead) && Authentic(peer.aead)
    ensures WasSealed(peer, session, stream, chunks, tail)
    decreases |stream|
  {
    if FrontChunk(peer, session, stream).None? {
      NoFrontChunk(peer, session, stream);
      chunks, tail := [], stream;
      assert [] + tail == stream;
    } else {
      var payload := FrontChunk(peer, session, stream).value;
      var rest := FrontWasSealed(peer, session, stream);
      ChunkIsNotEmpty(peer.aead, session, payload);
      var more: seq<seq<byte>>;
      more, tail := HeardWasSealed(peer, Session(session.key, session.counter + 2), rest);
      chunks := [payload] + more;
      SealedBefore(peer, session, stream, payload, rest, more, tail);
    }
  }

  /** Where something is heard, the block the state needs is there and is taken. */
  lemma {:induction false} HeardPast(peer: Peer, side: ReadSide, stream: seq<byte>)
    requires Hear(Decoding(peer), side, stream).bytes != []
    ensures Needed(peer, side.state) <= |stream|
    ensures var needed := Needed(peer, side.state);
            var taken := TakeBlock(peer, side, stream[..needed], stream[needed..]);
            && taken.Framed? && taken.rest == stream[needed..]
            && Hear(Decoding(peer), side, stream) == Hear(Decoding(peer), taken.next, taken.rest).After(taken.out)
  {
    var needed := Needed(peer, side.state);
    assert needed <= |stream| ==> stream[needed..] != stream;
  }

  /** A header that is accepted is one for this request, stamped within half a
      minute. */
  lemma {:induction false} AcceptedHeader(peer: Peer, plain: seq<byte>, first: seq<byte>)
    requires |peer.requestSalt| == peer.cipher.SaltLen() && |first| <= MAX_CHUNK
    requires DecodeResponseFixed(plain, peer.requestSalt, peer.now) == FixedLength(|first|)
    ensures |plain| == 11 + peer.cipher.SaltLen() && -30 <= GetBE(plain[1..9]) - peer.now <= 30
    ensures plain == ResponseHeader(peer, plain[1..9], first)
  {
    var salt := |peer.requestSalt|;
    assert plain[9 + salt..] == PutU16(|first|);
    assert plain == plain[..1] + plain[1..9] + plain[9..9 + salt] + plain[9 + salt..];
  }

  /** What a first block opened behind the header leaves to be heard. */
  lemma {:induction false} HeardFirst(peer: Peer, key: Key, length: nat, stream: seq<byte>) returns (first: seq<byte>, rest: seq<byte>)
    requires Ideal(peer.aead) && Authentic(peer.aead)
    requires Hear(Decoding(peer), ReadSide(Payload(length), Some(Session(key, 1))), stream).bytes != []
    ensures |first| == length && stream == peer.aead.seal(key, 1, first) + rest
    ensures Hear(Decoding(peer), ReadSide(Payload(length), Some(Session(key, 1))), stream)
         == Hear(Decoding(peer), Between(Session(key, 2)), rest).After(first)
  {
    HeardPast(peer, ReadSide(Payload(length), Some(Session(key, 1))), stream);
    var block := stream[..length + TAG];
    rest := stream[length + TAG..];
    OpenedBlock(peer.aead, Session(key, 1), block);
    first := peer.aead.open(key, 1, block).value;
    assert stream == block + rest;
  }

  lemma {:induction false} HeardHeader(peer: Peer, stream: seq<byte>)
    returns (salt: seq<byte>, plain: seq<byte>, length: nat, rest: seq<byte>)
    requires Ideal(peer.aead) && Authentic(peer.aead) && Hear(Decoding(peer), START, stream).bytes != []
    ensures |salt| == peer.cipher.SaltLen()
    ensures DecodeResponseFixed(plain, peer.requestSalt, peer.now) == FixedLength(length)
    ensures stream == salt + (peer.aead.seal(peer.subkey(salt), 0, plain) + rest)
    ensures Hear(Decoding(peer), START, stream)
         == Hear(Decoding(peer), ReadSide(Payload(length), Some(Session(peer.subkey(salt), 1))), rest)
  {
    HeardPast(peer, START, stream);
    var n := peer.cipher.SaltLen();
    salt := stream[..n];
    var keyed := ReadSide(FixedHeader, Some(Session(peer.subkey(salt), 0)));
    var behind := stream[n..];
    HeardPast(peer, keyed, behind);
    var block := behind[..11 + n + TAG];
    rest := behind[11 + n + TAG..];
    OpenedBlock(peer.aead, Session(peer.subkey(salt), 0), block);
    plain := peer.aead.open(peer.subkey(salt), 0, block).value;
    length := DecodeResponseFixed(plain, peer.requestSalt, peer.now).length;
    assert stream == salt + behind && behind == block + rest;
  }

  /** From the very start: where anything is heard at all, the stream begins with a
      response to this request, stamped within half a minute, sealed under the key
      its salt derives, with every counter value from zero on used once and in
      order; and what is heard is its first payload and its chunks. */
  lemma {:induction false} HeardFromStart(peer: Peer, stream: seq<byte>)
    returns (salt: seq<byte>, stamp: seq<byte>, first: seq<byte>, chunks: seq<seq<byte>>, tail: seq<byte>)
    requires Ideal(peer.aead) && Authentic(peer.aead) && |peer.requestSalt| == peer.cipher.SaltLen()
    requires Hear(Decoding(peer), START, stream).bytes != []
    ensures WellFormedResponse(peer, salt, stamp, first, chunks)
    ensures EncodeAll(Encoding(peer.aead), Session(peer.subkey(salt), 2), chunks).Some?
    ensures stream == Response(peer, salt, stamp, first, chunks) + tail
    ensures Hear(Decoding(peer), START, stream).bytes == first + Flatten(chunks)
  {
    var plain, length, behind, rest;
    salt, plain, length, behind := HeardHeader(peer, stream);
    first, rest := HeardFirst(peer, peer.subkey(salt), length, behind);
    chunks, tail := HeardWasSealed(peer, Session(peer.subkey(salt), 2), rest);
    stamp := plain[1..9];
    AcceptedHeader(peer, plain, first);
    var wire := EncodeAll(Encoding(peer.aead), Session(peer.subkey(salt), 2), chunks).value.wire;
    Regroup(peer.aead.seal(peer.subkey(salt), 1, first), wire, tail);
    Regroup(peer.aead.seal(peer.subkey(salt), 0, plain), peer.aead.seal(peer.subkey(salt), 1, first) + wire, tail);
    Regroup(salt, peer.aead.seal(peer.subkey(salt), 0, plain) + (peer.aead.seal(peer.subkey(salt), 1, first) + wire), tail);
  }

  lemma {:induction false} ChunkIsNotEmpty(aead: Aead, session: Session, payload: seq<byte>)
    requires Ideal(aead)
    ensures SealChunk(aead, session, payload).Sealed? ==> |SealChunk(aead, session, payload).out| > 0
  {
    assert OpensSealed(aead, session.key, session.counter + 1, payload);
  }

  // ------------------------------------------------------------ the codec object

  const NONCES: nat := 0x1_0000_0000_0000_0000

  /** The nonce under a counter value: its low 64 bits, as it is stored. */
  function Nonce(counter: nat): nat {
    counter % NONCES
  }

  /** Counter values spent in order give each nonce once if and only if there are
      at most 2 to the 64 of them. */
  lemma {:induction false} NoncesDistinct(spent: nat)
    ensures (forall i, j :: 0 <= i < j < spent ==> Nonce(i) != Nonce(j)) <==> spent <= NONCES
  {
    if spent > NONCES {
      assert 0 <= 0 < NONCES < spent && Nonce(0) == Nonce(NONCES);
    }
  }

  /** The codec as it is held: both directions' sessions and the read state. */
  class StreamCodec {
    const peer: Peer
    var writer: Session
    var reader: Option<Session>
    var state: ReadState

    /** Every counter value sealed under on this connection, the request's own
        two included. */
    ghost var spent: seq<nat>

    /** They are the numbers from zero on, each once and in order. */
    ghost predicate Valid()
      reads this
    {
      |spent| == writer.counter && forall i :: 0 <= i < |spent| ==> spent[i] == i
    }

    ghost function Side(): ReadSide
      reads this
    {
      ReadSide(state, reader)
    }

    constructor (peer: Peer, key: Key)
      ensures Valid() && this.peer == peer && writer == Session(key, 0) && Side() == START && spent == []
    {
      this.peer := peer;
      writer := Session(key, 0);
      reader := None;
      state := Salt;
      spent := [];
    }

    /** `Session::seal` on the writer: the counter moves before the block leaves. */
    method Seal(plain: seq<byte>) returns (block: seq<byte>)
      requires Valid()
      modifies `writer, `spent
      ensures Valid()
      ensures block == peer.aead.seal(old(writer.key), old(writer.counter), plain)
      ensures writer == Session(old(writer.key), old(writer.counter) + 1)
      ensures spent == old(spent) + [old(writer.counter)]
    {
      var nonce := writer.counter;
      writer := writer.(counter := nonce + 1);
      spent := spent + [nonce];
      block := peer.aead.seal(writer.key, nonce, plain);
    }

    /** What a connection opens with: the salt, and the two parts of the request
        sealed under the first two values. */
    method Request(fixed: seq<byte>, body: seq<byte>) returns (out: seq<byte>)
      requires Valid() && spent == []
      modifies `writer, `spent
      ensures Valid() && spent == [0, 1] && writer == Session(old(writer.key), 2)
      ensures out == peer.requestSalt
                     + (peer.aead.seal(writer.key, 0, fixed) + peer.aead.seal(writer.key, 1, body))
    {
      var header := Seal(fixed);
      var rest := Seal(body);
      out := peer.requestSalt + (header + rest);
    }

    /** One frame, under two counter values never used before. */
    method Encode(payload: seq<byte>) returns (out: seq<byte>)
      requires Valid()
      modifies `writer, `spent
      ensures Valid()
      ensures SealChunk(peer.aead, old(writer), payload) == Sealed(writer, out)
      ensures spent == old(spent) + [old(writer.counter), old(writer.counter) + 1]
      ensures forall i :: 0 <= i < |old(spent)| ==> old(spent)[i] < old(writer.counter)
    {
      var length := Seal(PutU16(|payload| % 0x1_0000));
      var body := Seal(payload);
      out := length + body;
    }

    /** `Session::open` on the reader. */
    method Open(block: seq<byte>) returns (plain: seq<byte>, error: Option<ProxyError>)
      modifies `reader
      ensures error.Some? ==> OpenBlock(peer, old(reader), block) == OpenError(error.value)
      ensures error.None? ==> reader.Some? && OpenBlock(peer, old(reader), block) == Opening(plain, reader.value)
    {
      if reader.None? {
        return [], Some(Header);
      }
      var nonce := reader.value.counter;
      reader := Some(reader.value.(counter := nonce + 1));
      match peer.aead.open(reader.value.key, nonce, block)
      case None =>
        return [], Some(Crypto);
      case Some(revealed) =>
        return revealed, None;
    }

    /** The in-place decode does what the pure step says, or refuses as it does. */
    method Decode(input: seq<byte>) returns (out: seq<byte>, rest: seq<byte>, error: Option<ProxyError>)
      modifies `reader, `state
      ensures error.None? ==> Step(peer, old(Side()), input) == Framed(Side(), out, rest)
      ensures error.Some? ==> Step(peer, old(Side()), input) == Refused(error.value)
    {
      var needed := Needed(peer, state);
      if |input| < needed {
        return [], input, None;
      }
      var block := input[..needed];
      rest := input[needed..];
      out, error := [], None;
      if state.Salt? {
        reader := Some(Session(peer.subkey(block), 0));
        state := FixedHeader;
        return;
      }
      var plain;
      plain, error := Open(block);
      if error.Some? {
        return;
      }
      match state
      case FixedHeader =>
        match DecodeResponseFixed(plain, peer.requestSalt, peer.now) {
          case FixedError(refusal) => error := Some(refusal);
          case FixedLength(length) => state := Payload(length);
        }
      case Length =>
        if |plain| < 2 {
          error := Some(Header);
        } else {
          state := Payload(GetU16(plain));
        }
      case Payload(_) =>
        out := plain;
        state := Length;
    }
  }
}
