# Boreas in Dafny

A model of the hard core of Boreas, a VPN core written without I/O of its own, and
proofs about it. The model follows the source's form: what the source updates in
place is a class with invariants, what it loops over is a loop, what it computes is
a function. `dafny verify dfyconfig.toml` checks the whole project.

| file | models |
|---|---|
| `Framing.dfy` | the codec law and the `Framed` adapter, reading and writing |
| `Shadowsocks.dfy`, `Vless.dfy` | its two codecs, and VLESS datagram frames |
| `Grpc.dfy` | gRPC messages over HTTP/2 DATA frames, and protobuf varints |
| `Socks5.dfy` | the SOCKS5 machine and the negotiation driver |
| `ReplayWindow.dfy` | the sliding replay window against the set of identifiers admitted, and the windows of two sessions |
| `Hysteria2.dfy` | UDP messages, fragmentation and reassembly |
| `Live.dfy` | the single-flight dial as steps of a concurrent system |
| `Bridge.dfy` | a bridged stream and the pumps that feed it |
| `Pool.dfy`, `Planner.dfy`, `Guards.dfy` | buffers, flow plans, ICMP budget and inspected addresses |
| `FlowTable.dfy`, `Checksum.dfy` | flow expiry and its timer wheel, the Internet checksum |
| `Reassembly.dfy`, `Reassembler.dfy` | IP reassembly of one datagram, and the table of them with its expiry index, over whole runs |
| `Holdings.dfy`, `Datapath.dfy`, `Runs.dfy`, `Shell.dfy` | the datapath, whole runs of it, and the shell's drain loop |

The environment is input: arrivals, partial acceptances, dial outcomes, reassembler
answers, clock readings and the order a hash map is visited in are parameters, and
every theorem is for all of them. Cryptography is a pair of functions obeying
`Shadowsocks.Ideal` (opening undoes sealing) and, where said, `Shadowsocks.Authentic`
(only sealed blocks open); it is indexed by the counter value, of which the nonce is the
low 64 bits.

How the datapath's slices are accounted for: `Holdings.Balanced` is the type of books
in which every slice is in exactly one queue, once, or in hand. Every operation keeps
its books balanced, and the slices on loan are those on the books. What is in hand
after an operation is what was before, less the slice passed in.

## What turned out not to hold

Each is stated with a witness and with the exact condition.

- The replay window admits an identifier twice (`ReplayWindow.AdmittedTwice`), exactly
  when the mark advances by exactly 64 and the identifier it left comes again before
  the next advance (`ReplayWindow.Run`). Across sessions a packet passes again once two
  other sessions have been opened since (`ReplayWindow.PassedAgain`), and not before;
  `ReplayWindow.PassesAgainExactly` says exactly when, from the packets alone.
- A reassembled Hysteria2 datagram can be a mixture of two: identifiers come again after
  65536 sends, addresses are not compared and a half-assembled datagram never expires
  (`Hysteria2.MixesTwo`). The first yield is the payload if and only if every stale piece
  not replaced is the piece it stands in for (`Hysteria2.YieldsPayloadExactly`).
- A clean end does not mean a whole stream: one that stops inside a frame ends like one
  that stops before it, exactly when the codec takes nothing of the part that came
  (`Sansio.CutGoesUnheard`), and a gRPC body like one cut at a message exactly when it
  stops strictly inside one (`Grpc.CutMessage`).
- `next_deadline` can be late, though it is documented as never late. It is later than
  a flow's deadline if and only if a pass has been made in that deadline's own second
  (`FlowTable.NamedAfterAPass`; late by a second at most), or an overflow slot due by
  then is stranded behind empty buckets, because `take_due` re-buckets overflow against
  the window as it was (`FlowTable.ReportedLate`). `FlowTable.UdpFlowTable.NextDeadline`
  states both causes; `FlowTable.Attend` says which runs exclude the second, and
  `FlowTable.DriveAwake` bounds how late a driver that wakes as told evicts a flow.
- `expire` does not evict a flow whose deadline falls inside a second already drained
  (`FlowTable.KeptPastItsDeadline`); otherwise it evicts exactly what is due
  (`FlowTable.UdpFlowTable.Expire`).
- The negotiation driver does not send every message the SOCKS5 machine writes: a
  refusing call's output is dropped with it. A message is lost if and only if the read
  that called for it also carried the refusal (`Socks5.LostExactly`,
  `Socks5.RequestLost`).
- The SOCKS5 machine alone writes its greeting again on empty input, exactly when the
  output handed to it is empty again (`Socks5.Reoffer`).
- A gRPC header with ten marked length groups is never whole and never refused, so
  what is held of it grows without bound (`Grpc.EndlessExactly`).
- A writer can be parked for ever: after the transport has failed a stream its queue is
  drained no more, and the writer is told only once the sender is gone
  (`Bridge.Stream.Parked`, with the witness `Bridge.ParkedForGood`).
- A stream its task has dropped is not always forgotten: exactly while the transport does
  not list it as readable, its sender stays (`Bridge.Stream.Linger`).
- The ready list can name a flow twice once a waiting flow has been removed and
  reopened (`Holdings.ListedTwice`, `Runs.ListsTwice`); it stays exact through a step if and only if the
  step removes no waiting flow (`Runs.StaysExact`).
- A path change that changes nothing still tears down an inspected flow on a packet
  egress, because every flow is replanned as outside inspection
  (`Planner.ReplannedAsExcluded`).

Where documentation and code disagree the code is modelled: `src/bridge.rs` says a
reset loses bytes not yet read, while chunks already queued are delivered first.

## Model

| member | source | states |
|---|---|---|
| `Sansio.HearSplit` | src/sansio.rs:37-66 | For every codec obeying the prefix law, hearing a stream in two parts is hearing it whole, the surplus at the switch to transparent included |
| `Sansio.ChunkingIsInvisible` | src/sansio.rs:180-240 | Any chunking of a stream, continued from any prefix of it, decodes to the one-shot decoding of the concatenation |
| `Sansio.HearStep` | src/sansio.rs:196-222 | What one codec verdict makes of everything still held: refusal, transparent switch with its surplus, or a frame and the rest |
| `Sansio.HearGrows` | src/sansio.rs:37-66 | More input never takes back a decoded byte, and a refusal stays the same refusal |
| `Sansio.FramedReader.Drain` | src/sansio.rs:162-176 | Decoded bytes go up in order, as many as the buffer takes; the rest waits |
| `Sansio.FramedReader.DecodeHeld` | src/sansio.rs:196-222 | One offer of the held bytes keeps delivered, waiting and still-to-come bytes equal to the one-shot decoding; a refusal is the one-shot refusal; without progress nothing is left to decode |
| `Sansio.FramedReader.TakeFrame` | src/sansio.rs:208-220 | A framed verdict keeps that agreement, and no progress means nothing decodable remains |
| `Sansio.FramedReader.Advance` | src/sansio.rs:208-215 | Consuming and compacting: the cursor stays zero or below half the buffer, each compaction moves what is left, and bytes moved plus the cursor never exceed bytes consumed |
| `Sansio.FramedReader.Fill` | src/sansio.rs:224-237 | One read from below loses and repeats nothing, and the clean end is reported only at the end of the stream |
| `Sansio.FramedReader.ReadThrough` | src/sansio.rs:191-194 | A transparent read passes the inner stream through unchanged |
| `Sansio.FramedReader.PollRead` | src/sansio.rs:179-240 | For every split and every buffer size the answer tells the truth about the stream: bytes in order, pending, failed, or ended only when all is delivered |
| `Sansio.Listen` | src/sansio.rs:122-240 | A whole conversation delivers a prefix of the one-shot decoding, all of it by a clean end, and exactly what precedes a refusal, which is never told as an end; over a stream that keeps nobody waiting every read brings something until there is no more |
| `Sansio.CutGoesUnheard` | src/sansio.rs:196-237 | A stream that stops inside a frame is heard, and ends, as if it had stopped at the frame's start, exactly when the codec takes nothing of the part that came |
| `Sansio.RoundTrip` | src/sansio.rs:52-66 | A decoder that inverts single frames hears everything an encoder writes as the concatenated payloads, and ends in step with it |
| `Sansio.FramedWriter.Push` | src/sansio.rs:266-278 | Under any partial acceptance, what is on the wire and what is pending are the frames begun; why it stops, how much is left and which answers it used are the recursive specification's |
| `Sansio.WillingTakesAll` | src/sansio.rs:266-278 | A stream that takes something of every write takes the whole frame |
| `Sansio.FramedWriter.PollWrite` | src/sansio.rs:243-280 | Frames reach the wire whole and in order, and the count reported is the payload of the frame that just finished |
| `Sansio.Speak` | src/sansio.rs:242-280 | A whole write: the wire carries the frames of a split of exactly the bytes reported taken, and at most a part of the next frame; over a stream that takes something of every write each poll finishes a frame |
| `Shadowsocks.StreamCodecIsStable` | src/egress/shadowsocks.rs:707-749 | The SIP022 read states obey the codec law, so every theorem of the framing applies |
| `Shadowsocks.EncodeSpends` | src/egress/shadowsocks.rs:751-759 | Encoding never refuses and spends exactly two counter values for each chunk |
| `Shadowsocks.HearChunk` | src/egress/shadowsocks.rs:718-759 | A chunk as `encode` writes it decodes to itself and moves the counter by two |
| `Shadowsocks.HearChunksSealed` | src/egress/shadowsocks.rs:718-759 | Any list of chunks of at most 0xffff bytes decodes to its concatenation, the counter at the number of blocks opened |
| `Shadowsocks.HearHeader` | src/egress/shadowsocks.rs:195-209 | The salt keys the reader, the sealed fixed header is judged by type, salt, timestamp and length, and nothing behind a refused header is heard |
| `Shadowsocks.HearResponse` | src/egress/shadowsocks.rs:684-764 | A whole response, salt, header, first payload and any chunks, decodes to the payloads with one counter value for each block |
| `Shadowsocks.StaleIsRefused` | src/egress/shadowsocks.rs:164-209 | A response stamped more than 30 seconds away, either way, is refused with the distance |
| `Shadowsocks.ReadResponse` | src/egress/shadowsocks.rs:684-764 | The same over any split of the stream and any read buffers, never refused, and in full once enough was read |
| `Shadowsocks.FrontWasSealed` | src/egress/shadowsocks.rs:718-749 | With an authentic AEAD, a chunk heard is the sealing of its payload under the next two counter values |
| `Shadowsocks.HeardWasSealed` | src/egress/shadowsocks.rs:718-749 | Everything heard is the payloads of chunks sealed under consecutive counter values: none missing, repeated, swapped or forged |
| `Shadowsocks.HeardFromStart` | src/egress/shadowsocks.rs:718-749 | From the start of the stream: where anything is heard, it is the first payload and the chunks of a response to this request, stamped within 30 seconds, sealed under the key its salt derives with every counter value from zero on used once and in order |
| `Shadowsocks.StreamCodec.Seal` | src/egress/shadowsocks.rs:132-145 | The values spent on a connection are the numbers from zero on, each once and in order |
| `Shadowsocks.StreamCodec.Request` | src/egress/shadowsocks.rs:642-669 | The connection opens with the salt and the two parts of the request, sealed under values zero and one |
| `Shadowsocks.NoncesDistinct` | src/egress/shadowsocks.rs:132-137 | Each 64-bit nonce is used once if and only if at most 2^64 blocks were sealed |
| `Shadowsocks.StreamCodec.Encode` | src/egress/shadowsocks.rs:751-759 | The in-place encode writes the sealed chunk under two values above every one spent before |
| `Shadowsocks.StreamCodec.Decode` | src/egress/shadowsocks.rs:718-749 | The in-place decode does what the pure step says, or refuses as it does |
| `Vless.ResponseHeaderIsStable` | src/egress/vless.rs:466-496 | The response header codec obeys the codec law |
| `Vless.HeaderRoundTrip` | src/egress/vless.rs:172-188 | A header as a server writes it is read to its end, and every proper prefix of it is incomplete |
| `Vless.HearTunnel` | src/egress/vless.rs:172-188 | A stream says nothing while the header is short, is refused for another version, and otherwise says everything behind the header |
| `Vless.ReadTunnel` | src/egress/vless.rs:466-496 | Over any split and any buffers the payload behind the header comes through untouched, and in full once enough was read |
| `Vless.FramesSplit` | src/egress/vless.rs:328-340 | Length-prefixed datagrams are the same however the stream is split |
| `Vless.FramesInvertFraming` | src/egress/vless.rs:328-359 | Framing a list of datagrams and reading the frames gives the list back, less its empty ones, with nothing left over |
| `Vless.TakeFrames` | src/egress/vless.rs:328-340 | The loop takes every whole frame, keeps the rest and drops empty frames |
| `Vless.ReadDatagrams` | src/egress/vless.rs:297-342 | Any sequence of reads offers exactly the datagrams of the concatenated stream, in order |
| `Grpc.PutVarint` | src/egress/transport.rs:685-691 | The loop writes the protobuf varint |
| `Grpc.GetVarint` | src/egress/transport.rs:693-706 | The loop reads what the varint specification reads |
| `Grpc.VarintRoundTrip` | src/egress/transport.rs:685-706 | Every 64-bit value reads back with its length, whatever follows |
| `Grpc.VarintCut` | src/egress/transport.rs:693-706 | Every proper prefix of a varint is incomplete |
| `Grpc.MessageIsOneField` | src/egress/transport.rs:708-717 | A message is uncompressed, its length counts all that follows it, and what follows is protobuf field 1, length-delimited, holding the payload |
| `Grpc.HeaderRoundTrip` | src/egress/transport.rs:708-726 | A message header decodes to its length and size, whatever follows |
| `Grpc.HeaderCut` | src/egress/transport.rs:723-726 | A header cut anywhere is not yet a header |
| `Grpc.HeaderStable` | src/egress/transport.rs:723-726 | A header once read is not changed by what arrives behind it |
| `Grpc.EndlessExactly` | src/egress/transport.rs:693-726 | A header of sixteen octets or more is not whole exactly when its ten length groups are all marked; then it never will be, nothing is refused, and everything that arrives is held |
| `Grpc.HonestHeadIsShort` | src/egress/transport.rs:708-811 | Of a stream made of messages fewer than sixteen octets are ever held back as a header |
| `Grpc.DeframeSplit` | src/egress/transport.rs:738-811 | De-framing a stream in two parts is de-framing it whole |
| `Grpc.DeframeMessages` | src/egress/transport.rs:708-811 | Any list of messages, empty ones included, says the concatenated payloads and nothing else |
| `Grpc.CutMessage` | src/egress/transport.rs:708-811 | A body that stops inside a message says the payloads before it and what it has of that one; octets are owed or a header is held, which a clean end does not tell, exactly when it stops strictly inside |
| `Grpc.H2Stream.Deliver` | src/egress/transport.rs:739-754 | Payload goes up in order, as much as buffer and message allow |
| `Grpc.H2Stream.TakeHeader` | src/egress/transport.rs:756-769 | A whole header is taken off the held octets, and a short one waits with nothing deliverable |
| `Grpc.H2Stream.TakeData` | src/egress/transport.rs:795-804 | A DATA frame joins what is held without disturbing what was received |
| `Grpc.H2Stream.AwaitResponse` | src/egress/transport.rs:770-794 | Reading starts exactly at a 200; any other answer fails the stream for good, and none leaves it waiting |
| `Grpc.H2Stream.PollData` | src/egress/transport.rs:795-811 | One step of the body: data, nothing yet, failure or the end, as the stream below has it |
| `Grpc.H2Stream.PollRead` | src/egress/transport.rs:728-812 | Delivered bytes are those of the one-shot de-framing, and the end is reported only when the body has ended |
| `Grpc.Download` | src/egress/transport.rs:728-812 | For every cut of the messages into DATA frames and every read size the reader gets a prefix of the payloads, and all of them by the end; while frames keep coming every read brings something |
| `Socks5.AddressRoundTrip` | src/egress/socks5.rs:122-174 | Every address form decodes to itself with its length, whatever follows |
| `Socks5.NameArrives` | src/egress/socks5.rs:136-174 | A domain name is accepted exactly when it is not empty, UTF-8 and without NUL, and arrives in lower case |
| `Socks5.AddressStable` | src/egress/socks5.rs:136-174 | A verdict on an address stands whatever arrives behind it, and a pending one is shorter than the longest address |
| `Socks5.ReplyStable` | src/egress/socks5.rs:240-259 | The same of a reply |
| `Socks5.StandOn` | src/egress/socks5.rs:331-392 | Reading on from a phase reached on part of the stream is reading all of it, and a verdict once given stays |
| `Socks5.GreetingOffers` | src/egress/socks5.rs:207-215 | As a server reads it, the greeting offers no authentication, and a password exactly when there is one |
| `Socks5.CredentialsRoundTrip` | src/egress/socks5.rs:395-402 | As a server reads them, the credentials are those configured |
| `Socks5.MeetsProxy` | src/egress/socks5.rs:207-392 | For every choice of method, login status and reply of a proxy that follows the protocol, the client reaches the verdict they call for, writes credentials exactly when asked for and the request exactly when let through |
| `Socks5.WaitsForAll` | src/egress/socks5.rs:331-392 | And it waits for every octet of a successful conversation |
| `Socks5.WaitingIsShort` | src/sansio.rs:76-117 | A negotiation still waiting holds fewer than 266 octets, so the 16 KiB ceiling is never met |
| `Socks5.Negotiate.Select` | src/egress/socks5.rs:345-365 | Method selection writes what the choice calls for, or gives the one-shot verdict |
| `Socks5.Negotiate.Authenticate` | src/egress/socks5.rs:366-379 | The status reply likewise |
| `Socks5.Negotiate.AwaitReply` | src/egress/socks5.rs:380-388 | The reply likewise |
| `Socks5.Negotiate.Advance` | src/egress/socks5.rs:336-391 | On a buffer extending what was shown, it writes what the new octets call for once and gives the one-shot verdict; on an empty buffer the greeting, exactly when the output is empty too |
| `Socks5.Negotiation` | src/sansio.rs:81-117 | Machine and driver: for every peer stream and every split into non-empty reads the verdict is the one-shot parse and, on success, surplus is what follows the reply; on success and at end of file each message called for was sent once and in order, on a refusal those called for before the last read |
| `Socks5.LostExactly` | src/sansio.rs:94-99 | A message called for is not sent if and only if the read that called for it also carried the refusal |
| `Socks5.RequestLost` | src/sansio.rs:94-99 | The witness: a method choice and a refused reply in one read, and only the greeting was sent |
| `Socks5.Reoffer` | src/egress/socks5.rs:336-344 | Re-offering a buffer writes nothing further exactly when it is not empty or the output still holds the greeting; else the greeting is written again |
| `ReplayWindow.ShiftMaps` | src/egress/shadowsocks.rs:484-489 | An advance by less than 64 keeps every bit exact |
| `ReplayWindow.Window.Advance` | src/egress/shadowsocks.rs:484-489 | The mark moves, the bits in range stay exact, and one is lost exactly on an advance by 64 |
| `ReplayWindow.Window.Admit` | src/egress/shadowsocks.rs:468-502 | Admitted exactly when above the mark or within 64 below and not known admitted; a fresh identifier in range is never refused |
| `ReplayWindow.RepeatIsReplay` | src/egress/shadowsocks.rs:476-502 | An answer repeats an admission exactly where the history jumped by 64 and offers the identifier jumped from again |
| `ReplayWindow.Run` | src/egress/shadowsocks.rs:468-502 | Over every run no identifier is admitted twice if and only if no such replay occurs, and a first offer is admitted exactly when within reach |
| `ReplayWindow.AdmittedTwice` | src/egress/shadowsocks.rs:484-489 | The witness: identifiers 0, 64, 0 are all admitted |
| `ReplayWindow.PacketSource.Receive` | src/egress/shadowsocks.rs:536-548 | Windows of the two sessions opened last; a packet of one of them is answered by its window, a packet of any other opens a window and passes |
| `ReplayWindow.RunSessions` | src/egress/shadowsocks.rs:528-583 | Over every run each packet is answered by its session's window as it was fed since the session was last opened |
| `ReplayWindow.ForgottenExactly` | src/egress/shadowsocks.rs:536-548 | A packet belongs to the same opening of its session as an earlier one if and only if fewer than two other sessions were opened since that opening |
| `ReplayWindow.PassesExactly` | src/egress/shadowsocks.rs:468-502 | What a window says to the next identifier, from those it was offered alone: yes exactly within reach, if it never was offered or is the one the window is blind to |
| `ReplayWindow.PassesAgainExactly` | src/egress/shadowsocks.rs:468-548 | Over every run, a packet that came before passes again exactly when, its session remembered, the window is blind to it; or, two other sessions opened since, exactly when what its session was offered since it was opened again lets it through |
| `ReplayWindow.OnceInALife` | src/egress/shadowsocks.rs:468-548 | Between two openings an identifier passes twice exactly when the window replays |
| `ReplayWindow.PassedAgain` | src/egress/shadowsocks.rs:536-548 | The witness: after a packet of each of two other sessions the same packet passes again |
| `Hysteria2.VarintRoundTrip` | src/wire.rs:111-116 | The variable-length integer of section 16 of RFC 9000 reads back with its length |
| `Hysteria2.MessageRoundTrip` | src/egress/hysteria2.rs:204-246 | A UDP message reads back as written, and its length is header and payload |
| `Hysteria2.ChunksCover` | src/egress/hysteria2.rs:250-283 | The chunks are the payload, each within budget and none empty |
| `Hysteria2.CountChunks` | src/egress/hysteria2.rs:257-262 | The rounded-up division is the number of chunks |
| `Hysteria2.Fragment` | src/egress/hysteria2.rs:250-283 | Fragments exactly when the header leaves room and the pieces fit a byte, and each piece is its chunk with its index |
| `Hysteria2.PieceFits` | src/egress/hysteria2.rs:250-283 | Every piece fits the frame and reads back as itself |
| `Hysteria2.Defragmenter.Store` | src/egress/hysteria2.rs:304-309 | A piece takes its slot, after the slots of another datagram are cleared |
| `Hysteria2.Defragmenter.Push` | src/egress/hysteria2.rs:294-319 | A payload comes out exactly when the history so far completes one |
| `Hysteria2.YieldIsOneDatagram` | src/egress/hysteria2.rs:294-319 | A yielded payload is one part for each index, all from messages of one packet identifier and count |
| `Hysteria2.FirstYield` | src/egress/hysteria2.rs:294-319 | With pieces of an earlier datagram of the same identifier and count held, the first yield takes the new piece where it arrived and the stale one elsewhere |
| `Hysteria2.YieldsPayloadExactly` | src/egress/hysteria2.rs:294-319 | That yield is the payload if and only if every stale piece not replaced is the piece it stands in for, where they are of one size |
| `Hysteria2.MixesTwo` | src/egress/hysteria2.rs:294-319 | The witness: half of one datagram and half of another, 65536 sends later and to another address, are yielded as one |
| `Hysteria2.AnyOrderReassembles` | src/egress/hysteria2.rs:294-319 | With nothing stale held, in any order, with repeats and unfragmented messages between, nothing comes out before the last missing index, and then exactly the payload |
| `Hysteria2.PushAll` | src/egress/hysteria2.rs:294-319 | The same of a new reassembler, over any order of one datagram's pieces |
| `Hysteria2.Transfer` | src/egress/hysteria2.rs:204-319 | From payload to payload: fragment, write, arrive in any order, read, reassemble |
| `Live.OverwritesOnlyItself` | src/live.rs:74-87 | The state a finishing dial replaces is its own `Opening`, and no other dial is running |
| `Live.StepKeeps` | src/live.rs:46-87 | Every step keeps: a dial runs exactly when the state is `Opening` with its channel, and whoever was told an outcome was told the truth |
| `Live.RunKeeps` | src/live.rs:46-87 | Hence in every state of every interleaving |
| `Live.RunMoves` | src/live.rs:46-87 | Dials never lose an outcome and waiters never change channel, however much later |
| `Live.WaiterHearsItsDial` | src/live.rs:63-87 | Whoever joined a dial hears that dial's outcome and no other, in the gap between state write and report as well |
| `Live.DialsNeverOverlap` | src/live.rs:46-87 | While a dial runs no other is spawned, and all before it have written |
| `Live.WaiterAdvances` | src/live.rs:46-87 | No waiter is stuck: a step that brings its answer nearer is always enabled |
| `Live.Live.Peek` | src/live.rs:37-42 | The connection up now, if one is, is one a dial opened |
| `Live.Live.Get` | src/live.rs:46-62 | Serves, joins or spawns; a dial is spawned exactly when the state is down or its connection dead |
| `Live.Live.WriteState` | src/live.rs:74-85 | The dial writes its outcome over its own attempt |
| `Live.Live.SendReport` | src/live.rs:86 | The report follows as a later step |
| `Live.Live.Await` | src/live.rs:63-71 | A waiter gets the outcome of the dial it joined, once reported |
| `Bridge.Stream.PollRead` | src/bridge.rs:131-164 | Bytes come up in order; a clean end is told only after FIN, or after the driver was stopped, and a reset as an error, each after everything that arrived |
| `Bridge.Stream.PollWrite` | src/bridge.rs:166-200 | One chunk of at most 16 KiB joins the back of the queue, or none; pending exactly when it is full, broken exactly when closed |
| `Bridge.Stream.OfferChunk` | src/egress/quic.rs:581-598 | Whatever the transport takes of a chunk, accepted, tail and queue stay the bytes written, and the pump goes on exactly when it took all of it |
| `Bridge.Stream.PumpOutOnce` | src/egress/quic.rs:563-600 | One turn: the front chunk is offered, and FIN exactly when nothing is left and the writer is gone |
| `Bridge.Stream.PumpOut` | src/egress/quic.rs:563-600 | Over any partial acceptances nothing is lost, repeated or reordered; what is taken, what is left, whether FIN is offered and whether the stream fails are the recursive specification's; FIN is offered once, behind everything, and a finished stream's queue is not touched again |
| `Bridge.Stream.PumpInOnce` | src/egress/quic.rs:519-560 | A full channel leaves the bytes with the transport, a lost reader costs the sender; otherwise bytes, FIN and reset arrive as given |
| `Bridge.Stream.PumpIn` | src/egress/quic.rs:519-560 | Over any answers it draws what the recursive specification says, up to FIN, a reset or a full channel, and what arrived is delivered, waiting or queued, in order |
| `Bridge.Stream.RaiseReset` | src/bridge.rs:95-102 | The reset flag is up before the sender goes |
| `Bridge.Stream.Retire` | src/egress/quic.rs:509-511 | A stream is forgotten only when its input is over and its output finished: everything accepted and FIN offered, or the transport failed |
| `Bridge.Stream.Service` | src/egress/quic.rs:481-512 | One turn of the driver: in exactly if the stream is readable and has a sender, out, and the stream forgotten exactly when its sender is gone and its output finished |
| `Bridge.Stream.Linger` | src/egress/quic.rs:481-560 | A stream its task has dropped keeps its sender exactly while the transport does not list it, and is forgotten exactly once it has been listed and its output is over; nothing more is taken for it |
| `Bridge.Stream.Parked` | src/egress/quic.rs:563-600 | After the transport failed a stream a writer at a full queue stays parked through any turns of the driver while the sender is open, and is told once it is gone |
| `Bridge.ParkedForGood` | src/egress/quic.rs:563-600 | The witness: one chunk the transport fails, eight that fill the queue, and the ninth waits through any turns with a silent peer |
| `Pool.LoansCount` | src/pool.rs:30-36 | Cached and loaned buffers are all that were allocated |
| `Pool.BufferPool.Reserve` | src/pool.rs:68-95 | Refused exactly when the length does not fit or every buffer is out; else an empty buffer nobody holds |
| `Pool.BufferPool.Take` | src/pool.rs:55-59 | The slice holds exactly the bytes given |
| `Pool.BufferPool.TakeZeroed` | src/pool.rs:62-66 | The slice holds that many zeros |
| `Pool.BufferPool.Release` | src/pool.rs:184-191 | The loan, and only it, ends; the buffer is recycled empty |
| `Pool.BufferPool.Resize` | src/pool.rs:150-156 | In place, zero-filling growth, never past the slice size |
| `Pool.BufferPool.Available` | src/pool.rs:97-101 | Capacity less the loans |
| `Planner.QuicPassesExactly` | src/lib.rs:445-485 | QUIC passes exactly when the flow is not inspected, the egress is native and, if terminated, carries 1200-byte datagrams |
| `Planner.FailsExactly` | src/lib.rs:452-464 | Planning fails exactly when a flow on the packet path would have less than the IPv6 minimum |
| `Planner.CarriedIsRouted` | src/lib.rs:408-439 | What admission lets through a plan routes; flows open only for TCP and UDP on a terminated path |
| `Planner.ReplanSettles` | src/lib.rs:491-527 | A fresh plan, and a re-steered one, are unchanged under the properties they were made for |
| `Planner.ReplannedAsExcluded` | src/lib.rs:491-527 | Replanned as outside inspection, a plan is unchanged under its own properties unless it was inspected on a packet egress: then it is torn down |
| `Planner.TerminatedReplan` | src/lib.rs:491-527 | A terminated flow survives exactly when the egress takes flows, and is re-steered exactly when its QUIC passed and no longer can |
| `Planner.PacketReplan` | src/lib.rs:491-527 | A packet-path flow survives exactly when the egress takes packets, it is outside inspection and the path holds IPv6 |
| `Guards.IcmpBudget.Take` | src/datapath.rs:107-118 | A grant is one token of the bucket as refilled |
| `Guards.IcmpBudget.TakeAll` | src/datapath.rs:93-119 | A run of requests grants what the bucket's arithmetic says, and leaves the bucket it says |
| `Guards.BetweenRefills` | src/datapath.rs:107-118 | Between two refills at most the tokens in hand are granted |
| `Guards.EveryStretch` | src/datapath.rs:89-119 | Every stretch of every run, whatever came before it, grants at most 100 for each whole second it spans, and 200 more |
| `Guards.InspectedAddresses.Admit` | src/datapath.rs:144-161 | Each address in turn is stored until a window from now, or refused exactly when it is new and the set is full |
| `Guards.AdmissionTells` | src/datapath.rs:144-161 | Those stored last the whole window, and none was refused exactly if all are stored |
| `Guards.LiveExactly` | src/datapath.rs:144-177 | Over every run of admissions, refusals and expiries an address is live if and only if it was named and not turned away less than a window ago |
| `Guards.RoomSuffices` | src/datapath.rs:144-161 | A run that names no more addresses than there is room for turns none away; and with none turned away, to be taken is to be named |
| `Guards.Watch` | src/datapath.rs:144-177 | The same of the set itself, from nothing, with the number it refused |
| `Guards.InspectedAddresses.Expire` | src/datapath.rs:171-177 | Exactly the arrived deadlines go, though only the lower bound is checked first; no later answer changes |
| `FlowTable.TakeDue` | src/l3/udp.rs:61-91 | Every slot whose second has arrived surfaces, every other stays, and the window moves past |
| `FlowTable.NextDue` | src/l3/udp.rs:93-104 | The first occupied second of the window, or its end; it is later than a slot exactly when that slot is stranded in overflow, due within the window but behind no bucket |
| `FlowTable.LateExactly` | src/l3/udp.rs:93-104 | The second named is later than a deadline on the wheel exactly when the deadline's own second is drained already or the deadline is stranded in overflow |
| `FlowTable.ReportedLate` | src/l3/udp.rs:61-104 | The witness family for the second cause: a deadline stranded in overflow |
| `FlowTable.NamedAfterAPass` | src/l3/udp.rs:270-345 | The witness family for the first cause: a pass in the deadline's own second, nothing in overflow |
| `FlowTable.Open` | src/l3/udp.rs:233-250 | Refused exactly below two minutes |
| `FlowTable.UdpFlowTable.GetOrInsert` | src/l3/udp.rs:289-316 | A live flow is refreshed without a new slot; a new one is refused exactly at the ceiling, and goes to overflow exactly when due 512 seconds or more past the last second drained |
| `FlowTable.UdpFlowTable.Retain` | src/l3/udp.rs:282-286 | Flows go, stale slots stay harmless |
| `FlowTable.UdpFlowTable.Expire` | src/l3/udp.rs:320-345 | No flow goes early; exactly the flows due go unless this second was drained already, and then none does; with timeouts up to 512 seconds nothing enters overflow |
| `FlowTable.UdpFlowTable.NextDeadline` | src/l3/udp.rs:270-278 | Later than a flow's deadline if and only if a pass has been made in that deadline's own second or the deadline is stranded; by a second at most unless something is stranded |
| `FlowTable.Attend` | src/l3/udp.rs:270-345 | With timeouts up to 512 seconds, over every run in which no flow is opened with its deadline beyond the window the last pass left, nothing is ever stranded: the deadline reported is late exactly when the last pass fell in the flow's own second |
| `FlowTable.DriveAwake` | src/l3/udp.rs:270-345 | Over every run of a driver that makes a pass at each deadline reported, what is inserted is there unless the table is full, no flow goes before its deadline, and none outlives it by more than 513 seconds, nor by more than one while nothing is in overflow |
| `FlowTable.KeptPastItsDeadline` | src/l3/udp.rs:318-345 | The witness family: a deadline between two passes of one second is missed until the next second |
| `Reassembly.CountTellsWhole` | src/l3/reassembly.rs:316-319 | The block count equals the rounded-up length exactly when every octet has arrived |
| `Reassembly.ClearOfBitmap` | src/l3/reassembly.rs:421-431 | A fragment is clear of the bitmap exactly when it shares no block with a fragment kept |
| `Reassembly.PendingDatagram.MarkReceived` | src/l3/reassembly.rs:309-314 | Exactly the fragment's blocks are marked, and the count follows |
| `Reassembly.PendingDatagram.Push` | src/l3/reassembly.rs:363-487 | Malformed fragments change nothing; a contradiction or overlap poisons for good; completion exactly when the length is known and every octet is there, under the headers of the fragment at offset zero |
| `Reassembly.StaysSound` | src/l3/reassembly.rs:408-455 | A fragment that fits keeps everything kept where it belongs, apart from the others, and the headers those of offset zero |
| `Reassembly.PiecesAgree` | src/l3/reassembly.rs:413-419 | Fragments of one datagram never contradict one another |
| `Reassembly.Reassemble` | src/l3/reassembly.rs:363-487 | Pieces of a datagram that share no block, in any order, stay pending until every octet is there and then give exactly the datagram, under its first piece's headers |
| `Reassembler.ExpireDue` | src/l3/reassembly.rs:506-543 | Exactly the keys whose own deadline has arrived go, however they are filed; the others keep their deadlines and are filed once again |
| `Reassembler.Table.Expire` | src/l3/reassembly.rs:506-543 | The same of the table, no other datagram touched |
| `Reassembler.Table.NextDeadline` | src/l3/reassembly.rs:353-361 | Never later than any datagram's deadline, and none exactly when nothing is pending |
| `Reassembler.Table.Push` | src/l3/reassembly.rs:363-487 | The next table: a malformed or refused fragment changes nothing; a new datagram in a full table is refused exactly when a pass evicts none; any other fragment is answered by the datagram under its key alone, opened anew if there is none, and a whole one leaves table and index |
| `Reassembler.Serve` | src/l3/reassembly.rs:363-543 | Every run of fragments of any keys and of passes, from an empty table, goes step by step that way |
| `Reassembler.KeyByKey` | src/l3/reassembly.rs:363-543 | In every such run the pieces of a datagram are answered as if it were the only one, if the first finds room and nothing before the last comes a timeout or more after the piece before it |
| `Checksum.Next` | src/wire.rs:290-292 | The flattened parts octet by octet, empty parts included |
| `Checksum.Compute` | src/wire.rs:290-300 | For inputs up to 131074 octets the result is that of the concatenation, however it is cut into parts; both loops end |
| `Checksum.SumFits` | src/wire.rs:292-295 | No input within the limit wraps the 32-bit sum |
| `Checksum.LimitIsExact` | src/wire.rs:292-295 | One octet more, all ones, and it would |
| `Checksum.FoldIs` | src/wire.rs:296-298 | Folding is the remainder modulo 65535, with 65535 for the positive multiples |
| `Checksum.StoredChecksumVerifies` | src/wire.rs:290-300 | Stored in a zeroed even-aligned field, the checksum makes the checksum of the whole zero |
| `Holdings.LedgerCounts` | src/datapath.rs:303-333 | One slice for each packet and datagram queued, counted across all queues and flows |
| `Holdings.WithDatagram` | src/datapath.rs:605-632 | Queueing keeps every waiting flow listed, plans local and bounds; an exact list stays exact |
| `Holdings.WithFlow` | src/datapath.rs:800-814 | Opening a flow does too |
| `Holdings.Served` | src/datapath.rs:635-653 | Serving the front of the list does too |
| `Holdings.WithoutFlow` | src/datapath.rs:875-879 | Removing a flow with nothing queued keeps an exact list exact |
| `Holdings.ListedTwice` | src/datapath.rs:622-631 | A flow removed while waiting, reopened and queued to is listed twice |
| `Holdings.GoneButListed` | src/datapath.rs:622-631 | A flow removed while it waits leaves the ready list inexact |
| `Holdings.VisitsChangePath` | src/datapath.rs:831-852 | What visiting every flow comes to, on either kind of egress, in any order, the ready list included |
| `Holdings.KeptFlowsStayListed` | src/datapath.rs:831-852 | A change of path that keeps the flows keeps the ready list exact |
| `Datapath.Create` | src/datapath.rs:338-390 | Refused exactly when inspection could never select a flow, a flow outside it has no room for IPv6, or flows would idle less than two minutes; else set up with the plans, limits and empty queues asked for |
| `Datapath.Datapath.Decide` | src/datapath.rs:469-492 | Flows open only for TCP and UDP on a terminated path, fragments go to reassembly, and a live connection keeps its plan |
| `Datapath.Datapath.AnswerWith` | src/datapath.rs:759-780 | One packet for the client if there is a slice and a reply to write, else a recorded drop; a failed write gives its slice back |
| `Datapath.Datapath.Forward` | src/datapath.rs:722-745 | The packet crosses a hop older and clamped, or its expiry or the lack of a slice is recorded, with a time-exceeded answer exactly when it may be quoted, came from the client and the budget grants it |
| `Datapath.Datapath.OutOfHops` | src/datapath.rs:734-740 | Expiry is recorded first, then answered within the budget |
| `Datapath.Datapath.ReportTooBig` | src/datapath.rs:748-755 | An oversized packet is answered with the inner MTU and that is recorded, within the budget |
| `Datapath.Datapath.InterceptDns` | src/datapath.rs:565-588 | The query reaches the resolver with its payload and endpoints, or its loss is recorded exactly when there is no payload or no slice |
| `Datapath.Datapath.CaptureForTermination` | src/datapath.rs:598-603 | The packet reaches the local stack whole, or its loss is recorded |
| `Datapath.Datapath.OpenFlow` | src/datapath.rs:800-814 | Refused exactly at the ceiling, kept if there, else opened with the plan given |
| `Datapath.Datapath.Enqueue` | src/datapath.rs:621-631 | The datagram joins the back of its flow and the flow is listed once per empty-to-waiting transition |
| `Datapath.Datapath.CaptureDatagram` | src/datapath.rs:605-632 | The payload joins its flow's queue addressed to its target exactly when there is a payload, a slice and room; else the reason is recorded |
| `Datapath.Datapath.HandleStream` | src/datapath.rs:528-540 | Refused exactly at the ceiling; else opened and announced once, and what the client sends captured |
| `Datapath.Datapath.HandleDatagram` | src/datapath.rs:541-554 | Refused exactly at the ceiling; else opened and announced once, and what the client sends queued or its loss recorded |
| `Datapath.OpenKeeps` | src/datapath.rs:528-554 | Opening a flow loses and replans none, and an exact ready list stays exact |
| `Datapath.Datapath.Dispatch` | src/datapath.rs:461-562 | The decision taken on the packet, or on the one its fragments complete, is carried out exactly: what is sent, asked, captured, listed and recorded; the slice handed in is used or returned, queues grow at the back only, no flow is lost, and from the egress nothing goes back there |
| `Datapath.Datapath.Perform` | src/datapath.rs:493-561 | What each decision about a whole packet comes to, branch by branch |
| `Datapath.LiveGoesToStack` | src/datapath.rs:477-540 | What is done with a client packet of a live connection is a capture for the local stack, or its recorded loss, and nothing else |
| `Datapath.LeavesATrace` | src/datapath.rs:461-562 | No client packet of a carried protocol that fits the smallest link is done with without a trace |
| `Datapath.OneFate` | src/datapath.rs:461-562 | A client packet has one fate: one transmit made of it, or one query, or one capture, or one place in a queue; towards the client only an ICMP error the budget granted, and never about an ICMP error |
| `Datapath.CrossesFromEgress` | src/datapath.rs:436-562 | A packet in a slice from the egress becomes for the device itself, a hop older and clamped on the packet path, or nothing, whatever the flows and addresses are |
| `Datapath.Datapath.OnFragment` | src/datapath.rs:782-798 | A completed datagram is decided upon by its own header, a contradiction is recorded, an unreadable fragment refused, and a pending one leaves no mark |
| `Datapath.Datapath.OnTun` | src/datapath.rs:424-434 | A malformed packet is refused and leaves no mark; any other is dispatched, and the books stay balanced |
| `Datapath.Datapath.OnEgress` | src/datapath.rs:436-459 | The same from the egress, where a fragment is discarded on record and only tunnel-bound transmits are queued |
| `Datapath.Datapath.WriteUdp` | src/datapath.rs:673-685 | The datagram is queued for the client exactly when there is a slice and it can be written; else its drop recorded or the write refused, and the slice back |
| `Datapath.Datapath.Deliver` | src/datapath.rs:657-686 | A reply reaches a client only while its mapping lives, refused exactly when it cannot be planned or written, and the caller is told whether it is on its way |
| `Datapath.Datapath.AnswerDns` | src/datapath.rs:700-717 | A DNS answer is queued for the tunnel, refused, or its drop recorded, each exactly when |
| `Datapath.Datapath.InspectAddresses` | src/datapath.rs:693-697 | The addresses are admitted in turn, and one event is recorded for each refused |
| `Datapath.Datapath.PollTransmit` | src/datapath.rs:855-857 | First in, first out; the slice passes to the caller |
| `Datapath.Datapath.PollQuery` | src/datapath.rs:590-592 | The same of queries |
| `Datapath.Datapath.PollTerminate` | src/datapath.rs:688-690 | The same of captured packets |
| `Datapath.Datapath.PollEvent` | src/datapath.rs:859-861 | The same of events |
| `Datapath.Datapath.PollDatagram` | src/datapath.rs:635-653 | Nothing exactly when no live flow waits; else the first waiting flow's first datagram, the flow relisted if it has more; with an exact list nothing is skipped |
| `Datapath.Datapath.DropFlow` | src/datapath.rs:875-879 | A flow goes with its queue, every slice of it back in the pool; an exact ready list stays exact if and only if the flow was not waiting |
| `Datapath.Datapath.ExpireFlows` | src/datapath.rs:875-879 | For whatever set is evicted exactly those flows go, and their slices return; an exact ready list stays exact if and only if none of them was waiting |
| `Datapath.Datapath.OnTimeout` | src/datapath.rs:875-879 | The same, with the inspected addresses expired |
| `Datapath.Datapath.ReplanFlow` | src/datapath.rs:831-852 | One live flow replanned: kept, re-steered with an event, or torn down with an event and its slices returned |
| `Datapath.Datapath.OnPathChange` | src/datapath.rs:816-853 | Flows egress: every flow kept, exactly those that passed and no longer can re-steered, an exact ready list still exact; packet egress: table emptied, one teardown for each flow; no slice leaked |
| `Runs.SlicesLeft` | src/pool.rs:97-101 | In every reachable state the pool has its capacity less everything queued and everything in hand |
| `Runs.Step` | src/datapath.rs:424-879 | Any operation of the whole interface, owned and borrowed packets, polls, timeouts and path changes included, keeps every invariant, does exactly what its relation says, and leaves no slice unaccounted for: queued, with the caller, or apart |
| `Runs.Run` | src/datapath.rs:424-879 | Every run of operations at any times, with octets lent or slices the caller holds, leaves a trace of such steps, and of what the caller holds between them |
| `Runs.NothingForged` | src/datapath.rs:461-562 | In every state of every run a transmit waiting for the egress carries a packet the client brought, lent or in a slice the caller held, whole or completed from fragments, or was there at the start |
| `Runs.StepKeepsFlow` | src/datapath.rs:477-879 | A flow leaves the table exactly when a timeout evicts it or the path takes packets; it keeps its plan unless the path changes |
| `Runs.FollowConnection` | src/datapath.rs:477-540 | Through any run until it is expired or torn down, each client packet of a live connection, lent or given, whole or completed from fragments, goes to the local stack or is recorded as dropped, never transmitted |
| `Runs.StaysExact` | src/datapath.rs:635-653 | Over the whole interface an exact ready list stays exact if and only if the step removes no waiting flow |
| `Runs.ServeRound` | src/datapath.rs:635-653 | From an exact list, through any run that removes no waiting flow, the polls serve every flow that was waiting, each its first datagram, in list order, one poll each, whatever happens in between |
| `Runs.ListsTwice` | src/datapath.rs:541-631 | The witness, by the datapath's own operations: a datagram opens a flow, the flow expires while it waits, one more datagram comes, and the flow is listed twice |
| `Shell.TakeEmits` | src/host/shell.rs:927-936 | Network emits leave in order; tunnel emits queue exactly the packets they cross as, in order |
| `Shell.TakeEmit` | src/host/shell.rs:927-936 | A network emit leaves as it is; a tunnel emit queues for the device what its packet crosses as, or nothing |
| `Shell.Flush` | src/host/shell.rs:938-947 | The transmits are emptied in order, each slice returned |
| `Shell.TunnelBoundIsNotCarried` | src/host/shell.rs:938-947 | Tunnel-bound transmits give the egress nothing to emit |
| `Shell.Drain` | src/host/shell.rs:926-952 | At most two passes, a second exactly when the egress had something to carry; the network gets the emits, then what the egress made of its packets, the device what was tunnel-bound, then what the tunnel emits became, all in order, and every slice is back |

## Left out

- Sansio.FramedReader.PollRead: a read after a refused decode is not modelled; the source reports the refusal and its callers drop the stream.
- Sansio.FramedWriter.PollWrite: a write after a refused encode is not modelled, for the same reason; a codec that writes verbatim bypasses the adapter.
- Shadowsocks.StreamCodec.Seal: counter values are unbounded where the source's are 64 bits wide; `Shadowsocks.NoncesDistinct` says when that matters.
- Datapath.Datapath.OnFragment: the reassembler's answers are inputs here, finitely many for one packet; what a reassembler answers is `Reassembler.Table.Push`.
- Datapath.Datapath.ExpireFlows: which flows are evicted is an input here; which flows a pass evicts is `FlowTable.UdpFlowTable.Expire`.
- Datapath.Datapath.Deliver: the deadline it refreshes is not part of this model.
- Datapath.Datapath.AnswerWith: a generated packet is taken to be no longer than a slice, as the writers guarantee.
- Reassembler.Table.Push: the rebuilding of IP headers from those kept is a function parameter, and the counter of discards is not modelled; instants do not go backwards.
- Reassembler.KeyByKey: its conditions suffice; a datagram past its deadline is still added to until a pass is made.
- Hysteria2.YieldsPayloadExactly: stated where the stale pieces have the sizes of those they stand in for; without that the yield is `Hysteria2.FirstYield`'s, which may spell the payload by accident.
- Bridge.Stream.Linger: shutting the transport's receiving side of a dropped stream is not modelled.
- Datapath.Datapath.OnTimeout: the reassembler's own expiry is `Reassembler.Table.Expire`, on its own.
- Socks5.Negotiation: a write that fails and a read that errors end the source's driver; neither is modelled.
- Shell.TakeEmit: a packet the datapath refuses is only counted by the source, and that counter is not modelled.
- Shell.Drain: the slices that hold the egress's own network packets, telemetry counters and the channels behind the other queues are not modelled; `handle_tun_packet` emits only for the network (`src/egress/mod.rs`, `src/egress/masque.rs`), which `Shell.Carrier` states as a type.
- Pool.BufferPool.Reserve: the exhaustion counter does not saturate.
- FlowTable.UdpFlowTable.GetOrInsert: deadline overflow of the clock is not modelled.
- FlowTable.UdpFlowTable.Expire: instants come from a clock that does not go backwards, as the source's does not.
- Live.Live.Get: a dial task that panics is not modelled, so every dial finishes.
- Parsing, rewriting and writing of packets (`src/l3/packet.rs`, `src/l3/path.rs`) are function parameters of the datapath.
- UTF-8 validity is a parameter of the address decoders.
- Shadowsocks datagrams beyond their replay windows, SOCKS5 UDP relaying, Hysteria2 authentication, the HTTP/2 write side and the MASQUE tunnel.
- Wakers, task scheduling, TLS, certificate minting, content filtering and the host bindings: plumbing over libraries, with easy members only.
