/**
 * The datapath: packets come in on either side, are settled, forwarded, captured
 * for the local TCP stack or queued per flow, and every payload sits in one slice
 * of the shared pool.
 */
module Datapath {
  import opened Bytes
  import opened Guards
  import opened Holdings
  import opened Planner
  import opened Pool

  /** Packet parsing, rewriting and writing, which this model leaves open. */
  datatype Wire = Wire(
    parse: seq<byte> -> Option<Packet>,
    payload: (Packet, seq<byte>) -> Option<seq<byte>>,
    spendHop: seq<byte> -> (seq<byte>, Option<nat>),
    clampMss: (seq<byte>, Mtu) -> seq<byte>,
    udpLength: (Endpoint, nat) -> nat,
    writeUdp: (Endpoint, Endpoint, seq<byte>) -> Option<seq<byte>>,
    writeTimeExceeded: seq<byte> -> Option<seq<byte>>,
    writeTooBig: (seq<byte>, Mtu) -> Option<seq<byte>>)

  /** A packet as dispatched: borrowed bytes, or bytes already in a pool slice. */
  datatype Ingress = Borrowed(borrowed: seq<byte>) | Owned(slice: Pooled)

  function BytesOf(ingress: Ingress): seq<byte> {
    match ingress
    case Borrowed(bytes) => bytes
    case Owned(slice) => slice.bytes
  }

  lemma {:induction false} BorrowsNothing(hand: set<nat>, bytes: seq<byte>)
    ensures SliceOf(Borrowed(bytes)) <= hand && hand - SliceOf(Borrowed(bytes)) == hand
  {
  }

  ghost function SliceOf(ingress: Ingress): set<nat> {
    match ingress
    case Borrowed(_) => {}
    case Owned(slice) => {slice.id}
  }

  datatype DatapathError = Malformed | PlanRefused(error: PlanError) | TableFull | WriteFailed

  datatype Outcome = Done | Refused(error: DatapathError)

  /** What the reassembler answers to one fragment. */
  datatype PushOutcome = Unreadable | NotAFragment | Pending | Discarded | Complete(datagram: seq<byte>)

  datatype Choice = Act(action: IngressAction) | NoPlan(error: PlanError)

  datatype Opening = Opened | Existing | AtCeiling

  // ------------------------------------------------------------ what becomes of a packet

  /** What the pool and the ICMP budget have to give when an operation starts. */
  datatype Supply = Supply(spare: int, sliceSize: nat, granted: bool)

  /** There is a slice for the packet: its own, or one to copy it into. */
  predicate HasSlice(supply: Supply, ingress: Ingress) {
    ingress.Owned? || (|ingress.borrowed| <= supply.sliceSize && supply.spare > 0)
  }

  /** What is left once the packet has its slice. */
  function Holding(supply: Supply, ingress: Ingress): Supply {
    if ingress.Owned? then supply else supply.(spare := supply.spare - 1)
  }

  predicate HasCopy(supply: Supply, payload: Option<seq<byte>>) {
    payload.Some? && |payload.value| <= supply.sliceSize && supply.spare > 0
  }

  ghost predicate Sends(sent: seq<Transmit>, to: Side, bytes: seq<byte>) {
    |sent| == 1 && sent[0].to == to && sent[0].bytes.bytes == bytes
  }

  /** One generated packet for the client, or a record that there is none. */
  ghost predicate Answered(supply: Supply, reply: Option<seq<byte>>, sent: seq<Transmit>, noted: seq<FlowEvent>) {
    if supply.spare > 0 && reply.Some? then Sends(sent, Tunnel, reply.value) && noted == []
    else sent == [] && noted == [TransmitDropped]
  }

  /** A datagram for the client is written into a slice, or dropped for want of
      one, or refused because it cannot be written. */
  ghost predicate UdpWritten(
      supply: Supply, length: nat, written: Option<seq<byte>>, outcome: Outcome, sent: seq<Transmit>, noted: seq<FlowEvent>)
  {
    if length > supply.sliceSize || supply.spare == 0 then outcome == Done && sent == [] && noted == [TransmitDropped]
    else if written.None? then outcome == Refused(WriteFailed) && sent == [] && noted == []
    else outcome == Done && Sends(sent, Tunnel, written.value) && noted == []
  }

  /** Hops ran out: that is recorded, and answered where it may be and the budget
      allows. */
  ghost predicate Expired(
      supply: Supply, answer: bool, reply: Option<seq<byte>>, sent: seq<Transmit>, noted: seq<FlowEvent>)
  {
    && noted != [] && noted[0] == HopsExhausted
    && if answer && supply.granted then Answered(supply, reply, sent, noted[1..]) else sent == [] && noted[1..] == []
  }

  function Rewritten(wire: Wire, spent: seq<byte>, clamp: Option<Mtu>): seq<byte> {
    if clamp.Some? then wire.clampMss(spent, clamp.value) else spent
  }

  /** What `forward` does with one packet: it crosses rewritten and one hop
      older, or the reason it did not is recorded. */
  ghost predicate Forwarded(
      wire: Wire, supply: Supply, ingress: Ingress, to: Side, clamp: Option<Mtu>, quotingAllowed: bool,
      sent: seq<Transmit>, noted: seq<FlowEvent>)
  {
    var (spent, hops) := wire.spendHop(BytesOf(ingress));
    if !HasSlice(supply, ingress) then sent == [] && noted == [TransmitDropped]
    else if hops == Some(0) then
      Expired(Holding(supply, ingress), to == Egress && quotingAllowed, wire.writeTimeExceeded(spent), sent, noted)
    else Sends(sent, to, Rewritten(wire, spent, clamp)) && noted == []
  }

  /** Nothing is sent but the packet itself, unless hops ran out towards the
      egress and quoting is allowed; and then it goes to the tunnel. */
  lemma {:induction false} ForwardedTo(
      wire: Wire, supply: Supply, ingress: Ingress, to: Side, clamp: Option<Mtu>, quotingAllowed: bool,
      sent: seq<Transmit>, noted: seq<FlowEvent>)
    requires Forwarded(wire, supply, ingress, to, clamp, quotingAllowed, sent, noted)
    ensures to == Tunnel || !quotingAllowed ==> AllTo(sent, to)
    ensures sent != [] || noted != []
  {
  }

  /** An oversized packet is answered once with the inner MTU, and that is
      recorded; or there was no answer to be had; or the budget is spent. */
  ghost predicate TooBig(
      supply: Supply, reply: Option<seq<byte>>, innerMtu: Mtu, sent: seq<Transmit>, noted: seq<FlowEvent>)
  {
    if !supply.granted then sent == [] && noted == []
    else if supply.spare > 0 && reply.Some? then Sends(sent, Tunnel, reply.value) && noted == [PathReported(innerMtu)]
    else sent == [] && noted == [TransmitDropped]
  }

  /** A packet on the packet path: too big for it, and answered; or forwarded
      with its MSS clamped to it. */
  ghost predicate Crossed(
      wire: Wire, supply: Supply, innerMtu: Mtu, packet: Packet, ingress: Ingress, from: Side,
      sent: seq<Transmit>, noted: seq<FlowEvent>)
  {
    if Oversized(packet, from, BytesOf(ingress), innerMtu)
    then TooBig(supply, wire.writeTooBig(BytesOf(ingress), innerMtu), innerMtu, sent, noted)
    else Forwarded(wire, supply, ingress, Across(from), Some(innerMtu), packet.transport != Icmp(true), sent, noted)
  }

  /** The query reaches the resolver with both endpoints, or its loss is recorded. */
  ghost predicate Asked(
      supply: Supply, packet: Packet, payload: Option<seq<byte>>, asked: seq<DnsQuery>, noted: seq<FlowEvent>)
    requires packet.transport.Udp?
  {
    if HasCopy(supply, payload) then
      && noted == [] && |asked| == 1
      && asked[0].client == Endpoint(packet.source, packet.transport.source)
      && asked[0].resolver == Endpoint(packet.destination, packet.transport.destination)
      && asked[0].payload.bytes == payload.value
    else asked == [] && noted == [TransmitDropped]
  }

  /** The packet reaches the local stack whole, or its loss is recorded. */
  ghost predicate Captured(supply: Supply, ingress: Ingress, captured: seq<Pooled>, noted: seq<FlowEvent>) {
    if HasSlice(supply, ingress) then noted == [] && |captured| == 1 && captured[0].bytes == BytesOf(ingress)
    else captured == [] && noted == [TransmitDropped]
  }

  ghost predicate CapturedFrom(
      from: Side, supply: Supply, ingress: Ingress, captured: seq<Pooled>, noted: seq<FlowEvent>)
  {
    if from == Tunnel then Captured(supply, ingress, captured, noted) else captured == [] && noted == []
  }

  predicate Crowded(flows: map<FlowKey, FlowState>, key: FlowKey, ceiling: nat) {
    key !in flows && |flows| >= ceiling
  }

  /** The table with the flow in it, as it was or newly opened. */
  function WithOpen(flows: map<FlowKey, FlowState>, key: FlowKey, plan: FlowPlan): map<FlowKey, FlowState> {
    if key in flows then flows else flows[key := FlowState(plan, [])]
  }

  /** Opening a flow loses none and keeps the ready list exact. */
  lemma {:induction false} OpenKeeps(flows: map<FlowKey, FlowState>, ready: seq<FlowKey>, key: FlowKey, plan: FlowPlan)
    ensures FlowsKept(flows, WithOpen(flows, key, plan))
    ensures Exact(flows, ready) ==> Exact(WithOpen(flows, key, plan), ready)
  {
    var next := WithOpen(flows, key, plan);
    assert forall other :: Waiting(next, other) <==> Waiting(flows, other);
  }

  ghost predicate Offered(datagram: Datagram, key: FlowKey, before: map<FlowKey, FlowState>,
                          after: map<FlowKey, FlowState>, listed: seq<FlowKey>, noted: seq<FlowEvent>, capacity: nat)
  {
    if key in before && |before[key].buffer| != capacity then
      after == Enqueued(before, key, datagram) && noted == [] && listed == Listing(before, key)
    else
      && after == before && listed == []
      && noted == [if key in before then DatagramDropped(key.client) else TransmitDropped]
  }

  /** The payload joins the back of its flow's queue, addressed to its target, or
      its loss is recorded: for want of a slice, or because the queue is full. */
  ghost predicate DatagramKept(
      supply: Supply, payload: Option<seq<byte>>, packet: Packet, key: FlowKey, before: map<FlowKey, FlowState>,
      after: map<FlowKey, FlowState>, listed: seq<FlowKey>, noted: seq<FlowEvent>, capacity: nat)
    requires packet.transport.Udp?
  {
    if HasCopy(supply, payload) then
      exists slice: Pooled :: slice.bytes == payload.value && Offered(
        Datagram(Endpoint(packet.destination, packet.transport.destination), slice),
        key, before, after, listed, noted, capacity)
    else after == before && listed == [] && noted == [TransmitDropped]
  }

  ghost predicate DatagramKeptFrom(
      from: Side, supply: Supply, payload: Option<seq<byte>>, packet: Packet, key: FlowKey,
      before: map<FlowKey, FlowState>, after: map<FlowKey, FlowState>, listed: seq<FlowKey>, noted: seq<FlowEvent>,
      capacity: nat)
    requires packet.transport.Udp?
  {
    if from == Tunnel then DatagramKept(supply, payload, packet, key, before, after, listed, noted, capacity)
    else after == before && listed == [] && noted == []
  }

  /** A flow that opens is announced before anything else is recorded. */
  ghost predicate Announces(
      flows: map<FlowKey, FlowState>, key: FlowKey, event: FlowEvent, noted: seq<FlowEvent>, rest: seq<FlowEvent>)
  {
    noted == (if key in flows then [] else [event]) + rest
  }

  ghost predicate StreamHandled(
      supply: Supply, key: FlowKey, plan: FlowPlan, ingress: Ingress, from: Side, ceiling: nat,
      before: map<FlowKey, FlowState>, after: map<FlowKey, FlowState>, outcome: Outcome, added: Added)
  {
    && added == Added([], [], added.captured, [], added.noted)
    && if Crowded(before, key, ceiling) then outcome == Refused(TableFull) && after == before && added == Nothing()
       else
         && outcome == Done && after == WithOpen(before, key, plan)
         && exists rest :: Announces(before, key, StreamOpened(key.client), added.noted, rest)
                           && CapturedFrom(from, supply, ingress, added.captured, rest)
  }

  ghost predicate DatagramHandled(
      supply: Supply, payload: Option<seq<byte>>, packet: Packet, key: FlowKey, plan: FlowPlan, from: Side,
      ceiling: nat, capacity: nat, before: map<FlowKey, FlowState>, after: map<FlowKey, FlowState>,
      outcome: Outcome, added: Added)
    requires packet.transport.Udp?
  {
    && added == Added([], [], [], added.listed, added.noted)
    && if Crowded(before, key, ceiling) then outcome == Refused(TableFull) && after == before && added == Nothing()
       else
         && outcome == Done
         && exists rest :: Announces(before, key, DatagramOpened(key.client), added.noted, rest)
                           && DatagramKeptFrom(from, supply, payload, packet, key, WithOpen(before, key, plan), after,
                                               added.listed, rest, capacity)
  }

  /** What each decision about a whole packet comes to. */
  ghost predicate Handled(
      wire: Wire, supply: Supply, choice: Choice, packet: Packet, ingress: Ingress, from: Side, ceiling: nat,
      capacity: nat, before: map<FlowKey, FlowState>, after: map<FlowKey, FlowState>, outcome: Outcome, added: Added)
    requires choice.Act? ==> Fitting(choice.action, packet)
  {
    match choice
    case NoPlan(error) => outcome == Refused(PlanRefused(error)) && after == before && added == Nothing()
    case Act(Reassemble) => false
    case Act(ResolveDns) =>
      && outcome == Done && after == before && added == Added([], added.asked, [], [], added.noted)
      && Asked(supply, packet, wire.payload(packet, BytesOf(ingress)), added.asked, added.noted)
    case Act(DropSteered) => outcome == Done && after == before && added == Added([], [], [], [], [QuicSteered])
    case Act(DropUnsupported) => outcome == Done && after == before && added == Nothing()
    case Act(ForwardPacket(plan)) =>
      && outcome == Done && after == before && added == Added(added.sent, [], [], [], added.noted)
      && Crossed(wire, supply, plan.transport.innerMtu, packet, ingress, from, added.sent, added.noted)
    case Act(HandleIcmp(_)) =>
      && outcome == Done && after == before && added == Added(added.sent, [], [], [], added.noted)
      && Forwarded(wire, supply, ingress, Across(from), None, false, added.sent, added.noted)
    case Act(OpenStream(plan)) =>
      StreamHandled(supply, KeyOf(packet).value, plan, ingress, from, ceiling, before, after, outcome, added)
    case Act(OpenDatagram(plan)) =>
      DatagramHandled(supply, wire.payload(packet, BytesOf(ingress)), packet, KeyOf(packet).value, plan, from,
                      ceiling, capacity, before, after, outcome, added)
  }

  /** What input comes to before it is decided upon: a whole packet, the one that
      arrived or the one its fragments completed, or nothing. */
  datatype Arrival = Ended(outcome: Outcome, noted: seq<FlowEvent>) | Whole(packet: Packet, ingress: Ingress)

  /** Octets are parsed; a completed datagram is read from its own header, and
      may be a fragment again. */
  ghost function Arriving(wire: Wire, ingress: Ingress, outcomes: seq<PushOutcome>): (arrival: Arrival)
    ensures arrival.Whole? ==> !arrival.packet.transport.Fragment?
    decreases |outcomes|, 2
  {
    match wire.parse(BytesOf(ingress))
    case None => Ended(Refused(Malformed), [])
    case Some(packet) => ArrivingAs(wire, packet, ingress, outcomes)
  }

  ghost function ArrivingAs(wire: Wire, packet: Packet, ingress: Ingress, outcomes: seq<PushOutcome>): (arrival: Arrival)
    ensures arrival.Whole? ==> !arrival.packet.transport.Fragment?
    decreases |outcomes|, 1
  {
    if packet.transport.Fragment? then Completing(wire, outcomes) else Whole(packet, ingress)
  }

  ghost function Completing(wire: Wire, outcomes: seq<PushOutcome>): (arrival: Arrival)
    ensures arrival.Whole? ==> !arrival.packet.transport.Fragment?
    decreases |outcomes|, 0
  {
    if outcomes == [] then Ended(Done, [])
    else
      match outcomes[0]
      case Unreadable => Ended(Refused(Malformed), [])
      case NotAFragment => Ended(Done, [])
      case Pending => Ended(Done, [])
      case Discarded => Ended(Done, [ReassemblyDiscarded])
      case Complete(datagram) => Arriving(wire, Borrowed(datagram), outcomes[1..])
  }

  /** Input taken in: what arrived whole is handled, and nothing else happens. */
  ghost predicate TakenIn(
      wire: Wire, supply: Supply, arrival: Arrival, choice: Choice, from: Side, ceiling: nat, capacity: nat,
      before: map<FlowKey, FlowState>, after: map<FlowKey, FlowState>, outcome: Outcome, added: Added)
    requires arrival.Whole? && choice.Act? ==> Fitting(choice.action, arrival.packet)
  {
    match arrival
    case Ended(result, noted) => outcome == result && after == before && added == Added([], [], [], [], noted)
    case Whole(packet, ingress) =>
      Handled(wire, supply, choice, packet, ingress, from, ceiling, capacity, before, after, outcome, added)
  }

  /** Nothing happened but a capture for the local stack, or its recorded loss. */
  ghost predicate ToLocalStack(bytes: seq<byte>, added: Added) {
    && added == Added([], [], added.captured, [], added.noted)
    && if added.captured == [] then added.noted == [TransmitDropped]
       else added.noted == [] && |added.captured| == 1 && added.captured[0].bytes == bytes
  }

  /** A packet of a live connection from the client always goes to the local
      stack, or its loss is recorded: it is never transmitted. */
  lemma {:induction false} LiveGoesToStack(
      wire: Wire, supply: Supply, plan: FlowPlan, packet: Packet, ingress: Ingress, ceiling: nat, capacity: nat,
      before: map<FlowKey, FlowState>, after: map<FlowKey, FlowState>, outcome: Outcome, added: Added)
    requires packet.transport.Tcp? && KeyOf(packet).value in before && plan.transport == LocalTermination
    requires Handled(wire, supply, Act(OpenStream(plan)), packet, ingress, Tunnel, ceiling, capacity, before, after, outcome, added)
    ensures outcome == Done && after == before && ToLocalStack(BytesOf(ingress), added)
  {
    var rest :| Announces(before, KeyOf(packet).value, StreamOpened(KeyOf(packet).value.client), added.noted, rest)
                && CapturedFrom(Tunnel, supply, ingress, added.captured, rest);
    assert added.noted == rest;
  }

  /** No client packet of a carried protocol that fits the smallest link vanishes
      without a trace. */
  lemma {:induction false} LeavesATrace(
      wire: Wire, supply: Supply, action: IngressAction, packet: Packet, ingress: Ingress, ceiling: nat, capacity: nat,
      before: map<FlowKey, FlowState>, after: map<FlowKey, FlowState>, outcome: Outcome, added: Added)
    requires Fitting(action, packet) && !packet.transport.Other?
    requires |BytesOf(ingress)| <= MIN_IPV6_MTU && outcome == Done
    requires Handled(wire, supply, Act(action), packet, ingress, Tunnel, ceiling, capacity, before, after, outcome, added)
    ensures after != before || added != Nothing()
  {
    if action.OpenDatagram? {
      DatagramLeavesATrace(supply, wire.payload(packet, BytesOf(ingress)), packet, KeyOf(packet).value, action.plan,
                           ceiling, capacity, before, after, outcome, added);
    }
  }

  /** Where a transmit made of a client packet comes from: towards the egress it is
      that packet, a hop older and perhaps clamped; towards the client it is an
      ICMP error about it, which the budget granted and which no ICMP error gets. */
  ghost predicate MadeFrom(wire: Wire, supply: Supply, packet: Packet, bytes: seq<byte>, transmit: Transmit) {
    if transmit.to == Egress then
      || transmit.bytes.bytes == wire.spendHop(bytes).0
      || exists mtu: Mtu :: transmit.bytes.bytes == wire.clampMss(wire.spendHop(bytes).0, mtu)
    else
      && supply.granted && packet.transport != Icmp(true)
      && (|| wire.writeTimeExceeded(wire.spendHop(bytes).0) == Some(transmit.bytes.bytes)
          || exists mtu: Mtu :: wire.writeTooBig(bytes, mtu) == Some(transmit.bytes.bytes))
  }

  /** Whatever is decided about a client packet, it has one fate: one transmit made
      of it, or one query, or one capture, or one place in its flow's queue; never
      two of these. */
  lemma {:induction false} OneFate(
      wire: Wire, supply: Supply, choice: Choice, packet: Packet, ingress: Ingress, ceiling: nat, capacity: nat,
      before: map<FlowKey, FlowState>, after: map<FlowKey, FlowState>, outcome: Outcome, added: Added)
    requires choice.Act? ==> Fitting(choice.action, packet)
    requires Handled(wire, supply, choice, packet, ingress, Tunnel, ceiling, capacity, before, after, outcome, added)
    ensures |added.sent| + |added.asked| + |added.captured| <= 1
    ensures added.sent != [] || added.asked != [] ==> after == before && added.listed == []
    ensures added.captured != [] ==> added.listed == []
    ensures added.sent != [] ==> MadeFrom(wire, supply, packet, BytesOf(ingress), added.sent[0])
    ensures added.asked != [] ==> wire.payload(packet, BytesOf(ingress)) == Some(added.asked[0].payload.bytes)
    ensures added.captured != [] ==> added.captured[0].bytes == BytesOf(ingress)
  {
  }

  lemma {:induction false} DatagramLeavesATrace(
      supply: Supply, payload: Option<seq<byte>>, packet: Packet, key: FlowKey, plan: FlowPlan, ceiling: nat, capacity: nat,
      before: map<FlowKey, FlowState>, after: map<FlowKey, FlowState>, outcome: Outcome, added: Added)
    requires packet.transport.Udp? && outcome == Done
    requires DatagramHandled(supply, payload, packet, key, plan, Tunnel, ceiling, capacity, before, after, outcome, added)
    ensures after != before || added != Nothing()
  {
    if key in before {
      var rest :| Announces(before, key, DatagramOpened(key.client), added.noted, rest)
                  && DatagramKeptFrom(Tunnel, supply, payload, packet, key, WithOpen(before, key, plan), after,
                                      added.listed, rest, capacity);
      assert added.noted == rest;
      if after == before {
        assert |after[key].buffer| == |before[key].buffer|;
      }
    }
  }

  /** What is decided about a packet from the egress: neither the flows nor the
      inspected addresses have a say in it. */
  ghost function EgressChoice(dns: DnsPolicy, excluded: Planning, packet: Packet): Choice {
    match Admit(packet.transport, dns, Lapsed)
    case Settled(action) => Act(action)
    case Carried =>
      if excluded.Unplannable? then NoPlan(excluded.error) else Act(RoutePlanned(packet.transport, excluded.plan))
  }

  /** What octets in a slice from the egress become for the device: the packet a
      hop older, clamped to the inner MTU on the packet path; or nothing. */
  ghost function Crossing(wire: Wire, dns: DnsPolicy, excluded: Planning, bytes: seq<byte>): seq<seq<byte>> {
    var (spent, hops) := wire.spendHop(bytes);
    match wire.parse(bytes)
    case None => []
    case Some(packet) =>
      if packet.transport.Fragment? || hops == Some(0) then []
      else
        match EgressChoice(dns, excluded, packet)
        case Act(ForwardPacket(plan)) =>
          if plan.transport.PacketFastPath? then [Rewritten(wire, spent, Some(plan.transport.innerMtu))] else []
        case Act(HandleIcmp(_)) => [spent]
        case _ => []
  }

  ghost function Payloads(sent: seq<Transmit>): seq<seq<byte>> {
    seq(|sent|, i requires 0 <= i < |sent| => sent[i].bytes.bytes)
  }

  lemma {:induction false} CrossesFromEgress(
      wire: Wire, dns: DnsPolicy, excluded: Planning, supply: Supply, slice: Pooled, choice: Choice,
      ceiling: nat, capacity: nat, before: map<FlowKey, FlowState>, after: map<FlowKey, FlowState>, outcome: Outcome, added: Added)
    requires var arrival := Arriving(wire, Owned(slice), [Discarded]);
      && (arrival.Whole? ==> choice == EgressChoice(dns, excluded, arrival.packet))
      && (arrival.Whole? && choice.Act? ==> Fitting(choice.action, arrival.packet))
      && TakenIn(wire, supply, arrival, choice, Egress, ceiling, capacity, before, after, outcome, added)
    ensures Payloads(added.sent) == Crossing(wire, dns, excluded, slice.bytes)
  {
  }

  /** The flow listed at `turn` is the first that waits; its first datagram goes
      out, and it is listed again behind the others if it has more. */
  ghost predicate ServedAt(
      flows: map<FlowKey, FlowState>, ready: seq<FlowKey>, turn: nat,
      after: map<FlowKey, FlowState>, listed: seq<FlowKey>, out: Outbound)
    requires turn < |ready|
  {
    var key := ready[turn];
    && (forall i :: 0 <= i < turn ==> !Waiting(flows, ready[i]))
    && Waiting(flows, key)
    && out == Outbound(key.client, flows[key].buffer[0].target, flows[key].buffer[0].payload)
    && after == Dequeued(flows, key)
    && listed == ready[turn + 1..] + (if |flows[key].buffer| > 1 then [key] else [])
  }

  ghost predicate AllTo(sent: seq<Transmit>, to: Side) {
    forall i :: 0 <= i < |sent| ==> sent[i].to == to
  }

  /** The hop cannot fragment, so the client is told the inner MTU; but an ICMP
      error is never answered with one. */
  predicate Oversized(packet: Packet, from: Side, bytes: seq<byte>, innerMtu: Mtu) {
    from == Tunnel && packet.transport != Icmp(true) && |bytes| > innerMtu
  }

  /** Only TCP and UDP open flows, only on a locally terminated path; only a
      packet path forwards by plan. */
  ghost predicate Fitting(action: IngressAction, packet: Packet) {
    && (action.Reassemble? <==> packet.transport.Fragment?)
    && (action.OpenStream? ==> packet.transport.Tcp? && action.plan.transport == LocalTermination)
    && (action.OpenDatagram? ==> packet.transport.Udp? && action.plan.transport == LocalTermination)
    && (action.ResolveDns? ==> packet.transport.Udp?)
    && (action.ForwardPacket? ==> action.plan.transport.PacketFastPath?)
    && (action.DropUnsupported? ==> packet.transport.Other?)
  }

  /** The plan made, or any where there is none. */
  ghost function PlanOr(planning: Planning): FlowPlan {
    if planning.Planned? then planning.plan else FlowPlan(LocalTermination, PassThrough)
  }

  datatype Limits = Limits(
    idleTimeout: nat,
    maxFlows: nat,
    bufferCapacity: nat,
    inspectionWindow: nat,
    maxInspectedAddresses: nat,
    inspectedPorts: set<u16>,
    originationPorts: set<u16>)

  class Datapath {
    const wire: Wire
    const filter: FilterPolicy
    const dns: DnsPolicy
    const pathMtu: Mtu
    const inspectedPorts: set<u16>
    const originationPorts: set<u16>
    const bufferCapacity: nat
    const ceiling: nat
    const pool: BufferPool
    const icmp: IcmpBudget
    const inspected: InspectedAddresses
    var accepts: Accepts
    var egress: PathProperties
    var candidatePlan: Planning
    var excludedPlan: Planning
    var transmits: seq<Transmit>
    var queries: seq<DnsQuery>
    var terminate: seq<Pooled>
    var flows: map<FlowKey, FlowState>
    var ready: seq<FlowKey>
    var events: seq<FlowEvent>

    /** The books kept on the queues and the slices in them. */
    ghost var books: Balanced

    /** The flow table and ready list, as a value in good order. */
    ghost var table: Tended

    ghost function Held(): Shelves
      reads `transmits, `queries, `terminate, `flows
    {
      Shelves(transmits, queries, terminate, flows)
    }

    ghost function Now(): View
      reads `transmits, `queries, `terminate, `flows, `ready, `events
    {
      View(Held(), ready, events)
    }

    /** The books are those of these queues, and the slices on loan are those on
        the books. */
    ghost predicate Accounted()
      reads pool, `books, `transmits, `queries, `terminate, `flows
    {
      pool.Valid() && Loans(books) == pool.Loans() && books.shelves == Held()
    }

    ghost predicate FlowsSound()
      reads `flows, `ready, `table
    {
      table == Table(flows, ready, ceiling, bufferCapacity)
    }

    ghost predicate Valid()
      reads this, pool, inspected
    {
      Accounted() && FlowsSound() && inspected.Valid()
    }

    /** What the pool has to give, and whether the ICMP budget does. */
    ghost function Supplied(granted: bool): Supply
      reads pool
    {
      Supply(pool.Spare(), pool.sliceSize, granted)
    }

    ghost predicate Grants(now: nat)
      reads icmp
    {
      Refilled(icmp.State(), now).tokens > 0
    }

    /** The cached plans are those of the current path. */
    ghost predicate PlansCurrent()
      reads `accepts, `egress, `candidatePlan, `excludedPlan
    {
      && candidatePlan == PlanFlow(filter, Candidate, accepts, egress, pathMtu)
      && excludedPlan == PlanFlow(filter, Excluded, accepts, egress, pathMtu)
    }

    /** Set up as asked for, with nothing held and no address inspected yet. */
    ghost predicate Configured(wire: Wire, filter: FilterPolicy, dns: DnsPolicy, accepts: Accepts, egress: PathProperties,
                               pathMtu: Mtu, limits: Limits)
      reads this, inspected
    {
      && this.wire == wire && this.filter == filter && this.dns == dns && this.pathMtu == pathMtu
      && this.accepts == accepts && this.egress == egress
      && inspectedPorts == limits.inspectedPorts && originationPorts == limits.originationPorts
      && bufferCapacity == limits.bufferCapacity && ceiling == limits.maxFlows
      && inspected.window == limits.inspectionWindow && inspected.capacity == limits.maxInspectedAddresses
      && inspected.until == map[] && Now() == View(Shelves([], [], [], map[]), [], [])
    }

    /** A datapath that holds nothing; see `Create` for when there is one. */
    constructor (wire: Wire, filter: FilterPolicy, dns: DnsPolicy, accepts: Accepts, egress: PathProperties,
                 pathMtu: Mtu, limits: Limits, pool: BufferPool, now: nat)
      requires pool.Valid()
      ensures Valid() && PlansCurrent() && fresh(icmp) && fresh(inspected)
      ensures this.pool == pool && books.hand == pool.Loans()
      ensures Configured(wire, filter, dns, accepts, egress, pathMtu, limits) && Exact(flows, ready)
      ensures icmp.State() == Bucket(ICMP_ERRORS_PER_SECOND, now)
    {
      this.wire, this.filter, this.dns, this.pathMtu, this.pool := wire, filter, dns, pathMtu, pool;
      this.accepts, this.egress := accepts, egress;
      inspectedPorts, originationPorts := limits.inspectedPorts, limits.originationPorts;
      bufferCapacity, ceiling := limits.bufferCapacity, limits.maxFlows;
      candidatePlan := PlanFlow(filter, Candidate, accepts, egress, pathMtu);
      excludedPlan := PlanFlow(filter, Excluded, accepts, egress, pathMtu);
      transmits, queries, terminate, flows, ready, events := [], [], [], map[], [], [];
      books := OpenBooks(pool.Loans());
      table := OpenTable(limits.maxFlows, limits.bufferCapacity);
      icmp := new IcmpBudget(now);
      inspected := new InspectedAddresses(limits.inspectionWindow, limits.maxInspectedAddresses);
    }

    // ---------------------------------------------------------- slices

    method Acquire(bytes: seq<byte>) returns (slice: Option<Pooled>)
      requires Accounted()
      modifies pool, `books
      ensures Accounted()
      ensures slice.None? <==> |bytes| > pool.sliceSize || old(pool.Spare()) == 0
      ensures slice.None? ==> books.hand == old(books.hand) && pool.Spare() == old(pool.Spare())
      ensures slice.Some? ==>
                && slice.value.id !in old(books.hand) && books.hand == old(books.hand) + {slice.value.id}
                && slice.value.bytes == bytes && pool.Spare() == old(pool.Spare()) - 1
    {
      slice := pool.Take(bytes);
      if slice.Some? {
        books := Taken(books, slice.value.id);
      }
    }

    method AcquireZeroed(length: nat) returns (slice: Option<Pooled>)
      requires Accounted()
      modifies pool, `books
      ensures Accounted()
      ensures slice.None? <==> length > pool.sliceSize || old(pool.Spare()) == 0
      ensures slice.None? ==> books.hand == old(books.hand) && pool.Spare() == old(pool.Spare())
      ensures slice.Some? ==>
                && slice.value.id !in old(books.hand) && books.hand == old(books.hand) + {slice.value.id}
                && pool.Spare() == old(pool.Spare()) - 1
    {
      slice := pool.TakeZeroed(length);
      if slice.Some? {
        books := Taken(books, slice.value.id);
      }
    }

    method Discard(slice: Pooled)
      requires Accounted() && slice.id in books.hand
      modifies pool, `books
      ensures Accounted() && books.hand == old(books.hand) - {slice.id}
    {
      pool.Release(slice);
      books := Given(books, slice.id);
    }

    method DropIngress(ingress: Ingress)
      requires Accounted() && SliceOf(ingress) <= books.hand
      modifies pool, `books
      ensures Accounted() && books.hand == old(books.hand) - SliceOf(ingress)
    {
      if ingress.Owned? {
        Discard(ingress.slice);
      }
    }

    /** An owned packet keeps its slice; a borrowed one is copied into a new one. */
    method IntoPooled(ingress: Ingress) returns (slice: Option<Pooled>)
      requires Accounted() && SliceOf(ingress) <= books.hand
      modifies pool, `books
      ensures Accounted()
      ensures slice.Some? <==> HasSlice(old(Supplied(false)), ingress)
      ensures slice.None? ==> books.hand == old(books.hand)
      ensures slice.Some? ==>
                && Supplied(false) == Holding(old(Supplied(false)), ingress)
                && slice.value.id in books.hand
                && books.hand - {slice.value.id} == old(books.hand) - SliceOf(ingress)
                && slice.value.bytes == BytesOf(ingress)
    {
      match ingress {
        case Borrowed(bytes) => slice := Acquire(bytes);
        case Owned(pooled) => slice := Some(pooled);
      }
    }

    method QueueTransmit(to: Side, slice: Pooled)
      requires Accounted() && slice.id in books.hand
      modifies `transmits, `books
      ensures Accounted() && books.hand == old(books.hand) - {slice.id}
      ensures transmits == old(transmits) + [Transmit(to, slice)]
    {
      books := PutTransmit(books, Transmit(to, slice));
      transmits := transmits + [Transmit(to, slice)];
    }

    method QueueQuery(query: DnsQuery)
      requires Accounted() && query.payload.id in books.hand
      modifies `queries, `books
      ensures Accounted() && books.hand == old(books.hand) - {query.payload.id}
      ensures queries == old(queries) + [query]
    {
      books := PutQuery(books, query);
      queries := queries + [query];
    }

    method QueueTerminate(slice: Pooled)
      requires Accounted() && slice.id in books.hand
      modifies `terminate, `books
      ensures Accounted() && books.hand == old(books.hand) - {slice.id}
      ensures terminate == old(terminate) + [slice]
    {
      books := PutTerminate(books, slice);
      terminate := terminate + [slice];
    }

    method Note(event: FlowEvent)
      modifies `events
      ensures events == old(events) + [event]
    {
      events := events + [event];
    }

    // ---------------------------------------------------------- forwarding

    // Each operation names what it added: `sent` at the back of the transmits,
    // `noted` at the back of the events.

    /** Queues one generated packet for the client; when nothing is queued, that
        is recorded. */
    method AnswerWith(reply: Option<seq<byte>>)
      returns (queued: bool, ghost sent: seq<Transmit>, ghost noted: seq<FlowEvent>)
      requires Accounted()
      modifies pool, `transmits, `events, `books
      ensures Accounted() && books.hand == old(books.hand)
      ensures transmits == old(transmits) + sent && events == old(events) + noted
      ensures Answered(old(Supplied(true)), reply, sent, noted) && (queued <==> sent != [])
    {
      var slice := AcquireZeroed(pool.sliceSize);
      queued := slice.Some? && reply.Some?;
      if queued {
        QueueTransmit(Tunnel, slice.value.(bytes := reply.value));
        sent, noted := [Transmit(Tunnel, slice.value.(bytes := reply.value))], [];
      } else {
        Note(TransmitDropped);
        if slice.Some? {
          Discard(slice.value);
        }
        sent, noted := [], [TransmitDropped];
      }
    }

    method OutOfHops(spent: seq<byte>, answer: bool, now: nat)
      returns (ghost sent: seq<Transmit>, ghost noted: seq<FlowEvent>)
      requires Accounted()
      modifies pool, icmp, `transmits, `events, `books
      ensures Accounted() && books.hand == old(books.hand)
      ensures transmits == old(transmits) + sent && events == old(events) + noted
      ensures Expired(old(Supplied(Grants(now))), answer, wire.writeTimeExceeded(spent), sent, noted)
    {
      Note(HopsExhausted);
      sent, noted := [], [];
      if answer {
        var granted := icmp.Take(now);
        if granted {
          var queued;
          queued, sent, noted := AnswerWith(wire.writeTimeExceeded(spent));
        }
      }
      Regroup(old(events), [HopsExhausted], noted);
      noted := [HopsExhausted] + noted;
    }

    method Forward(ingress: Ingress, to: Side, clamp: Option<Mtu>, quotingAllowed: bool, now: nat)
      returns (ghost sent: seq<Transmit>, ghost noted: seq<FlowEvent>)
      requires Accounted() && SliceOf(ingress) <= books.hand
      modifies pool, icmp, `transmits, `events, `books
      ensures Accounted() && books.hand == old(books.hand) - SliceOf(ingress)
      ensures transmits == old(transmits) + sent && events == old(events) + noted
      ensures Forwarded(wire, old(Supplied(Grants(now))), ingress, to, clamp, quotingAllowed, sent, noted)
    {
      var slice := IntoPooled(ingress);
      sent, noted := [], [];
      if slice.None? {
        Note(TransmitDropped);
        noted := [TransmitDropped];
      } else {
        var (spent, hops) := wire.spendHop(slice.value.bytes);
        if hops == Some(0) {
          sent, noted := OutOfHops(spent, to == Egress && quotingAllowed, now);
          Discard(slice.value);
        } else {
          QueueTransmit(to, slice.value.(bytes := Rewritten(wire, spent, clamp)));
          sent := [Transmit(to, slice.value.(bytes := Rewritten(wire, spent, clamp)))];
        }
      }
    }

    method ReportTooBig(bytes: seq<byte>, innerMtu: Mtu, now: nat)
      returns (ghost sent: seq<Transmit>, ghost noted: seq<FlowEvent>)
      requires Accounted()
      modifies pool, icmp, `transmits, `events, `books
      ensures Accounted() && books.hand == old(books.hand)
      ensures transmits == old(transmits) + sent && events == old(events) + noted
      ensures TooBig(old(Supplied(Grants(now))), wire.writeTooBig(bytes, innerMtu), innerMtu, sent, noted)
    {
      sent, noted := [], [];
      var granted := icmp.Take(now);
      if granted {
        var queued;
        queued, sent, noted := AnswerWith(wire.writeTooBig(bytes, innerMtu));
        if queued {
          Note(PathReported(innerMtu));
          noted := [PathReported(innerMtu)];
        }
      }
    }

    // ---------------------------------------------------------- flows

    method OpenFlow(key: FlowKey, plan: FlowPlan) returns (opening: Opening)
      requires Accounted() && FlowsSound() && plan.transport == LocalTermination
      modifies `flows, `books, `table
      ensures Accounted() && FlowsSound() && books.hand == old(books.hand)
      ensures opening == Existing <==> key in old(flows)
      ensures opening == AtCeiling <==> Crowded(old(flows), key, ceiling)
      ensures flows == if opening == AtCeiling then old(flows) else WithOpen(old(flows), key, plan)
      ensures FlowsKept(old(flows), flows) && (Exact(old(flows), ready) ==> Exact(flows, ready))
    {
      if key in flows {
        return Existing;
      }
      if |flows| >= ceiling {
        return AtCeiling;
      }
      table := WithFlow(table, key, plan);
      flows := flows[key := FlowState(plan, [])];
      books := Reflowed(books, flows);
      return Opened;
    }

    /** A flow that opens is announced. */
    method OpenAnnounced(key: FlowKey, plan: FlowPlan, event: FlowEvent)
      returns (opening: Opening, ghost noted: seq<FlowEvent>)
      requires Accounted() && FlowsSound() && plan.transport == LocalTermination
      modifies `flows, `books, `table, `events
      ensures Accounted() && FlowsSound() && books.hand == old(books.hand)
      ensures opening == Existing <==> key in old(flows)
      ensures opening == AtCeiling <==> Crowded(old(flows), key, ceiling)
      ensures flows == if opening == AtCeiling then old(flows) else WithOpen(old(flows), key, plan)
      ensures FlowsKept(old(flows), flows) && (Exact(old(flows), ready) ==> Exact(flows, ready))
      ensures noted == if opening == Opened then [event] else []
      ensures events == old(events) + noted
    {
      opening := OpenFlow(key, plan);
      noted := [];
      if opening == Opened {
        Note(event);
        noted := [event];
      }
    }

    method Enqueue(key: FlowKey, datagram: Datagram)
      requires Accounted() && FlowsSound() && datagram.payload.id in books.hand
      requires key in flows && |flows[key].buffer| < bufferCapacity
      modifies `flows, `ready, `books, `table
      ensures Accounted() && FlowsSound() && books.hand == old(books.hand) - {datagram.payload.id}
      ensures flows == Enqueued(old(flows), key, datagram) && ready == old(ready) + Listing(old(flows), key)
      ensures FlowsKept(old(flows), flows) && (Exact(old(flows), old(ready)) ==> Exact(flows, ready))
    {
      table := WithDatagram(table, key, datagram);
      books := PutDatagram(books, key, datagram);
      ready := ready + Listing(flows, key);
      flows := Enqueued(flows, key, datagram);
    }

    // ---------------------------------------------------------- capture

    method InterceptDns(packet: Packet, bytes: seq<byte>, ghost granted: bool)
      returns (ghost asked: seq<DnsQuery>, ghost noted: seq<FlowEvent>)
      requires Accounted() && packet.transport.Udp?
      modifies pool, `queries, `events, `books
      ensures Accounted() && books.hand == old(books.hand)
      ensures queries == old(queries) + asked && events == old(events) + noted
      ensures Asked(old(Supplied(granted)), packet, wire.payload(packet, bytes), asked, noted)
    {
      var slice: Option<Pooled> := None;
      var payload := wire.payload(packet, bytes);
      if payload.Some? {
        slice := Acquire(payload.value);
      }
      if slice.None? {
        Note(TransmitDropped);
        asked, noted := [], [TransmitDropped];
      } else {
        var query := DnsQuery(Endpoint(packet.source, packet.transport.source),
                              Endpoint(packet.destination, packet.transport.destination), slice.value);
        QueueQuery(query);
        asked, noted := [query], [];
      }
    }

    method CaptureForTermination(ingress: Ingress, ghost granted: bool)
      returns (ghost captured: seq<Pooled>, ghost noted: seq<FlowEvent>)
      requires Accounted() && SliceOf(ingress) <= books.hand
      modifies pool, `terminate, `events, `books
      ensures Accounted() && books.hand == old(books.hand) - SliceOf(ingress)
      ensures terminate == old(terminate) + captured && events == old(events) + noted
      ensures Captured(old(Supplied(granted)), ingress, captured, noted)
    {
      var slice := IntoPooled(ingress);
      if slice.None? {
        Note(TransmitDropped);
        captured, noted := [], [TransmitDropped];
      } else {
        QueueTerminate(slice.value);
        captured, noted := [slice.value], [];
      }
    }

    /** The shell owns TCP, so only the client-facing packet is captured. */
    method CaptureFromClient(ingress: Ingress, from: Side, ghost granted: bool)
      returns (ghost captured: seq<Pooled>, ghost noted: seq<FlowEvent>)
      requires Accounted() && SliceOf(ingress) <= books.hand
      modifies pool, `terminate, `events, `books
      ensures Accounted() && books.hand == old(books.hand) - SliceOf(ingress)
      ensures terminate == old(terminate) + captured && events == old(events) + noted
      ensures CapturedFrom(from, old(Supplied(granted)), ingress, captured, noted)
    {
      captured, noted := [], [];
      if from == Tunnel {
        captured, noted := CaptureForTermination(ingress, granted);
      } else {
        DropIngress(ingress);
      }
    }

    /** A datagram joins its flow's queue if the flow is there and has room. */
    method Offer(key: FlowKey, datagram: Datagram) returns (ghost listed: seq<FlowKey>, ghost noted: seq<FlowEvent>)
      requires Accounted() && FlowsSound() && datagram.payload.id in books.hand
      modifies pool, `flows, `ready, `events, `books, `table
      ensures Accounted() && FlowsSound() && books.hand == old(books.hand) - {datagram.payload.id}
      ensures ready == old(ready) + listed && events == old(events) + noted
      ensures FlowsKept(old(flows), flows) && (Exact(old(flows), old(ready)) ==> Exact(flows, ready))
      ensures Offered(datagram, key, old(flows), flows, listed, noted, bufferCapacity)
    {
      if key in flows && |flows[key].buffer| != bufferCapacity {
        assert Fits(flows, key, bufferCapacity);
        listed, noted := Listing(flows, key), [];
        Enqueue(key, datagram);
      } else {
        var event := if key in flows then DatagramDropped(key.client) else TransmitDropped;
        listed, noted := [], [event];
        Note(event);
        Discard(datagram.payload);
      }
    }

    method CaptureDatagram(packet: Packet, bytes: seq<byte>, key: FlowKey, ghost granted: bool)
      returns (ghost listed: seq<FlowKey>, ghost noted: seq<FlowEvent>)
      requires Accounted() && FlowsSound() && packet.transport.Udp?
      modifies pool, `flows, `ready, `events, `books, `table
      ensures Accounted() && FlowsSound() && books.hand == old(books.hand)
      ensures ready == old(ready) + listed && events == old(events) + noted
      ensures FlowsKept(old(flows), flows) && (Exact(old(flows), old(ready)) ==> Exact(flows, ready))
      ensures DatagramKept(old(Supplied(granted)), wire.payload(packet, bytes), packet, key, old(flows), flows,
                           listed, noted, bufferCapacity)
    {
      var slice: Option<Pooled> := None;
      var payload := wire.payload(packet, bytes);
      if payload.Some? {
        slice := Acquire(payload.value);
      }
      if slice.None? {
        listed, noted := [], [TransmitDropped];
        Note(TransmitDropped);
      } else {
        ghost var before := flows;
        var datagram := Datagram(Endpoint(packet.destination, packet.transport.destination), slice.value);
        listed, noted := Offer(key, datagram);
        assert Offered(datagram, key, before, flows, listed, noted, bufferCapacity);
      }
    }

    // ---------------------------------------------------------- dispatch

    /** `inspection`: a candidate is a TCP packet of the client, not of this
        session's own connections, to an inspected port of an address whose
        window is open. */
    function InspectionOf(packet: Packet, from: Side, now: nat): Inspection
      reads inspected
    {
      if packet.transport.Tcp? && packet.transport.source !in originationPorts && from == Tunnel &&
         filter == InspectHttp && packet.transport.destination in inspectedPorts &&
         LiveIn(inspected.until, packet.destination, now)
      then Candidate
      else Excluded
    }

    /** What to do with a packet: what admission settles, else what its plan says,
        which for a client packet of a flow in the table is the stored one. */
    function Decide(packet: Packet, from: Side, now: nat): (choice: Choice)
      requires FlowsSound()
      reads `flows, `ready, `table, `candidatePlan, `excludedPlan, inspected
      ensures choice.Act? ==> Fitting(choice.action, packet)
      ensures packet.transport.Fragment? ==> choice == Act(Reassemble)
      ensures from == Tunnel && packet.transport.Tcp? && KeyOf(packet).value in flows ==>
                choice == Act(OpenStream(flows[KeyOf(packet).value].plan))
      ensures from == Egress ==> choice == EgressChoice(dns, excludedPlan, packet)
    {
      var backstop := if from == Tunnel && LiveIn(inspected.until, packet.destination, now) then Active else Lapsed;
      var admission := Admit(packet.transport, dns, backstop);
      var key := KeyOf(packet);
      if admission.Settled? then Act(admission.action)
      else if from == Tunnel && key.Some? && key.value in flows then
        assert Local(flows, key.value);
        Act(RoutePlanned(packet.transport, flows[key.value].plan))
      else
        var planning := if InspectionOf(packet, from, now) == Candidate then candidatePlan else excludedPlan;
        if planning.Unplannable? then NoPlan(planning.error)
        else Act(RoutePlanned(packet.transport, planning.plan))
    }

    ghost function Judge(arrival: Arrival, from: Side, now: nat): (choice: Choice)
      requires FlowsSound()
      reads `flows, `ready, `table, `candidatePlan, `excludedPlan, inspected
      ensures arrival.Whole? && choice.Act? ==> Fitting(choice.action, arrival.packet)
    {
      if arrival.Whole? then Decide(arrival.packet, from, now) else Act(DropUnsupported)
    }

    method ForwardPlanned(innerMtu: Mtu, packet: Packet, ingress: Ingress, from: Side, now: nat)
      returns (ghost sent: seq<Transmit>, ghost noted: seq<FlowEvent>)
      requires Accounted() && SliceOf(ingress) <= books.hand
      modifies pool, icmp, `transmits, `events, `books
      ensures Accounted() && books.hand == old(books.hand) - SliceOf(ingress)
      ensures transmits == old(transmits) + sent && events == old(events) + noted
      ensures Crossed(wire, old(Supplied(Grants(now))), innerMtu, packet, ingress, from, sent, noted)
      ensures from == Egress ==> AllTo(sent, Tunnel)
      ensures |BytesOf(ingress)| <= MIN_IPV6_MTU ==> sent != [] || noted != []
    {
      ghost var supply := Supplied(Grants(now));
      if Oversized(packet, from, BytesOf(ingress), innerMtu) {
        sent, noted := ReportTooBig(BytesOf(ingress), innerMtu, now);
        DropIngress(ingress);
      } else {
        sent, noted := Forward(ingress, Across(from), Some(innerMtu), packet.transport != Icmp(true), now);
        ForwardedTo(wire, supply, ingress, Across(from), Some(innerMtu), packet.transport != Icmp(true), sent, noted);
      }
    }

    /** A capture whose events come behind those already noted. */
    method CaptureBehind(ingress: Ingress, from: Side, ghost granted: bool, ghost before: seq<FlowEvent>, ghost noted: seq<FlowEvent>)
      returns (ghost captured: seq<Pooled>, ghost rest: seq<FlowEvent>)
      requires Accounted() && SliceOf(ingress) <= books.hand && events == before + noted
      modifies pool, `terminate, `events, `books
      ensures Accounted() && books.hand == old(books.hand) - SliceOf(ingress)
      ensures terminate == old(terminate) + captured && events == before + (noted + rest)
      ensures CapturedFrom(from, old(Supplied(granted)), ingress, captured, rest)
    {
      captured, rest := CaptureFromClient(ingress, from, granted);
      Regroup(before, noted, rest);
    }

    method HandleStream(key: FlowKey, plan: FlowPlan, ingress: Ingress, from: Side, ghost granted: bool)
      returns (full: bool, ghost captured: seq<Pooled>, ghost noted: seq<FlowEvent>, ghost rest: seq<FlowEvent>)
      requires Accounted() && FlowsSound() && SliceOf(ingress) <= books.hand && plan.transport == LocalTermination
      modifies pool, `terminate, `flows, `events, `books, `table
      ensures Accounted() && FlowsSound() && books.hand == old(books.hand) - SliceOf(ingress)
      ensures terminate == old(terminate) + captured && events == old(events) + noted
      ensures full <==> Crowded(old(flows), key, ceiling)
      ensures full ==> flows == old(flows) && captured == [] && noted == []
      ensures full || (&& flows == WithOpen(old(flows), key, plan)
                       && Announces(old(flows), key, StreamOpened(key.client), noted, rest)
                       && CapturedFrom(from, old(Supplied(granted)), ingress, captured, rest))
    {
      var opening;
      opening, noted := OpenAnnounced(key, plan, StreamOpened(key.client));
      full, captured, rest := opening == AtCeiling, [], [];
      if full {
        DropIngress(ingress);
      } else {
        captured, rest := CaptureBehind(ingress, from, granted, old(events), noted);
        noted := noted + rest;
      }
    }

    method HandleDatagram(packet: Packet, key: FlowKey, plan: FlowPlan, bytes: seq<byte>, from: Side, ghost granted: bool)
      returns (full: bool, ghost listed: seq<FlowKey>, ghost noted: seq<FlowEvent>, ghost rest: seq<FlowEvent>)
      requires Accounted() && FlowsSound() && plan.transport == LocalTermination && packet.transport.Udp?
      modifies pool, `flows, `ready, `events, `books, `table
      ensures Accounted() && FlowsSound() && books.hand == old(books.hand)
      ensures ready == old(ready) + listed && events == old(events) + noted
      ensures FlowsKept(old(flows), flows) && (Exact(old(flows), old(ready)) ==> Exact(flows, ready))
      ensures full <==> Crowded(old(flows), key, ceiling)
      ensures full ==> flows == old(flows) && listed == [] && noted == []
      ensures full || (&& Announces(old(flows), key, DatagramOpened(key.client), noted, rest)
                       && DatagramKeptFrom(from, old(Supplied(granted)), wire.payload(packet, bytes), packet, key,
                                           WithOpen(old(flows), key, plan), flows, listed, rest, bufferCapacity))
    {
      var opening;
      opening, noted := OpenAnnounced(key, plan, DatagramOpened(key.client));
      full, listed, rest := opening == AtCeiling, [], [];
      if !full && from == Tunnel {
        ghost var held := flows;
        listed, rest := CaptureDatagram(packet, bytes, key, granted);
        KeptOn(old(flows), held, flows);
        Regroup(old(events), noted, rest);
      }
      assert noted + [] == noted;
      noted := noted + rest;
    }

    method PerformForward(innerMtu: Mtu, packet: Packet, ingress: Ingress, from: Side, now: nat)
      returns (ghost added: Added)
      requires Accounted() && FlowsSound() && SliceOf(ingress) <= books.hand
      modifies pool, icmp, `transmits, `events, `books
      ensures Accounted() && FlowsSound() && books.hand == old(books.hand) - SliceOf(ingress)
      ensures Grew(old(Now()), Now(), added) && added == Added(added.sent, [], [], [], added.noted)
      ensures Crossed(wire, old(Supplied(Grants(now))), innerMtu, packet, ingress, from, added.sent, added.noted)
      ensures from == Egress ==> AllTo(added.sent, Tunnel)
      ensures |BytesOf(ingress)| <= MIN_IPV6_MTU ==> added != Nothing()
    {
      ghost var sent: seq<Transmit>;
      ghost var noted: seq<FlowEvent>;
      sent, noted := ForwardPlanned(innerMtu, packet, ingress, from, now);
      added := Added(sent, [], [], [], noted);
    }

    /** The shell owns what the client is told about ICMP, so nothing is quoted. */
    method PerformIcmp(ingress: Ingress, from: Side, now: nat) returns (ghost added: Added)
      requires Accounted() && FlowsSound() && SliceOf(ingress) <= books.hand
      modifies pool, icmp, `transmits, `events, `books
      ensures Accounted() && FlowsSound() && books.hand == old(books.hand) - SliceOf(ingress)
      ensures Grew(old(Now()), Now(), added) && added == Added(added.sent, [], [], [], added.noted)
      ensures Forwarded(wire, old(Supplied(Grants(now))), ingress, Across(from), None, false, added.sent, added.noted)
      ensures AllTo(added.sent, Across(from)) && added != Nothing()
    {
      ghost var supply := Supplied(Grants(now));
      ghost var sent: seq<Transmit>;
      ghost var noted: seq<FlowEvent>;
      sent, noted := Forward(ingress, Across(from), None, false, now);
      ForwardedTo(wire, supply, ingress, Across(from), None, false, sent, noted);
      added := Added(sent, [], [], [], noted);
    }

    /** A packet of a stream: the flow is opened if there is room for it, and the
        client's packet goes to the local stack. */
    method PerformStream(key: FlowKey, plan: FlowPlan, ingress: Ingress, from: Side, ghost granted: bool)
      returns (outcome: Outcome, ghost added: Added)
      requires Accounted() && FlowsSound() && SliceOf(ingress) <= books.hand && plan.transport == LocalTermination
      modifies pool, `terminate, `flows, `events, `books, `table
      ensures Accounted() && FlowsSound() && books.hand == old(books.hand) - SliceOf(ingress)
      ensures Grew(old(Now()), Now(), added)
      ensures StreamHandled(old(Supplied(granted)), key, plan, ingress, from, ceiling, old(flows), flows, outcome, added)
    {
      var full;
      ghost var captured: seq<Pooled>;
      ghost var noted: seq<FlowEvent>;
      ghost var rest: seq<FlowEvent>;
      full, captured, noted, rest := HandleStream(key, plan, ingress, from, granted);
      outcome := if full then Refused(TableFull) else Done;
      added := Added([], [], captured, [], noted);
    }

    /** A datagram: the mapping is opened if there is room for it, and the client's
        payload joins its queue. */
    method PerformDatagram(packet: Packet, key: FlowKey, plan: FlowPlan, ingress: Ingress, from: Side, ghost granted: bool)
      returns (outcome: Outcome, ghost added: Added)
      requires Accounted() && FlowsSound() && SliceOf(ingress) <= books.hand
      requires plan.transport == LocalTermination && packet.transport.Udp?
      modifies pool, `flows, `ready, `events, `books, `table
      ensures Accounted() && FlowsSound() && books.hand == old(books.hand) - SliceOf(ingress)
      ensures Grew(old(Now()), Now(), added)
      ensures DatagramHandled(old(Supplied(granted)), wire.payload(packet, BytesOf(ingress)), packet, key, plan, from,
                              ceiling, bufferCapacity, old(flows), flows, outcome, added)
    {
      var full;
      ghost var listed: seq<FlowKey>;
      ghost var noted: seq<FlowEvent>;
      ghost var rest: seq<FlowEvent>;
      full, listed, noted, rest := HandleDatagram(packet, key, plan, BytesOf(ingress), from, granted);
      DropIngress(ingress);
      outcome := if full then Refused(TableFull) else Done;
      added := Added([], [], [], listed, noted);
    }

    method PerformDns(packet: Packet, ingress: Ingress, ghost granted: bool) returns (ghost added: Added)
      requires Accounted() && FlowsSound() && SliceOf(ingress) <= books.hand && packet.transport.Udp?
      modifies pool, `queries, `events, `books
      ensures Accounted() && FlowsSound() && books.hand == old(books.hand) - SliceOf(ingress)
      ensures Grew(old(Now()), Now(), added) && added == Added([], added.asked, [], [], added.noted)
      ensures Asked(old(Supplied(granted)), packet, wire.payload(packet, BytesOf(ingress)), added.asked, added.noted)
    {
      ghost var asked: seq<DnsQuery>;
      ghost var noted: seq<FlowEvent>;
      asked, noted := InterceptDns(packet, BytesOf(ingress), granted);
      DropIngress(ingress);
      added := Added([], asked, [], [], noted);
    }

    method Record(recorded: seq<FlowEvent>) returns (ghost added: Added)
      requires Accounted() && FlowsSound()
      modifies `events
      ensures Accounted() && FlowsSound()
      ensures Grew(old(Now()), Now(), added) && added == Added([], [], [], [], recorded)
    {
      events := events + recorded;
      added := Added([], [], [], [], recorded);
    }

    method PerformDrop(recorded: seq<FlowEvent>, ingress: Ingress) returns (ghost added: Added)
      requires Accounted() && FlowsSound() && SliceOf(ingress) <= books.hand
      modifies pool, `events, `books
      ensures Accounted() && FlowsSound() && books.hand == old(books.hand) - SliceOf(ingress)
      ensures Grew(old(Now()), Now(), added) && added == Added([], [], [], [], recorded)
    {
      added := Record(recorded);
      DropIngress(ingress);
    }

    method PerformOpen(action: IngressAction, packet: Packet, ingress: Ingress, from: Side, ghost now: nat)
      returns (outcome: Outcome, ghost added: Added)
      requires Accounted() && FlowsSound() && SliceOf(ingress) <= books.hand
      requires Fitting(action, packet) && (action.OpenStream? || action.OpenDatagram?)
      modifies pool, `terminate, `flows, `ready, `events, `books, `table
      ensures Accounted() && FlowsSound() && books.hand == old(books.hand) - SliceOf(ingress)
      ensures Grew(old(Now()), Now(), added) && added.sent == []
      ensures Handled(wire, old(Supplied(Grants(now))), Act(action), packet, ingress, from,
                      ceiling, bufferCapacity, old(flows), flows, outcome, added)
    {
      if action.OpenStream? {
        outcome, added := PerformStream(KeyOf(packet).value, action.plan, ingress, from, Grants(now));
      } else {
        outcome, added := PerformDatagram(packet, KeyOf(packet).value, action.plan, ingress, from, Grants(now));
      }
    }

    method PerformCross(action: IngressAction, packet: Packet, ingress: Ingress, from: Side, now: nat)
      returns (outcome: Outcome, ghost added: Added)
      requires Accounted() && FlowsSound() && SliceOf(ingress) <= books.hand
      requires Fitting(action, packet) && (action.ForwardPacket? || action.HandleIcmp?)
      modifies pool, icmp, `transmits, `events, `books
      ensures Accounted() && FlowsSound() && books.hand == old(books.hand) - SliceOf(ingress)
      ensures Grew(old(Now()), Now(), added)
      ensures from == Egress ==> AllTo(added.sent, Tunnel)
      ensures Handled(wire, old(Supplied(Grants(now))), Act(action), packet, ingress, from,
                      ceiling, bufferCapacity, old(flows), flows, outcome, added)
    {
      outcome := Done;
      if action.ForwardPacket? {
        added := PerformForward(action.plan.transport.innerMtu, packet, ingress, from, now);
      } else {
        added := PerformIcmp(ingress, from, now);
      }
    }

    method PerformSettled(action: IngressAction, packet: Packet, ingress: Ingress, from: Side, ghost now: nat)
      returns (outcome: Outcome, ghost added: Added)
      requires Accounted() && FlowsSound() && SliceOf(ingress) <= books.hand
      requires Fitting(action, packet) && (action.ResolveDns? || action.DropSteered? || action.DropUnsupported?)
      modifies pool, `queries, `events, `books
      ensures Accounted() && FlowsSound() && books.hand == old(books.hand) - SliceOf(ingress)
      ensures Grew(old(Now()), Now(), added) && added.sent == []
      ensures Handled(wire, old(Supplied(Grants(now))), Act(action), packet, ingress, from,
                      ceiling, bufferCapacity, old(flows), flows, outcome, added)
    {
      outcome := Done;
      if action.ResolveDns? {
        added := PerformDns(packet, ingress, Grants(now));
      } else {
        added := PerformDrop(if action.DropSteered? then [QuicSteered] else [], ingress);
      }
    }

    // ---------------------------------------------------------- packets in

    /** What `Decide` says of a whole packet is done with it, exactly. */
    method Perform(choice: Choice, packet: Packet, ingress: Ingress, from: Side, now: nat)
      returns (outcome: Outcome, ghost added: Added)
      requires Accounted() && FlowsSound() && SliceOf(ingress) <= books.hand
      requires !packet.transport.Fragment? && (choice.Act? ==> Fitting(choice.action, packet))
      modifies pool, icmp, `transmits, `queries, `terminate, `flows, `ready, `events, `books, `table
      ensures Accounted() && FlowsSound() && books.hand == old(books.hand) - SliceOf(ingress)
      ensures Grew(old(Now()), Now(), added)
      ensures from == Egress ==> AllTo(added.sent, Tunnel)
      ensures Handled(wire, old(Supplied(Grants(now))), choice, packet, ingress, from,
                      ceiling, bufferCapacity, old(flows), flows, outcome, added)
    {
      if choice.NoPlan? {
        outcome := Refused(PlanRefused(choice.error));
        added := PerformDrop([], ingress);
      } else if choice.action.OpenStream? || choice.action.OpenDatagram? {
        outcome, added := PerformOpen(choice.action, packet, ingress, from, now);
      } else if choice.action.ForwardPacket? || choice.action.HandleIcmp? {
        outcome, added := PerformCross(choice.action, packet, ingress, from, now);
      } else {
        outcome, added := PerformSettled(choice.action, packet, ingress, from, now);
      }
    }

    /** One packet, from either side. The slice it came in, if any, is used or
        returned; what it left behind is `added`; and from the egress nothing goes
        back there. */
    method Dispatch(packet: Packet, ingress: Ingress, from: Side, now: nat, outcomes: seq<PushOutcome>)
      returns (outcome: Outcome, ghost added: Added)
      requires Accounted() && FlowsSound() && SliceOf(ingress) <= books.hand
      modifies pool, icmp, `transmits, `queries, `terminate, `flows, `ready, `events, `books, `table
      ensures Accounted() && FlowsSound() && books.hand == old(books.hand) - SliceOf(ingress)
      ensures Grew(old(Now()), Now(), added)
      ensures from == Egress ==> AllTo(added.sent, Tunnel)
      ensures var arrival := ArrivingAs(wire, packet, ingress, outcomes);
              TakenIn(wire, old(Supplied(Grants(now))), arrival, old(Judge(arrival, from, now)), from,
                      ceiling, bufferCapacity, old(flows), flows, outcome, added)
      decreases |outcomes|, 3
    {
      var choice := Decide(packet, from, now);
      if choice == Act(Reassemble) {
        outcome, added := OnFragment(from, now, outcomes);
        DropIngress(ingress);
      } else {
        outcome, added := OnWhole(packet, ingress, from, now);
      }
    }

    method OnWhole(packet: Packet, ingress: Ingress, from: Side, now: nat) returns (outcome: Outcome, ghost added: Added)
      requires Accounted() && FlowsSound() && SliceOf(ingress) <= books.hand && !packet.transport.Fragment?
      modifies pool, icmp, `transmits, `queries, `terminate, `flows, `ready, `events, `books, `table
      ensures Accounted() && FlowsSound() && books.hand == old(books.hand) - SliceOf(ingress)
      ensures Grew(old(Now()), Now(), added)
      ensures from == Egress ==> AllTo(added.sent, Tunnel)
      ensures Handled(wire, old(Supplied(Grants(now))), old(Decide(packet, from, now)), packet, ingress, from,
                      ceiling, bufferCapacity, old(flows), flows, outcome, added)
    {
      var choice := Decide(packet, from, now);
      outcome, added := Perform(choice, packet, ingress, from, now);
    }

    /** A fragment. The reassembler's answers are given: `outcomes` lists them in
        the order it is asked, and it is not asked beyond them. */
    method OnFragment(from: Side, now: nat, outcomes: seq<PushOutcome>)
      returns (outcome: Outcome, ghost added: Added)
      requires Accounted() && FlowsSound()
      modifies pool, icmp, `transmits, `queries, `terminate, `flows, `ready, `events, `books, `table
      ensures Accounted() && FlowsSound() && books.hand == old(books.hand)
      ensures Grew(old(Now()), Now(), added)
      ensures from == Egress ==> AllTo(added.sent, Tunnel)
      ensures var arrival := Completing(wire, outcomes);
              TakenIn(wire, old(Supplied(Grants(now))), arrival, old(Judge(arrival, from, now)), from,
                      ceiling, bufferCapacity, old(flows), flows, outcome, added)
      decreases |outcomes|, 2
    {
      if outcomes != [] && outcomes[0].Complete? {
        BorrowsNothing(books.hand, outcomes[0].datagram);
        outcome, added := TakeIn(Borrowed(outcomes[0].datagram), from, now, outcomes[1..]);
      } else {
        added := Record(if outcomes != [] && outcomes[0].Discarded? then [ReassemblyDiscarded] else []);
        outcome := if outcomes != [] && outcomes[0].Unreadable? then Refused(Malformed) else Done;
      }
    }

    /** Octets, as they arrive or as a completed datagram holds them. */
    method TakeIn(ingress: Ingress, from: Side, now: nat, outcomes: seq<PushOutcome>)
      returns (outcome: Outcome, ghost added: Added)
      requires Accounted() && FlowsSound() && SliceOf(ingress) <= books.hand
      modifies pool, icmp, `transmits, `queries, `terminate, `flows, `ready, `events, `books, `table
      ensures Accounted() && FlowsSound() && books.hand == old(books.hand) - SliceOf(ingress)
      ensures Grew(old(Now()), Now(), added)
      ensures from == Egress ==> AllTo(added.sent, Tunnel)
      ensures var arrival := Arriving(wire, ingress, outcomes);
              TakenIn(wire, old(Supplied(Grants(now))), arrival, old(Judge(arrival, from, now)), from,
                      ceiling, bufferCapacity, old(flows), flows, outcome, added)
      decreases |outcomes|, 4
    {
      var packet := wire.parse(BytesOf(ingress));
      if packet.None? {
        added := PerformDrop([], ingress);
        outcome := Refused(Malformed);
      } else {
        outcome, added := Dispatch(packet.value, ingress, from, now, outcomes);
      }
    }

    /** `on_tun_packet` and `on_tun_owned`. */
    method OnTun(ingress: Ingress, now: nat, outcomes: seq<PushOutcome>) returns (outcome: Outcome, ghost added: Added)
      requires Valid() && SliceOf(ingress) <= books.hand
      modifies pool, icmp, `transmits, `queries, `terminate, `flows, `ready, `events, `books, `table
      ensures Valid() && books.hand == old(books.hand) - SliceOf(ingress)
      ensures Grew(old(Now()), Now(), added)
      ensures var arrival := Arriving(wire, ingress, outcomes);
              TakenIn(wire, old(Supplied(Grants(now))), arrival, old(Judge(arrival, Tunnel, now)), Tunnel,
                      ceiling, bufferCapacity, old(flows), flows, outcome, added)
    {
      outcome, added := TakeIn(ingress, Tunnel, now, outcomes);
    }

    /** `on_egress_packet` and `on_egress_owned`: input must be whole already, and
        never queues a packet back to the egress. */
    method OnEgress(ingress: Ingress, now: nat) returns (outcome: Outcome, ghost added: Added)
      requires Valid() && SliceOf(ingress) <= books.hand
      modifies pool, icmp, `transmits, `queries, `terminate, `flows, `ready, `events, `books, `table
      ensures Valid() && books.hand == old(books.hand) - SliceOf(ingress)
      ensures Grew(old(Now()), Now(), added) && AllTo(added.sent, Tunnel)
      ensures var arrival := Arriving(wire, ingress, [Discarded]);
              TakenIn(wire, old(Supplied(Grants(now))), arrival, old(Judge(arrival, Egress, now)), Egress,
                      ceiling, bufferCapacity, old(flows), flows, outcome, added)
    {
      var packet := wire.parse(BytesOf(ingress));
      if packet.None? {
        added := PerformDrop([], ingress);
        outcome := Refused(Malformed);
      } else if packet.value.transport.Fragment? {
        added := PerformDrop([ReassemblyDiscarded], ingress);
        outcome := Done;
      } else {
        outcome, added := Dispatch(packet.value, ingress, Egress, now, []);
      }
    }

    /** Writes a datagram into a slice for the client; on a failed write the slice
        goes back. */
    method WriteUdp(length: nat, written: Option<seq<byte>>)
      returns (outcome: Outcome, queued: bool, ghost sent: seq<Transmit>, ghost noted: seq<FlowEvent>)
      requires Accounted()
      modifies pool, `transmits, `events, `books
      ensures Accounted() && books.hand == old(books.hand)
      ensures transmits == old(transmits) + sent && events == old(events) + noted && (queued <==> sent != [])
      ensures UdpWritten(old(Supplied(true)), length, written, outcome, sent, noted)
    {
      var slice := AcquireZeroed(length);
      outcome, queued, sent, noted := Done, false, [], [];
      if slice.None? {
        Note(TransmitDropped);
        noted := [TransmitDropped];
      } else if written.None? {
        Discard(slice.value);
        outcome := Refused(WriteFailed);
      } else {
        QueueTransmit(Tunnel, slice.value.(bytes := written.value));
        queued, sent := true, [Transmit(Tunnel, slice.value.(bytes := written.value))];
      }
    }

    method SendUdp(length: nat, written: Option<seq<byte>>) returns (outcome: Outcome, queued: bool, ghost added: Added)
      requires Accounted() && FlowsSound()
      modifies pool, `transmits, `events, `books
      ensures Accounted() && FlowsSound() && books.hand == old(books.hand)
      ensures Grew(old(Now()), Now(), added) && AllTo(added.sent, Tunnel)
      ensures added == Added(added.sent, [], [], [], added.noted) && (queued <==> added.sent != [])
      ensures UdpWritten(old(Supplied(true)), length, written, outcome, added.sent, added.noted)
    {
      ghost var sent: seq<Transmit>;
      ghost var noted: seq<FlowEvent>;
      outcome, queued, sent, noted := WriteUdp(length, written);
      added := Added(sent, [], [], [], noted);
    }

    /** `deliver_datagram`: a reply reaches its client only while the mapping
        lives, and the caller is told whether it is on its way; no flow changes. */
    method Deliver(client: Endpoint, peer: Endpoint, payload: seq<byte>)
      returns (outcome: Outcome, queued: bool, ghost added: Added)
      requires Valid()
      modifies pool, `transmits, `events, `books
      ensures Valid() && books.hand == old(books.hand)
      ensures Grew(old(Now()), Now(), added) && AllTo(added.sent, Tunnel)
      ensures flows == old(flows) && (queued <==> added.sent != [])
      ensures Mapping(client) !in flows ==> outcome == Done && added == Nothing()
      ensures Mapping(client) in flows && excludedPlan.Unplannable? ==>
                outcome == Refused(PlanRefused(excludedPlan.error)) && added == Nothing()
      ensures Mapping(client) in flows && excludedPlan.Planned? ==>
                UdpWritten(old(Supplied(true)), wire.udpLength(peer, |payload|), wire.writeUdp(peer, client, payload),
                           outcome, added.sent, added.noted)
    {
      queued := false;
      if Mapping(client) !in flows {
        added := Record([]);
        outcome := Done;
      } else if excludedPlan.Unplannable? {
        added := Record([]);
        outcome := Refused(PlanRefused(excludedPlan.error));
      } else {
        outcome, queued, added := SendUdp(wire.udpLength(peer, |payload|), wire.writeUdp(peer, client, payload));
      }
    }

    /** `inspect_addresses`: each address refused at capacity is recorded. */
    method InspectAddresses(addresses: seq<nat>, now: nat) returns (ghost added: Added)
      requires Valid()
      modifies inspected, `events
      ensures Valid()
      ensures Grew(old(Now()), Now(), added) && added == Added([], [], [], [], added.noted)
      ensures exists refused ::
                && AdmittedAll(old(inspected.until), inspected.until, addresses, now, inspected.window, inspected.capacity, refused)
                && |added.noted| == refused
    {
      var refused := inspected.Admit(addresses, now);
      added := Record(seq(refused, i => TransmitDropped));
    }

    /** `answer_dns`. */
    method AnswerDns(client: Endpoint, resolver: Endpoint, response: seq<byte>)
      returns (outcome: Outcome, ghost added: Added)
      requires Valid()
      modifies pool, `transmits, `events, `books
      ensures Valid() && books.hand == old(books.hand)
      ensures Grew(old(Now()), Now(), added) && AllTo(added.sent, Tunnel)
      ensures UdpWritten(old(Supplied(true)), wire.udpLength(resolver, |response|),
                         wire.writeUdp(resolver, client, response), outcome, added.sent, added.noted)
    {
      var queued;
      outcome, queued, added := SendUdp(wire.udpLength(resolver, |response|), wire.writeUdp(resolver, client, response));
    }

    // ---------------------------------------------------------- packets out

    method PollTransmit() returns (transmit: Option<Transmit>)
      requires Valid()
      modifies `transmits, `books
      ensures Valid()
      ensures transmit.None? <==> old(transmits) == []
      ensures transmit.None? ==> transmits == [] && books.hand == old(books.hand)
      ensures transmit.Some? ==>
                && transmit.value == old(transmits)[0] && transmits == old(transmits)[1..]
                && books.hand == old(books.hand) + {transmit.value.bytes.id}
                && transmit.value.bytes.id !in old(books.hand)
    {
      transmit := None;
      if transmits != [] {
        transmit := Some(transmits[0]);
        books := PickTransmit(books);
        transmits := transmits[1..];
      }
    }

    method PollQuery() returns (query: Option<DnsQuery>)
      requires Valid()
      modifies `queries, `books
      ensures Valid()
      ensures query.None? <==> old(queries) == []
      ensures query.None? ==> queries == [] && books.hand == old(books.hand)
      ensures query.Some? ==>
                && query.value == old(queries)[0] && queries == old(queries)[1..]
                && books.hand == old(books.hand) + {query.value.payload.id}
                && query.value.payload.id !in old(books.hand)
    {
      query := None;
      if queries != [] {
        query := Some(queries[0]);
        books := PickQuery(books);
        queries := queries[1..];
      }
    }

    method PollTerminate() returns (packet: Option<Pooled>)
      requires Valid()
      modifies `terminate, `books
      ensures Valid()
      ensures packet.None? <==> old(terminate) == []
      ensures packet.None? ==> terminate == [] && books.hand == old(books.hand)
      ensures packet.Some? ==>
                && packet.value == old(terminate)[0] && terminate == old(terminate)[1..]
                && books.hand == old(books.hand) + {packet.value.id}
                && packet.value.id !in old(books.hand)
    {
      packet := None;
      if terminate != [] {
        packet := Some(terminate[0]);
        books := PickTerminate(books);
        terminate := terminate[1..];
      }
    }

    method PollEvent() returns (event: Option<FlowEvent>)
      requires Valid()
      modifies `events
      ensures Valid()
      ensures event.None? <==> old(events) == []
      ensures if event.None? then events == [] else [event.value] + events == old(events)
    {
      event := None;
      if events != [] {
        event, events := Some(events[0]), events[1..];
      }
    }

    /** The flow at the front of the list gives up its first datagram. */
    method ServeFront() returns (out: Outbound)
      requires Accounted() && FlowsSound() && ready != [] && Waiting(flows, ready[0])
      modifies `flows, `ready, `books, `table
      ensures Accounted() && FlowsSound()
      ensures var key := old(ready)[0];
              var queue := old(flows)[key].buffer;
              && out == Outbound(key.client, queue[0].target, queue[0].payload)
              && flows == Dequeued(old(flows), key)
              && ready == old(ready)[1..] + (if |queue| > 1 then [key] else [])
              && books.hand == old(books.hand) + {out.payload.id}
              && out.payload.id !in old(books.hand)
      ensures Exact(old(flows), old(ready)) ==> Exact(flows, ready)
    {
      var key := ready[0];
      var queue := flows[key].buffer;
      out := Outbound(key.client, queue[0].target, queue[0].payload);
      books := PickDatagram(books, key);
      table := Served(table);
      flows := Dequeued(flows, key);
      ready := ready[1..] + if |queue| > 1 then [key] else [];
    }

    /** Entries at the front of the list whose flow is gone or has nothing queued
        are passed over. */
    method SkipStale() returns (ghost skipped: nat)
      requires FlowsSound()
      modifies `ready, `table
      ensures FlowsSound() && skipped <= |old(ready)| && ready == old(ready)[skipped..]
      ensures forall i :: 0 <= i < skipped ==> !Waiting(flows, old(ready)[i])
      ensures ready != [] ==> Waiting(flows, ready[0])
      ensures ready == [] ==> forall key :: !Waiting(flows, key)
      ensures Exact(flows, old(ready)) ==> skipped == 0
    {
      skipped := 0;
      while ready != [] && !(ready[0] in flows && flows[ready[0]].buffer != [])
        invariant FlowsSound() && skipped <= |old(ready)| && ready == old(ready)[skipped..]
        invariant forall i :: 0 <= i < skipped ==> !Waiting(flows, old(ready)[i])
        decreases |ready|
      {
        assert ready[0] == old(ready)[skipped] && !Waiting(flows, old(ready)[skipped]);
        table := Skipped(table);
        ready := ready[1..];
        skipped := skipped + 1;
      }
      assert forall key :: Waiting(flows, key) ==> key in table.ready;
      assert skipped > 0 ==> !Waiting(flows, old(ready)[0]);
    }

    /** `poll_datagram`: the first listed flow that still waits is served, the
        stale entries before it are gone, and it returns to the back of the list
        if it has more. Nothing comes out exactly when no flow waits. */
    method PollDatagram() returns (out: Option<Outbound>, ghost skipped: nat)
      requires Valid()
      modifies `flows, `ready, `books, `table
      ensures Valid()
      ensures out.None? <==> forall key :: !Waiting(old(flows), key)
      ensures out.None? ==> flows == old(flows) && ready == [] && books.hand == old(books.hand)
      ensures out.Some? ==> skipped < |old(ready)| && ServedAt(old(flows), old(ready), skipped, flows, ready, out.value)
      ensures out.Some? ==> books.hand == old(books.hand) + {out.value.payload.id} && out.value.payload.id !in old(books.hand)
      ensures Exact(old(flows), old(ready)) ==> Exact(flows, ready) && (out.Some? ==> skipped == 0)
    {
      skipped := SkipStale();
      if ready == [] {
        out := None;
      } else {
        assert Waiting(flows, ready[0]) && ready[0] == old(ready)[skipped];
        assert ready[1..] == old(ready)[skipped + 1..];
        var served := ServeFront();
        out := Some(served);
      }
    }

    // ---------------------------------------------------------- removal

    /** A flow's queue is dropped with it, slice by slice. An exact ready list
        stays exact if and only if the flow was not waiting. */
    method DropFlow(key: FlowKey)
      requires Accounted() && FlowsSound() && key in flows
      modifies pool, `flows, `books, `table
      ensures Accounted() && FlowsSound() && books.hand == old(books.hand)
      ensures flows == old(flows) - {key}
      ensures Exact(old(flows), ready) ==> (Exact(flows, ready) <==> !Waiting(old(flows), key))
    {
      ghost var before := flows;
      EmptyFlow(key);
      CloseFlow(key);
      if Exact(before, ready) && Waiting(before, key) {
        GoneButListed(before, ready, flows, key);
      }
    }

    method EmptyFlow(key: FlowKey)
      requires Accounted() && FlowsSound() && key in flows
      modifies pool, `flows, `books, `table
      ensures Accounted() && FlowsSound() && books.hand == old(books.hand)
      ensures key in flows && flows[key].buffer == [] && flows - {key} == old(flows) - {key}
      ensures old(flows)[key].buffer == [] ==> flows == old(flows)
    {
      while flows[key].buffer != []
        invariant Accounted() && FlowsSound() && books.hand == old(books.hand)
        invariant key in flows && flows - {key} == old(flows) - {key}
        invariant old(flows)[key].buffer == [] ==> flows == old(flows)
        decreases |flows[key].buffer|
      {
        DropDatagram(key);
      }
    }

    method CloseFlow(key: FlowKey)
      requires Accounted() && FlowsSound() && key in flows && flows[key].buffer == []
      modifies `flows, `books, `table
      ensures Accounted() && FlowsSound() && books.hand == old(books.hand)
      ensures flows == old(flows) - {key}
      ensures Exact(old(flows), ready) ==> Exact(flows, ready)
    {
      table := WithoutFlow(table, key);
      flows := flows - {key};
      books := Reflowed(books, flows);
    }

    method DropDatagram(key: FlowKey)
      requires Accounted() && FlowsSound() && Waiting(flows, key)
      modifies pool, `flows, `books, `table
      ensures Accounted() && FlowsSound() && books.hand == old(books.hand)
      ensures flows == Dequeued(old(flows), key)
    {
      var slice := flows[key].buffer[0].payload;
      books := PickDatagram(books, key);
      table := WithoutDatagram(table, key);
      flows := Dequeued(flows, key);
      Discard(slice);
    }

    method DropIfLive(key: FlowKey)
      requires Accounted() && FlowsSound()
      modifies pool, `flows, `books, `table
      ensures Accounted() && FlowsSound() && books.hand == old(books.hand)
      ensures flows == old(flows) - {key}
      ensures Exact(old(flows), ready) ==> (Exact(flows, ready) <==> !Waiting(old(flows), key))
    {
      if key in flows {
        DropFlow(key);
      } else {
        assert flows - {key} == flows;
      }
    }

    /** Expiry, for whichever flows the table evicts: exactly those go, their
        slices return to the pool, and an exact ready list stays exact if and only
        if none of them was waiting. */
    method ExpireFlows(evicted: seq<FlowKey>)
      requires Accounted() && FlowsSound()
      modifies pool, `flows, `books, `table
      ensures Accounted() && FlowsSound() && books.hand == old(books.hand)
      ensures flows == Without(old(flows), evicted, |evicted|)
      ensures Exact(old(flows), ready) ==> (Exact(flows, ready) <==> NoneWaits(old(flows), evicted))
    {
      EvictAll(evicted);
      if Exact(old(flows), ready) && !NoneWaits(old(flows), evicted) {
        WaitedAndListed(old(flows), ready, evicted);
      }
    }

    method EvictAll(evicted: seq<FlowKey>)
      requires Accounted() && FlowsSound()
      modifies pool, `flows, `books, `table
      ensures Accounted() && FlowsSound() && books.hand == old(books.hand)
      ensures flows == Without(old(flows), evicted, |evicted|)
      ensures Exact(old(flows), ready) && NoneWaits(old(flows), evicted) ==> Exact(flows, ready)
    {
      for i := 0 to |evicted|
        invariant Accounted() && FlowsSound() && books.hand == old(books.hand)
        invariant flows == Without(old(flows), evicted, i)
        invariant Exact(old(flows), ready) && NoneWaits(old(flows), evicted) ==> Exact(flows, ready)
      {
        WithoutIs(old(flows), evicted, i, evicted[i]);
        DropIfLive(evicted[i]);
      }
    }

    /** `on_timeout`. */
    method OnTimeout(evicted: seq<FlowKey>, now: nat)
      requires Valid()
      modifies pool, inspected, `flows, `books, `table
      ensures Valid() && books.hand == old(books.hand)
      ensures flows == Without(old(flows), evicted, |evicted|)
      ensures inspected.until == Unexpired(old(inspected.until), now)
      ensures Exact(old(flows), ready) ==> (Exact(flows, ready) <==> NoneWaits(old(flows), evicted))
    {
      inspected.Expire(now);
      ExpireFlows(evicted);
    }

    // ---------------------------------------------------------- path changes

    method ReplanFlow(key: FlowKey, ghost anew: FlowPlan)
      requires Accounted() && FlowsSound() && key in flows
      requires accepts == Flows ==> PlanFlow(filter, Excluded, accepts, egress, pathMtu) == Planned(anew)
      modifies pool, `flows, `events, `books, `table
      ensures Accounted() && FlowsSound() && books.hand == old(books.hand)
      ensures Standing(flows, events) == Visit(old(Standing(flows, events)), key, accepts, anew)
    {
      assert Local(flows, key);
      TerminatedReplan(flows[key].plan, filter, accepts, egress, pathMtu);
      var replanning := Replan(flows[key].plan, filter, Excluded, accepts, egress, pathMtu);
      match replanning {
        case Unchanged =>
          assert flows[key := flows[key]] == flows;
        case Resteer(reason, plan) =>
          Adopt(key, plan);
          Note(Resteered(reason));
        case Teardown =>
          Note(FlowTornDown(key.client));
          DropFlow(key);
      }
    }

    method Adopt(key: FlowKey, plan: FlowPlan)
      requires Accounted() && FlowsSound() && key in flows && plan.transport == LocalTermination
      modifies `flows, `books, `table
      ensures Accounted() && FlowsSound() && books.hand == old(books.hand)
      ensures flows == old(flows)[key := old(flows)[key].(plan := plan)]
    {
      table := Replanned(table, key, plan);
      flows := flows[key := flows[key].(plan := plan)];
      books := Reflowed(books, flows);
    }

    method VisitNext(ghost before: Standing, order: seq<FlowKey>, n: nat, ghost anew: FlowPlan)
      requires Accounted() && FlowsSound() && n < |order| && Visits(order, before.flows)
      requires Standing(flows, events) == Visiting(before, order, n, accepts, anew)
      requires accepts == Flows ==> PlanFlow(filter, Excluded, accepts, egress, pathMtu) == Planned(anew)
      modifies pool, `flows, `events, `books, `table
      ensures Accounted() && FlowsSound() && books.hand == old(books.hand)
      ensures Standing(flows, events) == Visiting(before, order, n + 1, accepts, anew)
    {
      StillThere(before, order, n, accepts, anew);
      ReplanFlow(order[n], anew);
    }

    method VisitAll(ghost before: Standing, order: seq<FlowKey>, ghost anew: FlowPlan)
      requires Accounted() && FlowsSound() && Visits(order, before.flows)
      requires Standing(flows, events) == before
      requires accepts == Flows ==> PlanFlow(filter, Excluded, accepts, egress, pathMtu) == Planned(anew)
      modifies pool, `flows, `events, `books, `table
      ensures Accounted() && FlowsSound() && books.hand == old(books.hand)
      ensures Standing(flows, events) == Visiting(before, order, |order|, accepts, anew)
    {
      for n := 0 to |order|
        invariant Accounted() && FlowsSound() && books.hand == old(books.hand)
        invariant Standing(flows, events) == Visiting(before, order, n, accepts, anew)
      {
        VisitNext(before, order, n, anew);
      }
    }

    method ReplanAll(order: seq<FlowKey>, ghost anew: FlowPlan)
      requires Accounted() && FlowsSound() && Visits(order, flows)
      requires accepts == Flows ==> PlanFlow(filter, Excluded, accepts, egress, pathMtu) == Planned(anew)
      modifies pool, `flows, `events, `books, `table
      ensures Accounted() && FlowsSound() && books.hand == old(books.hand)
      ensures PathChanged(old(Standing(flows, events)), order, accepts, anew, Standing(flows, events), ready)
    {
      ghost var before := Standing(flows, events);
      VisitAll(before, order, anew);
      VisitsChangePath(before, order, accepts, anew, ready);
    }

    /** Both plans are made afresh; an error is kept for later packets to meet. */
    method AdoptPath(accepts: Accepts, next: PathProperties) returns (ghost anew: FlowPlan)
      modifies `accepts, `egress, `candidatePlan, `excludedPlan
      ensures PlansCurrent() && this.accepts == accepts && egress == next
      ensures accepts == Flows ==> excludedPlan == Planned(anew)
      ensures accepts == Flows ==> PlanFlow(filter, Excluded, accepts, next, pathMtu) == Planned(anew)
    {
      this.accepts, egress := accepts, next;
      candidatePlan := PlanFlow(filter, Candidate, accepts, next, pathMtu);
      excludedPlan := PlanFlow(filter, Excluded, accepts, next, pathMtu);
      anew := PlanOr(excludedPlan);
    }

    method ChangePath(accepts: Accepts, next: PathProperties, order: seq<FlowKey>) returns (ghost anew: FlowPlan)
      requires Accounted() && FlowsSound() && Visits(order, flows)
      modifies pool, `accepts, `egress, `candidatePlan, `excludedPlan, `flows, `events, `books, `table
      ensures Accounted() && FlowsSound() && books.hand == old(books.hand)
      ensures PlansCurrent() && this.accepts == accepts && egress == next
      ensures accepts == Flows ==> excludedPlan == Planned(anew)
      ensures PathChanged(old(Standing(flows, events)), order, accepts, anew, Standing(flows, events), ready)
    {
      anew := AdoptPath(accepts, next);
      ReplanAll(order, anew);
    }

    /** `on_path_change`, for whatever order the table is visited in. An egress
        that takes flows keeps every flow, re-steers exactly those whose QUIC
        passed and no longer can, and leaves an exact ready list exact; one that
        takes packets loses every flow, with one teardown recorded for each. */
    method OnPathChange(accepts: Accepts, next: PathProperties, order: seq<FlowKey>) returns (ghost anew: FlowPlan)
      requires Valid() && Visits(order, flows)
      modifies pool, `accepts, `egress, `candidatePlan, `excludedPlan, `flows, `events, `books, `table
      ensures Valid() && books.hand == old(books.hand)
      ensures PlansCurrent() && this.accepts == accepts && egress == next
      ensures accepts == Flows ==> excludedPlan == Planned(anew)
      ensures PathChanged(old(Standing(flows, events)), order, accepts, anew, Standing(flows, events), ready)
    {
      anew := ChangePath(accepts, next, order);
    }
  }

  datatype Creation = Created(datapath: Datapath) | Vacuous | NoPath(error: PlanError) | TimeoutTooShort

  /** `Datapath::new`: refused exactly when inspection could never select a flow,
      when a flow outside inspection would have no room for IPv6, or when flows
      would idle for less than two minutes; the first of these is the one told. */
  method Create(wire: Wire, filter: FilterPolicy, dns: DnsPolicy, accepts: Accepts, egress: PathProperties,
                pathMtu: Mtu, limits: Limits, pool: BufferPool, now: nat)
    returns (creation: Creation)
    requires pool.Valid()
    ensures creation.Vacuous? <==> filter == InspectHttp && dns == Forward && accepts == IpPackets
    ensures creation.NoPath? <==>
              !creation.Vacuous? && accepts == IpPackets && pathMtu < egress.overhead + MIN_IPV6_MTU
    ensures creation.TimeoutTooShort? <==>
              !creation.Vacuous? && !creation.NoPath? && limits.idleTimeout < 120 * NANOS
    ensures creation.NoPath? ==> PlanFlow(filter, Excluded, accepts, egress, pathMtu) == Unplannable(creation.error)
    ensures creation.Created? ==>
              && creation.datapath.Valid() && creation.datapath.PlansCurrent()
              && creation.datapath.Configured(wire, filter, dns, accepts, egress, pathMtu, limits)
              && creation.datapath.pool == pool && creation.datapath.books.hand == pool.Loans()
              && creation.datapath.candidatePlan.Planned? && creation.datapath.excludedPlan.Planned?
  {
    if filter == InspectHttp && dns == Forward && accepts == IpPackets {
      return Vacuous;
    }
    FailsExactly(filter, Candidate, accepts, egress, pathMtu);
    FailsExactly(filter, Excluded, accepts, egress, pathMtu);
    var candidate := PlanFlow(filter, Candidate, accepts, egress, pathMtu);
    var excluded := PlanFlow(filter, Excluded, accepts, egress, pathMtu);
    if candidate.Unplannable? {
      return NoPath(candidate.error);
    }
    if excluded.Unplannable? {
      return NoPath(excluded.error);
    }
    if limits.idleTimeout < MIN_IDLE_TIMEOUT {
      return TimeoutTooShort;
    }
    var datapath := new Datapath(wire, filter, dns, accepts, egress, pathMtu, limits, pool, now);
    return Created(datapath);
  }
}
