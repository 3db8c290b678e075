/**
 * Whole runs of the datapath, through everything it can be asked to do: how many
 * slices are out, what becomes of a connection's packets, and whose turn it is.
 */
module Runs {
  import opened Bytes
  import opened Datapath
  import opened Holdings
  import opened Planner
  import opened Pool
  import opened Guards

  /** Slices left in the pool: its capacity less one for every packet and datagram
      queued and every slice in hand. */
  method SlicesLeft(datapath: Datapath) returns (left: nat)
    requires datapath.Valid()
    ensures left == datapath.pool.capacity - |datapath.transmits| - |datapath.queries| - |datapath.terminate|
                    - Queued(datapath.Held(), datapath.flows.Keys) - |datapath.books.hand|
    ensures left == datapath.pool.Spare()
  {
    left := datapath.pool.Available();
    ghost var books := datapath.books;
    LedgerCounts(books.shelves, books.ledger);
    assert |books.ledger| == |books.ledger.Keys|;
    DisjointSum(books.ledger.Keys, books.hand);
  }

  // ------------------------------------------------------------ operations

  /** Octets lent for the call, or a slice the caller holds. */
  datatype Source = Lent(bytes: seq<byte>) | Given(slot: nat)

  /** Everything a datapath can be asked to do, and what its caller can do with
      the slices it holds. A source that names no slice is no call at all. */
  datatype Operation =
    | FromTunnel(source: Source, outcomes: seq<PushOutcome>)
    | FromEgress(source: Source)
    | Reply(client: Endpoint, peer: Endpoint, payload: seq<byte>)
    | Answer(client: Endpoint, resolver: Endpoint, response: seq<byte>)
    | Resolved(addresses: seq<nat>)
    | TakeTransmit
    | TakeQuery
    | TakeCaptured
    | TakeDatagram
    | TakeEvent
    | Timeout(evicted: seq<FlowKey>)
    | PathChange(accepts: Accepts, next: PathProperties)
    | Reserve(bytes: seq<byte>)
    | Fill(slot: nat, bytes: seq<byte>)
    | Return(slot: nat)

  /** What one operation put at the back of the queues and handed out;
      and the order and plan of a path change. */
  datatype Did = Did(
    added: Added,
    out: Option<Outbound>,
    order: seq<FlowKey>,
    anew: FlowPlan)

  ghost function Idle(): Did {
    Did(Nothing(), None, [], FlowPlan(LocalTermination, PassThrough))
  }

  ghost function Popped<T>(queue: seq<T>): seq<T> {
    if queue == [] then [] else queue[1..]
  }

  /** The client packet an operation brings, as it arrived or as its fragments
      completed it: octets lent, or those in the slice given. */
  ghost function Bringing(wire: Wire, op: Operation, held: seq<Pooled>): Arrival {
    if op.FromTunnel? && Taking(held, op.source).Some? then Arriving(wire, Taking(held, op.source).value, op.outcomes)
    else Ended(Done, [])
  }

  /** It is one of the connection under `key`. */
  ghost predicate PacketOf(wire: Wire, op: Operation, held: seq<Pooled>, key: FlowKey) {
    var arrival := Bringing(wire, op, held);
    arrival.Whole? && arrival.packet.transport.Tcp? && KeyOf(arrival.packet).value == key
  }

  /** Nothing became of it but a capture for the local stack, or its recorded loss. */
  ghost predicate Stacked(wire: Wire, op: Operation, held: seq<Pooled>, did: Did, key: FlowKey) {
    PacketOf(wire, op, held, key) ==> ToLocalStack(BytesOf(Bringing(wire, op, held).ingress), did.added)
  }

  /** The transmit is this packet, a hop older and perhaps clamped. */
  ghost predicate Carries(wire: Wire, arrival: Arrival, transmit: Transmit) {
    && arrival.Whole?
    && var spent := wire.spendHop(BytesOf(arrival.ingress)).0;
       transmit.bytes.bytes == spent || exists mtu: Mtu :: transmit.bytes.bytes == wire.clampMss(spent, mtu)
  }

  ghost predicate OnlyBrought(wire: Wire, op: Operation, held: seq<Pooled>, did: Did) {
    forall i :: 0 <= i < |did.added.sent| && did.added.sent[i].to == Egress ==>
      Carries(wire, Bringing(wire, op, held), did.added.sent[i])
  }

  ghost predicate Fed(wire: Wire, op: Operation, held: seq<Pooled>, before: View, after: View, did: Did) {
    && Grew(before, after, did.added)
    && (forall key <- before.shelves.flows :: Stacked(wire, op, held, did, key))
    && OnlyBrought(wire, op, held, did)
  }

  ghost predicate Polled(before: View, after: View, did: Did) {
    && after == before.(shelves := before.shelves.(flows := after.shelves.flows), ready := after.ready)
    && (Exact(before.shelves.flows, before.ready) ==> Exact(after.shelves.flows, after.ready))
    && if did.out.None? then after.shelves.flows == before.shelves.flows && forall key :: !Waiting(before.shelves.flows, key)
       else exists turn ::
              && 0 <= turn < |before.ready|
              && ServedAt(before.shelves.flows, before.ready, turn, after.shelves.flows, after.ready, did.out.value)
  }

  ghost predicate Evicted(evicted: seq<FlowKey>, before: View, after: View) {
    && after == before.(shelves := before.shelves.(flows := Without(before.shelves.flows, evicted, |evicted|)))
    && (Exact(before.shelves.flows, before.ready) ==>
          (Exact(after.shelves.flows, after.ready) <==> NoneWaits(before.shelves.flows, evicted)))
  }

  ghost predicate Rerouted(accepts: Accepts, before: View, after: View, did: Did) {
    && after == before.(shelves := before.shelves.(flows := after.shelves.flows), events := after.events)
    && Visits(did.order, before.shelves.flows)
    && PathChanged(Standing(before.shelves.flows, before.events), did.order, accepts, did.anew,
                   Standing(after.shelves.flows, after.events), before.ready)
  }

  /** Its queue gives up its first entry, if it has one. */
  ghost function Shortened(op: Operation, view: View): View
    requires op.TakeTransmit? || op.TakeQuery? || op.TakeCaptured? || op.TakeEvent?
  {
    match op
    case TakeTransmit => view.(shelves := view.shelves.(transmits := Popped(view.shelves.transmits)))
    case TakeQuery => view.(shelves := view.shelves.(queries := Popped(view.shelves.queries)))
    case TakeCaptured => view.(shelves := view.shelves.(terminate := Popped(view.shelves.terminate)))
    case TakeEvent => view.(events := Popped(view.events))
  }

  /** What each operation does to what the datapath holds. */
  ghost predicate Stepped(wire: Wire, op: Operation, held: seq<Pooled>, before: View, after: View, did: Did) {
    match op
    case FromTunnel(_, _) => Fed(wire, op, held, before, after, did)
    case FromEgress(_) => Fed(wire, op, held, before, after, did)
    case Reply(_, _, _) => Fed(wire, op, held, before, after, did)
    case Answer(_, _, _) => Fed(wire, op, held, before, after, did)
    case Resolved(_) => Fed(wire, op, held, before, after, did)
    case TakeTransmit => after == Shortened(op, before)
    case TakeQuery => after == Shortened(op, before)
    case TakeCaptured => after == Shortened(op, before)
    case TakeEvent => after == Shortened(op, before)
    case TakeDatagram => Polled(before, after, did)
    case Timeout(evicted) => Evicted(evicted, before, after)
    case PathChange(accepts, _) => Rerouted(accepts, before, after, did)
    case Reserve(_) => after == before
    case Fill(_, _) => after == before
    case Return(_) => after == before
  }

  // ------------------------------------------------------------ the caller's slices

  ghost predicate Among(held: seq<Pooled>, id: nat) {
    exists i :: 0 <= i < |held| && held[i].id == id
  }

  /** The caller holds these slices, each once; what else is out is `apart`. */
  ghost predicate Holds(hand: set<nat>, held: seq<Pooled>, apart: set<nat>) {
    && (forall id :: id in hand <==> id in apart || Among(held, id))
    && AllApart(held, apart)
  }

  function Removed<T>(items: seq<T>, slot: nat): seq<T>
    requires slot < |items|
  {
    items[..slot] + items[slot + 1..]
  }

  lemma {:induction false} AmongMore(held: seq<Pooled>, slice: Pooled, id: nat)
    ensures Among(held + [slice], id) <==> Among(held, id) || id == slice.id
  {
    assert (held + [slice])[|held|] == slice;
    if i :| 0 <= i < |held| && held[i].id == id {
      assert (held + [slice])[i] == held[i];
    }
  }

  lemma {:induction false} HoldsMore(hand: set<nat>, held: seq<Pooled>, apart: set<nat>, slice: Pooled)
    requires Holds(hand, held, apart) && slice.id !in hand
    ensures Holds(hand + {slice.id}, held + [slice], apart)
  {
    forall id
      ensures Among(held + [slice], id) <==> Among(held, id) || id == slice.id
    {
      AmongMore(held, slice, id);
    }
    assert forall i :: 0 <= i < |held| ==> Among(held, held[i].id);
  }

  /** Where an item of the rest was before. */
  ghost function Before(i: nat, slot: nat): nat {
    if i < slot then i else i + 1
  }

  lemma {:induction false} RemovedAt<T>(items: seq<T>, slot: nat)
    requires slot < |items|
    ensures forall i :: 0 <= i < |items| - 1 ==> Removed(items, slot)[i] == items[Before(i, slot)]
  {
  }

  ghost predicate AllApart(held: seq<Pooled>, apart: set<nat>) {
    && (forall i :: 0 <= i < |held| ==> held[i].id !in apart)
    && (forall i, j :: 0 <= i < j < |held| ==> held[i].id != held[j].id)
  }

  lemma {:induction false} RestApart(held: seq<Pooled>, slot: nat, apart: set<nat>)
    requires slot < |held| && AllApart(held, apart)
    ensures AllApart(Removed(held, slot), apart)
  {
    RemovedAt(held, slot);
    var rest := Removed(held, slot);
    forall i, j | 0 <= i < j < |rest|
      ensures rest[i].id != rest[j].id
    {
      assert held[Before(i, slot)].id != held[Before(j, slot)].id;
    }
  }

  lemma {:induction false} AmongLess(held: seq<Pooled>, slot: nat, apart: set<nat>, id: nat)
    requires slot < |held| && AllApart(held, apart)
    ensures Among(Removed(held, slot), id) <==> Among(held, id) && id != held[slot].id
  {
    RemovedAt(held, slot);
    var rest := Removed(held, slot);
    if i :| 0 <= i < |rest| && rest[i].id == id {
      assert held[Before(i, slot)].id == id;
    }
    if i :| 0 <= i < |held| && held[i].id == id && i != slot {
      var k := if i < slot then i else i - 1;
      assert Before(k, slot) == i && rest[k].id == id;
    }
  }

  lemma {:induction false} HoldsLess(hand: set<nat>, held: seq<Pooled>, apart: set<nat>, slot: nat)
    requires Holds(hand, held, apart) && slot < |held|
    ensures held[slot].id in hand && Holds(hand - {held[slot].id}, Removed(held, slot), apart)
  {
    assert Among(held, held[slot].id);
    RestApart(held, slot, apart);
    forall id
      ensures Among(Removed(held, slot), id) <==> Among(held, id) && id != held[slot].id
    {
      AmongLess(held, slot, apart, id);
    }
  }

  lemma {:induction false} HoldsRewritten(hand: set<nat>, held: seq<Pooled>, apart: set<nat>, slot: nat, bytes: seq<byte>)
    requires Holds(hand, held, apart) && slot < |held|
    ensures Holds(hand, held[slot := held[slot].(bytes := bytes)], apart)
  {
    var filled := held[slot := held[slot].(bytes := bytes)];
    assert forall i :: 0 <= i < |held| ==> filled[i].id == held[i].id;
    forall id
      ensures Among(filled, id) <==> Among(held, id)
    {
      if i :| 0 <= i < |held| && held[i].id == id {
        assert filled[i].id == id;
      }
    }
  }

  // ------------------------------------------------------------ one step

  ghost predicate ReservedOne(held: seq<Pooled>, kept: seq<Pooled>, bytes: seq<byte>) {
    kept == held || exists id: nat :: kept == held + [Pooled(id, bytes)]
  }

  /** What an operation does to the slices the caller holds. */
  ghost predicate Handed(op: Operation, size: nat, before: View, did: Did, held: seq<Pooled>, kept: seq<Pooled>) {
    var queued := before.shelves;
    match op
    case FromTunnel(source, _) => kept == Left(held, source)
    case FromEgress(source) => kept == Left(held, source)
    case TakeTransmit => kept == held + (if queued.transmits == [] then [] else [queued.transmits[0].bytes])
    case TakeQuery => kept == held + (if queued.queries == [] then [] else [queued.queries[0].payload])
    case TakeCaptured => kept == held + (if queued.terminate == [] then [] else [queued.terminate[0]])
    case TakeDatagram => kept == held + (if did.out.None? then [] else [did.out.value.payload])
    case Reserve(bytes) => ReservedOne(held, kept, bytes)
    case Fill(slot, bytes) =>
      kept == if slot < |held| && |bytes| <= size then held[slot := held[slot].(bytes := bytes)] else held
    case Return(slot) => kept == if slot < |held| then Removed(held, slot) else held
    case _ => kept == held
  }

  /** The packet a source stands for, if it stands for any. */
  function Taking(held: seq<Pooled>, source: Source): Option<Ingress> {
    match source
    case Lent(bytes) => Some(Borrowed(bytes))
    case Given(slot) => if slot < |held| then Some(Owned(held[slot])) else None
  }

  function Left(held: seq<Pooled>, source: Source): seq<Pooled> {
    if source.Given? && source.slot < |held| then Removed(held, source.slot) else held
  }

  lemma {:induction false} TakingLeaves(hand: set<nat>, held: seq<Pooled>, apart: set<nat>, source: Source)
    requires Holds(hand, held, apart) && Taking(held, source).Some?
    ensures SliceOf(Taking(held, source).value) <= hand
    ensures Holds(hand - SliceOf(Taking(held, source).value), Left(held, source), apart)
  {
    if source.Given? {
      HoldsLess(hand, held, apart, source.slot);
    } else {
      BorrowsNothing(hand, source.bytes);
    }
  }

  method StepTunnel(datapath: Datapath, held: seq<Pooled>, op: Operation, now: nat, ghost apart: set<nat>)
    returns (kept: seq<Pooled>, ghost did: Did)
    requires datapath.Valid() && Holds(datapath.books.hand, held, apart) && op.FromTunnel?
    modifies datapath, datapath.pool, datapath.icmp
    ensures datapath.Valid() && Holds(datapath.books.hand, kept, apart)
    ensures Fed(datapath.wire, op, held, old(datapath.Now()), datapath.Now(), did)
    ensures kept == Left(held, op.source)
  {
    did, kept := Idle(), held;
    var ingress := Taking(held, op.source);
    if ingress.Some? {
      TakingLeaves(datapath.books.hand, held, apart, op.source);
      kept := Left(held, op.source);
      ghost var added := FeedTunnel(datapath, ingress.value, op.outcomes, now);
      did := did.(added := added);
    } else {
      NothingGrew(datapath.Now());
    }
  }

  /** An operation that brings no client packet and sends nothing to the egress. */
  lemma {:induction false} FedAside(wire: Wire, op: Operation, held: seq<Pooled>, before: View, after: View, did: Did)
    requires !op.FromTunnel? && Grew(before, after, did.added) && AllTo(did.added.sent, Tunnel)
    ensures Fed(wire, op, held, before, after, did)
  {
  }

  lemma {:induction false} NothingGrew(view: View)
    ensures Grew(view, view, Nothing())
  {
  }

  /** A packet of a live connection, whole or completed, goes to the local stack. */
  method FeedTunnel(datapath: Datapath, ingress: Ingress, outcomes: seq<PushOutcome>, now: nat) returns (ghost added: Added)
    requires datapath.Valid() && SliceOf(ingress) <= datapath.books.hand
    modifies datapath, datapath.pool, datapath.icmp
    ensures datapath.Valid() && datapath.books.hand == old(datapath.books.hand) - SliceOf(ingress)
    ensures Grew(old(datapath.Now()), datapath.Now(), added)
    ensures var arrival := Arriving(datapath.wire, ingress, outcomes);
            LiveTcp(arrival, old(datapath.flows)) ==> ToLocalStack(BytesOf(arrival.ingress), added)
    ensures forall i :: 0 <= i < |added.sent| && added.sent[i].to == Egress ==>
              Carries(datapath.wire, Arriving(datapath.wire, ingress, outcomes), added.sent[i])
  {
    ghost var arrival := Arriving(datapath.wire, ingress, outcomes);
    ghost var supply, flows := datapath.Supplied(datapath.Grants(now)), datapath.flows;
    ghost var choice := datapath.Judge(arrival, Tunnel, now);
    assert LiveTcp(arrival, flows) ==> choice == Act(OpenStream(flows[KeyOf(arrival.packet).value].plan));
    var outcome;
    outcome, added := datapath.OnTun(ingress, now, outcomes);
    TunnelFate(datapath.wire, supply, arrival, choice, datapath.ceiling, datapath.bufferCapacity,
               flows, datapath.flows, outcome, added);
  }

  ghost predicate LiveTcp(arrival: Arrival, flows: map<FlowKey, FlowState>) {
    arrival.Whole? && arrival.packet.transport.Tcp? && KeyOf(arrival.packet).value in flows
  }

  lemma {:induction false} TunnelFate(
      wire: Wire, supply: Supply, arrival: Arrival, choice: Choice, ceiling: nat, capacity: nat,
      before: map<FlowKey, FlowState>, after: map<FlowKey, FlowState>, outcome: Outcome, added: Added)
    requires arrival.Whole? && choice.Act? ==> Fitting(choice.action, arrival.packet)
    requires TakenIn(wire, supply, arrival, choice, Tunnel, ceiling, capacity, before, after, outcome, added)
    requires LiveTcp(arrival, before) ==> choice == Act(OpenStream(before[KeyOf(arrival.packet).value].plan))
    ensures LiveTcp(arrival, before) ==> ToLocalStack(BytesOf(arrival.ingress), added)
    ensures forall i :: 0 <= i < |added.sent| && added.sent[i].to == Egress ==> Carries(wire, arrival, added.sent[i])
  {
    if arrival.Whole? {
      OneFate(wire, supply, choice, arrival.packet, arrival.ingress, ceiling, capacity, before, after, outcome, added);
    }
    if LiveTcp(arrival, before) {
      LiveGoesToStack(wire, supply, before[KeyOf(arrival.packet).value].plan, arrival.packet, arrival.ingress,
                      ceiling, capacity, before, after, outcome, added);
    }
  }

  method StepEgress(datapath: Datapath, held: seq<Pooled>, op: Operation, now: nat, ghost apart: set<nat>)
    returns (kept: seq<Pooled>, ghost did: Did)
    requires datapath.Valid() && Holds(datapath.books.hand, held, apart) && op.FromEgress?
    modifies datapath, datapath.pool, datapath.icmp
    ensures datapath.Valid() && Holds(datapath.books.hand, kept, apart)
    ensures Fed(datapath.wire, op, held, old(datapath.Now()), datapath.Now(), did)
    ensures kept == Left(held, op.source)
  {
    ghost var before := datapath.Now();
    did, kept := Idle(), held;
    var ingress := Taking(held, op.source);
    if ingress.Some? {
      TakingLeaves(datapath.books.hand, held, apart, op.source);
      kept := Left(held, op.source);
      var outcome;
      ghost var added;
      outcome, added := datapath.OnEgress(ingress.value, now);
      did := did.(added := added);
    } else {
      NothingGrew(datapath.Now());
    }
    FedAside(datapath.wire, op, held, before, datapath.Now(), did);
  }

  method StepAnswer(datapath: Datapath, ghost held: seq<Pooled>, op: Operation, now: nat) returns (ghost did: Did)
    requires datapath.Valid() && (op.Reply? || op.Answer? || op.Resolved?)
    modifies datapath, datapath.pool, datapath.inspected
    ensures datapath.Valid() && datapath.books.hand == old(datapath.books.hand)
    ensures Fed(datapath.wire, op, held, old(datapath.Now()), datapath.Now(), did)
  {
    ghost var before := datapath.Now();
    ghost var added := AnswerOne(datapath, op, now);
    did := Idle().(added := added);
    FedAside(datapath.wire, op, held, before, datapath.Now(), did);
  }

  method AnswerOne(datapath: Datapath, op: Operation, now: nat) returns (ghost added: Added)
    requires datapath.Valid() && (op.Reply? || op.Answer? || op.Resolved?)
    modifies datapath, datapath.pool, datapath.inspected
    ensures datapath.Valid() && datapath.books.hand == old(datapath.books.hand)
    ensures Grew(old(datapath.Now()), datapath.Now(), added) && AllTo(added.sent, Tunnel)
  {
    var outcome;
    match op {
      case Reply(client, peer, payload) =>
        var queued;
        outcome, queued, added := datapath.Deliver(client, peer, payload);
      case Answer(client, resolver, response) =>
        outcome, added := datapath.AnswerDns(client, resolver, response);
      case Resolved(addresses) =>
        added := datapath.InspectAddresses(addresses, now);
    }
  }

  method StepTransmit(datapath: Datapath, held: seq<Pooled>, ghost apart: set<nat>) returns (kept: seq<Pooled>)
    requires datapath.Valid() && Holds(datapath.books.hand, held, apart)
    modifies datapath`transmits, datapath`books
    ensures datapath.Valid() && Holds(datapath.books.hand, kept, apart)
    ensures datapath.transmits == Popped(old(datapath.transmits))
    ensures kept == held + (if old(datapath.transmits) == [] then [] else [old(datapath.transmits)[0].bytes])
  {
    ghost var hand := datapath.books.hand;
    var transmit := datapath.PollTransmit();
    kept := held;
    if transmit.Some? {
      HoldsMore(hand, held, apart, transmit.value.bytes);
      kept := held + [transmit.value.bytes];
    }
  }

  method StepQuery(datapath: Datapath, held: seq<Pooled>, ghost apart: set<nat>) returns (kept: seq<Pooled>)
    requires datapath.Valid() && Holds(datapath.books.hand, held, apart)
    modifies datapath`queries, datapath`books
    ensures datapath.Valid() && Holds(datapath.books.hand, kept, apart)
    ensures datapath.queries == Popped(old(datapath.queries))
    ensures kept == held + (if old(datapath.queries) == [] then [] else [old(datapath.queries)[0].payload])
  {
    ghost var hand := datapath.books.hand;
    var query := datapath.PollQuery();
    kept := held;
    if query.Some? {
      HoldsMore(hand, held, apart, query.value.payload);
      kept := held + [query.value.payload];
    }
  }

  method StepCaptured(datapath: Datapath, held: seq<Pooled>, ghost apart: set<nat>) returns (kept: seq<Pooled>)
    requires datapath.Valid() && Holds(datapath.books.hand, held, apart)
    modifies datapath`terminate, datapath`books
    ensures datapath.Valid() && Holds(datapath.books.hand, kept, apart)
    ensures datapath.terminate == Popped(old(datapath.terminate))
    ensures kept == held + (if old(datapath.terminate) == [] then [] else [old(datapath.terminate)[0]])
  {
    ghost var hand := datapath.books.hand;
    var packet := datapath.PollTerminate();
    kept := held;
    if packet.Some? {
      HoldsMore(hand, held, apart, packet.value);
      kept := held + [packet.value];
    }
  }

  method StepServe(datapath: Datapath, held: seq<Pooled>, ghost apart: set<nat>) returns (kept: seq<Pooled>, ghost did: Did)
    requires datapath.Valid() && Holds(datapath.books.hand, held, apart)
    modifies datapath`flows, datapath`ready, datapath`books, datapath`table
    ensures datapath.Valid() && Holds(datapath.books.hand, kept, apart)
    ensures Polled(old(datapath.Now()), datapath.Now(), did)
    ensures kept == held + (if did.out.None? then [] else [did.out.value.payload])
  {
    ghost var hand := datapath.books.hand;
    var out;
    ghost var skipped;
    out, skipped := datapath.PollDatagram();
    kept := held;
    if out.Some? {
      HoldsMore(hand, held, apart, out.value.payload);
      kept := held + [out.value.payload];
    }
    did := Idle().(out := out);
  }

  method StepTimeout(datapath: Datapath, evicted: seq<FlowKey>, now: nat)
    requires datapath.Valid()
    modifies datapath, datapath.pool, datapath.inspected
    ensures datapath.Valid() && datapath.books.hand == old(datapath.books.hand)
    ensures Evicted(evicted, old(datapath.Now()), datapath.Now())
  {
    datapath.OnTimeout(evicted, now);
  }

  /** The order a hash table is visited in: some order, no more is said. */
  method SomeOrder(flows: map<FlowKey, FlowState>) returns (order: seq<FlowKey>)
    ensures Visits(order, flows)
  {
    order := [];
    var left := flows.Keys;
    while left != {}
      invariant left <= flows.Keys
      invariant forall key :: key in order <==> key in flows && key !in left
      invariant forall i, j :: 0 <= i < j < |order| ==> order[i] != order[j]
      decreases left
    {
      var key :| key in left;
      assert key !in order;
      order := order + [key];
      left := left - {key};
    }
    assert forall i :: 0 <= i < |order| ==> order[i] in order;
  }

  method StepPath(datapath: Datapath, accepts: Accepts, next: PathProperties) returns (ghost did: Did)
    requires datapath.Valid()
    modifies datapath, datapath.pool
    ensures datapath.Valid() && datapath.books.hand == old(datapath.books.hand)
    ensures Rerouted(accepts, old(datapath.Now()), datapath.Now(), did)
  {
    var order := SomeOrder(datapath.flows);
    ghost var anew := datapath.OnPathChange(accepts, next, order);
    did := Idle().(order := order, anew := anew);
  }

  method StepTable(datapath: Datapath, ghost held: seq<Pooled>, op: Operation, now: nat) returns (ghost did: Did)
    requires datapath.Valid() && (op.Timeout? || op.PathChange?)
    modifies datapath, datapath.pool, datapath.inspected
    ensures datapath.Valid() && datapath.books.hand == old(datapath.books.hand)
    ensures Stepped(datapath.wire, op, held, old(datapath.Now()), datapath.Now(), did)
  {
    if op.Timeout? {
      StepTimeout(datapath, op.evicted, now);
      did := Idle();
    } else {
      did := StepPath(datapath, op.accepts, op.next);
    }
  }

  method StepHeld(datapath: Datapath, held: seq<Pooled>, op: Operation, ghost apart: set<nat>) returns (kept: seq<Pooled>)
    requires datapath.Valid() && Holds(datapath.books.hand, held, apart)
    requires op.Reserve? || op.Fill? || op.Return?
    modifies datapath.pool, datapath`books
    ensures datapath.Valid() && Holds(datapath.books.hand, kept, apart)
    ensures Handed(op, datapath.pool.sliceSize, datapath.Now(), Idle(), held, kept)
  {
    kept := held;
    ghost var hand := datapath.books.hand;
    match op {
      case Reserve(bytes) =>
        var slice := datapath.Acquire(bytes);
        if slice.Some? {
          HoldsMore(hand, held, apart, slice.value);
          kept := held + [slice.value];
          assert kept == held + [Pooled(slice.value.id, bytes)];
        }
      case Fill(slot, bytes) =>
        if slot < |held| && |bytes| <= datapath.pool.sliceSize {
          HoldsRewritten(hand, held, apart, slot, bytes);
          kept := held[slot := held[slot].(bytes := bytes)];
        }
      case Return(slot) =>
        if slot < |held| {
          HoldsLess(hand, held, apart, slot);
          datapath.Discard(held[slot]);
          kept := Removed(held, slot);
        }
    }
  }

  ghost predicate TakesIn(op: Operation) {
    op.FromTunnel? || op.FromEgress? || op.Reply? || op.Answer? || op.Resolved?
  }

  method StepIn(datapath: Datapath, held: seq<Pooled>, op: Operation, now: nat, ghost apart: set<nat>)
    returns (kept: seq<Pooled>, ghost did: Did)
    requires datapath.Valid() && Holds(datapath.books.hand, held, apart) && TakesIn(op)
    modifies datapath, datapath.pool, datapath.icmp, datapath.inspected
    ensures datapath.Valid() && Holds(datapath.books.hand, kept, apart)
    ensures Fed(datapath.wire, op, held, old(datapath.Now()), datapath.Now(), did)
    ensures Handed(op, datapath.pool.sliceSize, old(datapath.Now()), did, held, kept)
  {
    if op.FromTunnel? {
      kept, did := StepTunnel(datapath, held, op, now, apart);
    } else if op.FromEgress? {
      kept, did := StepEgress(datapath, held, op, now, apart);
    } else {
      did := StepAnswer(datapath, held, op, now);
      kept := held;
    }
  }

  method StepOut(datapath: Datapath, held: seq<Pooled>, op: Operation, ghost apart: set<nat>)
    returns (kept: seq<Pooled>, ghost did: Did)
    requires datapath.Valid() && Holds(datapath.books.hand, held, apart)
    requires op.TakeTransmit? || op.TakeQuery? || op.TakeCaptured? || op.TakeEvent? || op.TakeDatagram?
    modifies datapath
    ensures datapath.Valid() && Holds(datapath.books.hand, kept, apart)
    ensures Stepped(datapath.wire, op, held, old(datapath.Now()), datapath.Now(), did)
    ensures Handed(op, datapath.pool.sliceSize, old(datapath.Now()), did, held, kept)
  {
    if op.TakeDatagram? {
      kept, did := StepServe(datapath, held, apart);
    } else {
      kept := StepQueue(datapath, held, op, apart);
      did := Idle();
    }
  }

  method StepQueue(datapath: Datapath, held: seq<Pooled>, op: Operation, ghost apart: set<nat>) returns (kept: seq<Pooled>)
    requires datapath.Valid() && Holds(datapath.books.hand, held, apart)
    requires op.TakeTransmit? || op.TakeQuery? || op.TakeCaptured? || op.TakeEvent?
    modifies datapath`transmits, datapath`queries, datapath`terminate, datapath`events, datapath`books
    ensures datapath.Valid() && Holds(datapath.books.hand, kept, apart)
    ensures datapath.Now() == Shortened(op, old(datapath.Now()))
    ensures Handed(op, datapath.pool.sliceSize, old(datapath.Now()), Idle(), held, kept)
  {
    kept := held;
    match op {
      case TakeTransmit => kept := StepTransmit(datapath, held, apart);
      case TakeQuery => kept := StepQuery(datapath, held, apart);
      case TakeCaptured => kept := StepCaptured(datapath, held, apart);
      case TakeEvent => var event := datapath.PollEvent();
    }
  }

  /** Any operation at all keeps the datapath valid, does what `Stepped` says, and
      leaves no slice unaccounted for: what is out is queued, with the caller, or
      apart. */
  method Step(datapath: Datapath, held: seq<Pooled>, op: Operation, now: nat, ghost apart: set<nat>)
    returns (kept: seq<Pooled>, ghost did: Did)
    requires datapath.Valid() && Holds(datapath.books.hand, held, apart)
    modifies datapath, datapath.pool, datapath.icmp, datapath.inspected
    ensures datapath.Valid() && Holds(datapath.books.hand, kept, apart)
    ensures Stepped(datapath.wire, op, held, old(datapath.Now()), datapath.Now(), did)
    ensures Handed(op, datapath.pool.sliceSize, old(datapath.Now()), did, held, kept)
  {
    if op.FromTunnel? || op.FromEgress? || op.Reply? || op.Answer? || op.Resolved? {
      kept, did := StepIn(datapath, held, op, now, apart);
    } else if op.Timeout? || op.PathChange? {
      did := StepTable(datapath, held, op, now);
      kept := held;
    } else if op.Reserve? || op.Fill? || op.Return? {
      kept := StepHeld(datapath, held, op, apart);
      did := Idle();
    } else {
      kept, did := StepOut(datapath, held, op, apart);
    }
  }

  // ------------------------------------------------------------ whole runs

  /** What a run left behind: what the datapath and its caller held before each
      operation and after the last, and what each did. */
  datatype Trace = Trace(
    wire: Wire, size: nat, ops: seq<Operation>, views: seq<View>, helds: seq<seq<Pooled>>, dids: seq<Did>)

  ghost predicate Even(trace: Trace) {
    |trace.dids| == |trace.ops| && |trace.views| == |trace.helds| == |trace.ops| + 1
  }

  ghost predicate StepAt(trace: Trace, i: nat)
    requires Even(trace) && i < |trace.ops|
  {
    var op, did := trace.ops[i], trace.dids[i];
    && Stepped(trace.wire, op, trace.helds[i], trace.views[i], trace.views[i + 1], did)
    && Handed(op, trace.size, trace.views[i], did, trace.helds[i], trace.helds[i + 1])
  }

  ghost predicate IsTrace(trace: Trace) {
    Even(trace) && forall i :: 0 <= i < |trace.ops| ==> StepAt(trace, i)
  }

  /** What the datapath and its caller hold. */
  datatype Holding = Holding(view: View, held: seq<Pooled>)

  /** The trace of these operations, from `first` to `last`. */
  ghost predicate Records(trace: Trace, datapath: Datapath, ops: seq<Operation>, first: Holding, last: Holding) {
    && IsTrace(trace) && trace.wire == datapath.wire && trace.size == datapath.pool.sliceSize && trace.ops == ops
    && first == Holding(trace.views[0], trace.helds[0])
    && last == Holding(trace.views[|ops|], trace.helds[|ops|])
  }

  /** Every run, of any operations at any times, leaves a trace; and at its end
      the slices out are those queued, those the caller holds and those apart. */
  method Run(datapath: Datapath, held: seq<Pooled>, ops: seq<Operation>, times: seq<nat>, ghost apart: set<nat>)
    returns (kept: seq<Pooled>, ghost trace: Trace)
    requires datapath.Valid() && Holds(datapath.books.hand, held, apart) && |times| == |ops|
    modifies datapath, datapath.pool, datapath.icmp, datapath.inspected
    ensures datapath.Valid() && Holds(datapath.books.hand, kept, apart)
    ensures Records(trace, datapath, ops, Holding(old(datapath.Now()), held), Holding(datapath.Now(), kept))
  {
    ghost var first := Holding(datapath.Now(), held);
    kept := held;
    trace := NoSteps(datapath, first);
    for i := 0 to |ops|
      invariant datapath.Valid() && Holds(datapath.books.hand, kept, apart)
      invariant Records(trace, datapath, ops[..i], first, Holding(datapath.Now(), kept))
    {
      kept, trace := RunOn(datapath, kept, ops[i], times[i], apart, ops[..i], first, trace);
      OneMoreOperation(ops, i);
    }
    OneMoreOperation(ops, |ops|);
  }

  lemma {:induction false} OneMoreOperation(ops: seq<Operation>, i: nat)
    requires i <= |ops|
    ensures i < |ops| ==> ops[..i] + [ops[i]] == ops[..i + 1]
    ensures ops[..|ops|] == ops
  {
  }

  ghost function NoSteps(datapath: Datapath, holding: Holding): (trace: Trace)
    ensures Records(trace, datapath, [], holding, holding)
  {
    Trace(datapath.wire, datapath.pool.sliceSize, [], [holding.view], [holding.held], [])
  }

  method RunOn(datapath: Datapath, held: seq<Pooled>, op: Operation, now: nat, ghost apart: set<nat>,
               ghost ops: seq<Operation>, ghost first: Holding, ghost trace: Trace)
    returns (kept: seq<Pooled>, ghost longer: Trace)
    requires datapath.Valid() && Holds(datapath.books.hand, held, apart)
    requires Records(trace, datapath, ops, first, Holding(datapath.Now(), held))
    modifies datapath, datapath.pool, datapath.icmp, datapath.inspected
    ensures datapath.Valid() && Holds(datapath.books.hand, kept, apart)
    ensures Records(longer, datapath, ops + [op], first, Holding(datapath.Now(), kept))
  {
    ghost var did;
    kept, did := Step(datapath, held, op, now, apart);
    longer := Longer(trace, op, did, Holding(datapath.Now(), kept));
  }

  ghost function Longer(trace: Trace, op: Operation, did: Did, after: Holding): (longer: Trace)
    requires IsTrace(trace)
    requires Stepped(trace.wire, op, trace.helds[|trace.ops|], trace.views[|trace.ops|], after.view, did)
    requires Handed(op, trace.size, trace.views[|trace.ops|], did, trace.helds[|trace.ops|], after.held)
    ensures IsTrace(longer) && longer.wire == trace.wire && longer.size == trace.size && longer.ops == trace.ops + [op]
    ensures longer.views[0] == trace.views[0] && longer.helds[0] == trace.helds[0]
    ensures longer.views[|longer.ops|] == after.view && longer.helds[|longer.ops|] == after.held
  {
    var longer := trace.(ops := trace.ops + [op], views := trace.views + [after.view],
                         helds := trace.helds + [after.held], dids := trace.dids + [did]);
    StillSteps(trace, longer);
    longer
  }

  lemma {:induction false} StillSteps(trace: Trace, longer: Trace)
    requires IsTrace(trace) && Even(longer) && longer.wire == trace.wire && longer.size == trace.size
    requires |longer.ops| == |trace.ops| + 1 && StepAt(longer, |trace.ops|)
    requires longer.ops[..|trace.ops|] == trace.ops && longer.dids[..|trace.ops|] == trace.dids
    requires longer.views[..|trace.views|] == trace.views && longer.helds[..|trace.views|] == trace.helds
    ensures IsTrace(longer)
  {
    forall i | 0 <= i < |longer.ops|
      ensures StepAt(longer, i)
    {
      if i < |trace.ops| {
        assert StepAt(trace, i);
        assert longer.ops[..|trace.ops|][i] == longer.ops[i] && longer.dids[..|trace.ops|][i] == longer.dids[i];
        assert longer.views[..|trace.views|][i] == longer.views[i] && longer.helds[..|trace.views|][i] == longer.helds[i];
        assert longer.views[..|trace.views|][i + 1] == longer.views[i + 1];
        assert longer.helds[..|trace.views|][i + 1] == longer.helds[i + 1];
      }
    }
  }

  // ------------------------------------------------------------ what reaches the egress

  ghost predicate BroughtAt(trace: Trace, i: nat, transmit: Transmit)
    requires IsTrace(trace)
  {
    i < |trace.ops| && Carries(trace.wire, Bringing(trace.wire, trace.ops[i], trace.helds[i]), transmit)
  }

  /** In every state of every run, a transmit waiting for the egress was there at
      the start, or carries a packet the client brought, whole or in fragments, in
      a step before: nothing else is ever queued for it. */
  lemma {:induction false} NothingForged(trace: Trace, n: nat, transmit: Transmit)
    requires IsTrace(trace) && n <= |trace.ops|
    requires transmit in trace.views[n].shelves.transmits && transmit.to == Egress
    ensures transmit in trace.views[0].shelves.transmits || exists i: nat :: i < n && BroughtAt(trace, i, transmit)
  {
    if n > 0 {
      assert StepAt(trace, n - 1);
      var before := trace.views[n - 1].shelves.transmits;
      if transmit in before {
        NothingForged(trace, n - 1, transmit);
      } else {
        var added := trace.dids[n - 1].added.sent;
        assert TakesIn(trace.ops[n - 1]);
        assert transmit in before + added;
        assert BroughtAt(trace, n - 1, transmit);
      }
    }
  }

  // ------------------------------------------------------------ a connection

  /** What ends a flow: a timeout that evicts it, or a path that takes packets. */
  ghost predicate Ends(op: Operation, key: FlowKey) {
    (op.Timeout? && key in op.evicted) || (op.PathChange? && op.accepts == IpPackets)
  }

  /** A flow in the table is still there after a step if and only if the step does
      not end it; it keeps its plan unless the path changes; and until it is ended
      each client packet of a connection goes to the local stack or is recorded as
      dropped: none is transmitted, whatever else happens meanwhile. */
  lemma {:induction false} StepKeepsFlow(trace: Trace, i: nat, key: FlowKey)
    requires IsTrace(trace) && i < |trace.ops| && key in trace.views[i].shelves.flows
    ensures key in trace.views[i + 1].shelves.flows <==> !Ends(trace.ops[i], key)
    ensures key in trace.views[i + 1].shelves.flows && !trace.ops[i].PathChange? ==>
              trace.views[i + 1].shelves.flows[key].plan == trace.views[i].shelves.flows[key].plan
    ensures Stacked(trace.wire, trace.ops[i], trace.helds[i], trace.dids[i], key)
  {
    assert StepAt(trace, i);
    var op, before, after := trace.ops[i], trace.views[i].shelves.flows, trace.views[i + 1].shelves.flows;
    if op.Timeout? {
      WithoutIs(before, op.evicted, |op.evicted|, key);
      assert op.evicted[..|op.evicted|] == op.evicted;
    }
  }

  /** Hence through any run that does not end it. */
  lemma {:induction false} FollowConnection(trace: Trace, i: nat, j: nat, key: FlowKey)
    requires IsTrace(trace) && i <= j <= |trace.ops| && key in trace.views[i].shelves.flows
    requires forall k :: i <= k < j ==> !Ends(trace.ops[k], key)
    ensures key in trace.views[j].shelves.flows
    ensures forall k :: i <= k < j ==> Stacked(trace.wire, trace.ops[k], trace.helds[k], trace.dids[k], key)
    ensures (forall k :: i <= k < j ==> !trace.ops[k].PathChange?) ==>
              trace.views[j].shelves.flows[key].plan == trace.views[i].shelves.flows[key].plan
    decreases j
  {
    if i < j {
      FollowConnection(trace, i, j - 1, key);
      StepKeepsFlow(trace, j - 1, key);
    }
  }

  // ------------------------------------------------------------ fairness

  /** What the polls for datagrams among the first `n` operations brought. */
  ghost function Outs(trace: Trace, n: nat): seq<Option<Outbound>>
    requires Even(trace) && n <= |trace.ops|
  {
    if n == 0 then []
    else Outs(trace, n - 1) + (if trace.ops[n - 1].TakeDatagram? then [trace.dids[n - 1].out] else [])
  }

  ghost predicate SomeWaits(flows: map<FlowKey, FlowState>) {
    exists key :: Waiting(flows, key)
  }

  /** The operation removes a flow that has something queued. */
  ghost predicate RemovesWaiting(op: Operation, view: View) {
    || (op.Timeout? && !NoneWaits(view.shelves.flows, op.evicted))
    || (op.PathChange? && op.accepts == IpPackets && SomeWaits(view.shelves.flows))
  }

  /** An exact ready list stays exact through a step if and only if the step
      removes no waiting flow. */
  lemma {:induction false} StaysExact(trace: Trace, i: nat)
    requires IsTrace(trace) && i < |trace.ops| && Exact(trace.views[i].shelves.flows, trace.views[i].ready)
    ensures Exact(trace.views[i + 1].shelves.flows, trace.views[i + 1].ready)
            <==> !RemovesWaiting(trace.ops[i], trace.views[i])
  {
    assert StepAt(trace, i);
    var flows, ready := trace.views[i].shelves.flows, trace.views[i].ready;
    if trace.ops[i].PathChange? && trace.ops[i].accepts == IpPackets {
      ListedMeansWaiting(flows, ready);
      if key :| Waiting(flows, key) {
        GoneButListed(flows, ready, trace.views[i + 1].shelves.flows, key);
      }
    }
  }

  /** The flow's queue still begins as it did then. */
  ghost predicate QueueKept(since: map<FlowKey, FlowState>, flows: map<FlowKey, FlowState>, key: FlowKey) {
    && Waiting(since, key)
    && Waiting(flows, key)
    && since[key].buffer <= flows[key].buffer
  }

  ghost predicate ServedFirst(since: map<FlowKey, FlowState>, key: FlowKey, out: Option<Outbound>) {
    && Waiting(since, key)
    && out == Some(Outbound(key.client, since[key].buffer[0].target, since[key].buffer[0].payload))
  }

  /** These flows lead the exact list, with their queues as they were. */
  ghost predicate Lead(since: map<FlowKey, FlowState>, view: View, turns: seq<FlowKey>) {
    && Exact(view.shelves.flows, view.ready)
    && turns <= view.ready
    && (forall i :: 0 <= i < |turns| ==> QueueKept(since, view.shelves.flows, turns[i]))
  }

  lemma {:induction false} ListedMeansWaiting(flows: map<FlowKey, FlowState>, ready: seq<FlowKey>)
    requires Exact(flows, ready)
    ensures ready != [] ==> SomeWaits(flows)
  {
    if ready != [] {
      assert Waiting(flows, ready[0]);
    }
  }

  /** Flows keep their turn through a step that takes nothing out and removes no
      waiting flow. */
  lemma {:induction false} LeadOn(
      since: map<FlowKey, FlowState>, wire: Wire, op: Operation, held: seq<Pooled>, before: View, after: View, did: Did,
      turns: seq<FlowKey>)
    requires Stepped(wire, op, held, before, after, did) && !op.TakeDatagram? && !RemovesWaiting(op, before)
    requires Lead(since, before, turns)
    ensures Lead(since, after, turns)
  {
    var flows, later := before.shelves.flows, after.shelves.flows;
    ListedMeansWaiting(flows, before.ready);
    forall i | 0 <= i < |turns|
      ensures QueueKept(since, later, turns[i])
    {
      assert QueueKept(since, flows, turns[i]);
      if op.Timeout? {
        WithoutIs(flows, op.evicted, |op.evicted|, turns[i]);
        assert op.evicted[..|op.evicted|] == op.evicted;
      }
    }
  }

  /** A poll serves the flow whose turn it is, and the others keep theirs. */
  lemma {:induction false} LeadServed(
      since: map<FlowKey, FlowState>, before: View, after: View, did: Did, turns: seq<FlowKey>)
    requires Polled(before, after, did) && Lead(since, before, turns) && turns != []
    ensures ServedFirst(since, turns[0], did.out) && Lead(since, after, turns[1..])
  {
    var flows, ready := before.shelves.flows, before.ready;
    assert QueueKept(since, flows, turns[0]) && turns[0] == ready[0];
    assert Waiting(flows, ready[0]);
    forall i | 0 <= i < |turns| - 1
      ensures QueueKept(since, after.shelves.flows, turns[1..][i])
    {
      assert QueueKept(since, flows, turns[i + 1]) && ready[i + 1] == turns[i + 1] && ready[0] == turns[0];
    }
  }

  /** How far a round has come: the flows served so far were served in turn, and
      the others still lead the list. */
  ghost predicate InTurn(
      since: map<FlowKey, FlowState>, turns: seq<FlowKey>, outs: seq<Option<Outbound>>, view: View)
  {
    && (forall q :: 0 <= q < |outs| && q < |turns| ==> ServedFirst(since, turns[q], outs[q]))
    && (|outs| <= |turns| ==> Lead(since, view, turns[|outs|..]))
  }

  lemma {:induction false} InTurnServed(
      since: map<FlowKey, FlowState>, turns: seq<FlowKey>, outs: seq<Option<Outbound>>, before: View, after: View, did: Did)
    requires InTurn(since, turns, outs, before) && Polled(before, after, did)
    ensures InTurn(since, turns, outs + [did.out], after)
  {
    if |outs| < |turns| {
      LeadServed(since, before, after, did, turns[|outs|..]);
      assert turns[|outs|..][1..] == turns[|outs| + 1..];
    }
  }

  lemma {:induction false} InTurnOn(
      since: map<FlowKey, FlowState>, turns: seq<FlowKey>, outs: seq<Option<Outbound>>,
      wire: Wire, op: Operation, held: seq<Pooled>, before: View, after: View, did: Did)
    requires InTurn(since, turns, outs, before)
    requires Stepped(wire, op, held, before, after, did) && !op.TakeDatagram? && !RemovesWaiting(op, before)
    ensures InTurn(since, turns, outs, after)
  {
    if |outs| <= |turns| {
      LeadOn(since, wire, op, held, before, after, did, turns[|outs|..]);
    }
  }

  /** From an exact ready list, through any run that removes no waiting flow: the
      polls for datagrams serve the flows that were waiting, each its first
      datagram, in list order, one poll each, whatever happens in between; and
      those not yet served still lead the list. */
  lemma {:induction false} ServeRound(trace: Trace, n: nat)
    requires IsTrace(trace) && n <= |trace.ops| && Exact(trace.views[0].shelves.flows, trace.views[0].ready)
    requires forall k :: 0 <= k < n ==> !RemovesWaiting(trace.ops[k], trace.views[k])
    ensures InTurn(trace.views[0].shelves.flows, trace.views[0].ready, Outs(trace, n), trace.views[n])
  {
    var since, turns := trace.views[0].shelves.flows, trace.views[0].ready;
    if n == 0 {
      assert turns[0..] == turns;
      assert forall i :: 0 <= i < |turns| ==> Waiting(since, turns[i]);
    } else {
      ServeRound(trace, n - 1);
      assert StepAt(trace, n - 1);
      var op, did, before, after := trace.ops[n - 1], trace.dids[n - 1], trace.views[n - 1], trace.views[n];
      if op.TakeDatagram? {
        InTurnServed(since, turns, Outs(trace, n - 1), before, after, did);
      } else {
        assert Outs(trace, n) == Outs(trace, n - 1);
        InTurnOn(since, turns, Outs(trace, n - 1), trace.wire, op, trace.helds[n - 1], before, after, did);
      }
    }
  }

  // ------------------------------------------------------------ a flow listed twice

  /** A client's first datagram opens its flow, queues and is listed. */
  lemma {:induction false} FirstIsListed(
      wire: Wire, supply: Supply, bytes: seq<byte>, packet: Packet, plan: FlowPlan, ceiling: nat, capacity: nat,
      before: View, after: View, outcome: Outcome, added: Added)
    requires packet.transport.Udp? && wire.parse(bytes) == Some(packet)
    requires HasCopy(supply, wire.payload(packet, bytes)) && capacity > 0
    requires KeyOf(packet).value !in before.shelves.flows && |before.shelves.flows| < ceiling
    requires Fitting(OpenDatagram(plan), packet) && Grew(before, after, added) == true
    requires TakenIn(wire, supply, Arriving(wire, Borrowed(bytes), []), Act(OpenDatagram(plan)), Tunnel, ceiling, capacity,
                     before.shelves.flows, after.shelves.flows, outcome, added) == true
    ensures Listed(before, after, KeyOf(packet).value)
  {
    var key, flows := KeyOf(packet).value, before.shelves.flows;
    var payload, begun := wire.payload(packet, bytes), WithOpen(flows, key, plan);
    assert DatagramHandled(supply, payload, packet, key, plan, Tunnel, ceiling, capacity, flows, after.shelves.flows, outcome, added);
    var rest :| Announces(flows, key, DatagramOpened(key.client), added.noted, rest)
      && DatagramKeptFrom(Tunnel, supply, payload, packet, key, begun, after.shelves.flows, added.listed, rest, capacity);
    var slice: Pooled :| slice.bytes == payload.value && Offered(
      Datagram(Endpoint(packet.destination, packet.transport.destination), slice),
      key, begun, after.shelves.flows, added.listed, rest, capacity);
    assert begun - {key} == flows;
  }

  /** All that happened is that a flow was opened, queued and listed. */
  ghost predicate Listed(before: View, after: View, key: FlowKey) {
    && after.shelves == before.shelves.(flows := after.shelves.flows)
    && after.ready == before.ready + [key]
    && Waiting(after.shelves.flows, key) && after.shelves.flows - {key} == before.shelves.flows
  }

  /** The packet is the first of a flow there is room for, and so is its payload. */
  ghost predicate OpensFlow(datapath: Datapath, bytes: seq<byte>, packet: Packet, plan: FlowPlan, now: nat)
    requires datapath.Valid()
    reads datapath, datapath.pool, datapath.inspected
  {
    && packet.transport.Udp? && datapath.wire.parse(bytes) == Some(packet)
    && datapath.Decide(packet, Tunnel, now) == Act(OpenDatagram(plan))
    && KeyOf(packet).value !in datapath.flows && |datapath.flows| < datapath.ceiling && datapath.bufferCapacity > 0
    && HasCopy(datapath.Supplied(true), datapath.wire.payload(packet, bytes))
  }

  /** Octets lent from the tunnel, when it is known what is decided about them. */
  method LendTunnel(datapath: Datapath, bytes: seq<byte>, now: nat, ghost choice: Choice)
    returns (outcome: Outcome, ghost added: Added)
    requires datapath.Valid() && datapath.Judge(Arriving(datapath.wire, Borrowed(bytes), []), Tunnel, now) == choice
    modifies datapath.pool, datapath.icmp, datapath`transmits, datapath`queries, datapath`terminate,
             datapath`flows, datapath`ready, datapath`events, datapath`books, datapath`table
    ensures datapath.Valid() && datapath.books.hand == old(datapath.books.hand)
    ensures Grew(old(datapath.Now()), datapath.Now(), added) == true
    ensures TakenIn(datapath.wire, old(datapath.Supplied(datapath.Grants(now))), Arriving(datapath.wire, Borrowed(bytes), []),
                    choice, Tunnel, datapath.ceiling, datapath.bufferCapacity,
                    old(datapath.flows), datapath.flows, outcome, added) == true
  {
    BorrowsNothing(datapath.books.hand, bytes);
    outcome, added := datapath.OnTun(Borrowed(bytes), now, []);
  }

  method SendFirst(datapath: Datapath, bytes: seq<byte>, packet: Packet, plan: FlowPlan, now: nat)
    requires datapath.Valid() && OpensFlow(datapath, bytes, packet, plan, now)
    modifies datapath.pool, datapath.icmp, datapath`transmits, datapath`queries, datapath`terminate,
             datapath`flows, datapath`ready, datapath`events, datapath`books, datapath`table
    ensures datapath.Valid() && datapath.books.hand == old(datapath.books.hand)
    ensures Listed(old(datapath.Now()), datapath.Now(), KeyOf(packet).value) == true
  {
    ghost var before := datapath.Now();
    ghost var supply := datapath.Supplied(datapath.Grants(now));
    assert datapath.Judge(Arriving(datapath.wire, Borrowed(bytes), []), Tunnel, now) == Act(OpenDatagram(plan));
    var outcome;
    ghost var added;
    outcome, added := LendTunnel(datapath, bytes, now, Act(OpenDatagram(plan)));
    FirstIsListed(datapath.wire, supply, bytes, packet, plan, datapath.ceiling, datapath.bufferCapacity,
                  before, datapath.Now(), outcome, added);
  }

  method ExpireOne(datapath: Datapath, key: FlowKey, now: nat)
    requires datapath.Valid()
    modifies datapath.pool, datapath.inspected, datapath`flows, datapath`books, datapath`table
    ensures datapath.Valid() && datapath.books.hand == old(datapath.books.hand)
    ensures datapath.flows == old(datapath.flows) - {key}
    ensures datapath.inspected.until == Unexpired(old(datapath.inspected.until), now)
  {
    ghost var flows := datapath.flows;
    datapath.OnTimeout([key], now);
    assert datapath.flows == Without(flows, [key], 0) - {key};
  }

  /** A flow comes and goes, and all that is left of it is its listing. */
  method SendAndExpire(datapath: Datapath, bytes: seq<byte>, packet: Packet, plan: FlowPlan, now: nat)
    requires datapath.Valid() && OpensFlow(datapath, bytes, packet, plan, now)
    modifies datapath.pool, datapath.icmp, datapath.inspected, datapath`transmits, datapath`queries, datapath`terminate,
             datapath`flows, datapath`ready, datapath`events, datapath`books, datapath`table
    ensures datapath.Valid() && datapath.books.hand == old(datapath.books.hand) && datapath.Held() == old(datapath.Held())
    ensures datapath.inspected.until == Unexpired(old(datapath.inspected.until), now)
    ensures datapath.ready == old(datapath.ready) + [KeyOf(packet).value]
  {
    SendFirst(datapath, bytes, packet, plan, now);
    ExpireOne(datapath, KeyOf(packet).value, now);
  }

  /** Slices out are told by the queues, so with the same queues as many are left. */
  method SpareAsBefore(datapath: Datapath, bytes: seq<byte>, packet: Packet, plan: FlowPlan, now: nat)
    requires datapath.Valid() && OpensFlow(datapath, bytes, packet, plan, now)
    modifies datapath.pool, datapath.icmp, datapath.inspected, datapath`transmits, datapath`queries, datapath`terminate,
             datapath`flows, datapath`ready, datapath`events, datapath`books, datapath`table
    ensures datapath.Valid() && datapath.Held() == old(datapath.Held()) && datapath.pool.Spare() == old(datapath.pool.Spare())
    ensures datapath.inspected.until == Unexpired(old(datapath.inspected.until), now)
    ensures datapath.ready == old(datapath.ready) + [KeyOf(packet).value]
  {
    var left := SlicesLeft(datapath);
    SendAndExpire(datapath, bytes, packet, plan, now);
    var again := SlicesLeft(datapath);
  }

  /** What opened a flow opens it again once everything is as it was. */
  method ComeAndGo(datapath: Datapath, bytes: seq<byte>, packet: Packet, plan: FlowPlan, now: nat)
    requires datapath.Valid() && OpensFlow(datapath, bytes, packet, plan, now)
    modifies datapath.pool, datapath.icmp, datapath.inspected, datapath`transmits, datapath`queries, datapath`terminate,
             datapath`flows, datapath`ready, datapath`events, datapath`books, datapath`table
    ensures datapath.Valid() && OpensFlow(datapath, bytes, packet, plan, now) == true
    ensures datapath.ready == old(datapath.ready) + [KeyOf(packet).value]
  {
    ghost var live := LiveIn(datapath.inspected.until, packet.destination, now);
    SpareAsBefore(datapath, bytes, packet, plan, now);
    assert LiveIn(datapath.inspected.until, packet.destination, now) == live;
    assert datapath.Decide(packet, Tunnel, now) == Act(OpenDatagram(plan));
  }

  /** The witness, by the datapath's own operations: a flow that expires while it
      waits leaves its listing behind, and one more datagram lists it again. */
  method ListsTwice(datapath: Datapath, bytes: seq<byte>, packet: Packet, plan: FlowPlan, now: nat)
    requires datapath.Valid() && OpensFlow(datapath, bytes, packet, plan, now)
    modifies datapath, datapath.pool, datapath.icmp, datapath.inspected
    ensures datapath.Valid() && !Exact(datapath.flows, datapath.ready)
    ensures datapath.ready == old(datapath.ready) + [KeyOf(packet).value, KeyOf(packet).value]
  {
    ComeAndGo(datapath, bytes, packet, plan, now);
    SendFirst(datapath, bytes, packet, plan, now);
    assert datapath.ready[|old(datapath.ready)|] == datapath.ready[|old(datapath.ready)| + 1];
  }
}
