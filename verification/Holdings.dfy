/**
 * What the datapath holds, as a value: its queues, flow table, ready list and
 * events, which queue each pool slice is in, and what it means for the ready
 * list to be right.
 */
module Holdings {
  import opened Bytes
  import opened Planner
  import opened Pool

  datatype Side = Tunnel | Egress

  function Across(side: Side): Side {
    match side
    case Tunnel => Egress
    case Egress => Tunnel
  }

  datatype Endpoint = Endpoint(address: nat, port: nat)

  /** What flows are filed under: both ends for TCP, the client alone for UDP. */
  datatype FlowKey = Connection(client: Endpoint, server: Endpoint) | Mapping(client: Endpoint)

  datatype Packet = Packet(source: nat, destination: nat, transport: Transport)

  function KeyOf(packet: Packet): Option<FlowKey> {
    match packet.transport
    case Tcp(source, destination) =>
      Some(Connection(Endpoint(packet.source, source), Endpoint(packet.destination, destination)))
    case Udp(source, _) => Some(Mapping(Endpoint(packet.source, source)))
    case _ => None
  }

  datatype Transmit = Transmit(to: Side, bytes: Pooled)

  datatype DnsQuery = DnsQuery(client: Endpoint, resolver: Endpoint, payload: Pooled)

  datatype Datagram = Datagram(target: Endpoint, payload: Pooled)

  datatype Outbound = Outbound(client: Endpoint, target: Endpoint, payload: Pooled)

  datatype FlowState = FlowState(plan: FlowPlan, buffer: seq<Datagram>)

  datatype FlowEvent =
    | StreamOpened(client: Endpoint)
    | DatagramOpened(client: Endpoint)
    | DatagramDropped(client: Endpoint)
    | ReassemblyDiscarded
    | Resteered(reason: SteeringReason)
    | FlowTornDown(client: Endpoint)
    | TransmitDropped
    | QuicSteered
    | PathReported(mtu: Mtu)
    | HopsExhausted

  /** Everything that holds pool slices. */
  datatype Shelves = Shelves(
    transmits: seq<Transmit>,
    queries: seq<DnsQuery>,
    terminate: seq<Pooled>,
    flows: map<FlowKey, FlowState>)

  datatype View = View(shelves: Shelves, ready: seq<FlowKey>, events: seq<FlowEvent>)

  // ------------------------------------------------------------ where the slices are

  datatype Place = InTransmits | InQueries | InTerminate | InFlow(key: FlowKey)

  type Ledger = map<nat, Place>

  ghost function BufferIds(buffer: seq<Datagram>): (ids: seq<nat>)
    ensures |ids| == |buffer|
  {
    seq(|buffer|, i requires 0 <= i < |buffer| => buffer[i].payload.id)
  }

  /** The slices at one place, in queue order. */
  ghost function At(shelves: Shelves, place: Place): seq<nat> {
    match place
    case InTransmits => seq(|shelves.transmits|, i requires 0 <= i < |shelves.transmits| => shelves.transmits[i].bytes.id)
    case InQueries => seq(|shelves.queries|, i requires 0 <= i < |shelves.queries| => shelves.queries[i].payload.id)
    case InTerminate => seq(|shelves.terminate|, i requires 0 <= i < |shelves.terminate| => shelves.terminate[i].id)
    case InFlow(key) => if key in shelves.flows then BufferIds(shelves.flows[key].buffer) else []
  }

  /** `ids` are the slices the ledger puts at `place`, each once. */
  ghost predicate Holds(ledger: Ledger, place: Place, ids: seq<nat>) {
    && (forall i :: 0 <= i < |ids| ==> ids[i] in ledger && ledger[ids[i]] == place)
    && Distinct(ids)
    && (forall id <- ledger :: ledger[id] == place ==> id in ids)
  }

  /** Every slice of the ledger is in exactly one queue, once. */
  ghost predicate Conserved(shelves: Shelves, ledger: Ledger) {
    forall place :: Holds(ledger, place, At(shelves, place))
  }

  ghost predicate SameElsewhere(shelves: Shelves, next: Shelves, place: Place) {
    forall other :: other != place ==> At(next, other) == At(shelves, other)
  }

  /** A slice from outside joins the back of one queue. */
  lemma {:induction false} Enters(shelves: Shelves, ledger: Ledger, next: Shelves, place: Place, id: nat)
    requires Conserved(shelves, ledger) && id !in ledger
    requires At(next, place) == At(shelves, place) + [id] && SameElsewhere(shelves, next, place)
    ensures Conserved(next, ledger[id := place])
  {
    forall other
      ensures Holds(ledger[id := place], other, At(next, other))
    {
      assert Holds(ledger, other, At(shelves, other));
    }
  }

  /** The slice at the front of one queue leaves. */
  lemma {:induction false} Leaves(shelves: Shelves, ledger: Ledger, next: Shelves, place: Place)
    requires Conserved(shelves, ledger) && At(shelves, place) != []
    requires At(next, place) == At(shelves, place)[1..] && SameElsewhere(shelves, next, place)
    ensures At(shelves, place)[0] in ledger
    ensures Conserved(next, ledger - {At(shelves, place)[0]})
  {
    var id := At(shelves, place)[0];
    assert Holds(ledger, place, At(shelves, place));
    forall other
      ensures Holds(ledger - {id}, other, At(next, other))
    {
      assert Holds(ledger, other, At(shelves, other));
    }
  }

  /** Nothing moves. */
  lemma {:induction false} Stays(shelves: Shelves, ledger: Ledger, next: Shelves)
    requires Conserved(shelves, ledger)
    requires forall place :: At(next, place) == At(shelves, place)
    ensures Conserved(next, ledger)
  {
    forall place
      ensures Holds(ledger, place, At(next, place))
    {
      assert Holds(ledger, place, At(shelves, place));
    }
  }

  function Enqueued(flows: map<FlowKey, FlowState>, key: FlowKey, datagram: Datagram): map<FlowKey, FlowState>
    requires key in flows
  {
    flows[key := flows[key].(buffer := flows[key].buffer + [datagram])]
  }

  function Dequeued(flows: map<FlowKey, FlowState>, key: FlowKey): map<FlowKey, FlowState>
    requires key in flows && flows[key].buffer != []
  {
    flows[key := flows[key].(buffer := flows[key].buffer[1..])]
  }

  function Buffer(flows: map<FlowKey, FlowState>, key: FlowKey): seq<Datagram> {
    if key in flows then flows[key].buffer else []
  }

  /** The shelves, the ledger of what is on them, and the slices in hand: held by
      a caller, or by an operation that has not placed them yet. */
  datatype Books = Books(shelves: Shelves, ledger: Ledger, hand: set<nat>)

  /** Books that balance. */
  type Balanced = books: Books | Conserved(books.shelves, books.ledger) && books.ledger.Keys !! books.hand
    ghost witness NoBooks()

  ghost function NoBooks(): (books: Books)
    ensures Conserved(books.shelves, books.ledger)
  {
    Books(Shelves([], [], [], map[]), map[], {})
  }

  ghost function OpenBooks(hand: set<nat>): (books: Balanced)
    ensures books.shelves == Shelves([], [], [], map[]) && books.hand == Loans(books) == hand
  {
    Books(Shelves([], [], [], map[]), map[], hand)
  }

  ghost function Loans(books: Books): set<nat> {
    books.ledger.Keys + books.hand
  }

  // The moves a slice can make. Each keeps the books balanced.

  lemma {:induction false} HandedOver(ledger: Ledger, hand: set<nat>, id: nat, place: Place)
    requires ledger.Keys !! hand && id in hand
    ensures ledger[id := place].Keys !! hand - {id}
    ensures ledger[id := place].Keys + (hand - {id}) == ledger.Keys + hand
  {
  }

  lemma {:induction false} TakenBack(ledger: Ledger, hand: set<nat>, id: nat)
    requires ledger.Keys !! hand && id in ledger
    ensures (ledger - {id}).Keys !! hand + {id}
    ensures (ledger - {id}).Keys + (hand + {id}) == ledger.Keys + hand
  {
  }

  ghost function Taken(books: Balanced, id: nat): (next: Balanced)
    requires id !in Loans(books)
    ensures next.shelves == books.shelves
    ensures next.hand == books.hand + {id} && Loans(next) == Loans(books) + {id}
  {
    books.(hand := books.hand + {id})
  }

  ghost function Given(books: Balanced, id: nat): (next: Balanced)
    requires id in books.hand
    ensures next.shelves == books.shelves
    ensures next.hand == books.hand - {id} && Loans(next) == Loans(books) - {id}
  {
    books.(hand := books.hand - {id})
  }

  ghost function PutTransmit(books: Balanced, transmit: Transmit): (next: Balanced)
    requires transmit.bytes.id in books.hand
    ensures next.shelves == books.shelves.(transmits := books.shelves.transmits + [transmit])
    ensures next.hand == books.hand - {transmit.bytes.id} && Loans(next) == Loans(books)
  {
    var shelves := books.shelves.(transmits := books.shelves.transmits + [transmit]);
    assert At(shelves, InTransmits) == At(books.shelves, InTransmits) + [transmit.bytes.id];
    Enters(books.shelves, books.ledger, shelves, InTransmits, transmit.bytes.id);
    HandedOver(books.ledger, books.hand, transmit.bytes.id, InTransmits);
    Books(shelves, books.ledger[transmit.bytes.id := InTransmits], books.hand - {transmit.bytes.id})
  }

  ghost function PutQuery(books: Balanced, query: DnsQuery): (next: Balanced)
    requires query.payload.id in books.hand
    ensures next.shelves == books.shelves.(queries := books.shelves.queries + [query])
    ensures next.hand == books.hand - {query.payload.id} && Loans(next) == Loans(books)
  {
    var shelves := books.shelves.(queries := books.shelves.queries + [query]);
    assert At(shelves, InQueries) == At(books.shelves, InQueries) + [query.payload.id];
    Enters(books.shelves, books.ledger, shelves, InQueries, query.payload.id);
    HandedOver(books.ledger, books.hand, query.payload.id, InQueries);
    Books(shelves, books.ledger[query.payload.id := InQueries], books.hand - {query.payload.id})
  }

  ghost function PutTerminate(books: Balanced, slice: Pooled): (next: Balanced)
    requires slice.id in books.hand
    ensures next.shelves == books.shelves.(terminate := books.shelves.terminate + [slice])
    ensures next.hand == books.hand - {slice.id} && Loans(next) == Loans(books)
  {
    var shelves := books.shelves.(terminate := books.shelves.terminate + [slice]);
    assert At(shelves, InTerminate) == At(books.shelves, InTerminate) + [slice.id];
    Enters(books.shelves, books.ledger, shelves, InTerminate, slice.id);
    HandedOver(books.ledger, books.hand, slice.id, InTerminate);
    Books(shelves, books.ledger[slice.id := InTerminate], books.hand - {slice.id})
  }

  ghost function PutDatagram(books: Balanced, key: FlowKey, datagram: Datagram): (next: Balanced)
    requires datagram.payload.id in books.hand && key in books.shelves.flows
    ensures next.shelves == books.shelves.(flows := Enqueued(books.shelves.flows, key, datagram))
    ensures next.hand == books.hand - {datagram.payload.id} && Loans(next) == Loans(books)
  {
    var shelves := books.shelves.(flows := Enqueued(books.shelves.flows, key, datagram));
    assert At(shelves, InFlow(key)) == At(books.shelves, InFlow(key)) + [datagram.payload.id];
    Enters(books.shelves, books.ledger, shelves, InFlow(key), datagram.payload.id);
    HandedOver(books.ledger, books.hand, datagram.payload.id, InFlow(key));
    Books(shelves, books.ledger[datagram.payload.id := InFlow(key)], books.hand - {datagram.payload.id})
  }

  ghost function PickTransmit(books: Balanced): (next: Balanced)
    requires books.shelves.transmits != []
    ensures books.shelves.transmits[0].bytes.id in Loans(books) && books.shelves.transmits[0].bytes.id !in books.hand
    ensures next.shelves == books.shelves.(transmits := books.shelves.transmits[1..])
    ensures next.hand == books.hand + {books.shelves.transmits[0].bytes.id} && Loans(next) == Loans(books)
  {
    var shelves := books.shelves.(transmits := books.shelves.transmits[1..]);
    assert At(shelves, InTransmits) == At(books.shelves, InTransmits)[1..];
    Leaves(books.shelves, books.ledger, shelves, InTransmits);
    TakenBack(books.ledger, books.hand, books.shelves.transmits[0].bytes.id);
    Books(shelves, books.ledger - {books.shelves.transmits[0].bytes.id}, books.hand + {books.shelves.transmits[0].bytes.id})
  }

  ghost function PickQuery(books: Balanced): (next: Balanced)
    requires books.shelves.queries != []
    ensures books.shelves.queries[0].payload.id in Loans(books) && books.shelves.queries[0].payload.id !in books.hand
    ensures next.shelves == books.shelves.(queries := books.shelves.queries[1..])
    ensures next.hand == books.hand + {books.shelves.queries[0].payload.id} && Loans(next) == Loans(books)
  {
    var shelves := books.shelves.(queries := books.shelves.queries[1..]);
    assert At(shelves, InQueries) == At(books.shelves, InQueries)[1..];
    Leaves(books.shelves, books.ledger, shelves, InQueries);
    TakenBack(books.ledger, books.hand, books.shelves.queries[0].payload.id);
    Books(shelves, books.ledger - {books.shelves.queries[0].payload.id}, books.hand + {books.shelves.queries[0].payload.id})
  }

  ghost function PickTerminate(books: Balanced): (next: Balanced)
    requires books.shelves.terminate != []
    ensures books.shelves.terminate[0].id in Loans(books) && books.shelves.terminate[0].id !in books.hand
    ensures next.shelves == books.shelves.(terminate := books.shelves.terminate[1..])
    ensures next.hand == books.hand + {books.shelves.terminate[0].id} && Loans(next) == Loans(books)
  {
    var shelves := books.shelves.(terminate := books.shelves.terminate[1..]);
    assert At(shelves, InTerminate) == At(books.shelves, InTerminate)[1..];
    Leaves(books.shelves, books.ledger, shelves, InTerminate);
    TakenBack(books.ledger, books.hand, books.shelves.terminate[0].id);
    Books(shelves, books.ledger - {books.shelves.terminate[0].id}, books.hand + {books.shelves.terminate[0].id})
  }

  ghost function PickDatagram(books: Balanced, key: FlowKey): (next: Balanced)
    requires Waiting(books.shelves.flows, key)
    ensures books.shelves.flows[key].buffer[0].payload.id in Loans(books) && books.shelves.flows[key].buffer[0].payload.id !in books.hand
    ensures next.shelves == books.shelves.(flows := Dequeued(books.shelves.flows, key))
    ensures next.hand == books.hand + {books.shelves.flows[key].buffer[0].payload.id} && Loans(next) == Loans(books)
  {
    var shelves := books.shelves.(flows := Dequeued(books.shelves.flows, key));
    assert At(shelves, InFlow(key)) == At(books.shelves, InFlow(key))[1..];
    Leaves(books.shelves, books.ledger, shelves, InFlow(key));
    TakenBack(books.ledger, books.hand, books.shelves.flows[key].buffer[0].payload.id);
    Books(shelves, books.ledger - {books.shelves.flows[key].buffer[0].payload.id}, books.hand + {books.shelves.flows[key].buffer[0].payload.id})
  }

  /** A flow with nothing queued may come or go, and any may be replanned. */
  ghost function Reflowed(books: Balanced, flows: map<FlowKey, FlowState>): (next: Balanced)
    requires forall key :: Buffer(flows, key) == Buffer(books.shelves.flows, key)
    ensures next == books.(shelves := books.shelves.(flows := flows))
  {
    var shelves := books.shelves.(flows := flows);
    assert forall key :: At(shelves, InFlow(key)) == At(books.shelves, InFlow(key)) by {
      forall key
        ensures At(shelves, InFlow(key)) == At(books.shelves, InFlow(key))
      {
        assert Buffer(flows, key) == Buffer(books.shelves.flows, key);
      }
    }
    Stays(books.shelves, books.ledger, shelves);
    books.(shelves := shelves)
  }

  // ------------------------------------------------------------ how many

  ghost function Queued(shelves: Shelves, keys: set<FlowKey>): nat
    requires keys <= shelves.flows.Keys
    decreases |keys|
  {
    if keys == {} then 0
    else
      var key :| key in keys;
      |shelves.flows[key].buffer| + Queued(shelves, keys - {key})
  }

  ghost function Inside(ledger: Ledger, places: iset<Place>): set<nat> {
    set id | id in ledger && ledger[id] in places
  }

  lemma {:induction false} HoldsCount(ledger: Ledger, place: Place, ids: seq<nat>)
    requires Holds(ledger, place, ids)
    ensures |Inside(ledger, iset{place})| == |ids|
  {
    DistinctCount(ids);
    assert Inside(ledger, iset{place}) == Elements(ids);
  }

  ghost function FlowPlaces(keys: set<FlowKey>): iset<Place> {
    iset key | key in keys :: InFlow(key)
  }

  lemma {:induction false} FlowCount(shelves: Shelves, ledger: Ledger, keys: set<FlowKey>)
    requires Conserved(shelves, ledger) && keys <= shelves.flows.Keys
    ensures |Inside(ledger, FlowPlaces(keys))| == Queued(shelves, keys)
    decreases |keys|
  {
    if keys == {} {
      assert Inside(ledger, FlowPlaces(keys)) == {};
    } else {
      var key :| key in keys && Queued(shelves, keys) == |shelves.flows[key].buffer| + Queued(shelves, keys - {key});
      FlowCount(shelves, ledger, keys - {key});
      assert Holds(ledger, InFlow(key), At(shelves, InFlow(key)));
      HoldsCount(ledger, InFlow(key), At(shelves, InFlow(key)));
      assert Inside(ledger, FlowPlaces(keys)) ==
             Inside(ledger, FlowPlaces(keys - {key})) + Inside(ledger, iset{InFlow(key)});
    }
  }

  /** The ledger has one entry for each packet and datagram queued. */
  lemma {:induction false} LedgerCounts(shelves: Shelves, ledger: Ledger)
    requires Conserved(shelves, ledger)
    ensures |ledger| ==
              |shelves.transmits| + |shelves.queries| + |shelves.terminate| + Queued(shelves, shelves.flows.Keys)
  {
    FlowCount(shelves, ledger, shelves.flows.Keys);
    PlaceCount(shelves, ledger, InTransmits);
    PlaceCount(shelves, ledger, InQueries);
    PlaceCount(shelves, ledger, InTerminate);
    Everywhere(shelves, ledger);
    assert |ledger| == |ledger.Keys|;
  }

  lemma {:induction false} PlaceCount(shelves: Shelves, ledger: Ledger, place: Place)
    requires Conserved(shelves, ledger)
    ensures |Inside(ledger, iset{place})| == |At(shelves, place)|
  {
    assert Holds(ledger, place, At(shelves, place));
    HoldsCount(ledger, place, At(shelves, place));
  }

  lemma {:induction false} Everywhere(shelves: Shelves, ledger: Ledger)
    requires Conserved(shelves, ledger)
    ensures |ledger.Keys| ==
              |Inside(ledger, iset{InTransmits})| + |Inside(ledger, iset{InQueries})|
              + |Inside(ledger, iset{InTerminate})| + |Inside(ledger, FlowPlaces(shelves.flows.Keys))|
  {
    SomewhereOrOther(shelves, ledger);
    FourParts(Inside(ledger, iset{InTransmits}), Inside(ledger, iset{InQueries}),
              Inside(ledger, iset{InTerminate}), Inside(ledger, FlowPlaces(shelves.flows.Keys)));
  }

  lemma {:induction false} SomewhereOrOther(shelves: Shelves, ledger: Ledger)
    requires Conserved(shelves, ledger)
    ensures ledger.Keys == Inside(ledger, iset{InTransmits}) + Inside(ledger, iset{InQueries})
                           + Inside(ledger, iset{InTerminate}) + Inside(ledger, FlowPlaces(shelves.flows.Keys))
  {
    forall id | id in ledger
      ensures id in Inside(ledger, iset{InTransmits}) + Inside(ledger, iset{InQueries})
                    + Inside(ledger, iset{InTerminate}) + Inside(ledger, FlowPlaces(shelves.flows.Keys))
    {
      assert Holds(ledger, ledger[id], At(shelves, ledger[id]));
      assert ledger[id].InFlow? ==> ledger[id].key in shelves.flows;
    }
  }

  lemma {:induction false} FourParts<T>(a: set<T>, b: set<T>, c: set<T>, d: set<T>)
    requires a !! b !! c !! d
    ensures |a + b + c + d| == |a| + |b| + |c| + |d|
  {
    DisjointSum(a, b);
    DisjointSum(a + b, c);
    DisjointSum(a + b + c, d);
  }

  lemma {:induction false} DisjointSum<T>(left: set<T>, right: set<T>)
    requires left !! right
    ensures |left + right| == |left| + |right|
  {
  }

  // ------------------------------------------------------------ the ready list

  ghost predicate Waiting(flows: map<FlowKey, FlowState>, key: FlowKey) {
    key in flows && flows[key].buffer != []
  }

  /** Every live flow with something queued is listed. */
  ghost predicate Covered(flows: map<FlowKey, FlowState>, ready: seq<FlowKey>) {
    forall key {:trigger Waiting(flows, key)} :: Waiting(flows, key) ==> key in ready
  }

  /** The ready list is the flows with something queued, each once. */
  ghost predicate Exact(flows: map<FlowKey, FlowState>, ready: seq<FlowKey>) {
    && Covered(flows, ready)
    && (forall i :: 0 <= i < |ready| ==> Waiting(flows, ready[i]))
    && (forall i, j :: 0 <= i < j < |ready| ==> ready[i] != ready[j])
  }

  /** A flow removed while it waits stays listed, so the list is exact no more. */
  lemma {:induction false} GoneButListed(
      flows: map<FlowKey, FlowState>, ready: seq<FlowKey>, after: map<FlowKey, FlowState>, key: FlowKey)
    requires Exact(flows, ready) && Waiting(flows, key) && key !in after
    ensures !Exact(after, ready)
  {
    var i :| 0 <= i < |ready| && ready[i] == key;
    assert !Waiting(after, ready[i]);
  }

  /** Every stored plan terminates its flow locally. */
  ghost predicate AllLocal(flows: map<FlowKey, FlowState>) {
    forall key {:trigger Local(flows, key)} :: key in flows ==> Local(flows, key)
  }

  ghost predicate Local(flows: map<FlowKey, FlowState>, key: FlowKey) {
    key in flows && flows[key].plan.transport == LocalTermination
  }

  ghost predicate Fits(flows: map<FlowKey, FlowState>, key: FlowKey, capacity: nat) {
    key in flows && |flows[key].buffer| <= capacity
  }

  ghost predicate Numbers(flows: map<FlowKey, FlowState>, size: int) {
    |flows| == size
  }

  ghost predicate WithinBounds(flows: map<FlowKey, FlowState>, ceiling: nat, capacity: nat) {
    && (forall size {:trigger Numbers(flows, size)} :: Numbers(flows, size) ==> size <= ceiling)
    && (forall key {:trigger Fits(flows, key, capacity)} :: key in flows ==> Fits(flows, key, capacity))
  }

  // ------------------------------------------------------------ steps that only add

  /** No flow is lost or replanned, and queues only grow at the back. */
  ghost predicate FlowsKept(before: map<FlowKey, FlowState>, after: map<FlowKey, FlowState>) {
    forall key <- before ::
      key in after && after[key].plan == before[key].plan && before[key].buffer <= after[key].buffer
  }

  lemma {:induction false} KeptOn(
      before: map<FlowKey, FlowState>, between: map<FlowKey, FlowState>, after: map<FlowKey, FlowState>)
    requires FlowsKept(before, between) && FlowsKept(between, after)
    ensures FlowsKept(before, after)
  {
  }

  /** What an operation put at the back of each queue. */
  datatype Added = Added(
    sent: seq<Transmit>,
    asked: seq<DnsQuery>,
    captured: seq<Pooled>,
    listed: seq<FlowKey>,
    noted: seq<FlowEvent>)

  ghost function Nothing(): Added {
    Added([], [], [], [], [])
  }

  /** What any input does to what is held: queues only grow at the back, no flow
      is lost or replanned, and an exact ready list stays exact. */
  ghost predicate Grew(before: View, after: View, added: Added) {
    && after == Extended(before, added, after.shelves.flows)
    && FlowsKept(before.shelves.flows, after.shelves.flows)
    && (Exact(before.shelves.flows, before.ready) ==> Exact(after.shelves.flows, after.ready))
  }

  ghost function Extended(view: View, added: Added, flows: map<FlowKey, FlowState>): View {
    View(Shelves(view.shelves.transmits + added.sent,
                 view.shelves.queries + added.asked,
                 view.shelves.terminate + added.captured,
                 flows),
         view.ready + added.listed,
         view.events + added.noted)
  }

  // ------------------------------------------------------------ the flow table and its list

  datatype Table = Table(flows: map<FlowKey, FlowState>, ready: seq<FlowKey>, ceiling: nat, capacity: nat)

  /** A table within its bounds whose waiting flows are all listed, and whose
      plans all terminate locally. */
  ghost predicate InGoodOrder(table: Table) {
    && Covered(table.flows, table.ready)
    && AllLocal(table.flows)
    && WithinBounds(table.flows, table.ceiling, table.capacity)
  }

  type Tended = table: Table | InGoodOrder(table) ghost witness Table(map[], [], 0, 0)

  ghost function OpenTable(ceiling: nat, capacity: nat): (table: Tended)
    ensures table == Table(map[], [], ceiling, capacity) && Exact(table.flows, table.ready)
  {
    Table(map[], [], ceiling, capacity)
  }

  /** One listing for each empty-to-waiting transition. */
  function Listing(flows: map<FlowKey, FlowState>, key: FlowKey): seq<FlowKey>
    requires key in flows
  {
    if flows[key].buffer == [] then [key] else []
  }

  // What can happen to the table. Each keeps it in good order.

  ghost function WithDatagram(table: Tended, key: FlowKey, datagram: Datagram): (next: Tended)
    requires key in table.flows && |table.flows[key].buffer| < table.capacity
    ensures next == table.(flows := Enqueued(table.flows, key, datagram), ready := table.ready + Listing(table.flows, key))
    ensures FlowsKept(table.flows, next.flows)
    ensures Exact(table.flows, table.ready) ==> Exact(next.flows, next.ready)
  {
    var flows := Enqueued(table.flows, key, datagram);
    assert flows.Keys == table.flows.Keys;
    assert table.flows[key].buffer != [] ==> Waiting(table.flows, key);
    assert forall other :: Waiting(flows, other) <==> Waiting(table.flows, other) || other == key;
    assert forall other <- flows :: Local(table.flows, other) && Fits(table.flows, other, table.capacity);
    assert Numbers(table.flows, |table.flows|) && |flows| == |flows.Keys| <= |table.flows.Keys|;
    table.(flows := flows, ready := table.ready + Listing(table.flows, key))
  }

  ghost function WithFlow(table: Tended, key: FlowKey, plan: FlowPlan): (next: Tended)
    requires key !in table.flows && |table.flows| < table.ceiling && plan.transport == LocalTermination
    ensures next == table.(flows := table.flows[key := FlowState(plan, [])])
    ensures FlowsKept(table.flows, next.flows)
    ensures Exact(table.flows, table.ready) ==> Exact(next.flows, next.ready)
  {
    var flows := table.flows[key := FlowState(plan, [])];
    assert flows.Keys == table.flows.Keys + {key};
    assert forall other :: Waiting(flows, other) <==> Waiting(table.flows, other);
    assert forall other <- flows :: other != key ==> Local(table.flows, other) && Fits(table.flows, other, table.capacity);
    assert Numbers(table.flows, |table.flows|);
    table.(flows := flows)
  }

  ghost function Replanned(table: Tended, key: FlowKey, plan: FlowPlan): (next: Tended)
    requires key in table.flows && plan.transport == LocalTermination
    ensures next == table.(flows := table.flows[key := table.flows[key].(plan := plan)])
    ensures Exact(table.flows, table.ready) ==> Exact(next.flows, next.ready)
  {
    var flows := table.flows[key := table.flows[key].(plan := plan)];
    assert Fits(table.flows, key, table.capacity);
    assert flows.Keys == table.flows.Keys;
    assert forall other :: Waiting(flows, other) <==> Waiting(table.flows, other);
    assert forall other <- flows :: other != key ==> Local(table.flows, other) && Fits(table.flows, other, table.capacity);
    assert Numbers(table.flows, |table.flows|);
    table.(flows := flows)
  }

  /** A flow gives up the datagram at the front, and is not relisted. */
  ghost function WithoutDatagram(table: Tended, key: FlowKey): (next: Tended)
    requires Waiting(table.flows, key)
    ensures next == table.(flows := Dequeued(table.flows, key))
  {
    var flows := Dequeued(table.flows, key);
    assert flows.Keys == table.flows.Keys;
    assert forall other :: Waiting(flows, other) ==> Waiting(table.flows, other);
    assert forall other <- flows :: Local(table.flows, other) && Fits(table.flows, other, table.capacity);
    assert Numbers(table.flows, |table.flows|) && |flows| == |flows.Keys| <= |table.flows.Keys|;
    table.(flows := flows)
  }

  /** A flow with nothing queued goes. If it was not listed, an exact list stays
      exact. */
  ghost function WithoutFlow(table: Tended, key: FlowKey): (next: Tended)
    requires key in table.flows && table.flows[key].buffer == []
    ensures next == table.(flows := table.flows - {key})
    ensures Exact(table.flows, table.ready) ==> Exact(next.flows, next.ready)
  {
    var flows := table.flows - {key};
    assert table.flows.Keys == flows.Keys + {key};
    assert forall other :: Waiting(flows, other) <==> Waiting(table.flows, other);
    assert forall other <- flows :: other != key ==> Local(table.flows, other) && Fits(table.flows, other, table.capacity);
    assert Numbers(table.flows, |table.flows|);
    table.(flows := flows)
  }

  /** The front of the list is skipped when it waits for nothing. */
  ghost function Skipped(table: Tended): (next: Tended)
    requires table.ready != [] && !Waiting(table.flows, table.ready[0])
    ensures next == table.(ready := table.ready[1..])
  {
    assert table.ready == [table.ready[0]] + table.ready[1..];
    table.(ready := table.ready[1..])
  }

  /** The front of the list is served one datagram, and goes to the back if it
      has more. */
  ghost function Served(table: Tended): (next: Tended)
    requires table.ready != [] && Waiting(table.flows, table.ready[0])
    ensures next.flows == Dequeued(table.flows, table.ready[0])
    ensures next.ready == table.ready[1..] + if |table.flows[table.ready[0]].buffer| > 1 then [table.ready[0]] else []
    ensures next.ceiling == table.ceiling && next.capacity == table.capacity
    ensures Exact(table.flows, table.ready) ==> Exact(next.flows, next.ready)
  {
    var key := table.ready[0];
    var flows := Dequeued(table.flows, key);
    assert flows.Keys == table.flows.Keys;
    assert table.ready == [key] + table.ready[1..];
    assert forall other :: Waiting(flows, other) <==>
        Waiting(table.flows, other) && (other == key ==> |table.flows[key].buffer| > 1);
    assert forall other <- flows :: Local(table.flows, other) && Fits(table.flows, other, table.capacity);
    assert Numbers(table.flows, |table.flows|) && |flows| == |flows.Keys| <= |table.flows.Keys|;
    table.(flows := flows, ready := table.ready[1..] + if |table.flows[key].buffer| > 1 then [key] else [])
  }

  /** A flow that goes while it waits leaves its listing behind. If it is opened
      again and queues, it is listed twice, so the list is no longer exact. */
  lemma {:induction false} ListedTwice(table: Tended, key: FlowKey, plan: FlowPlan, first: Datagram, second: Datagram)
    requires key !in table.flows && |table.flows| < table.ceiling && table.capacity > 0
    requires plan.transport == LocalTermination
    ensures var waiting := WithDatagram(WithFlow(table, key, plan), key, first);
            var gone := WithoutFlow(WithoutDatagram(waiting, key), key);
            var again := WithDatagram(WithFlow(gone, key, plan), key, second);
            again.ready == table.ready + [key, key] && !Exact(again.flows, again.ready)
  {
    var waiting := WithDatagram(WithFlow(table, key, plan), key, first);
    var gone := WithoutFlow(WithoutDatagram(waiting, key), key);
    assert gone.flows == table.flows;
    var again := WithDatagram(WithFlow(gone, key, plan), key, second);
    assert again.ready == table.ready + [key, key];
    assert again.ready[|table.ready|] == again.ready[|table.ready| + 1];
  }

  /** The table without the first `n` flows named. */
  ghost function Without(flows: map<FlowKey, FlowState>, keys: seq<FlowKey>, n: nat): map<FlowKey, FlowState>
    requires n <= |keys|
  {
    if n == 0 then flows else Without(flows, keys, n - 1) - {keys[n - 1]}
  }

  lemma {:induction false} WithoutIs(flows: map<FlowKey, FlowState>, keys: seq<FlowKey>, n: nat, key: FlowKey)
    requires n <= |keys|
    ensures key in Without(flows, keys, n) <==> key in flows && key !in keys[..n]
    ensures key in Without(flows, keys, n) ==> Without(flows, keys, n)[key] == flows[key]
  {
    if n > 0 {
      WithoutIs(flows, keys, n - 1, key);
      assert keys[..n] == keys[..n - 1] + [keys[n - 1]];
    }
  }

  ghost predicate NoneWaits(flows: map<FlowKey, FlowState>, keys: seq<FlowKey>) {
    forall i :: 0 <= i < |keys| ==> !Waiting(flows, keys[i])
  }

  lemma {:induction false} WaitedAndListed(flows: map<FlowKey, FlowState>, ready: seq<FlowKey>, keys: seq<FlowKey>)
    requires Exact(flows, ready) && !NoneWaits(flows, keys)
    ensures !Exact(Without(flows, keys, |keys|), ready)
  {
    var i :| 0 <= i < |keys| && Waiting(flows, keys[i]);
    WithoutIs(flows, keys, |keys|, keys[i]);
    assert keys[..|keys|] == keys;
    GoneButListed(flows, ready, Without(flows, keys, |keys|), keys[i]);
  }

  // ------------------------------------------------------------ replanning

  /** A flow whose QUIC passed and no longer can adopts the new plan. */
  function Resettled(plan: FlowPlan, anew: FlowPlan): FlowPlan {
    if plan.quic == PassThrough && anew.quic.SteerToHttp2? then anew else plan
  }

  function Notice(plan: FlowPlan, anew: FlowPlan): seq<FlowEvent> {
    if plan.quic == PassThrough && anew.quic.SteerToHttp2? then [Resteered(anew.quic.reason)] else []
  }

  function ResettledFlow(flows: map<FlowKey, FlowState>, key: FlowKey, anew: FlowPlan): map<FlowKey, FlowState>
    requires key in flows
  {
    flows[key := flows[key].(plan := Resettled(flows[key].plan, anew))]
  }

  ghost predicate AllIn(keys: seq<FlowKey>, flows: map<FlowKey, FlowState>) {
    forall i :: 0 <= i < |keys| ==> keys[i] in flows
  }

  ghost predicate ToVisit(keys: seq<FlowKey>, key: FlowKey) {
    key in keys
  }

  /** `keys` are the flows of the table, each once: an order of visiting them. */
  ghost predicate Visits(keys: seq<FlowKey>, flows: map<FlowKey, FlowState>) {
    && AllIn(keys, flows)
    && (forall key {:trigger ToVisit(keys, key)} :: key in flows ==> ToVisit(keys, key))
    && (forall i, j :: 0 <= i < j < |keys| ==> keys[i] != keys[j])
  }

  /** The table after the first `n` flows were visited. */
  ghost function Revised(flows: map<FlowKey, FlowState>, keys: seq<FlowKey>, n: nat, anew: FlowPlan)
    : (revised: map<FlowKey, FlowState>)
    requires n <= |keys| && AllIn(keys, flows)
    ensures revised.Keys == flows.Keys
  {
    if n == 0 then flows else ResettledFlow(Revised(flows, keys, n - 1, anew), keys[n - 1], anew)
  }

  /** A flow visited has its plan settled anew, the others are as they were. */
  lemma {:induction false} RevisedIs(
      flows: map<FlowKey, FlowState>, keys: seq<FlowKey>, n: nat, anew: FlowPlan, key: FlowKey)
    requires n <= |keys| && Visits(keys, flows) && key in flows
    ensures Revised(flows, keys, n, anew)[key] ==
              if key in keys[..n] then flows[key].(plan := Resettled(flows[key].plan, anew)) else flows[key]
  {
    if n > 0 {
      RevisedIs(flows, keys, n - 1, anew, key);
      assert keys[..n] == keys[..n - 1] + [keys[n - 1]];
      assert keys[n - 1] !in keys[..n - 1];
    }
  }

  ghost function Notices(flows: map<FlowKey, FlowState>, keys: seq<FlowKey>, n: nat, anew: FlowPlan): seq<FlowEvent>
    requires n <= |keys| && AllIn(keys, flows)
  {
    if n == 0 then [] else Notices(flows, keys, n - 1, anew) + Notice(flows[keys[n - 1]].plan, anew)
  }

  ghost function Teardowns(keys: seq<FlowKey>, n: nat): seq<FlowEvent>
    requires n <= |keys|
  {
    if n == 0 then [] else Teardowns(keys, n - 1) + [FlowTornDown(keys[n - 1].client)]
  }

  /** One teardown for each flow visited. */
  lemma {:induction false} TeardownsAre(keys: seq<FlowKey>, n: nat)
    requires n <= |keys|
    ensures |Teardowns(keys, n)| == n
    ensures forall i :: 0 <= i < n ==> Teardowns(keys, n)[i] == FlowTornDown(keys[i].client)
  {
    if n > 0 {
      TeardownsAre(keys, n - 1);
    }
  }

  datatype Standing = Standing(flows: map<FlowKey, FlowState>, events: seq<FlowEvent>)

  /** One live flow replanned as outside inspection. */
  ghost function Visit(standing: Standing, key: FlowKey, accepts: Accepts, anew: FlowPlan): Standing {
    if key !in standing.flows then standing
    else if accepts == Flows then
      Standing(ResettledFlow(standing.flows, key, anew), standing.events + Notice(standing.flows[key].plan, anew))
    else
      Standing(standing.flows - {key}, standing.events + [FlowTornDown(key.client)])
  }

  ghost function Visiting(standing: Standing, keys: seq<FlowKey>, n: nat, accepts: Accepts, anew: FlowPlan): Standing
    requires n <= |keys|
  {
    if n == 0 then standing else Visit(Visiting(standing, keys, n - 1, accepts, anew), keys[n - 1], accepts, anew)
  }

  lemma {:induction false} Unvisited(flows: map<FlowKey, FlowState>, keys: seq<FlowKey>, n: nat, anew: FlowPlan)
    requires n < |keys| && Visits(keys, flows)
    ensures keys[n] in flows && Revised(flows, keys, n, anew)[keys[n]] == flows[keys[n]]
    ensures keys[n] in Without(flows, keys, n)
  {
    RevisedIs(flows, keys, n, anew, keys[n]);
    WithoutIs(flows, keys, n, keys[n]);
    assert keys[n] !in keys[..n];
  }

  /** What a visit of every flow comes to on an egress that takes flows. */
  lemma {:induction false} AfterVisitsKeeping(standing: Standing, keys: seq<FlowKey>, n: nat, anew: FlowPlan)
    requires n <= |keys| && Visits(keys, standing.flows)
    ensures Visiting(standing, keys, n, Flows, anew) ==
              Standing(Revised(standing.flows, keys, n, anew), standing.events + Notices(standing.flows, keys, n, anew))
  {
    if n > 0 {
      AfterVisitsKeeping(standing, keys, n - 1, anew);
      Unvisited(standing.flows, keys, n - 1, anew);
      var before, key := Visiting(standing, keys, n - 1, Flows, anew), keys[n - 1];
      assert before.flows[key].plan == standing.flows[key].plan;
      Regroup(standing.events, Notices(standing.flows, keys, n - 1, anew), Notice(standing.flows[key].plan, anew));
      assert Visiting(standing, keys, n, Flows, anew) == Visit(before, key, Flows, anew);
    }
  }

  /** What it comes to on one that takes packets. */
  lemma {:induction false} AfterVisitsDropping(standing: Standing, keys: seq<FlowKey>, n: nat, anew: FlowPlan)
    requires n <= |keys| && Visits(keys, standing.flows)
    ensures Visiting(standing, keys, n, IpPackets, anew) ==
              Standing(Without(standing.flows, keys, n), standing.events + Teardowns(keys, n))
  {
    if n > 0 {
      AfterVisitsDropping(standing, keys, n - 1, anew);
      Unvisited(standing.flows, keys, n - 1, anew);
      Regroup(standing.events, Teardowns(keys, n - 1), [FlowTornDown(keys[n - 1].client)]);
    }
  }

  lemma {:induction false} StillThere(standing: Standing, keys: seq<FlowKey>, n: nat, accepts: Accepts, anew: FlowPlan)
    requires n < |keys| && Visits(keys, standing.flows)
    ensures keys[n] in Visiting(standing, keys, n, accepts, anew).flows
  {
    if accepts == Flows {
      AfterVisitsKeeping(standing, keys, n, anew);
    } else {
      AfterVisitsDropping(standing, keys, n, anew);
      Unvisited(standing.flows, keys, n, anew);
    }
  }

  /** Every flow kept; exactly those whose QUIC passed and no longer can re-steered
      to the new plan, each with an event. */
  ghost predicate AllKept(before: Standing, keys: seq<FlowKey>, anew: FlowPlan, after: Standing)
    requires AllIn(keys, before.flows)
  {
    && after.flows.Keys == before.flows.Keys
    && (forall key <- before.flows ::
          after.flows[key] == before.flows[key].(plan := Resettled(before.flows[key].plan, anew)))
    && after.events == before.events + Notices(before.flows, keys, |keys|, anew)
  }

  /** No flow left, and one teardown for each. */
  ghost predicate AllTornDown(before: Standing, keys: seq<FlowKey>, after: Standing) {
    after.flows == map[] && after.events == before.events + Teardowns(keys, |keys|)
  }

  /** What a change of path comes to: all kept, and the ready list exact if it
      was; or all torn down. */
  ghost predicate PathChanged(
      before: Standing, keys: seq<FlowKey>, accepts: Accepts, anew: FlowPlan, after: Standing, ready: seq<FlowKey>)
    requires AllIn(keys, before.flows)
  {
    if accepts == Flows then
      AllKept(before, keys, anew, after) && (Exact(after.flows, ready) <==> Exact(before.flows, ready))
    else AllTornDown(before, keys, after)
  }

  lemma {:induction false} VisitsChangePath(
      before: Standing, keys: seq<FlowKey>, accepts: Accepts, anew: FlowPlan, ready: seq<FlowKey>)
    requires Visits(keys, before.flows)
    ensures PathChanged(before, keys, accepts, anew, Visiting(before, keys, |keys|, accepts, anew), ready)
  {
    AfterAll(before.flows, keys, anew);
    if accepts == Flows {
      AfterVisitsKeeping(before, keys, |keys|, anew);
      KeptFlowsStayListed(before, keys, anew, Visiting(before, keys, |keys|, accepts, anew), ready);
    } else {
      AfterVisitsDropping(before, keys, |keys|, anew);
    }
  }

  /** Once every flow was visited. */
  lemma {:induction false} AfterAll(flows: map<FlowKey, FlowState>, keys: seq<FlowKey>, anew: FlowPlan)
    requires Visits(keys, flows)
    ensures Without(flows, keys, |keys|) == map[]
    ensures forall key <- flows ::
              Revised(flows, keys, |keys|, anew)[key] == flows[key].(plan := Resettled(flows[key].plan, anew))
  {
    assert keys[..|keys|] == keys;
    forall key
      ensures key !in Without(flows, keys, |keys|)
    {
      WithoutIs(flows, keys, |keys|, key);
      assert ToVisit(keys, key) <==> key in keys;
    }
    forall key | key in flows
      ensures Revised(flows, keys, |keys|, anew)[key] == flows[key].(plan := Resettled(flows[key].plan, anew))
    {
      RevisedIs(flows, keys, |keys|, anew, key);
      assert ToVisit(keys, key);
    }
  }

  /** A change of path that keeps the flows keeps the ready list exact: it lists
      the flows it listed, and those are the ones with something waiting. */
  lemma {:induction false} KeptFlowsStayListed(
      before: Standing, keys: seq<FlowKey>, anew: FlowPlan, after: Standing, ready: seq<FlowKey>)
    requires AllIn(keys, before.flows) && AllKept(before, keys, anew, after)
    ensures Exact(after.flows, ready) <==> Exact(before.flows, ready)
  {
    assert forall key :: Waiting(after.flows, key) <==> Waiting(before.flows, key);
  }
}
