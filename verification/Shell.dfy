/**
 * The shell's drain: what the egress emits goes to the network or into the
 * datapath, what the datapath transmits goes to the device or into the egress,
 * and round again until nothing is left.
 */
module Shell {
  import opened Bytes
  import opened Datapath
  import opened Holdings
  import opened Pool

  datatype Emit = ToNetwork(bytes: seq<byte>) | ToTunnel(slice: Pooled)

  /** What the egress sends for a packet from the tunnel, given how many it was
      handed before: outer packets for the network, and nothing else. */
  type Carrier = (nat, seq<byte>) -> seq<seq<byte>>

  ghost function SlicesOf(emit: Emit): set<nat> {
    if emit.ToTunnel? then {emit.slice.id} else {}
  }

  /** What is left in hand once the emits are taken. */
  ghost function HandAfter(hand: set<nat>, emits: seq<Emit>): set<nat>
    decreases |emits|
  {
    if emits == [] then hand else HandAfter(hand - SlicesOf(emits[0]), emits[1..])
  }

  ghost function NetworkOf(emits: seq<Emit>): seq<seq<byte>> {
    if emits == [] then []
    else (if emits[0].ToNetwork? then [emits[0].bytes] else []) + NetworkOf(emits[1..])
  }

  /** Each slice the egress hands over is one in hand, and none twice. */
  ghost predicate Owns(hand: set<nat>, emits: seq<Emit>)
    decreases |emits|
  {
    emits != [] ==> SlicesOf(emits[0]) <= hand && Owns(hand - SlicesOf(emits[0]), emits[1..])
  }

  function Outer(packets: seq<seq<byte>>): seq<Emit> {
    if packets == [] then [] else [ToNetwork(packets[0])] + Outer(packets[1..])
  }

  lemma {:induction false} OuterIsNetwork(packets: seq<seq<byte>>, hand: set<nat>)
    ensures NetworkOf(Outer(packets)) == packets && HandAfter(hand, Outer(packets)) == hand
    ensures Owns(hand, Outer(packets)) && AllOuter(Outer(packets))
    decreases |packets|
  {
    if packets != [] {
      OuterIsNetwork(packets[1..], hand);
      assert hand - {} == hand;
      assert Outer(packets)[1..] == Outer(packets[1..]);
    }
  }

  ghost predicate AllOuter(emits: seq<Emit>) {
    emits != [] ==> emits[0].ToNetwork? && AllOuter(emits[1..])
  }

  /** What has reached the device and what the egress has made of its packets. */
  datatype Sent = Sent(device: seq<seq<byte>>, carried: seq<seq<byte>>, handed: nat)

  function Passed(sent: Sent, transmit: Transmit, carrier: Carrier): Sent {
    if transmit.to == Tunnel then sent.(device := sent.device + [transmit.bytes.bytes])
    else sent.(carried := sent.carried + carrier(sent.handed, transmit.bytes.bytes), handed := sent.handed + 1)
  }

  ghost function Flushed(sent: Sent, transmits: seq<Transmit>, carrier: Carrier): Sent
    decreases |transmits|
  {
    if transmits == [] then sent else Flushed(Passed(sent, transmits[0], carrier), transmits[1..], carrier)
  }

  /** The tunnel-bound packets, in order. */
  ghost function DeviceOf(transmits: seq<Transmit>): seq<seq<byte>> {
    if transmits == [] then []
    else (if transmits[0].to == Tunnel then [transmits[0].bytes.bytes] else []) + DeviceOf(transmits[1..])
  }

  /** What the egress makes of the egress-bound packets, in order. */
  ghost function CarriedOf(transmits: seq<Transmit>, carrier: Carrier, handed: nat): seq<seq<byte>> {
    if transmits == [] then []
    else if transmits[0].to == Tunnel then CarriedOf(transmits[1..], carrier, handed)
    else carrier(handed, transmits[0].bytes.bytes) + CarriedOf(transmits[1..], carrier, handed + 1)
  }

  lemma {:induction false} FlushedIs(sent: Sent, transmits: seq<Transmit>, carrier: Carrier)
    ensures Flushed(sent, transmits, carrier).device == sent.device + DeviceOf(transmits)
    ensures Flushed(sent, transmits, carrier).carried == sent.carried + CarriedOf(transmits, carrier, sent.handed)
    decreases |transmits|
  {
    if transmits != [] {
      FlushedIs(Passed(sent, transmits[0], carrier), transmits[1..], carrier);
    }
  }

  /** Tunnel-bound transmits add nothing to what the egress carries. */
  lemma {:induction false} TunnelBoundIsNotCarried(
      transmits: seq<Transmit>, sent: seq<Transmit>, carrier: Carrier, handed: nat)
    requires AllTo(sent, Tunnel)
    ensures CarriedOf(transmits + sent, carrier, handed) == CarriedOf(transmits, carrier, handed)
    decreases |transmits| + |sent|
  {
    if transmits != [] {
      assert (transmits + sent)[1..] == transmits[1..] + sent;
      TunnelBoundIsNotCarried(transmits[1..], sent, carrier, if transmits[0].to == Tunnel then handed else handed + 1);
    } else if sent != [] {
      assert transmits + sent == sent && (transmits + sent[1..]) == sent[1..];
      TunnelBoundIsNotCarried(transmits, sent[1..], carrier, handed);
    } else {
      assert transmits + sent == transmits;
    }
  }

  /** What the tunnel emits become for the device, in order. */
  ghost function MadeOf(datapath: Datapath, emits: seq<Emit>): seq<seq<byte>>
    reads datapath`excludedPlan
    decreases |emits|
  {
    if emits == [] then []
    else
      (if emits[0].ToTunnel? then Crossing(datapath.wire, datapath.dns, datapath.excludedPlan, emits[0].slice.bytes) else [])
      + MadeOf(datapath, emits[1..])
  }

  /** One emit leaves for the network, or goes in and comes back tunnel-bound as
      what it crosses as, or not at all. */
  method TakeEmit(datapath: Datapath, emit: Emit, now: nat)
    returns (network: seq<seq<byte>>, ghost sent: seq<Transmit>)
    requires datapath.Valid() && SlicesOf(emit) <= datapath.books.hand
    modifies datapath, datapath.pool, datapath.icmp
    ensures datapath.Valid() && datapath.books.hand == old(datapath.books.hand) - SlicesOf(emit)
    ensures datapath.transmits == old(datapath.transmits) + sent && AllTo(sent, Tunnel)
    ensures datapath.excludedPlan == old(datapath.excludedPlan)
    ensures network == if emit.ToNetwork? then [emit.bytes] else []
    ensures Payloads(sent) == if emit.ToNetwork? then []
                              else Crossing(datapath.wire, datapath.dns, datapath.excludedPlan, emit.slice.bytes)
  {
    if emit.ToNetwork? {
      network, sent := [emit.bytes], [];
    } else {
      sent := TakeSlice(datapath, emit.slice, now);
      network := [];
    }
  }

  method TakeSlice(datapath: Datapath, slice: Pooled, now: nat) returns (ghost sent: seq<Transmit>)
    requires datapath.Valid() && slice.id in datapath.books.hand
    modifies datapath, datapath.pool, datapath.icmp
    ensures datapath.Valid() && datapath.books.hand == old(datapath.books.hand) - {slice.id}
    ensures datapath.transmits == old(datapath.transmits) + sent && AllTo(sent, Tunnel)
    ensures datapath.excludedPlan == old(datapath.excludedPlan)
    ensures Payloads(sent) == Crossing(datapath.wire, datapath.dns, datapath.excludedPlan, slice.bytes)
  {
    ghost var arrival := Arriving(datapath.wire, Owned(slice), [Discarded]);
    ghost var supply, choice := datapath.Supplied(datapath.Grants(now)), datapath.Judge(arrival, Egress, now);
    ghost var flows := datapath.flows;
    var outcome;
    ghost var added;
    outcome, added := datapath.OnEgress(Owned(slice), now);
    CrossesFromEgress(datapath.wire, datapath.dns, datapath.excludedPlan, supply, slice, choice,
                      datapath.ceiling, datapath.bufferCapacity, flows, datapath.flows, outcome, added);
    sent := added.sent;
  }

  lemma {:induction false} PayloadsJoin(sent: seq<Transmit>, more: seq<Transmit>)
    ensures Payloads(sent + more) == Payloads(sent) + Payloads(more)
  {
  }

  /** The first half of a pass: every emit leaves for the network or goes in, and
      what goes in comes back as `MadeOf` says. */
  method TakeEmits(datapath: Datapath, emits: seq<Emit>, now: nat)
    returns (network: seq<seq<byte>>, ghost sent: seq<Transmit>)
    requires datapath.Valid() && Owns(datapath.books.hand, emits)
    modifies datapath, datapath.pool, datapath.icmp
    ensures datapath.Valid() && datapath.books.hand == HandAfter(old(datapath.books.hand), emits)
    ensures datapath.transmits == old(datapath.transmits) + sent && AllTo(sent, Tunnel)
    ensures datapath.excludedPlan == old(datapath.excludedPlan)
    ensures network == NetworkOf(emits) && Payloads(sent) == old(MadeOf(datapath, emits))
  {
    network, sent := [], [];
    var rest := emits;
    while rest != []
      invariant datapath.Valid() && Owns(datapath.books.hand, rest) && datapath.excludedPlan == old(datapath.excludedPlan)
      invariant HandAfter(datapath.books.hand, rest) == HandAfter(old(datapath.books.hand), emits)
      invariant datapath.transmits == old(datapath.transmits) + sent && AllTo(sent, Tunnel)
      invariant network + NetworkOf(rest) == NetworkOf(emits)
      invariant Payloads(sent) + MadeOf(datapath, rest) == old(MadeOf(datapath, emits))
      decreases |rest|
    {
      var out;
      ghost var more;
      ghost var after := MadeOf(datapath, rest[1..]);
      out, more := TakeEmit(datapath, rest[0], now);
      Regroup(old(datapath.transmits), sent, more);
      Regroup(network, out, NetworkOf(rest[1..]));
      PayloadsJoin(sent, more);
      Regroup(Payloads(sent), Payloads(more), after);
      network, sent, rest := network + out, sent + more, rest[1..];
    }
  }

  method FlushOne(datapath: Datapath) returns (transmit: Transmit)
    requires datapath.Valid() && datapath.transmits != []
    modifies datapath, datapath.pool
    ensures datapath.Valid() && datapath.books.hand == old(datapath.books.hand)
    ensures transmit == old(datapath.transmits)[0] && datapath.transmits == old(datapath.transmits)[1..]
  {
    var polled := datapath.PollTransmit();
    transmit := polled.value;
    datapath.Discard(transmit.bytes);
  }

  /** The second half: the transmits are emptied, in order, each slice returned. */
  method Flush(datapath: Datapath, carrier: Carrier, sent: Sent) returns (flushed: Sent)
    requires datapath.Valid()
    modifies datapath, datapath.pool
    ensures datapath.Valid() && datapath.books.hand == old(datapath.books.hand) && datapath.transmits == []
    ensures flushed == Flushed(sent, old(datapath.transmits), carrier)
  {
    flushed := sent;
    while datapath.transmits != []
      invariant datapath.Valid() && datapath.books.hand == old(datapath.books.hand)
      invariant Flushed(flushed, datapath.transmits, carrier) == Flushed(sent, old(datapath.transmits), carrier)
      decreases |datapath.transmits|
    {
      var transmit := FlushOne(datapath);
      flushed := Passed(flushed, transmit, carrier);
    }
  }

  lemma {:induction false} DeviceOfTunnelBound(sent: seq<Transmit>)
    requires AllTo(sent, Tunnel)
    ensures DeviceOf(sent) == Payloads(sent)
    decreases |sent|
  {
    if sent != [] {
      DeviceOfTunnelBound(sent[1..]);
      assert Payloads(sent) == [sent[0].bytes.bytes] + Payloads(sent[1..]);
    }
  }

  lemma {:induction false} DeviceJoins(transmits: seq<Transmit>, sent: seq<Transmit>)
    ensures DeviceOf(transmits + sent) == DeviceOf(transmits) + DeviceOf(sent)
    decreases |transmits|
  {
    if transmits == [] {
      assert transmits + sent == sent;
    } else {
      assert (transmits + sent)[1..] == transmits[1..] + sent;
      DeviceJoins(transmits[1..], sent);
    }
  }

  lemma {:induction false} NothingMadeOf(datapath: Datapath, emits: seq<Emit>)
    requires AllOuter(emits)
    ensures MadeOf(datapath, emits) == []
    decreases |emits|
  {
    if emits != [] {
      NothingMadeOf(datapath, emits[1..]);
    }
  }

  /** What flushing both the transmits there were and those added comes to. */
  lemma {:induction false} FlushedBoth(transmits: seq<Transmit>, sent: seq<Transmit>, carrier: Carrier, handed: nat)
    requires AllTo(sent, Tunnel)
    ensures var flushed := Flushed(Sent([], [], handed), transmits + sent, carrier);
      && flushed.carried == CarriedOf(transmits, carrier, handed)
      && flushed.device == DeviceOf(transmits) + Payloads(sent)
  {
    FlushedIs(Sent([], [], handed), transmits + sent, carrier);
    TunnelBoundIsNotCarried(transmits, sent, carrier, handed);
    DeviceJoins(transmits, sent);
    DeviceOfTunnelBound(sent);
  }

  /** One pass: the emits are taken, and the transmits flushed. */
  method Pass(datapath: Datapath, emits: seq<Emit>, carrier: Carrier, handed: nat, now: nat)
    returns (network: seq<seq<byte>>, flushed: Sent)
    requires datapath.Valid() && Owns(datapath.books.hand, emits)
    modifies datapath, datapath.pool, datapath.icmp
    ensures datapath.Valid() && datapath.transmits == []
    ensures datapath.books.hand == HandAfter(old(datapath.books.hand), emits)
    ensures network == NetworkOf(emits)
    ensures flushed.carried == CarriedOf(old(datapath.transmits), carrier, handed)
    ensures flushed.device == DeviceOf(old(datapath.transmits)) + old(MadeOf(datapath, emits))
  {
    ghost var sent;
    network, sent := TakeEmits(datapath, emits, now);
    flushed := Flush(datapath, carrier, Sent([], [], handed));
    FlushedBoth(old(datapath.transmits), sent, carrier, handed);
  }

  /** A pass with nothing in the datapath and only network packets to take. */
  method LastPass(datapath: Datapath, packets: seq<seq<byte>>, carrier: Carrier, handed: nat, now: nat)
    returns (network: seq<seq<byte>>, flushed: Sent)
    requires datapath.Valid() && datapath.transmits == []
    modifies datapath, datapath.pool, datapath.icmp
    ensures datapath.Valid() && datapath.transmits == [] && datapath.books.hand == old(datapath.books.hand)
    ensures network == packets && flushed.carried == [] && flushed.device == []
  {
    OuterIsNetwork(packets, datapath.books.hand);
    NothingMadeOf(datapath, Outer(packets));
    network, flushed := Pass(datapath, Outer(packets), carrier, handed, now);
  }

  /** `drain`: two passes at most, and a second exactly when the egress had
      something to carry. Everything the egress emitted for the network leaves,
      then everything it made of the egress-bound packets; the device gets what was
      tunnel-bound already, then what the tunnel emits became, all in order; and
      every slice involved is back in the pool. */
  method Drain(datapath: Datapath, emits: seq<Emit>, carrier: Carrier, now: nat)
    returns (passes: nat, network: seq<seq<byte>>, device: seq<seq<byte>>)
    requires datapath.Valid() && Owns(datapath.books.hand, emits)
    modifies datapath, datapath.pool, datapath.icmp
    ensures datapath.Valid() && datapath.transmits == []
    ensures datapath.books.hand == HandAfter(old(datapath.books.hand), emits)
    ensures passes == if CarriedOf(old(datapath.transmits), carrier, 0) == [] then 1 else 2
    ensures network == NetworkOf(emits) + CarriedOf(old(datapath.transmits), carrier, 0)
    ensures device == DeviceOf(old(datapath.transmits)) + old(MadeOf(datapath, emits))
  {
    var flushed;
    network, flushed := Pass(datapath, emits, carrier, 0, now);
    device, passes := flushed.device, 1;
    while flushed.carried != []
      invariant datapath.Valid() && datapath.transmits == []
      invariant datapath.books.hand == HandAfter(old(datapath.books.hand), emits)
      invariant network + flushed.carried == NetworkOf(emits) + CarriedOf(old(datapath.transmits), carrier, 0)
      invariant device == DeviceOf(old(datapath.transmits)) + old(MadeOf(datapath, emits))
      invariant passes == 1 ==> flushed.carried == CarriedOf(old(datapath.transmits), carrier, 0)
      invariant passes == 2 ==> flushed.carried == [] && CarriedOf(old(datapath.transmits), carrier, 0) != []
      invariant 1 <= passes <= 2
      decreases 2 - passes
    {
      var more;
      more, flushed := LastPass(datapath, flushed.carried, carrier, flushed.handed, now);
      network, device, passes := network + more, device + flushed.device, passes + 1;
    }
  }
}
