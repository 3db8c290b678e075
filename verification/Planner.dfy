/**
 * The flow planner: which packets are settled without a plan, which path a flow
 * takes, when its QUIC is steered to HTTP/2, and what a change of egress
 * properties does to a live flow.
 */
module Planner {
  import opened Bytes

  const MIN_QUIC_MTU: nat := 1200
  const MIN_IPV6_MTU: nat := 1280
  const DNS_PORT: nat := 53
  const HTTPS_PORT: nat := 443

  type u16 = x: int | 0 <= x < 0x1_0000

  type Mtu = x: int | MIN_IPV6_MTU <= x < 0x1_0000 witness MIN_IPV6_MTU

  datatype Accepts = IpPackets | Flows

  datatype DatagramFidelity = NoDatagrams | Emulated | Native

  datatype PathProperties = PathProperties(
    fidelity: DatagramFidelity,
    overhead: u16,
    maxDatagramSize: Option<u16>)

  datatype FilterPolicy = Unfiltered | InspectHttp

  datatype Inspection = Candidate | Excluded

  datatype DnsPolicy = Intercept | Forward

  datatype Backstop = Lapsed | Active

  datatype TransportPath = PacketFastPath(innerMtu: Mtu) | LocalTermination

  datatype SteeringReason = InspectionRequired | Fidelity | MtuBelowMinimum

  datatype QuicPolicy = PassThrough | SteerToHttp2(reason: SteeringReason)

  datatype FlowPlan = FlowPlan(transport: TransportPath, quic: QuicPolicy)

  datatype PlanError = OverheadExceedsPathMtu | InnerMtu(bytes: nat)

  datatype Planning = Planned(plan: FlowPlan) | Unplannable(error: PlanError)

  datatype Transport =
    | Tcp(source: u16, destination: u16)
    | Udp(source: u16, destination: u16)
    | Icmp(error: bool)
    | Other
    | Fragment

  datatype IngressAction =
    | Reassemble
    | ResolveDns
    | DropSteered
    | ForwardPacket(plan: FlowPlan)
    | OpenStream(plan: FlowPlan)
    | OpenDatagram(plan: FlowPlan)
    | HandleIcmp(plan: FlowPlan)
    | DropUnsupported

  datatype Admission = Settled(action: IngressAction) | Carried

  function Admit(transport: Transport, dns: DnsPolicy, backstop: Backstop): Admission {
    match transport
    case Fragment => Settled(Reassemble)
    case Other => Settled(DropUnsupported)
    case Udp(_, destination) =>
      if destination == DNS_PORT && dns == Intercept then Settled(ResolveDns)
      else if destination == HTTPS_PORT && backstop == Active then Settled(DropSteered)
      else Carried
    case Tcp(_, _) => Carried
    case Icmp(_) => Carried
  }

  function RoutePlanned(transport: Transport, plan: FlowPlan): IngressAction {
    if plan.transport.PacketFastPath? then ForwardPacket(plan)
    else match transport
      case Tcp(_, _) => OpenStream(plan)
      case Udp(_, _) => OpenDatagram(plan)
      case Icmp(_) => HandleIcmp(plan)
      case Other => DropUnsupported
      case Fragment => DropUnsupported
  }

  predicate Inspected(filter: FilterPolicy, inspection: Inspection) {
    filter == InspectHttp && inspection == Candidate
  }

  function PlanTransport(inspected: bool, accepts: Accepts, egress: PathProperties, pathMtu: Mtu): Planning {
    if inspected || accepts == Flows then Planned(FlowPlan(LocalTermination, PassThrough))
    else if pathMtu < egress.overhead then Unplannable(OverheadExceedsPathMtu)
    else if pathMtu - egress.overhead < MIN_IPV6_MTU then Unplannable(InnerMtu(pathMtu - egress.overhead))
    else Planned(FlowPlan(PacketFastPath(pathMtu - egress.overhead), PassThrough))
  }

  function QuicBudget(bytes: nat): Option<nat> {
    if bytes >= MIN_QUIC_MTU then Some(bytes) else None
  }

  function DatagramBudget(transport: TransportPath, egress: PathProperties): Option<nat> {
    match transport
    case PacketFastPath(innerMtu) => QuicBudget(innerMtu)
    case LocalTermination =>
      match egress.maxDatagramSize {
        case None => None
        case Some(size) => QuicBudget(size)
      }
  }

  function PlanFlow(filter: FilterPolicy, inspection: Inspection, accepts: Accepts,
                    egress: PathProperties, pathMtu: Mtu): Planning {
    var inspected := Inspected(filter, inspection);
    match PlanTransport(inspected, accepts, egress, pathMtu)
    case Unplannable(error) => Unplannable(error)
    case Planned(plan) =>
      var quic :=
        if inspected then SteerToHttp2(InspectionRequired)
        else if egress.fidelity != Native then SteerToHttp2(Fidelity)
        else if DatagramBudget(plan.transport, egress).None? then SteerToHttp2(MtuBelowMinimum)
        else PassThrough;
      Planned(FlowPlan(plan.transport, quic))
  }

  datatype Replanning =
    | Unchanged
    | Resteer(reason: SteeringReason, plan: FlowPlan)
    | Teardown
    | Failed(error: PlanError)

  function Replan(current: FlowPlan, filter: FilterPolicy, inspection: Inspection, accepts: Accepts,
                  next: PathProperties, pathMtu: Mtu): Replanning {
    var inspected := Inspected(filter, inspection);
    var flowLayer :=
      if current.transport.PacketFastPath? then IpPackets
      else if inspected then accepts
      else Flows;
    if accepts != flowLayer then Teardown
    else match PlanFlow(filter, inspection, accepts, next, pathMtu)
      case Unplannable(error) => Failed(error)
      case Planned(plan) =>
        if plan.transport.PacketFastPath? != current.transport.PacketFastPath? then Teardown
        else match (current.quic, plan.quic)
          case (PassThrough, SteerToHttp2(reason)) => Resteer(reason, plan)
          case (_, _) => Unchanged
  }

  /** QUIC is left alone exactly when the flow is not inspected, the egress is
      native, and on a terminated path it carries 1200-byte datagrams. A packet
      path always does, since no packet plan has an inner MTU below 1280. */
  lemma {:induction false} QuicPassesExactly(
      filter: FilterPolicy, inspection: Inspection, accepts: Accepts, egress: PathProperties, pathMtu: Mtu)
    requires PlanFlow(filter, inspection, accepts, egress, pathMtu).Planned?
    ensures var plan := PlanFlow(filter, inspection, accepts, egress, pathMtu).plan;
      && (plan.transport.LocalTermination? <==> Inspected(filter, inspection) || accepts == Flows)
      && (plan.transport.PacketFastPath? ==> plan.transport.innerMtu == pathMtu - egress.overhead)
      && (plan.quic == PassThrough <==>
            && !Inspected(filter, inspection)
            && egress.fidelity == Native
            && (accepts == IpPackets ||
                (egress.maxDatagramSize.Some? && egress.maxDatagramSize.value >= MIN_QUIC_MTU)))
  {
  }

  /** Planning fails exactly when a flow left on the packet path would have less
      than the IPv6 minimum. */
  lemma {:induction false} FailsExactly(
      filter: FilterPolicy, inspection: Inspection, accepts: Accepts, egress: PathProperties, pathMtu: Mtu)
    ensures PlanFlow(filter, inspection, accepts, egress, pathMtu).Unplannable? <==>
              && !Inspected(filter, inspection)
              && accepts == IpPackets
              && pathMtu < egress.overhead + MIN_IPV6_MTU
  {
  }

  /** What `Admit` lets through, a plan routes: never to reassembly or a drop, and
      to a flow exactly when it is TCP or UDP on a terminated path. */
  lemma {:induction false} CarriedIsRouted(transport: Transport, dns: DnsPolicy, backstop: Backstop, plan: FlowPlan)
    requires Admit(transport, dns, backstop) == Carried
    ensures var action := RoutePlanned(transport, plan);
      && (action.ForwardPacket? || action.OpenStream? || action.OpenDatagram? || action.HandleIcmp?)
      && action.plan == plan
      && (action.OpenStream? || action.OpenDatagram? <==> plan.transport.LocalTermination? && !transport.Icmp?)
  {
  }

  /** The plan a flow just received is not disturbed by the properties it was
      made for, and neither is the plan a re-steer hands out. */
  lemma {:induction false} ReplanSettles(
      current: FlowPlan, filter: FilterPolicy, inspection: Inspection, accepts: Accepts,
      next: PathProperties, pathMtu: Mtu)
    ensures var planning := PlanFlow(filter, inspection, accepts, next, pathMtu);
      planning.Planned? ==> Replan(planning.plan, filter, inspection, accepts, next, pathMtu) == Unchanged
    ensures var replanning := Replan(current, filter, inspection, accepts, next, pathMtu);
      replanning.Resteer? ==>
        && Replan(replanning.plan, filter, inspection, accepts, next, pathMtu) == Unchanged
        && replanning.plan.quic == SteerToHttp2(replanning.reason)
  {
  }

  /** Replanning every flow as one outside inspection, as the datapath does after
      a path change, leaves a plan alone under the very properties it was made
      for unless the flow was inspected on a packet egress: then it is torn down. */
  lemma {:induction false} ReplannedAsExcluded(
      filter: FilterPolicy, inspection: Inspection, accepts: Accepts, egress: PathProperties, pathMtu: Mtu)
    requires PlanFlow(filter, inspection, accepts, egress, pathMtu).Planned?
    ensures var plan := PlanFlow(filter, inspection, accepts, egress, pathMtu).plan;
            var replanning := Replan(plan, filter, Excluded, accepts, egress, pathMtu);
            && (replanning == Unchanged <==> !(Inspected(filter, inspection) && accepts == IpPackets))
            && (replanning != Unchanged ==> replanning == Teardown)
  {
  }

  /** A live flow on a terminated path survives exactly when the egress still
      takes flows, and is re-steered exactly when its QUIC passed and no longer can. */
  lemma {:induction false} TerminatedReplan(
      current: FlowPlan, filter: FilterPolicy, accepts: Accepts, next: PathProperties, pathMtu: Mtu)
    requires current.transport == LocalTermination
    ensures var replanning := Replan(current, filter, Excluded, accepts, next, pathMtu);
            var anew := PlanFlow(filter, Excluded, accepts, next, pathMtu);
            && (accepts == IpPackets <==> replanning == Teardown)
            && !replanning.Failed?
            && (accepts == Flows ==> anew.Planned? && anew.plan.transport == LocalTermination)
            && (replanning.Resteer? <==> accepts == Flows && current.quic == PassThrough && anew.plan.quic.SteerToHttp2?)
            && (replanning.Resteer? ==> replanning.plan == anew.plan && replanning.reason == anew.plan.quic.reason)
  {
  }

  /** A live flow on the packet path survives exactly when the egress still takes
      packets, the flow is still outside inspection and the new path holds IPv6. */
  lemma {:induction false} PacketReplan(
      current: FlowPlan, filter: FilterPolicy, inspection: Inspection, accepts: Accepts,
      next: PathProperties, pathMtu: Mtu)
    requires current.transport.PacketFastPath?
    ensures var replanning := Replan(current, filter, inspection, accepts, next, pathMtu);
            && (replanning == Teardown <==> accepts == Flows || Inspected(filter, inspection))
            && (replanning.Failed? <==>
                  accepts == IpPackets && !Inspected(filter, inspection) && pathMtu < next.overhead + MIN_IPV6_MTU)
            && (replanning.Resteer? ==> current.quic == PassThrough && replanning.plan.transport.PacketFastPath?)
  {
  }
}
