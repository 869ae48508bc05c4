/** Link-level diagnosis of one collected fabric against a declared topology. */
module Diagnosis {
  import opened Wrappers
  import opened Sorting
  import opened OperationalState
  import opened Detection

  // Declared topology

  datatype Endpoint = Endpoint(nodeId: string, interfaceName: string, address: string)
  datatype PhysicalLink = PhysicalLink(endA: Endpoint, endB: Endpoint)
  datatype EcmpExpectation =
    EcmpExpectation(nodeId: string, prefix: string, originNodeId: string, expectedPathCount: nat)

  datatype Topology = Topology(
    routerLinks: seq<PhysicalLink>,
    spines: set<string>,
    leaves: set<string>,
    hosts: seq<string>,
    expectations: seq<EcmpExpectation>)
  {
    /** Links join two different registered routers. */
    ghost predicate Valid() {
      forall i | 0 <= i < |routerLinks| :: RouterLink(routerLinks[i])
    }
  }

  predicate RouterLink(link: PhysicalLink) {
    && DeviceId(link.endA.nodeId).Some? && DeviceId(link.endB.nodeId).Some?
    && link.endA.nodeId != link.endB.nodeId
  }

  function Lab1(): Topology {
    Topology(
      [PhysicalLink(Endpoint("leaf-1", "eth1", "10.255.0.1"), Endpoint("spine-1", "eth1", "10.255.0.0")),
       PhysicalLink(Endpoint("leaf-1", "eth2", "10.255.0.3"), Endpoint("spine-2", "eth1", "10.255.0.2")),
       PhysicalLink(Endpoint("leaf-2", "eth1", "10.255.0.5"), Endpoint("spine-1", "eth2", "10.255.0.4")),
       PhysicalLink(Endpoint("leaf-2", "eth2", "10.255.0.7"), Endpoint("spine-2", "eth2", "10.255.0.6"))],
      {"spine-1", "spine-2"}, {"leaf-1", "leaf-2"}, ["host-1", "host-2"],
      [EcmpExpectation("leaf-1", "10.1.2.0/24", "leaf-2", 2), EcmpExpectation("leaf-2", "10.1.1.0/24", "leaf-1", 2)])
  }

  // Diagnoses

  datatype DiagnosisType = PhysicalLinkFailure | BgpSessionFailure | InsufficientEvidence
  datatype Confidence = HighConfidence | MediumConfidence | LowConfidence
  datatype EndInterface = EndUp | EndDown | EndUnknown
  datatype EndBgp = BgpIsDown | BgpIsEstablished | BgpIsOther | BgpIsUnknown
  datatype Role = Supports | Contradicts | Neutral

  datatype Observed =
    | InterfaceStateObserved(interfaceName: string, interfaceState: EndInterface)
    | BgpSessionObserved(neighborIp: string, bgpState: EndBgp, rawState: Option<string>)
    | AddressObserved(addressOf: string, declared: string, addresses: seq<string>, matches: Option<bool>)
    | NextHopObserved(nextHopIp: string, via: string, activeRouteCount: Option<nat>)
    | EcmpPathsObserved(prefix: string, paths: Option<nat>, expected: nat, linkNextHop: string, present: Option<bool>)
    | ReachabilityObserved(target: string, sent: Option<nat>, received: Option<nat>)

  datatype EvidenceItem = EvidenceItem(nodeId: string, subject: string, observed: Observed, role: Role)

  datatype SymptomKey = SymptomKey(deviceId: string, affectedResource: string)

  datatype Diagnosis = Diagnosis(
    diagnosisType: DiagnosisType,
    link: PhysicalLink,
    confidence: Option<Confidence>,
    evidence: seq<EvidenceItem>,
    symptomKeys: seq<SymptomKey>,
    collectionId: string,
    collectedAt: int)

  /** Written out here and not shared with the incident mapper: the engine imports no incident code. */
  function BgpNeighborResource(neighborIp: string): string {
    "bgp-neighbor:" + neighborIp
  }

  // What the fabric observed at one end of a link

  function FindNode(nodes: seq<NodeState>, nodeId: string): (r: Option<NodeState>)
    ensures r.Some? ==> r.value in nodes && r.value.nodeId == nodeId
    ensures r.None? ==> forall n | n in nodes :: n.nodeId != nodeId
  {
    if nodes == [] then None
    else if nodes[0].nodeId == nodeId then Some(nodes[0])
    else FindNode(nodes[1..], nodeId)
  }

  function FindInterface(interfaces: seq<InterfaceObservation>, name: string): (r: Option<InterfaceObservation>)
    ensures r.Some? ==> r.value in interfaces && r.value.name == name
    ensures r.None? ==> forall n | n in interfaces :: n.name != name
  {
    if interfaces == [] then None
    else if interfaces[0].name == name then Some(interfaces[0])
    else FindInterface(interfaces[1..], name)
  }

  function FindNeighbor(neighbors: seq<BgpNeighbor>, ip: string): (r: Option<BgpNeighbor>)
    ensures r.Some? ==> r.value in neighbors && r.value.neighborIp == ip
    ensures r.None? ==> forall n | n in neighbors :: n.neighborIp != ip
  {
    if neighbors == [] then None
    else if neighbors[0].neighborIp == ip then Some(neighbors[0])
    else FindNeighbor(neighbors[1..], ip)
  }

  datatype EndView = EndView(
    end: Endpoint,
    peer: Endpoint,
    node: Option<NodeState>,
    interface: Option<InterfaceObservation>,
    neighbor: Option<BgpNeighbor>)
  {
    function InterfaceState(): EndInterface {
      match interface
      case None => EndUnknown
      case Some(i) =>
        match i.operState
        case InterfaceUp => EndUp
        case InterfaceDown => EndDown
        case InterfaceUnknown => EndUnknown
    }

    function BgpState(): EndBgp {
      match neighbor
      case None => BgpIsUnknown
      case Some(n) =>
        match n.state
        case Idle => BgpIsDown
        case Active => BgpIsDown
        case Established => BgpIsEstablished
        case Connect => BgpIsOther
        case OpenSent => BgpIsOther
        case OpenConfirm => BgpIsOther
        case UnknownState => BgpIsUnknown
    }
  }

  function View(fabric: Fabric, end: Endpoint, peer: Endpoint): EndView {
    match FindNode(fabric.nodes, end.nodeId)
    case None => EndView(end, peer, None, None, None)
    case Some(node) =>
      EndView(end, peer, Some(node),
              if Interfaces in node.unavailable then None else FindInterface(node.interfaces, end.interfaceName),
              if node.bgp.None? then None else FindNeighbor(node.bgp.value.neighbors, peer.address))
  }

  function IPv4Of(addresses: seq<InterfaceAddress>): seq<string> {
    if addresses == [] then []
    else if addresses[0].IPv4Address? then [addresses[0].ip] + IPv4Of(addresses[1..])
    else IPv4Of(addresses[1..])
  }

  function ObservedIPv4(interface: InterfaceObservation): seq<string> {
    Sort(StringLe, IPv4Of(interface.addresses))
  }

  // Evidence

  function InterfaceRole(t: DiagnosisType, state: EndInterface): Role {
    match t
    case PhysicalLinkFailure => if state.EndDown? then Supports else if state.EndUp? then Contradicts else Neutral
    case BgpSessionFailure => if state.EndUp? then Supports else if state.EndDown? then Contradicts else Neutral
    case InsufficientEvidence => if state.EndDown? then Supports else Neutral
  }

  function InterfaceItem(t: DiagnosisType, v: EndView): EvidenceItem {
    EvidenceItem(v.end.nodeId, v.end.interfaceName,
                 InterfaceStateObserved(v.end.interfaceName, v.InterfaceState()), InterfaceRole(t, v.InterfaceState()))
  }

  function BgpItem(v: EndView): EvidenceItem {
    EvidenceItem(v.end.nodeId, BgpNeighborResource(v.peer.address),
                 BgpSessionObserved(v.peer.address, v.BgpState(),
                                    if v.neighbor.Some? then v.neighbor.value.rawState else None),
                 if v.BgpState().BgpIsDown? then Supports
                 else if v.BgpState().BgpIsEstablished? then Contradicts else Neutral)
  }

  /** `None` when no IPv4 address was observed: absence is not a conflict. */
  function AddressMatches(v: EndView): (seq<string>, Option<bool>) {
    if v.interface.None? then ([], None)
    else
      var observed := ObservedIPv4(v.interface.value);
      if observed == [] then ([], None) else (observed, Some(v.end.address in observed))
  }

  function AddressItem(v: EndView): EvidenceItem {
    var (observed, matches) := AddressMatches(v);
    EvidenceItem(v.end.nodeId, v.end.interfaceName,
                 AddressObserved(v.end.interfaceName, v.end.address, observed, matches),
                 if matches.None? then Neutral else if matches.value then Supports else Contradicts)
  }

  /** What can be asked of one route. */
  datatype RouteQuery = UsesHop(hop: string) | BgpPaths(prefix: string) | BgpPathVia(prefix: string, hop: string)

  function Weight(route: Route, q: RouteQuery): nat {
    match q
    case UsesHop(hop) => if exists h | h in route.nextHops :: h.ip == Some(hop) then 1 else 0
    case BgpPaths(prefix) => if route.prefix == prefix && route.protocol == "bgp" then |route.nextHops| else 0
    case BgpPathVia(prefix, hop) =>
      if route.prefix == prefix && route.protocol == "bgp" && exists h | h in route.nextHops :: h.ip == Some(hop)
      then 1 else 0
  }

  function Total(routes: seq<Route>, q: RouteQuery): nat {
    if routes == [] then 0 else Weight(routes[0], q) + Total(routes[1..], q)
  }

  function Asked(node: Option<NodeState>, q: RouteQuery): Option<nat> {
    if node.None? || Routes in node.value.unavailable then None else Some(Total(node.value.routes, q))
  }

  function NextHopItem(v: EndView): EvidenceItem {
    var count := Asked(v.node, UsesHop(v.peer.address));
    EvidenceItem(v.end.nodeId, "next-hop:" + v.peer.address,
                 NextHopObserved(v.peer.address, v.end.interfaceName, count),
                 if count == Some(0) then Supports else Neutral)
  }

  /** The next hop toward the spine of `link` that losing it takes from the expectation, if any. */
  function LostNextHop(t: Topology, e: EcmpExpectation, link: PhysicalLink): Option<string> {
    var (a, b) := (link.endA.nodeId, link.endB.nodeId);
    if (a in t.spines) == (b in t.spines) || (a in t.leaves) == (b in t.leaves) then None
    else
      var spine, leaf := if a in t.spines then a else b, if a in t.leaves then a else b;
      if leaf != e.nodeId && leaf != e.originNodeId then None
      else SpineAddress(t.routerLinks, e.nodeId, spine)
  }

  function SpineAddress(links: seq<PhysicalLink>, nodeId: string, spine: string): Option<string> {
    if links == [] then None
    else if links[0].endA.nodeId == nodeId && links[0].endB.nodeId == spine then Some(links[0].endB.address)
    else if links[0].endB.nodeId == nodeId && links[0].endA.nodeId == spine then Some(links[0].endA.address)
    else SpineAddress(links[1..], nodeId, spine)
  }

  function EcmpItem(nodes: seq<NodeState>, e: EcmpExpectation, hop: string): EvidenceItem {
    var node := FindNode(nodes, e.nodeId);
    var via := Asked(node, BgpPathVia(e.prefix, hop));
    var present := if via.None? then None else Some(via.value > 0);
    EvidenceItem(e.nodeId, e.prefix,
                 EcmpPathsObserved(e.prefix, Asked(node, BgpPaths(e.prefix)), e.expectedPathCount, hop, present),
                 if present == Some(false) then Supports else Neutral)
  }

  function EcmpItems(t: Topology, nodes: seq<NodeState>, link: PhysicalLink, n: nat): seq<EvidenceItem>
    requires n <= |t.expectations|
  {
    if n == 0 then []
    else
      var before, hop := EcmpItems(t, nodes, link, n - 1), LostNextHop(t, t.expectations[n - 1], link);
      if hop.None? then before else before + [EcmpItem(nodes, t.expectations[n - 1], hop.value)]
  }

  function ProbeItems(hostId: string, probes: seq<Probe>): seq<EvidenceItem> {
    if probes == [] then []
    else
      var p := probes[|probes| - 1];
      ProbeItems(hostId, probes[..|probes| - 1])
      + [EvidenceItem(hostId, p.target, ReachabilityObserved(p.target, Some(p.sent), Some(p.received)),
                      if p.received == p.sent then Neutral else Supports)]
  }

  function HostItems(nodes: seq<NodeState>, hostId: string): seq<EvidenceItem> {
    var node := FindNode(nodes, hostId);
    if node.None? || Reachability in node.value.unavailable || node.value.reachability == [] then
      [EvidenceItem(hostId, "reachability", ReachabilityObserved("", None, None), Neutral)]
    else ProbeItems(hostId, node.value.reachability)
  }

  function ReachabilityItems(nodes: seq<NodeState>, hosts: seq<string>): seq<EvidenceItem> {
    if hosts == [] then []
    else ReachabilityItems(nodes, hosts[..|hosts| - 1]) + HostItems(nodes, hosts[|hosts| - 1])
  }

  // Classification

  function PhysicalConfidence(a: EndView, b: EndView): Confidence {
    var bgpDown := a.BgpState().BgpIsDown? || b.BgpState().BgpIsDown?;
    if a.InterfaceState().EndDown? && b.InterfaceState().EndDown? then
      if bgpDown then HighConfidence else MediumConfidence
    else if bgpDown then MediumConfidence else LowConfidence
  }

  function SessionConfidence(a: EndView, b: EndView): Confidence {
    if a.BgpState().BgpIsDown? && b.BgpState().BgpIsDown? then HighConfidence else MediumConfidence
  }

  predicate InterfaceSymptom(a: EndView, b: EndView) {
    a.InterfaceState().EndDown? || b.InterfaceState().EndDown?
  }

  predicate BgpSymptom(a: EndView, b: EndView) {
    a.BgpState().BgpIsDown? || b.BgpState().BgpIsDown?
  }

  function Classify(a: EndView, b: EndView): (DiagnosisType, Option<Confidence>) {
    var established := a.BgpState().BgpIsEstablished? || b.BgpState().BgpIsEstablished?;
    if InterfaceSymptom(a, b) && !established then (PhysicalLinkFailure, Some(PhysicalConfidence(a, b)))
    else if a.InterfaceState().EndUp? && b.InterfaceState().EndUp? && BgpSymptom(a, b) && !established then
      (BgpSessionFailure, Some(SessionConfidence(a, b)))
    else (InsufficientEvidence, None)
  }

  /** An address conflict at either end caps the confidence at medium. */
  function Capped(c: Option<Confidence>, a: EndView, b: EndView): Option<Confidence> {
    if c == Some(HighConfidence) && (AddressItem(a).role.Contradicts? || AddressItem(b).role.Contradicts?)
    then Some(MediumConfidence) else c
  }

  function KeyOf(v: EndView): SymptomKey
    requires DeviceId(v.end.nodeId).Some?
  {
    SymptomKey(DeviceId(v.end.nodeId).value, BgpNeighborResource(v.peer.address))
  }

  predicate KeyLe(a: SymptomKey, b: SymptomKey) {
    if a.deviceId != b.deviceId then StringLe(a.deviceId, b.deviceId)
    else StringLe(a.affectedResource, b.affectedResource)
  }

  /** The set of keys of the ends whose session is down, in (device, resource) order. */
  function SymptomKeys(a: EndView, b: EndView): seq<SymptomKey>
    requires DeviceId(a.end.nodeId).Some? && DeviceId(b.end.nodeId).Some?
  {
    if a.BgpState().BgpIsDown? && b.BgpState().BgpIsDown? then
      if KeyOf(a) == KeyOf(b) then [KeyOf(a)] else Sort(KeyLe, [KeyOf(a), KeyOf(b)])
    else if a.BgpState().BgpIsDown? then [KeyOf(a)]
    else if b.BgpState().BgpIsDown? then [KeyOf(b)]
    else []
  }

  function KindOrder(o: Observed): nat {
    match o
    case InterfaceStateObserved(_, _) => 0
    case BgpSessionObserved(_, _, _) => 1
    case AddressObserved(_, _, _, _) => 2
    case NextHopObserved(_, _, _) => 3
    case EcmpPathsObserved(_, _, _, _, _) => 4
    case ReachabilityObserved(_, _, _) => 5
  }

  predicate EvidenceLe(x: EvidenceItem, y: EvidenceItem) {
    if KindOrder(x.observed) != KindOrder(y.observed) then KindOrder(x.observed) < KindOrder(y.observed)
    else if x.nodeId != y.nodeId then StringLe(x.nodeId, y.nodeId)
    else StringLe(x.subject, y.subject)
  }

  function LinkEvidence(t: Topology, fabric: Fabric, link: PhysicalLink, a: EndView, b: EndView): seq<EvidenceItem> {
    var dtype := Classify(a, b).0;
    var items := [InterfaceItem(dtype, a), InterfaceItem(dtype, b), BgpItem(a), BgpItem(b),
                  AddressItem(a), AddressItem(b)];
    if dtype.InsufficientEvidence? then items
    else
      items + [NextHopItem(a), NextHopItem(b)]
      + EcmpItems(t, fabric.nodes, link, |t.expectations|)
      + ReachabilityItems(fabric.nodes, t.hosts)
  }

  function DiagnoseLink(t: Topology, fabric: Fabric, link: PhysicalLink): Option<Diagnosis>
    requires RouterLink(link)
  {
    var a, b := View(fabric, link.endA, link.endB), View(fabric, link.endB, link.endA);
    if !InterfaceSymptom(a, b) && !BgpSymptom(a, b) then None
    else
      var (dtype, confidence) := Classify(a, b);
      Some(Diagnosis(dtype, link, Capped(confidence, a, b),
                     Sort(EvidenceLe, LinkEvidence(t, fabric, link, a, b)),
                     SymptomKeys(a, b), fabric.collectionId, fabric.collectedAt))
  }

  function ResourceId(link: PhysicalLink): string {
    link.endA.nodeId + ":" + link.endA.interfaceName + "--" + link.endB.nodeId + ":" + link.endB.interfaceName
  }

  predicate DiagnosisLe(x: Diagnosis, y: Diagnosis) {
    StringLe(ResourceId(x.link), ResourceId(y.link))
  }

  function DiagnoseLinks(t: Topology, fabric: Fabric, links: seq<PhysicalLink>): seq<Diagnosis>
    requires forall i | 0 <= i < |links| :: RouterLink(links[i])
  {
    if links == [] then []
    else
      var n := |links| - 1;
      var before, here := DiagnoseLinks(t, fabric, links[..n]), DiagnoseLink(t, fabric, links[n]);
      if here.None? then before else before + [here.value]
  }

  function Diagnose(t: Topology, fabric: Fabric): seq<Diagnosis>
    requires t.Valid()
  {
    Sort(DiagnosisLe, DiagnoseLinks(t, fabric, t.routerLinks))
  }

  // The verdict, stated on what the fabric observed

  lemma UniqueNode(f: Fabric, m: NodeState)
    requires f.Valid() && m in f.nodes
    ensures FindNode(f.nodes, m.nodeId) == Some(m) && m.Valid()
  {
    var i :| 0 <= i < |f.nodes| && f.nodes[i] == m;
    var found := FindNode(f.nodes, m.nodeId);
    assert found.Some?;
    var k :| 0 <= k < |f.nodes| && f.nodes[k] == found.value;
    assert k == i;
  }

  /** The fabric observed the interface of an end in this state. */
  ghost predicate InterfaceSeen(f: Fabric, end: Endpoint, state: InterfaceOperState) {
    exists n, i :: n in f.nodes && n.nodeId == end.nodeId
                   && i in n.interfaces && i.name == end.interfaceName && i.operState == state
  }

  /** The fabric observed the session of an end with its peer in one of these states. */
  ghost predicate SessionSeen(f: Fabric, end: Endpoint, peer: Endpoint, states: set<BgpSessionState>) {
    exists n, x :: n in f.nodes && n.nodeId == end.nodeId && n.bgp.Some?
                   && x in n.bgp.value.neighbors && x.neighborIp == peer.address && x.state in states
  }

  /** The fabric observed IPv4 addresses on the interface of an end, but not the declared one. */
  ghost predicate WrongAddress(f: Fabric, end: Endpoint) {
    exists n, i :: n in f.nodes && n.nodeId == end.nodeId && i in n.interfaces && i.name == end.interfaceName
                   && HasIPv4(i.addresses)
                   && forall a | a in i.addresses && a.IPv4Address? :: a.ip != end.address
  }

  ghost predicate HasIPv4(addresses: seq<InterfaceAddress>) {
    exists a :: a in addresses && a.IPv4Address?
  }

  /** The whole verdict on a link: an interface down or a session Idle or Active is a symptom; an
      established session at either end leaves it inconclusive; a wrong address takes certainty away. */
  ghost predicate VerdictIs(f: Fabric, link: PhysicalLink, d: Option<Diagnosis>)
    requires RouterLink(link)
  {
    var (a, b) := (link.endA, link.endB);
    var downA, downB := InterfaceSeen(f, a, InterfaceDown), InterfaceSeen(f, b, InterfaceDown);
    var upA, upB := InterfaceSeen(f, a, InterfaceUp), InterfaceSeen(f, b, InterfaceUp);
    var idleA, idleB := SessionSeen(f, a, b, {Idle, Active}), SessionSeen(f, b, a, {Idle, Active});
    var established := SessionSeen(f, a, b, {Established}) || SessionSeen(f, b, a, {Established});
    var wrong := WrongAddress(f, a) || WrongAddress(f, b);
    && (d.Some? <==> downA || downB || idleA || idleB)
    && (d.Some? ==>
          && d.value.link == link && d.value.collectionId == f.collectionId && d.value.collectedAt == f.collectedAt
          && (d.value.diagnosisType.PhysicalLinkFailure? <==> (downA || downB) && !established)
          && (d.value.diagnosisType.BgpSessionFailure? <==> upA && upB && (idleA || idleB) && !established)
          && (d.value.confidence == None <==> d.value.diagnosisType.InsufficientEvidence?)
          && (d.value.diagnosisType.PhysicalLinkFailure? ==>
                && (d.value.confidence == Some(HighConfidence) <==> downA && downB && (idleA || idleB) && !wrong)
                && (d.value.confidence == Some(LowConfidence) <==> !(downA && downB) && !(idleA || idleB)))
          && (d.value.diagnosisType.BgpSessionFailure? ==>
                && (d.value.confidence == Some(HighConfidence) <==> idleA && idleB && !wrong)
                && d.value.confidence != Some(LowConfidence))
          && (forall k :: k in d.value.symptomKeys <==>
                || (idleA && k == SymptomKey(DeviceId(a.nodeId).value, "bgp-neighbor:" + b.address))
                || (idleB && k == SymptomKey(DeviceId(b.nodeId).value, "bgp-neighbor:" + a.address)))
          && KeysInOrder(d.value.symptomKeys))
  }

  /** Each once, in the order of the devices. */
  ghost predicate KeysInOrder(keys: seq<SymptomKey>) {
    forall i, j | 0 <= i < j < |keys| ::
      keys[i].deviceId != keys[j].deviceId && StringLe(keys[i].deviceId, keys[j].deviceId)
  }

  lemma {:induction false} IPv4OfHas(addresses: seq<InterfaceAddress>, ip: string)
    ensures ip in IPv4Of(addresses) <==> exists a :: a in addresses && a.IPv4Address? && a.ip == ip
    ensures IPv4Of(addresses) != [] <==> HasIPv4(addresses)
  {
    if addresses != [] {
      IPv4OfHas(addresses[1..], ip);
      assert forall a :: a in addresses <==> a == addresses[0] || a in addresses[1..];
    }
  }

  lemma WrongAddressItem(v: EndView)
    ensures AddressItem(v).role.Contradicts? <==>
            && v.interface.Some? && HasIPv4(v.interface.value.addresses)
            && forall a | a in v.interface.value.addresses && a.IPv4Address? :: a.ip != v.end.address
  {
    if v.interface.Some? {
      var addresses := v.interface.value.addresses;
      SortPermutes(StringLe, IPv4Of(addresses));
      SameMembers(ObservedIPv4(v.interface.value), IPv4Of(addresses));
      IPv4OfHas(addresses, v.end.address);
      assert |multiset(IPv4Of(addresses))| == |IPv4Of(addresses)|;
      assert |multiset(ObservedIPv4(v.interface.value))| == |ObservedIPv4(v.interface.value)|;
    }
  }

  /** The view of an end is the one node, interface and neighbor that carry its names. */
  lemma ViewIsUnique(f: Fabric, end: Endpoint, peer: Endpoint)
    requires f.Valid()
    ensures var v := View(f, end, peer);
            && v.end == end && v.peer == peer
            && (forall n, i | n in f.nodes && n.nodeId == end.nodeId && i in n.interfaces
                && i.name == end.interfaceName ::
                  v.interface == Some(i))
            && (forall n, x | n in f.nodes && n.nodeId == end.nodeId && n.bgp.Some? && x in n.bgp.value.neighbors
                              && x.neighborIp == peer.address :: v.neighbor == Some(x))
            && (v.interface.Some? ==>
                  exists n :: n in f.nodes && n.nodeId == end.nodeId && v.interface.value in n.interfaces
                              && v.interface.value.name == end.interfaceName)
            && (v.neighbor.Some? ==>
                  exists n :: n in f.nodes && n.nodeId == end.nodeId && n.bgp.Some?
                              && v.neighbor.value in n.bgp.value.neighbors
                                  && v.neighbor.value.neighborIp == peer.address)
  {
    hide FindNode, FindInterface, FindNeighbor;
    forall n | n in f.nodes && n.nodeId == end.nodeId
      ensures FindNode(f.nodes, end.nodeId) == Some(n) && n.Valid()
    {
      UniqueNode(f, n);
    }
    var found := FindNode(f.nodes, end.nodeId);
    if found.Some? {
      var n := found.value;
      forall i | i in n.interfaces && i.name == end.interfaceName
        ensures FindInterface(n.interfaces, end.interfaceName) == Some(i)
      {
        InterfaceIsUnique(n, i);
      }
      forall x | n.bgp.Some? && x in n.bgp.value.neighbors && x.neighborIp == peer.address
        ensures FindNeighbor(n.bgp.value.neighbors, peer.address) == Some(x)
      {
        NeighborIsUnique(n, x);
      }
    }
  }

  lemma InterfaceIsUnique(n: NodeState, i: InterfaceObservation)
    requires n.Valid() && i in n.interfaces
    ensures FindInterface(n.interfaces, i.name) == Some(i)
  {
    hide FindInterface;
    var k :| 0 <= k < |n.interfaces| && n.interfaces[k] == i;
    var found := FindInterface(n.interfaces, i.name);
    assert found.Some?;
    var j :| 0 <= j < |n.interfaces| && n.interfaces[j] == found.value;
    assert j == k;
  }

  lemma NeighborIsUnique(n: NodeState, x: BgpNeighbor)
    requires n.Valid() && n.bgp.Some? && x in n.bgp.value.neighbors
    ensures FindNeighbor(n.bgp.value.neighbors, x.neighborIp) == Some(x)
  {
    hide FindNeighbor;
    var all := n.bgp.value.neighbors;
    assert n.bgp.value.Valid();
    var k :| 0 <= k < |all| && all[k] == x;
    var found := FindNeighbor(all, x.neighborIp);
    assert found.Some?;
    var j :| 0 <= j < |all| && all[j] == found.value;
    assert j == k;
  }

  lemma ViewSees(f: Fabric, end: Endpoint, peer: Endpoint)
    requires f.Valid()
    ensures var v := View(f, end, peer);
            && v.end == end && v.peer == peer
            && (v.InterfaceState().EndDown? <==> InterfaceSeen(f, end, InterfaceDown))
            && (v.InterfaceState().EndUp? <==> InterfaceSeen(f, end, InterfaceUp))
            && (v.BgpState().BgpIsDown? <==> SessionSeen(f, end, peer, {Idle, Active}))
            && (v.BgpState().BgpIsEstablished? <==> SessionSeen(f, end, peer, {Established}))
            && (AddressItem(v).role.Contradicts? <==> WrongAddress(f, end))
  {
    hide View, AddressItem, HasIPv4;
    ViewIsUnique(f, end, peer);
    WrongAddressItem(View(f, end, peer));
  }

  lemma SymptomKeysAre(a: EndView, b: EndView, k: SymptomKey)
    requires DeviceId(a.end.nodeId).Some? && DeviceId(b.end.nodeId).Some?
    ensures k in SymptomKeys(a, b) <==>
            (a.BgpState().BgpIsDown? && k == KeyOf(a)) || (b.BgpState().BgpIsDown? && k == KeyOf(b))
  {
    hide EndView.BgpState, KeyOf, KeyLe, Sort;
    var both := [KeyOf(a), KeyOf(b)];
    SortPermutes(KeyLe, both);
    SameMembers(Sort(KeyLe, both), both);
    assert forall x :: x in both <==> x == both[0] || x == both[1];
  }

  lemma SortTwo<T>(le: (T, T) -> bool, x: T, y: T)
    ensures Sort(le, [x, y]) == if le(x, y) then [x, y] else [y, x]
  {
    assert [x, y][1..] == [y] && [y][1..] == [];
    assert Sort(le, [y]) == [y] && Insert(le, x, []) == [x];
    assert [x] + [y] == [x, y] && [y] + [x] == [y, x];
  }

  lemma SymptomKeysInOrder(a: EndView, b: EndView)
    requires DeviceId(a.end.nodeId).Some? && DeviceId(b.end.nodeId).Some? && a.end.nodeId != b.end.nodeId
    ensures KeysInOrder(SymptomKeys(a, b))
  {
    hide EndView.BgpState, DeviceId, BgpNeighborResource, StringLe, Sort;
    if KeyOf(a).deviceId == KeyOf(b).deviceId { DeviceIdInjective(a.end.nodeId, b.end.nodeId); }
    StringOrder();
    SortTwo(KeyLe, KeyOf(a), KeyOf(b));
    assert StringLe(KeyOf(a).deviceId, KeyOf(b).deviceId) || StringLe(KeyOf(b).deviceId, KeyOf(a).deviceId);
  }

  /** For every valid fabric and every link of two routers the diagnosis is the one in the table. */
  lemma DiagnoseLinkIsExact(t: Topology, f: Fabric, link: PhysicalLink)
    requires f.Valid() && RouterLink(link)
    ensures VerdictIs(f, link, DiagnoseLink(t, f, link))
  {
    hide View, EndView.InterfaceState, EndView.BgpState, AddressItem, SymptomKeys, LinkEvidence, Sort, DeviceId;
    hide InterfaceSeen, SessionSeen, WrongAddress, KeysInOrder;
    var a, b := View(f, link.endA, link.endB), View(f, link.endB, link.endA);
    ViewSees(f, link.endA, link.endB);
    ViewSees(f, link.endB, link.endA);
    SymptomKeysInOrder(a, b);
    forall k ensures k in SymptomKeys(a, b) <==>
                     (a.BgpState().BgpIsDown? && k == KeyOf(a)) || (b.BgpState().BgpIsDown? && k == KeyOf(b)) {
      SymptomKeysAre(a, b, k);
    }
  }

  lemma VerdictOfValid(t: Topology, f: Fabric, link: PhysicalLink)
    requires RouterLink(link)
    ensures f.Valid() ==> VerdictIs(f, link, DiagnoseLink(t, f, link))
  {
    hide *;
    if f.Valid() { DiagnoseLinkIsExact(t, f, link); }
  }

  /** Every diagnosis is that of a declared link, every link with a symptom has one, there are as many as
      such links, and they are in the order of the identifiers of their links. */
  ghost predicate VerdictsAre(t: Topology, f: Fabric, diagnoses: seq<Diagnosis>)
    requires t.Valid()
  {
    && (forall d | d in diagnoses :: d.link in t.routerLinks && RouterLink(d.link) && VerdictIs(f, d.link, Some(d)))
    && (forall link | link in t.routerLinks && RouterLink(link) ::
          VerdictIs(f, link, None) || exists d :: d in diagnoses && d.link == link)
    && |diagnoses| == Symptomatic(f, t.routerLinks)
    && forall i, j | 0 <= i < j < |diagnoses| ::
         var (x, y) := (diagnoses[i].link, diagnoses[j].link);
         StringLe(
           x.endA.nodeId + ":" + x.endA.interfaceName + "--" + x.endB.nodeId + ":" + x.endB.interfaceName,
           y.endA.nodeId + ":" + y.endA.interfaceName + "--" + y.endB.nodeId + ":" + y.endB.interfaceName)
  }

  ghost function Symptomatic(f: Fabric, links: seq<PhysicalLink>): nat {
    if links == [] then 0
    else
      var last := links[|links| - 1];
      Symptomatic(f, links[..|links| - 1]) + if RouterLink(last) && !VerdictIs(f, last, None) then 1 else 0
  }

  lemma {:induction false} DiagnoseLinksAre(t: Topology, f: Fabric, links: seq<PhysicalLink>)
    requires f.Valid() && forall i | 0 <= i < |links| :: RouterLink(links[i])
    ensures var ds := DiagnoseLinks(t, f, links);
            && (forall d | d in ds :: d.link in links && RouterLink(d.link) && VerdictIs(f, d.link, Some(d)))
            && (forall link | link in links && RouterLink(link) ::
                  VerdictIs(f, link, None) || exists d :: d in ds && d.link == link)
            && |ds| == Symptomatic(f, links)
  {
    hide VerdictIs, DiagnoseLink, RouterLink;
    if links != [] {
      var front, last := links[..|links| - 1], links[|links| - 1];
      DiagnoseLinksAre(t, f, front);
      DiagnoseLinkIsExact(t, f, last);
      var here, before := DiagnoseLink(t, f, last), DiagnoseLinks(t, f, front);
      VerdictTells(f, last, here);
      assert links == front + [last];
      var ds := DiagnoseLinks(t, f, links);
      assert ds == if here.None? then before else before + [here.value];
      forall link | link in links && RouterLink(link)
        ensures VerdictIs(f, link, None) || exists d :: d in ds && d.link == link
      {
        if link != last && !VerdictIs(f, link, None) {
          var d :| d in before && d.link == link;
          assert d in ds;
        } else if here.Some? {
          assert here.value in ds;
        }
      }
    }
  }

  lemma VerdictTells(f: Fabric, link: PhysicalLink, d: Option<Diagnosis>)
    requires RouterLink(link) && VerdictIs(f, link, d)
    ensures d.Some? ==> d.value.link == link && !VerdictIs(f, link, None)
  {
    hide InterfaceSeen, SessionSeen, WrongAddress, DeviceId;
  }

  lemma VerdictsOfValid(t: Topology, f: Fabric)
    requires t.Valid()
    ensures f.Valid() ==> VerdictsAre(t, f, Diagnose(t, f))
  {
    hide VerdictIs, DiagnoseLinks, Symptomatic, Fabric.Valid, Sort;
    if f.Valid() {
      var ds := DiagnoseLinks(t, f, t.routerLinks);
      DiagnoseLinksAre(t, f, t.routerLinks);
      StringOrder();
      SortSorted(DiagnosisLe, ds);
      SortPermutes(DiagnosisLe, ds);
      SameMembers(Sort(DiagnosisLe, ds), ds);
      assert |multiset(Sort(DiagnosisLe, ds))| == |Sort(DiagnosisLe, ds)| && |multiset(ds)| == |ds|;
      SortedByIds(Sort(DiagnosisLe, ds));
    }
  }

  lemma SortedByIds(ds: seq<Diagnosis>)
    requires SortedBy(DiagnosisLe, ds)
    ensures forall i, j | 0 <= i < j < |ds| ::
              var (x, y) := (ds[i].link, ds[j].link);
              StringLe(
                x.endA.nodeId + ":" + x.endA.interfaceName + "--" + x.endB.nodeId + ":" + x.endB.interfaceName,
                y.endA.nodeId + ":" + y.endA.interfaceName + "--" + y.endB.nodeId + ":" + y.endB.interfaceName)
  {
    hide StringLe;
    forall i, j | 0 <= i < j < |ds| ensures DiagnosisLe(ds[i], ds[j]) {}
  }

  // The loops that build and sort the lists

  method EcmpEvidence(t: Topology, nodes: seq<NodeState>, link: PhysicalLink) returns (items: seq<EvidenceItem>)
    ensures items == EcmpItems(t, nodes, link, |t.expectations|)
  {
    items := [];
    for i := 0 to |t.expectations|
      invariant items == EcmpItems(t, nodes, link, i)
    {
      var hop := LostNextHop(t, t.expectations[i], link);
      if hop.None? {
        continue;
      }
      items := items + [EcmpItem(nodes, t.expectations[i], hop.value)];
    }
  }

  method ReachabilityEvidence(nodes: seq<NodeState>, hosts: seq<string>) returns (items: seq<EvidenceItem>)
    ensures items == ReachabilityItems(nodes, hosts)
  {
    items := [];
    for i := 0 to |hosts|
      invariant items == ReachabilityItems(nodes, hosts[..i])
    {
      assert hosts[..i + 1][..i] == hosts[..i];
      var node := FindNode(nodes, hosts[i]);
      if node.None? || Reachability in node.value.unavailable || node.value.reachability == [] {
        items := items + [EvidenceItem(hosts[i], "reachability", ReachabilityObserved("", None, None), Neutral)];
        continue;
      }
      var probes := node.value.reachability;
      ghost var before := items;
      assert before + [] == before;
      for j := 0 to |probes|
        invariant items == before + ProbeItems(hosts[i], probes[..j])
      {
        assert probes[..j + 1][..j] == probes[..j];
        var p := probes[j];
        items := items + [EvidenceItem(hosts[i], p.target,
                                       ReachabilityObserved(p.target, Some(p.sent), Some(p.received)),
                                       if p.received == p.sent then Neutral else Supports)];
      }
      assert probes[..|probes|] == probes;
    }
    assert hosts[..|hosts|] == hosts;
  }

  /** `_diagnose_link` */
  method LinkDiagnosis(t: Topology, fabric: Fabric, link: PhysicalLink) returns (d: Option<Diagnosis>)
    requires RouterLink(link)
    ensures d == DiagnoseLink(t, fabric, link)
    ensures fabric.Valid() ==> VerdictIs(fabric, link, d)
  {
    hide VerdictIs, Fabric.Valid, NodeState.Valid;
    VerdictOfValid(t, fabric, link);
    hide FindNode, FindInterface, FindNeighbor, InterfaceItem, BgpItem, AddressItem, NextHopItem, EcmpItems;
    hide ReachabilityItems, Classify, SymptomKeys, InterfaceSymptom, BgpSymptom, Sort;
    var a, b := View(fabric, link.endA, link.endB), View(fabric, link.endB, link.endA);
    if !InterfaceSymptom(a, b) && !BgpSymptom(a, b) {
      return None;
    }
    var (dtype, confidence) := Classify(a, b);
    var evidence := [InterfaceItem(dtype, a), InterfaceItem(dtype, b), BgpItem(a), BgpItem(b),
                     AddressItem(a), AddressItem(b)];
    if confidence.Some? && (evidence[4].role.Contradicts? || evidence[5].role.Contradicts?) {
      confidence := if confidence.value.HighConfidence? then Some(MediumConfidence) else confidence;
    }
    if !dtype.InsufficientEvidence? {
      evidence := evidence + [NextHopItem(a), NextHopItem(b)];
      var ecmp := EcmpEvidence(t, fabric.nodes, link);
      evidence := evidence + ecmp;
      var probes := ReachabilityEvidence(fabric.nodes, t.hosts);
      evidence := evidence + probes;
    }
    evidence := Sort(EvidenceLe, evidence);
    return Some(Diagnosis(dtype, link, confidence, evidence, SymptomKeys(a, b), fabric.collectionId,
                          fabric.collectedAt));
  }

  /** `DeterministicDiagnosisEngine.diagnose` */
  method DiagnoseFabric(t: Topology, fabric: Fabric) returns (diagnoses: seq<Diagnosis>)
    requires t.Valid()
    ensures diagnoses == Diagnose(t, fabric)
    ensures fabric.Valid() ==> VerdictsAre(t, fabric, diagnoses)
  {
    hide DiagnoseLink, Sort, VerdictsAre, Fabric.Valid;
    VerdictsOfValid(t, fabric);
    diagnoses := [];
    for i := 0 to |t.routerLinks|
      invariant diagnoses == DiagnoseLinks(t, fabric, t.routerLinks[..i])
    {
      assert t.routerLinks[..i + 1][..i] == t.routerLinks[..i];
      var d := LinkDiagnosis(t, fabric, t.routerLinks[i]);
      if d.Some? {
        diagnoses := diagnoses + [d.value];
      }
    }
    assert t.routerLinks[..|t.routerLinks|] == t.routerLinks;
    diagnoses := Sort(DiagnosisLe, diagnoses);
  }
}
