/** What the evidence of a diagnosis says, in terms of what the fabric observed. */
module DiagnosisEvidence {
  import opened Wrappers
  import opened Sorting
  import opened OperationalState
  import opened Detection
  import opened Diagnosis
  import opened DiagnosisProperties

  // One item at a time

  /** The interface of an end: down speaks for a physical failure and for a link that is only suspected, up for
      a failed session, and the opposite state against either failure. */
  ghost predicate InterfaceSaid(f: Fabric, end: Endpoint, dtype: DiagnosisType, item: EvidenceItem) {
    && item.nodeId == end.nodeId && item.subject == end.interfaceName
    && match item.observed
       case InterfaceStateObserved(name, state) =>
         && name == end.interfaceName
         && (state.EndDown? <==> InterfaceSeen(f, end, InterfaceDown))
         && (state.EndUp? <==> InterfaceSeen(f, end, InterfaceUp))
         && (item.role.Supports? <==> if dtype.BgpSessionFailure? then state.EndUp? else state.EndDown?)
         && (item.role.Contradicts? <==>
               || (dtype.PhysicalLinkFailure? && state.EndUp?) || (dtype.BgpSessionFailure? && state.EndDown?))
       case _ => false
  }

  /** The session of an end: Idle or Active speaks for a failure, Established against it. */
  ghost predicate SessionSaid(f: Fabric, end: Endpoint, peer: Endpoint, item: EvidenceItem) {
    && item.nodeId == end.nodeId && item.subject == "bgp-neighbor:" + peer.address
    && match item.observed
       case BgpSessionObserved(ip, state, raw) =>
         && ip == peer.address
         && (state.BgpIsDown? <==> SessionSeen(f, end, peer, {Idle, Active}))
         && (state.BgpIsEstablished? <==> SessionSeen(f, end, peer, {Established}))
         && (state.BgpIsOther? <==> SessionSeen(f, end, peer, {Connect, OpenSent, OpenConfirm}))
         && (item.role.Supports? <==> state.BgpIsDown?)
         && (item.role.Contradicts? <==> state.BgpIsEstablished?)
         && (raw.Some? <==> RawSeen(f, end, peer, raw))
       case _ => false
  }

  ghost predicate RawSeen(f: Fabric, end: Endpoint, peer: Endpoint, raw: Option<string>) {
    raw.Some? && exists n, x :: n in f.nodes && n.nodeId == end.nodeId && n.bgp.Some?
                                && x in n.bgp.value.neighbors && x.neighborIp == peer.address && x.rawState == raw
  }

  /** The addresses of an end, in order: the declared one among them speaks for the link being the one observed,
      others without it against, and none at all says nothing. */
  ghost predicate AddressSaid(f: Fabric, end: Endpoint, item: EvidenceItem) {
    && item.nodeId == end.nodeId && item.subject == end.interfaceName
    && match item.observed
       case AddressObserved(name, declared, addresses, matches) =>
         && name == end.interfaceName && declared == end.address
         && SortedBy(StringLe, addresses)
         && (forall ip :: ip in addresses <==> AddressSeen(f, end, ip))
         && (matches.None? <==> addresses == []) && (matches.Some? ==> matches.value == (end.address in addresses))
         && (item.role.Supports? <==> end.address in addresses)
         && (item.role.Contradicts? <==> addresses != [] && end.address !in addresses)
       case _ => false
  }

  ghost predicate AddressSeen(f: Fabric, end: Endpoint, ip: string) {
    exists n, i, a :: n in f.nodes && n.nodeId == end.nodeId && i in n.interfaces && i.name == end.interfaceName
                      && a in i.addresses && a.IPv4Address? && a.ip == ip
  }

  ghost predicate Uses(route: Route, ip: string) {
    exists h :: h in route.nextHops && h.ip == Some(ip)
  }

  /** The routes of a node are known. */
  ghost predicate RoutesSeen(f: Fabric, nodeId: string) {
    exists n :: n in f.nodes && n.nodeId == nodeId && Routes !in n.unavailable
  }

  ghost predicate RouteSeen(f: Fabric, nodeId: string, ip: string) {
    exists n, r :: n in f.nodes && n.nodeId == nodeId && r in n.routes && Uses(r, ip)
  }

  /** How many routes use the peer of an end: none speaks for a failure, which has taken them away. */
  ghost predicate NextHopSaid(f: Fabric, end: Endpoint, peer: Endpoint, item: EvidenceItem) {
    && item.nodeId == end.nodeId && item.subject == "next-hop:" + peer.address
    && match item.observed
       case NextHopObserved(ip, via, count) =>
         && ip == peer.address && via == end.interfaceName
         && (count.Some? <==> RoutesSeen(f, end.nodeId))
         && (count.Some? && count.value > 0 <==> RouteSeen(f, end.nodeId, ip))
         && (forall n | n in f.nodes && n.nodeId == end.nodeId && count.Some? ::
               count.value == |set r | r in n.routes && Uses(r, ip)|)
         && item.role == (if count == Some(0) then Supports else Neutral)
       case _ => false
  }

  /** The hop toward the spine of a link that an expectation loses with it: exactly one end of the link is a
      spine and exactly one is a leaf, the leaf is at one end of the expected paths, and the hop is the spine's
      address on its link with the node. */
  ghost predicate LosesHop(t: Topology, e: EcmpExpectation, link: PhysicalLink, hop: string) {
    exists spine, leaf :: LosesHopOf(t, e, link, hop, spine, leaf)
  }

  ghost predicate LosesHopOf(
    t: Topology, e: EcmpExpectation, link: PhysicalLink, hop: string, spine: string, leaf: string)
  {
    var ends := {link.endA.nodeId, link.endB.nodeId};
    && link.endA.nodeId != link.endB.nodeId
    && ends * t.spines == {spine} && ends * t.leaves == {leaf}
    && (leaf == e.nodeId || leaf == e.originNodeId)
    && Reaches(t.routerLinks, e.nodeId, spine, hop)
  }

  /** The first link of the node and the spine has this address at the spine's end. */
  ghost predicate Reaches(links: seq<PhysicalLink>, nodeId: string, spine: string, hop: string) {
    exists k | 0 <= k < |links| ::
      && (forall j | 0 <= j < k :: !Joins(links[j], nodeId, spine))
      && Joins(links[k], nodeId, spine)
      && hop == if links[k].endA.nodeId == nodeId && links[k].endB.nodeId == spine then links[k].endB.address
                else links[k].endA.address
  }

  ghost predicate Joins(link: PhysicalLink, m: string, n: string) {
    (link.endA.nodeId == m && link.endB.nodeId == n) || (link.endB.nodeId == m && link.endA.nodeId == n)
  }

  ghost predicate PathSeen(f: Fabric, nodeId: string, prefix: string, hop: string) {
    exists n, r :: n in f.nodes && n.nodeId == nodeId && r in n.routes && r.prefix == prefix && r.protocol == "bgp"
                   && Uses(r, hop)
  }

  /** How many equal paths a node has left: the lost hop missing among them speaks for the failure. */
  ghost predicate EcmpSaid(t: Topology, f: Fabric, link: PhysicalLink, e: EcmpExpectation, item: EvidenceItem) {
    && item.nodeId == e.nodeId && item.subject == e.prefix
    && match item.observed
       case EcmpPathsObserved(prefix, paths, expected, hop, present) =>
         && prefix == e.prefix && expected == e.expectedPathCount && LosesHop(t, e, link, hop)
         && (paths.Some? <==> RoutesSeen(f, e.nodeId)) && (present.Some? <==> RoutesSeen(f, e.nodeId))
         && (present == Some(true) <==> PathSeen(f, e.nodeId, e.prefix, hop))
         && (forall n, r | n in f.nodes && n.nodeId == e.nodeId && r in n.routes && r.prefix == e.prefix
                           && r.protocol == "bgp" :: paths == Some(|r.nextHops|))
         && (forall n | n in f.nodes && n.nodeId == e.nodeId && paths.Some? ::
               paths == Some(0) || exists r :: r in n.routes && r.prefix == e.prefix && r.protocol == "bgp")
         && item.role == (if present == Some(false) then Supports else Neutral)
       case _ => false
  }

  ghost predicate ProbeSeen(f: Fabric, hostId: string, p: Probe) {
    exists n :: n in f.nodes && n.nodeId == hostId && Reachability !in n.unavailable && p in n.reachability
  }

  /** A host's probe: loss speaks for a failure, and a full answer for nothing, since there are two paths. */
  ghost predicate ProbeSaid(f: Fabric, hostId: string, item: EvidenceItem) {
    && item.nodeId == hostId
    && match item.observed
       case ReachabilityObserved(target, Some(sent), Some(received)) =>
         && item.subject == target && ProbeSeen(f, hostId, Probe(target, sent, received))
         && item.role == (if received == sent then Neutral else Supports)
       case ReachabilityObserved(target, None, None) =>
         && item.subject == "reachability" && target == "" && item.role.Neutral?
         && forall p :: !ProbeSeen(f, hostId, p)
       case _ => false
  }

  ghost predicate Said(t: Topology, f: Fabric, d: Diagnosis, item: EvidenceItem) {
    var (a, b) := (d.link.endA, d.link.endB);
    || InterfaceSaid(f, a, d.diagnosisType, item) || InterfaceSaid(f, b, d.diagnosisType, item)
    || SessionSaid(f, a, b, item) || SessionSaid(f, b, a, item)
    || AddressSaid(f, a, item) || AddressSaid(f, b, item)
    || (!d.diagnosisType.InsufficientEvidence?
        && (|| NextHopSaid(f, a, b, item) || NextHopSaid(f, b, a, item)
            || (exists e :: e in t.expectations && EcmpSaid(t, f, d.link, e, item))
            || (exists h :: h in t.hosts && ProbeSaid(f, h, item))))
  }

  // The items are what they should be

  lemma InterfaceItemSays(f: Fabric, end: Endpoint, peer: Endpoint, dtype: DiagnosisType)
    requires f.Valid()
    ensures InterfaceSaid(f, end, dtype, InterfaceItem(dtype, View(f, end, peer)))
  {
    hide View, EndView.InterfaceState, InterfaceSeen;
    ViewSees(f, end, peer);
  }

  lemma SessionItemSays(f: Fabric, end: Endpoint, peer: Endpoint)
    requires f.Valid()
    ensures SessionSaid(f, end, peer, BgpItem(View(f, end, peer)))
  {
    hide View, EndView.InterfaceState, InterfaceSeen, AddressItem, WrongAddress, Fabric.Valid;
    SessionFacts(f, end, peer);
  }

  lemma SessionFacts(f: Fabric, end: Endpoint, peer: Endpoint)
    requires f.Valid()
    ensures var v := View(f, end, peer);
            && v.end == end && v.peer == peer
            && (v.BgpState().BgpIsDown? <==> SessionSeen(f, end, peer, {Idle, Active}))
            && (v.BgpState().BgpIsEstablished? <==> SessionSeen(f, end, peer, {Established}))
            && (v.BgpState().BgpIsOther? <==> SessionSeen(f, end, peer, {Connect, OpenSent, OpenConfirm}))
            && forall raw: Option<string> | raw.Some? ::
                 (v.neighbor.Some? && v.neighbor.value.rawState == raw) <==> RawSeen(f, end, peer, raw)
  {
    hide View, Fabric.Valid;
    ViewIsUnique(f, end, peer);
    var v := View(f, end, peer);
    assert v.BgpState().BgpIsOther? <==> SessionSeen(f, end, peer, {Connect, OpenSent, OpenConfirm});
  }

  lemma AddressItemSays(f: Fabric, end: Endpoint, peer: Endpoint)
    requires f.Valid()
    ensures AddressSaid(f, end, AddressItem(View(f, end, peer)))
  {
    hide View, IPv4Of, Sort, StringLe;
    ViewIsUnique(f, end, peer);
    var v := View(f, end, peer);
    StringOrder();
    if v.interface.Some? {
      var all := v.interface.value.addresses;
      SortSorted(StringLe, IPv4Of(all));
      SortPermutes(StringLe, IPv4Of(all));
      SameMembers(ObservedIPv4(v.interface.value), IPv4Of(all));
      forall ip ensures ip in ObservedIPv4(v.interface.value) <==> AddressSeen(f, end, ip) {
        IPv4OfHas(all, ip);
      }
    }
  }

  // Counting routes

  lemma {:induction false} TotalCounts(routes: seq<Route>, ip: string)
    requires forall i, j | 0 <= i < j < |routes| :: routes[i] != routes[j]
    ensures Total(routes, UsesHop(ip)) == |set r | r in routes && Uses(r, ip)|
  {
    hide Uses;
    var all := set r | r in routes && Uses(r, ip);
    if routes != [] {
      var first, tail := routes[0], routes[1..];
      var rest := set r | r in tail && Uses(r, ip);
      TotalCounts(tail, ip);
      UsesWeighs(first, ip);
      assert first !in tail;
      assert forall r :: r in routes <==> r == first || r in tail;
      assert all == if Uses(first, ip) then rest + {first} else rest;
    }
  }

  lemma UsesWeighs(r: Route, ip: string)
    ensures Weight(r, UsesHop(ip)) == if Uses(r, ip) then 1 else 0
  {
  }

  lemma DistinctRoutes(n: NodeState)
    requires n.Valid()
    ensures forall i, j | 0 <= i < j < |n.routes| :: n.routes[i] != n.routes[j]
  {
    forall i, j | 0 <= i < j < |n.routes| ensures n.routes[i] != n.routes[j] {
      assert (n.routes[i].prefix, n.routes[i].protocol) != (n.routes[j].prefix, n.routes[j].protocol);
    }
  }

  lemma {:induction false} TotalIsZeroIff(routes: seq<Route>, q: RouteQuery)
    ensures Total(routes, q) > 0 <==> exists r :: r in routes && Weight(r, q) > 0
  {
    hide Weight;
    if routes != [] {
      TotalIsZeroIff(routes[1..], q);
      assert forall r :: r in routes <==> r == routes[0] || r in routes[1..];
    }
  }

  /** The node of an identifier, and what is asked of its routes. */
  lemma {:induction false} AskedOf(f: Fabric, nodeId: string, q: RouteQuery)
    requires f.Valid()
    ensures Asked(FindNode(f.nodes, nodeId), q).Some? <==> RoutesSeen(f, nodeId)
    ensures forall n | n in f.nodes && n.nodeId == nodeId ::
              && n.Valid()
              && (Routes !in n.unavailable ==> Asked(FindNode(f.nodes, nodeId), q) == Some(Total(n.routes, q)))
  {
    hide FindNode, Total;
    forall n | n in f.nodes && n.nodeId == nodeId ensures FindNode(f.nodes, nodeId) == Some(n) && n.Valid() {
      UniqueNode(f, n);
    }
  }

  lemma NextHopItemSays(f: Fabric, end: Endpoint, peer: Endpoint)
    requires f.Valid()
    ensures NextHopSaid(f, end, peer, NextHopItem(View(f, end, peer)))
  {
    hide FindNode, FindInterface, FindNeighbor, Total, Asked;
    var q := UsesHop(peer.address);
    AskedOf(f, end.nodeId, q);
    NodeOfView(f, end, peer);
    forall n | n in f.nodes && n.nodeId == end.nodeId
      ensures Total(n.routes, q) == |set r | r in n.routes && Uses(r, peer.address)|
      ensures Total(n.routes, q) > 0 <==> exists r :: r in n.routes && Uses(r, peer.address)
      ensures Routes in n.unavailable ==> n.routes == []
    {
      UniqueNode(f, n);
      DistinctRoutes(n);
      TotalCounts(n.routes, peer.address);
      TotalIsZeroIff(n.routes, q);
      assert n.Valid();
    }
  }

  lemma NodeOfView(f: Fabric, end: Endpoint, peer: Endpoint)
    ensures View(f, end, peer).node == FindNode(f.nodes, end.nodeId)
    ensures View(f, end, peer).end == end && View(f, end, peer).peer == peer
  {
  }

  // Lost paths

  lemma {:induction false} SpineAddressIs(links: seq<PhysicalLink>, nodeId: string, spine: string, hop: string)
    ensures SpineAddress(links, nodeId, spine) == Some(hop) ==> Reaches(links, nodeId, spine, hop)
  {
    if links != [] {
      if Joins(links[0], nodeId, spine) {
        var first := if links[0].endA.nodeId == nodeId && links[0].endB.nodeId == spine then links[0].endB.address
                     else links[0].endA.address;
        assert hop == first ==> Reaches(links, nodeId, spine, hop);
      } else {
        SpineAddressIs(links[1..], nodeId, spine, hop);
        if Reaches(links[1..], nodeId, spine, hop) {
          var k :| 0 <= k < |links| - 1 && (forall j | 0 <= j < k :: !Joins(links[1..][j], nodeId, spine))
            && Joins(links[1..][k], nodeId, spine)
            && hop == if links[1..][k].endA.nodeId == nodeId && links[1..][k].endB.nodeId == spine
                      then links[1..][k].endB.address else links[1..][k].endA.address;
          assert links[k + 1] == links[1..][k];
          forall j | 0 <= j < k + 1 ensures !Joins(links[j], nodeId, spine) {
            if j > 0 { assert links[j] == links[1..][j - 1]; }
          }
        }
      }
    }
  }

  /** The spine and the leaf that the code takes of a link. */
  lemma EndsOfLink(t: Topology, link: PhysicalLink, spine: string, leaf: string)
    requires link.endA.nodeId != link.endB.nodeId
    ensures var (a, b, ends) := (link.endA.nodeId, link.endB.nodeId, {link.endA.nodeId, link.endB.nodeId});
            ends * t.spines == {spine} && ends * t.leaves == {leaf} <==>
            && (a in t.spines) != (b in t.spines) && (a in t.leaves) != (b in t.leaves)
            && spine == (if a in t.spines then a else b) && leaf == (if a in t.leaves then a else b)
  {
    var (a, b, ends) := (link.endA.nodeId, link.endB.nodeId, {link.endA.nodeId, link.endB.nodeId});
    assert forall x :: x in ends * t.spines <==> (x == a || x == b) && x in t.spines;
    assert forall x :: x in ends * t.leaves <==> (x == a || x == b) && x in t.leaves;
    if ends * t.spines == {spine} && ends * t.leaves == {leaf} {
      assert spine in ends * t.spines && leaf in ends * t.leaves;
      assert a in t.spines ==> a in ends * t.spines;
      assert b in t.spines ==> b in ends * t.spines;
      assert a in t.leaves ==> a in ends * t.leaves;
      assert b in t.leaves ==> b in ends * t.leaves;
    }
  }

  lemma LostNextHopIs(t: Topology, e: EcmpExpectation, link: PhysicalLink, hop: string)
    requires link.endA.nodeId != link.endB.nodeId
    ensures LostNextHop(t, e, link) == Some(hop) ==> LosesHop(t, e, link, hop)
  {
    hide SpineAddress, Reaches;
    var (a, b) := (link.endA.nodeId, link.endB.nodeId);
    var spine, leaf := if a in t.spines then a else b, if a in t.leaves then a else b;
    EndsOfLink(t, link, spine, leaf);
    SpineAddressIs(t.routerLinks, e.nodeId, spine, hop);
    assert LostNextHop(t, e, link) == Some(hop) ==> LosesHopOf(t, e, link, hop, spine, leaf);
  }

  /** There is a lost hop exactly when some hop fits the description. */
  lemma HopIsLostIff(t: Topology, e: EcmpExpectation, link: PhysicalLink)
    requires link.endA.nodeId != link.endB.nodeId
    ensures LostNextHop(t, e, link).Some? <==> exists hop :: LosesHop(t, e, link, hop)
  {
    hide SpineAddress, Reaches;
    if LostNextHop(t, e, link).Some? {
      LostNextHopIs(t, e, link, LostNextHop(t, e, link).value);
    }
    if hop :| LosesHop(t, e, link, hop) {
      var spine, leaf :| LosesHopOf(t, e, link, hop, spine, leaf);
      EndsOfLink(t, link, spine, leaf);
      SpineIsReachedIff(t.routerLinks, e.nodeId, spine);
    }
  }

  lemma {:induction false} SpineIsReachedIff(links: seq<PhysicalLink>, nodeId: string, spine: string)
    ensures SpineAddress(links, nodeId, spine).Some? <==> exists hop :: Reaches(links, nodeId, spine, hop)
  {
    if SpineAddress(links, nodeId, spine).Some? {
      SpineAddressIs(links, nodeId, spine, SpineAddress(links, nodeId, spine).value);
    }
    if hop :| Reaches(links, nodeId, spine, hop) {
      var k :| 0 <= k < |links| && Joins(links[k], nodeId, spine);
      JoiningIsReached(links, nodeId, spine, k);
    }
  }

  lemma {:induction false} JoiningIsReached(links: seq<PhysicalLink>, nodeId: string, spine: string, k: nat)
    requires k < |links| && Joins(links[k], nodeId, spine)
    ensures SpineAddress(links, nodeId, spine).Some?
  {
    if k > 0 { JoiningIsReached(links[1..], nodeId, spine, k - 1); }
  }

  lemma {:induction false} OneRouteTotal(routes: seq<Route>, q: RouteQuery, k: nat)
    requires k < |routes| && forall j | 0 <= j < |routes| && j != k :: Weight(routes[j], q) == 0
    ensures Total(routes, q) == Weight(routes[k], q)
  {
    hide Weight;
    if k == 0 {
      NoRouteTotal(routes[1..], q);
    } else {
      forall j | 0 <= j < |routes| - 1 && j != k - 1 ensures Weight(routes[1..][j], q) == 0 {
        assert routes[1..][j] == routes[j + 1];
      }
      OneRouteTotal(routes[1..], q, k - 1);
    }
  }

  lemma {:induction false} NoRouteTotal(routes: seq<Route>, q: RouteQuery)
    requires forall j | 0 <= j < |routes| :: Weight(routes[j], q) == 0
    ensures Total(routes, q) == 0
  {
    hide Weight;
    if routes != [] { NoRouteTotal(routes[1..], q); }
  }

  /** A node has at most one BGP route for a prefix, so its paths are that route's next hops. */
  lemma PathsOfNode(n: NodeState, prefix: string)
    requires n.Valid()
    ensures forall r | r in n.routes && r.prefix == prefix && r.protocol == "bgp" ::
              Total(n.routes, BgpPaths(prefix)) == |r.nextHops|
    ensures Total(n.routes, BgpPaths(prefix)) == 0
            || exists r :: r in n.routes && r.prefix == prefix && r.protocol == "bgp"
  {
    hide Total;
    var q := BgpPaths(prefix);
    forall r | r in n.routes && r.prefix == prefix && r.protocol == "bgp" ensures Total(n.routes, q) == |r.nextHops| {
      var k :| 0 <= k < |n.routes| && n.routes[k] == r;
      forall j | 0 <= j < |n.routes| && j != k ensures Weight(n.routes[j], q) == 0 {
        assert (n.routes[j].prefix, n.routes[j].protocol) != (n.routes[k].prefix, n.routes[k].protocol);
      }
      OneRouteTotal(n.routes, q, k);
    }
    TotalIsZeroIff(n.routes, q);
  }

  lemma EcmpItemSays(t: Topology, f: Fabric, link: PhysicalLink, e: EcmpExpectation, hop: string)
    requires f.Valid() && LosesHop(t, e, link, hop)
    ensures EcmpSaid(t, f, link, e, EcmpItem(f.nodes, e, hop))
  {
    hide FindNode, Total, Asked, LosesHop;
    AskedOf(f, e.nodeId, BgpPaths(e.prefix));
    AskedOf(f, e.nodeId, BgpPathVia(e.prefix, hop));
    forall n | n in f.nodes && n.nodeId == e.nodeId
      ensures Total(n.routes, BgpPathVia(e.prefix, hop)) > 0 <==>
              exists r :: r in n.routes && r.prefix == e.prefix && r.protocol == "bgp" && Uses(r, hop)
      ensures forall r | r in n.routes && r.prefix == e.prefix && r.protocol == "bgp" ::
                Total(n.routes, BgpPaths(e.prefix)) == |r.nextHops|
      ensures Total(n.routes, BgpPaths(e.prefix)) == 0
              || exists r :: r in n.routes && r.prefix == e.prefix && r.protocol == "bgp"
      ensures Routes in n.unavailable ==> n.routes == []
    {
      TotalIsZeroIff(n.routes, BgpPathVia(e.prefix, hop));
      PathsOfNode(n, e.prefix);
    }
  }

  // Lists of items

  lemma {:induction false} EcmpItemsSay(t: Topology, f: Fabric, link: PhysicalLink, n: nat)
    requires f.Valid() && n <= |t.expectations| && link.endA.nodeId != link.endB.nodeId
    ensures forall item | item in EcmpItems(t, f.nodes, link, n) ::
              exists e :: e in t.expectations && EcmpSaid(t, f, link, e, item)
    ensures forall k | 0 <= k < n && LostNextHop(t, t.expectations[k], link).Some? ::
              exists item :: item in EcmpItems(t, f.nodes, link, n) && EcmpSaid(t, f, link, t.expectations[k], item)
  {
    hide EcmpSaid, EcmpItem, LostNextHop, LosesHop;
    if n > 0 {
      EcmpItemsSay(t, f, link, n - 1);
      var e := t.expectations[n - 1];
      var hop := LostNextHop(t, e, link);
      if hop.Some? {
        LostNextHopIs(t, e, link, hop.value);
        EcmpItemSays(t, f, link, e, hop.value);
        var all, before := EcmpItems(t, f.nodes, link, n), EcmpItems(t, f.nodes, link, n - 1);
        var last := EcmpItem(f.nodes, e, hop.value);
        assert all == before + [last] && last in all && e in t.expectations;
        forall k | 0 <= k < n && LostNextHop(t, t.expectations[k], link).Some?
          ensures exists item :: item in all && EcmpSaid(t, f, link, t.expectations[k], item)
        {
          if k < n - 1 {
            var item :| item in before && EcmpSaid(t, f, link, t.expectations[k], item);
            assert item in all;
          }
        }
      }
    }
  }

  lemma {:induction false} ProbeItemsSay(f: Fabric, hostId: string, probes: seq<Probe>)
    requires forall p | p in probes :: ProbeSeen(f, hostId, p)
    ensures forall item | item in ProbeItems(hostId, probes) :: ProbeSaid(f, hostId, item)
    ensures |ProbeItems(hostId, probes)| == |probes|
    ensures forall k | 0 <= k < |probes| ::
              ProbeItems(hostId, probes)[k].observed ==
              ReachabilityObserved(probes[k].target, Some(probes[k].sent), Some(probes[k].received))
  {
    hide ProbeSeen;
    if probes != [] {
      var front, p := probes[..|probes| - 1], probes[|probes| - 1];
      ProbeItemsSay(f, hostId, front);
      assert p in probes && p == Probe(p.target, p.sent, p.received);
    }
  }

  lemma {:induction false} HostItemsSay(f: Fabric, hostId: string)
    requires f.Valid()
    ensures forall item | item in HostItems(f.nodes, hostId) :: ProbeSaid(f, hostId, item)
    ensures HostItems(f.nodes, hostId) != []
    ensures forall p | ProbeSeen(f, hostId, p) ::
              exists item :: item in HostItems(f.nodes, hostId)
                             && item.observed == ReachabilityObserved(p.target, Some(p.sent), Some(p.received))
  {
    hide FindNode, ProbeItems;
    forall n | n in f.nodes && n.nodeId == hostId ensures FindNode(f.nodes, hostId) == Some(n) && n.Valid() {
      UniqueNode(f, n);
    }
    var found := FindNode(f.nodes, hostId);
    if found.Some? && Reachability !in found.value.unavailable && found.value.reachability != [] {
      var probes := found.value.reachability;
      ProbeItemsSay(f, hostId, probes);
      forall p | ProbeSeen(f, hostId, p)
        ensures exists item :: item in HostItems(f.nodes, hostId)
                               && item.observed == ReachabilityObserved(p.target, Some(p.sent), Some(p.received))
      {
        var k :| 0 <= k < |probes| && probes[k] == p;
        assert ProbeItems(hostId, probes)[k] in HostItems(f.nodes, hostId);
      }
    }
  }

  lemma {:induction false} ReachabilitySays(f: Fabric, hosts: seq<string>)
    requires f.Valid()
    ensures forall item | item in ReachabilityItems(f.nodes, hosts) :: exists h :: h in hosts && ProbeSaid(f, h, item)
    ensures forall h, item | h in hosts && item in HostItems(f.nodes, h) :: item in ReachabilityItems(f.nodes, hosts)
  {
    hide HostItems, ProbeSaid;
    if hosts != [] {
      var front, last := hosts[..|hosts| - 1], hosts[|hosts| - 1];
      ReachabilitySays(f, front);
      HostItemsSay(f, last);
      assert hosts == front + [last];
      forall item | item in ReachabilityItems(f.nodes, hosts) ensures exists h :: h in hosts && ProbeSaid(f, h, item) {
        if item in ReachabilityItems(f.nodes, front) {
          var h :| h in front && ProbeSaid(f, h, item);
          assert h in hosts;
        }
      }
    }
  }

  // The evidence of a diagnosis

  /** Both ends are spoken of: their interfaces, their sessions and their addresses. */
  ghost predicate EndsAreSaid(f: Fabric, link: PhysicalLink, dtype: DiagnosisType, evidence: seq<EvidenceItem>) {
    var (a, b) := (link.endA, link.endB);
    && (exists i :: i in evidence && InterfaceSaid(f, a, dtype, i))
    && (exists i :: i in evidence && InterfaceSaid(f, b, dtype, i))
    && (exists i :: i in evidence && SessionSaid(f, a, b, i)) && (exists i :: i in evidence && SessionSaid(f, b, a, i))
    && (exists i :: i in evidence && AddressSaid(f, a, i)) && (exists i :: i in evidence && AddressSaid(f, b, i))
  }

  /** So are both next hops, every lost path and every probe of every host. */
  ghost predicate ConsequencesAreSaid(t: Topology, f: Fabric, link: PhysicalLink, evidence: seq<EvidenceItem>) {
    var (a, b) := (link.endA, link.endB);
    && (exists i :: i in evidence && NextHopSaid(f, a, b, i)) && (exists i :: i in evidence && NextHopSaid(f, b, a, i))
    && (forall e | e in t.expectations && (exists hop :: LosesHop(t, e, link, hop)) ::
          exists i :: i in evidence && EcmpSaid(t, f, link, e, i))
    && (forall h, p | h in t.hosts && ProbeSeen(f, h, p) ::
          exists i :: i in evidence && i.observed == ReachabilityObserved(p.target, Some(p.sent), Some(p.received)))
  }

  /** The order of the kinds of evidence. */
  ghost function Place(item: EvidenceItem): nat {
    match item.observed
    case InterfaceStateObserved(_, _) => 0
    case BgpSessionObserved(_, _, _) => 1
    case AddressObserved(_, _, _, _) => 2
    case NextHopObserved(_, _, _) => 3
    case EcmpPathsObserved(_, _, _, _, _) => 4
    case ReachabilityObserved(_, _, _) => 5
  }

  /** By kind, then node, then subject. */
  ghost predicate InPlace(x: EvidenceItem, y: EvidenceItem) {
    || Place(x) < Place(y)
    || (Place(x) == Place(y) && x.nodeId == y.nodeId && StringLe(x.subject, y.subject))
    || (Place(x) == Place(y) && x.nodeId != y.nodeId && StringLe(x.nodeId, y.nodeId))
  }

  lemma EndItemsSay(f: Fabric, link: PhysicalLink, dtype: DiagnosisType, items: seq<EvidenceItem>)
    requires f.Valid()
    requires var a, b := View(f, link.endA, link.endB), View(f, link.endB, link.endA);
             items == [InterfaceItem(dtype, a), InterfaceItem(dtype, b), BgpItem(a), BgpItem(b),
                       AddressItem(a), AddressItem(b)]
    ensures EndsAreSaid(f, link, dtype, items)
    ensures forall i | i in items ::
              || InterfaceSaid(f, link.endA, dtype, i) || InterfaceSaid(f, link.endB, dtype, i)
              || SessionSaid(f, link.endA, link.endB, i) || SessionSaid(f, link.endB, link.endA, i)
              || AddressSaid(f, link.endA, i) || AddressSaid(f, link.endB, i)
  {
    hide View, InterfaceItem, BgpItem, AddressItem, InterfaceSaid, SessionSaid, AddressSaid;
    InterfaceItemSays(f, link.endA, link.endB, dtype);
    InterfaceItemSays(f, link.endB, link.endA, dtype);
    SessionItemSays(f, link.endA, link.endB);
    SessionItemSays(f, link.endB, link.endA);
    AddressItemSays(f, link.endA, link.endB);
    AddressItemSays(f, link.endB, link.endA);
    assert items[0] in items && items[1] in items && items[2] in items;
    assert items[3] in items && items[4] in items && items[5] in items;
  }

  lemma {:induction false} ConsequenceItemsSay(t: Topology, f: Fabric, link: PhysicalLink, items: seq<EvidenceItem>)
    requires f.Valid() && RouterLink(link)
    requires items == [NextHopItem(View(f, link.endA, link.endB)), NextHopItem(View(f, link.endB, link.endA))]
                      + EcmpItems(t, f.nodes, link, |t.expectations|) + ReachabilityItems(f.nodes, t.hosts)
    ensures ConsequencesAreSaid(t, f, link, items)
    ensures forall i | i in items ::
              || NextHopSaid(f, link.endA, link.endB, i) || NextHopSaid(f, link.endB, link.endA, i)
              || (exists e :: e in t.expectations && EcmpSaid(t, f, link, e, i))
              || (exists h :: h in t.hosts && ProbeSaid(f, h, i))
  {
    hide View, NextHopItem, EcmpItems, ReachabilityItems, NextHopSaid, EcmpSaid, ProbeSaid, ProbeSeen, LosesHop;
    hide LostNextHop, HostItems;
    var hops := [NextHopItem(View(f, link.endA, link.endB)), NextHopItem(View(f, link.endB, link.endA))];
    NextHopItemSays(f, link.endA, link.endB);
    NextHopItemSays(f, link.endB, link.endA);
    assert hops[0] in hops && hops[1] in hops;
    var paths, probes := EcmpItems(t, f.nodes, link, |t.expectations|), ReachabilityItems(f.nodes, t.hosts);
    assert forall i :: i in items <==> i in hops || i in paths || i in probes;
    EcmpItemsSay(t, f, link, |t.expectations|);
    ReachabilitySays(f, t.hosts);
    forall e | e in t.expectations && (exists hop :: LosesHop(t, e, link, hop))
      ensures exists i :: i in items && EcmpSaid(t, f, link, e, i)
    {
      HopIsLostIff(t, e, link);
      var k :| 0 <= k < |t.expectations| && t.expectations[k] == e;
      var i :| i in EcmpItems(t, f.nodes, link, |t.expectations|) && EcmpSaid(t, f, link, t.expectations[k], i);
      assert i in items;
    }
    forall h, p | h in t.hosts && ProbeSeen(f, h, p)
      ensures exists i :: i in items && i.observed == ReachabilityObserved(p.target, Some(p.sent), Some(p.received))
    {
      HostItemsSay(f, h);
      var i :| i in HostItems(f.nodes, h)
        && i.observed == ReachabilityObserved(p.target, Some(p.sent), Some(p.received));
      assert i in items;
    }
  }

  /** Every item says what the fabric observed, in the role that gives it; both ends are always spoken of, and in
      a conclusive diagnosis all consequences too; and the items are in order. */
  lemma {:induction false} EvidenceIsExact(t: Topology, f: Fabric, link: PhysicalLink)
    requires f.Valid() && RouterLink(link) && DiagnoseLink(t, f, link).Some?
    ensures var d := DiagnoseLink(t, f, link).value;
            && (forall item | item in d.evidence :: Said(t, f, d, item))
            && EndsAreSaid(f, link, d.diagnosisType, d.evidence)
            && (d.diagnosisType.InsufficientEvidence? ==> |d.evidence| == 6)
            && (!d.diagnosisType.InsufficientEvidence? ==> ConsequencesAreSaid(t, f, link, d.evidence))
            && (forall i, j | 0 <= i < j < |d.evidence| :: InPlace(d.evidence[i], d.evidence[j]))
  {
    hide *;
    var d := DiagnoseLink(t, f, link).value;
    var items := ItemsSay(t, f, link);
    EvidenceOrder();
    SortSorted(EvidenceLe, items);
    SortPermutes(EvidenceLe, items);
    SameMembers(Sort(EvidenceLe, items), items);
    SameLength(Sort(EvidenceLe, items), items);
    EndsInAnyOrder(f, link, d.diagnosisType, items, d.evidence);
    ConsequencesInAnyOrder(t, f, link, items, d.evidence);
    SortedIsInPlace(d.evidence);
  }

  lemma SameLength<T>(s: seq<T>, t: seq<T>)
    requires multiset(s) == multiset(t)
    ensures |s| == |t|
  {
    assert |multiset(s)| == |s| && |multiset(t)| == |t|;
  }

  lemma EndsInAnyOrder(
    f: Fabric, link: PhysicalLink, dtype: DiagnosisType, items: seq<EvidenceItem>, evidence: seq<EvidenceItem>)
    requires forall i | i in items :: i in evidence
    ensures EndsAreSaid(f, link, dtype, items) ==> EndsAreSaid(f, link, dtype, evidence)
  {
    hide InterfaceSaid, SessionSaid, AddressSaid;
  }

  lemma ConsequencesInAnyOrder(
    t: Topology, f: Fabric, link: PhysicalLink, items: seq<EvidenceItem>, evidence: seq<EvidenceItem>)
    requires forall i | i in items :: i in evidence
    ensures ConsequencesAreSaid(t, f, link, items) ==> ConsequencesAreSaid(t, f, link, evidence)
  {
    hide NextHopSaid, EcmpSaid, LosesHop, ProbeSeen;
  }

  lemma SortedIsInPlace(evidence: seq<EvidenceItem>)
    requires SortedBy(EvidenceLe, evidence)
    ensures forall i, j | 0 <= i < j < |evidence| :: InPlace(evidence[i], evidence[j])
  {
    hide StringLe;
    forall i, j | 0 <= i < j < |evidence| ensures EvidenceLe(evidence[i], evidence[j]) {}
  }

  lemma EvidenceOrder()
    ensures TotalPreorder(EvidenceLe)
  {
    StringOrder();
    forall x, y, z: EvidenceItem ensures EvidenceLe(x, y) && EvidenceLe(y, z) ==> EvidenceLe(x, z) {}
  }

  lemma {:induction false} ItemsSay(t: Topology, f: Fabric, link: PhysicalLink) returns (items: seq<EvidenceItem>)
    requires f.Valid() && RouterLink(link) && DiagnoseLink(t, f, link).Some?
    ensures var d := DiagnoseLink(t, f, link).value;
            && d.evidence == Sort(EvidenceLe, items)
            && (forall item | item in items :: Said(t, f, d, item))
            && EndsAreSaid(f, link, d.diagnosisType, items)
            && (d.diagnosisType.InsufficientEvidence? ==> |items| == 6)
            && (!d.diagnosisType.InsufficientEvidence? ==> ConsequencesAreSaid(t, f, link, items))
  {
    hide View, InterfaceItem, BgpItem, AddressItem, NextHopItem, EcmpItems, ReachabilityItems, Classify, Sort;
    hide InterfaceSaid, SessionSaid, AddressSaid, NextHopSaid, EcmpSaid, ProbeSaid, EndsAreSaid, ConsequencesAreSaid;
    hide InterfaceSymptom, BgpSymptom, SymptomKeys, Capped, DeviceId;
    var a, b := View(f, link.endA, link.endB), View(f, link.endB, link.endA);
    var dtype := Classify(a, b).0;
    var ends := [InterfaceItem(dtype, a), InterfaceItem(dtype, b), BgpItem(a), BgpItem(b),
                 AddressItem(a), AddressItem(b)];
    var more := [NextHopItem(a), NextHopItem(b)]
                + EcmpItems(t, f.nodes, link, |t.expectations|) + ReachabilityItems(f.nodes, t.hosts);
    EndItemsSay(f, link, dtype, ends);
    ConsequenceItemsSay(t, f, link, more);
    items := LinkEvidence(t, f, link, a, b);
    if !dtype.InsufficientEvidence? {
      assert items == ends + more;
      EndsInAnyOrder(f, link, dtype, ends, items);
      ConsequencesInAnyOrder(t, f, link, more, items);
    }
  }
}
