/** Diagnoses do not depend on the order of observations, and missing observations add nothing. */
module DiagnosisProperties {
  import opened Wrappers
  import opened Sorting
  import opened OperationalState
  import opened Detection
  import opened Diagnosis

  // The same observations in another order

  datatype InterfaceFacts =
    InterfaceFacts(name: string, operState: InterfaceOperState, addresses: multiset<InterfaceAddress>)
  datatype RouteFacts = RouteFacts(prefix: string, protocol: string, nextHops: multiset<NextHop>)
  datatype NodeFacts = NodeFacts(
    nodeId: string,
    interfaces: multiset<InterfaceFacts>,
    neighbors: Option<multiset<BgpNeighbor>>,
    routes: multiset<RouteFacts>,
    reachability: seq<Probe>,
    unavailable: set<Facet>)

  function FactsOfInterface(i: InterfaceObservation): InterfaceFacts {
    InterfaceFacts(i.name, i.operState, multiset(i.addresses))
  }

  function FactsOfInterfaces(s: seq<InterfaceObservation>): (r: seq<InterfaceFacts>)
    ensures |r| == |s| && forall i | 0 <= i < |s| :: r[i] == FactsOfInterface(s[i])
  {
    seq(|s|, i requires 0 <= i < |s| => FactsOfInterface(s[i]))
  }

  function FactsOfRoute(r: Route): RouteFacts {
    RouteFacts(r.prefix, r.protocol, multiset(r.nextHops))
  }

  function FactsOfRoutes(s: seq<Route>): (r: seq<RouteFacts>)
    ensures |r| == |s| && forall i | 0 <= i < |s| :: r[i] == FactsOfRoute(s[i])
  {
    seq(|s|, i requires 0 <= i < |s| => FactsOfRoute(s[i]))
  }

  function FactsOfNode(n: NodeState): NodeFacts {
    NodeFacts(n.nodeId, multiset(FactsOfInterfaces(n.interfaces)),
              if n.bgp.None? then None else Some(multiset(n.bgp.value.neighbors)),
              multiset(FactsOfRoutes(n.routes)), n.reachability, n.unavailable)
  }

  function FactsOfNodes(s: seq<NodeState>): (r: seq<NodeFacts>)
    ensures |r| == |s| && forall i | 0 <= i < |s| :: r[i] == FactsOfNode(s[i])
  {
    seq(|s|, i requires 0 <= i < |s| => FactsOfNode(s[i]))
  }

  /** The two fabrics differ only in the order of nodes, and within each node of interfaces,
      addresses, neighbors, routes and next hops. */
  ghost predicate Reordered(f: Fabric, g: Fabric) {
    && f.collectionId == g.collectionId && f.collectedAt == g.collectedAt
    && multiset(FactsOfNodes(f.nodes)) == multiset(FactsOfNodes(g.nodes))
  }

  lemma {:induction false} SameNode(f: Fabric, g: Fabric, nodeId: string)
    requires f.Valid() && g.Valid() && Reordered(f, g)
    ensures FindNode(f.nodes, nodeId).Some? <==> FindNode(g.nodes, nodeId).Some?
    ensures FindNode(f.nodes, nodeId).Some? ==>
              && FactsOfNode(FindNode(f.nodes, nodeId).value) == FactsOfNode(FindNode(g.nodes, nodeId).value)
              && FindNode(f.nodes, nodeId).value.Valid() && FindNode(g.nodes, nodeId).value.Valid()
  {
    SameMembers(FactsOfNodes(f.nodes), FactsOfNodes(g.nodes));
    NodeIsFound(f, g, nodeId);
    NodeIsFound(g, f, nodeId);
  }

  lemma {:induction false} NodeIsFound(f: Fabric, g: Fabric, nodeId: string)
    requires f.Valid() && g.Valid() && forall x | x in FactsOfNodes(f.nodes) :: x in FactsOfNodes(g.nodes)
    ensures FindNode(f.nodes, nodeId).Some? ==>
              && FindNode(g.nodes, nodeId).Some?
              && FactsOfNode(FindNode(f.nodes, nodeId).value) == FactsOfNode(FindNode(g.nodes, nodeId).value)
              && FindNode(g.nodes, nodeId).value.Valid()
  {
    hide FindNode, FactsOfNode, FactsOfNodes;
    var found := FindNode(f.nodes, nodeId);
    if found.Some? {
      var i :| 0 <= i < |f.nodes| && f.nodes[i] == found.value;
      assert FactsOfNodes(f.nodes)[i] in FactsOfNodes(f.nodes);
      var j :| 0 <= j < |g.nodes| && FactsOfNodes(g.nodes)[j] == FactsOfNode(found.value);
      SameFactsSameId(g.nodes[j], found.value);
      UniqueNode(g, g.nodes[j]);
    }
  }

  lemma SameFactsSameId(m: NodeState, n: NodeState)
    requires FactsOfNode(m) == FactsOfNode(n)
    ensures m.nodeId == n.nodeId
  {
  }

  lemma {:induction false} SameInterface(s: seq<InterfaceObservation>, t: seq<InterfaceObservation>, name: string)
    requires multiset(FactsOfInterfaces(s)) == multiset(FactsOfInterfaces(t))
    requires forall i, j | 0 <= i < j < |s| :: s[i].name != s[j].name
    requires forall i, j | 0 <= i < j < |t| :: t[i].name != t[j].name
    ensures FindInterface(s, name).Some? <==> FindInterface(t, name).Some?
    ensures FindInterface(s, name).Some? ==>
              FactsOfInterface(FindInterface(s, name).value) == FactsOfInterface(FindInterface(t, name).value)
  {
    SameMembers(FactsOfInterfaces(s), FactsOfInterfaces(t));
    InterfaceIsFound(s, t, name);
    InterfaceIsFound(t, s, name);
  }

  lemma {:induction false} InterfaceIsFound(s: seq<InterfaceObservation>, t: seq<InterfaceObservation>, name: string)
    requires forall x | x in FactsOfInterfaces(s) :: x in FactsOfInterfaces(t)
    requires forall i, j | 0 <= i < j < |t| :: t[i].name != t[j].name
    ensures FindInterface(s, name).Some? ==>
              && FindInterface(t, name).Some?
              && FactsOfInterface(FindInterface(s, name).value) == FactsOfInterface(FindInterface(t, name).value)
  {
    var found := FindInterface(s, name);
    if found.Some? {
      var i :| 0 <= i < |s| && s[i] == found.value;
      assert FactsOfInterfaces(s)[i] in FactsOfInterfaces(s);
      var j :| 0 <= j < |t| && FactsOfInterfaces(t)[j] == FactsOfInterface(found.value);
      assert t[j] in t && t[j].name == name;
      var other := FindInterface(t, name);
      var k :| 0 <= k < |t| && t[k] == other.value;
      assert j == k;
    }
  }

  lemma {:induction false} SameNeighbor(s: seq<BgpNeighbor>, t: seq<BgpNeighbor>, ip: string)
    requires multiset(s) == multiset(t)
    requires forall i, j | 0 <= i < j < |s| :: s[i].neighborIp != s[j].neighborIp
    ensures FindNeighbor(s, ip) == FindNeighbor(t, ip)
  {
    SameMembers(s, t);
    var x, y := FindNeighbor(s, ip), FindNeighbor(t, ip);
    if x.Some? && y.Some? {
      var i :| 0 <= i < |s| && s[i] == x.value;
      var j :| 0 <= j < |s| && s[j] == y.value;
    }
  }

  // Addresses are read as a sorted list

  function Without<T>(s: seq<T>, i: nat): seq<T>
    requires i < |s|
  {
    s[..i] + s[i + 1..]
  }

  lemma WithoutTail<T>(s: seq<T>, i: nat)
    requires 0 < i < |s|
    ensures Without(s, i) == [s[0]] + Without(s[1..], i - 1)
    ensures Without(s, i)[1..] == Without(s[1..], i - 1)
  {
  }

  /** In two arrangements of the same values the first of one stands somewhere in the other, and
      without it they are still arrangements of the same values. */
  lemma MatchHead<T>(s: seq<T>, t: seq<T>) returns (i: nat)
    requires multiset(s) == multiset(t) && s != []
    ensures i < |t| && t[i] == s[0] && multiset(s[1..]) == multiset(Without(t, i))
  {
    SameMembers(s, t);
    assert s[0] in t;
    i :| 0 <= i < |t| && t[i] == s[0];
    HeadOff(s);
    BagWithout(t, i);
  }

  lemma HeadOff<T>(s: seq<T>)
    requires s != []
    ensures multiset(s[1..]) == multiset(s) - multiset{s[0]}
  {
    assert s == [s[0]] + s[1..];
  }

  lemma BagWithout<T>(t: seq<T>, i: nat)
    requires i < |t|
    ensures multiset(Without(t, i)) == multiset(t) - multiset{t[i]}
  {
    assert t == t[..i] + ([t[i]] + t[i + 1..]);
  }

  function IPv4Bag(a: InterfaceAddress): multiset<string> {
    if a.IPv4Address? then multiset{a.ip} else multiset{}
  }

  lemma {:induction false} IPv4Cons(s: seq<InterfaceAddress>)
    requires s != []
    ensures multiset(IPv4Of(s)) == IPv4Bag(s[0]) + multiset(IPv4Of(s[1..]))
  {
  }

  lemma {:induction false} IPv4Without(s: seq<InterfaceAddress>, i: nat)
    requires i < |s|
    ensures multiset(IPv4Of(s)) == IPv4Bag(s[i]) + multiset(IPv4Of(Without(s, i)))
  {
    IPv4Cons(s);
    if i == 0 {
      assert Without(s, 0) == s[1..];
    } else {
      IPv4Without(s[1..], i - 1);
      WithoutTail(s, i);
      IPv4Cons(Without(s, i));
    }
  }

  lemma {:induction false} SameIPv4(s: seq<InterfaceAddress>, t: seq<InterfaceAddress>)
    requires multiset(s) == multiset(t)
    ensures multiset(IPv4Of(s)) == multiset(IPv4Of(t))
  {
    if s == [] {
      assert |t| == |multiset(t)| == |multiset(s)|;
    } else {
      var i := MatchHead(s, t);
      IPv4Cons(s);
      IPv4Without(t, i);
      SameIPv4(s[1..], Without(t, i));
    }
  }

  lemma SameObservedIPv4(i: InterfaceObservation, j: InterfaceObservation)
    requires FactsOfInterface(i) == FactsOfInterface(j)
    ensures ObservedIPv4(i) == ObservedIPv4(j)
  {
    SameIPv4(i.addresses, j.addresses);
    StringOrder();
    SortSorted(StringLe, IPv4Of(i.addresses));
    SortSorted(StringLe, IPv4Of(j.addresses));
    SortPermutes(StringLe, IPv4Of(i.addresses));
    SortPermutes(StringLe, IPv4Of(j.addresses));
    SortedIsCanonical(StringLe, ObservedIPv4(i), ObservedIPv4(j));
  }

  // Routes are only ever counted

  lemma SameHops(r: Route, s: Route, q: RouteQuery)
    requires FactsOfRoute(r) == FactsOfRoute(s)
    ensures Weight(r, q) == Weight(s, q)
  {
    SameMembers(r.nextHops, s.nextHops);
  }

  lemma {:induction false} TotalWithout(s: seq<Route>, i: nat, q: RouteQuery)
    requires i < |s|
    ensures Total(s, q) == Weight(s[i], q) + Total(Without(s, i), q)
  {
    if i == 0 {
      assert Without(s, 0) == s[1..];
    } else {
      TotalWithout(s[1..], i - 1, q);
      WithoutTail(s, i);
    }
  }

  lemma FactsWithout(t: seq<Route>, i: nat)
    requires i < |t|
    ensures FactsOfRoutes(Without(t, i)) == Without(FactsOfRoutes(t), i)
    ensures FactsOfRoutes(t[1..]) == FactsOfRoutes(t)[1..]
  {
  }

  lemma {:induction false} SameTotal(s: seq<Route>, t: seq<Route>, q: RouteQuery)
    requires multiset(FactsOfRoutes(s)) == multiset(FactsOfRoutes(t))
    ensures Total(s, q) == Total(t, q)
  {
    if s == [] {
      assert |t| == |multiset(FactsOfRoutes(t))| == |multiset(FactsOfRoutes(s))|;
    } else {
      var i := MatchHead(FactsOfRoutes(s), FactsOfRoutes(t));
      SameHops(s[0], t[i], q);
      TotalWithout(t, i, q);
      FactsWithout(t, i);
      FactsWithout(s, 0);
      SameTotal(s[1..], Without(t, i), q);
    }
  }

  lemma {:induction false} SameAsked(f: Fabric, g: Fabric, nodeId: string, q: RouteQuery)
    requires f.Valid() && g.Valid() && Reordered(f, g)
    ensures Asked(FindNode(f.nodes, nodeId), q) == Asked(FindNode(g.nodes, nodeId), q)
  {
    SameNode(f, g, nodeId);
    var m, n := FindNode(f.nodes, nodeId), FindNode(g.nodes, nodeId);
    if m.Some? {
      SameTotal(m.value.routes, n.value.routes, q);
    }
  }

  // Views and evidence

  /** Equal in everything a diagnosis reads. */
  ghost predicate SameView(v: EndView, w: EndView) {
    && v.end == w.end && v.peer == w.peer
    && v.InterfaceState() == w.InterfaceState()
    && v.neighbor == w.neighbor
    && AddressMatches(v) == AddressMatches(w)
  }

  lemma ReorderedView(f: Fabric, g: Fabric, end: Endpoint, peer: Endpoint)
    requires f.Valid() && g.Valid() && Reordered(f, g)
    ensures SameView(View(f, end, peer), View(g, end, peer))
    ensures NextHopItem(View(f, end, peer)) == NextHopItem(View(g, end, peer))
  {
    SameAsked(f, g, end.nodeId, UsesHop(peer.address));
    ReorderedSameView(f, g, end, peer);
  }

  lemma ReorderedSameView(f: Fabric, g: Fabric, end: Endpoint, peer: Endpoint)
    requires f.Valid() && g.Valid() && Reordered(f, g)
    ensures SameView(View(f, end, peer), View(g, end, peer))
  {
    hide FindNode, FindInterface, FindNeighbor, ObservedIPv4;
    SameNode(f, g, end.nodeId);
    var m, n := FindNode(f.nodes, end.nodeId), FindNode(g.nodes, end.nodeId);
    if m.Some? {
      SameInterface(m.value.interfaces, n.value.interfaces, end.interfaceName);
      var i := FindInterface(m.value.interfaces, end.interfaceName);
      var j := FindInterface(n.value.interfaces, end.interfaceName);
      if i.Some? {
        SameObservedIPv4(i.value, j.value);
      }
      if m.value.bgp.Some? {
        SameNeighbor(m.value.bgp.value.neighbors, n.value.bgp.value.neighbors, peer.address);
      }
    }
  }

  lemma {:induction false} ReorderedEcmp(t: Topology, f: Fabric, g: Fabric, link: PhysicalLink, n: nat)
    requires f.Valid() && g.Valid() && Reordered(f, g) && n <= |t.expectations|
    ensures EcmpItems(t, f.nodes, link, n) == EcmpItems(t, g.nodes, link, n)
  {
    hide FindNode, Asked, LostNextHop, Reordered;
    if n > 0 {
      ReorderedEcmp(t, f, g, link, n - 1);
      var e := t.expectations[n - 1];
      var hop := LostNextHop(t, e, link);
      if hop.Some? {
        SameAsked(f, g, e.nodeId, BgpPathVia(e.prefix, hop.value));
        SameAsked(f, g, e.nodeId, BgpPaths(e.prefix));
      }
    }
  }

  lemma {:induction false} ReorderedReachability(f: Fabric, g: Fabric, hosts: seq<string>)
    requires f.Valid() && g.Valid() && Reordered(f, g)
    ensures ReachabilityItems(f.nodes, hosts) == ReachabilityItems(g.nodes, hosts)
  {
    if hosts != [] {
      ReorderedReachability(f, g, hosts[..|hosts| - 1]);
      SameNode(f, g, hosts[|hosts| - 1]);
    }
  }

  lemma SameViewsSameFacts(a: EndView, b: EndView, a': EndView, b': EndView)
    requires SameView(a, a') && SameView(b, b')
    ensures InterfaceSymptom(a, b) == InterfaceSymptom(a', b') && BgpSymptom(a, b) == BgpSymptom(a', b')
    ensures Classify(a, b) == Classify(a', b')
    ensures Capped(Classify(a, b).1, a, b) == Capped(Classify(a', b').1, a', b')
    ensures DeviceId(a.end.nodeId).Some? && DeviceId(b.end.nodeId).Some? ==> SymptomKeys(a, b) == SymptomKeys(a', b')
  {
    assert a.BgpState() == a'.BgpState() && b.BgpState() == b'.BgpState();
    assert AddressItem(a) == AddressItem(a') && AddressItem(b) == AddressItem(b');
  }

  lemma SameViewsSameItems(dtype: DiagnosisType, v: EndView, w: EndView)
    requires SameView(v, w)
    ensures InterfaceItem(dtype, v) == InterfaceItem(dtype, w)
    ensures BgpItem(v) == BgpItem(w) && AddressItem(v) == AddressItem(w)
  {
    assert v.BgpState() == w.BgpState();
  }

  lemma ReorderedEvidence(
    t: Topology, f: Fabric, g: Fabric, link: PhysicalLink, a: EndView, b: EndView, a': EndView, b': EndView)
    requires f.Valid() && g.Valid() && Reordered(f, g)
    requires SameView(a, a') && SameView(b, b')
    requires NextHopItem(a) == NextHopItem(a') && NextHopItem(b) == NextHopItem(b')
    ensures LinkEvidence(t, f, link, a, b) == LinkEvidence(t, g, link, a', b')
  {
    SameViewsSameFacts(a, b, a', b');
    var dtype := Classify(a, b).0;
    SameViewsSameItems(dtype, a, a');
    SameViewsSameItems(dtype, b, b');
    ReorderedEcmp(t, f, g, link, |t.expectations|);
    ReorderedReachability(f, g, t.hosts);
  }

  lemma ReorderedLink(t: Topology, f: Fabric, g: Fabric, link: PhysicalLink)
    requires f.Valid() && g.Valid() && Reordered(f, g) && RouterLink(link)
    ensures DiagnoseLink(t, f, link) == DiagnoseLink(t, g, link)
  {
    var a, b := View(f, link.endA, link.endB), View(f, link.endB, link.endA);
    var a', b' := View(g, link.endA, link.endB), View(g, link.endB, link.endA);
    ReorderedView(f, g, link.endA, link.endB);
    ReorderedView(f, g, link.endB, link.endA);
    SameViewsSameFacts(a, b, a', b');
    ReorderedEvidence(t, f, g, link, a, b, a', b');
  }

  lemma {:induction false} ReorderedLinks(t: Topology, f: Fabric, g: Fabric, links: seq<PhysicalLink>)
    requires f.Valid() && g.Valid() && Reordered(f, g)
    requires forall i | 0 <= i < |links| :: RouterLink(links[i])
    ensures DiagnoseLinks(t, f, links) == DiagnoseLinks(t, g, links)
  {
    if links != [] {
      ReorderedLinks(t, f, g, links[..|links| - 1]);
      ReorderedLink(t, f, g, links[|links| - 1]);
    }
  }

  /** The engine returns the identical sequence, evidence included, for any reordering of nodes,
      interfaces, addresses, neighbors, routes and next hops. */
  lemma DiagnoseIsCanonical(t: Topology, f: Fabric, g: Fabric)
    requires t.Valid() && f.Valid() && g.Valid() && Reordered(f, g)
    ensures Diagnose(t, f) == Diagnose(t, g)
  {
    ReorderedLinks(t, f, g, t.routerLinks);
  }

  // Fewer observations

  /** `less` observes a part of what `more` does: nodes, interfaces and neighbors may be missing and
      facets unavailable, but whatever is observed agrees on state. */
  ghost predicate ObservesLess(less: Fabric, more: Fabric) {
    forall n | n in less.nodes :: exists m :: m in more.nodes && NodeObservesLess(n, m)
  }

  ghost predicate NodeObservesLess(n: NodeState, m: NodeState) {
    && n.nodeId == m.nodeId
    && (forall i | i in n.interfaces :: exists j :: j in m.interfaces && i.name == j.name && i.operState == j.operState)
    && (n.bgp.Some? ==>
          (m.bgp.Some?
           && forall x | x in n.bgp.value.neighbors ::
                exists y :: y in m.bgp.value.neighbors && x.neighborIp == y.neighborIp && x.state == y.state))
  }

  /** Every fact a view has of less is unknown or the fact it has of more. */
  lemma LessIsKnown(less: Fabric, more: Fabric, end: Endpoint, peer: Endpoint)
    requires less.Valid() && more.Valid() && ObservesLess(less, more)
    ensures var v, w := View(less, end, peer), View(more, end, peer);
            KnowsLess(v, w)
  {
    var n := FindNode(less.nodes, end.nodeId);
    if n.Some? {
      assert n.value in less.nodes;
      var m :| m in more.nodes && NodeObservesLess(n.value, m);
      UniqueNode(more, m);
      InterfaceLessIsKnown(n.value, m, View(less, end, peer), View(more, end, peer));
      NeighborLessIsKnown(n.value, m, View(less, end, peer), View(more, end, peer));
    }
  }

  lemma InterfaceLessIsKnown(n: NodeState, m: NodeState, v: EndView, w: EndView)
    requires m.Valid() && NodeObservesLess(n, m)
    requires v.interface ==
             if Interfaces in n.unavailable then None else FindInterface(n.interfaces, v.end.interfaceName)
    requires w.interface ==
             if Interfaces in m.unavailable then None else FindInterface(m.interfaces, v.end.interfaceName)
    ensures v.InterfaceState().EndUnknown? || v.InterfaceState() == w.InterfaceState()
  {
    UniqueInterface(m, n, v.end.interfaceName);
  }

  lemma NeighborLessIsKnown(n: NodeState, m: NodeState, v: EndView, w: EndView)
    requires m.Valid() && NodeObservesLess(n, m)
    requires v.neighbor == if n.bgp.None? then None else FindNeighbor(n.bgp.value.neighbors, v.peer.address)
    requires w.neighbor == if m.bgp.None? then None else FindNeighbor(m.bgp.value.neighbors, v.peer.address)
    ensures v.BgpState().BgpIsUnknown? || v.BgpState() == w.BgpState()
  {
    if n.bgp.Some? {
      UniqueNeighbor(m, n, v.peer.address);
    }
  }

  lemma {:induction false} UniqueInterface(m: NodeState, n: NodeState, name: string)
    requires m.Valid() && NodeObservesLess(n, m)
    ensures FindInterface(n.interfaces, name).Some? ==>
              && FindInterface(m.interfaces, name).Some?
              && FindInterface(m.interfaces, name).value.operState == FindInterface(n.interfaces, name).value.operState
              && Interfaces !in m.unavailable
  {
    var found := FindInterface(n.interfaces, name);
    if found.Some? {
      var j :| j in m.interfaces && found.value.name == j.name && found.value.operState == j.operState;
      var i :| 0 <= i < |m.interfaces| && m.interfaces[i] == j;
      var other := FindInterface(m.interfaces, name);
      assert other.Some?;
      var k :| 0 <= k < |m.interfaces| && m.interfaces[k] == other.value;
      assert k == i;
    }
  }

  lemma {:induction false} UniqueNeighbor(m: NodeState, n: NodeState, ip: string)
    requires m.Valid() && NodeObservesLess(n, m) && n.bgp.Some?
    ensures FindNeighbor(n.bgp.value.neighbors, ip).Some? ==>
              && FindNeighbor(m.bgp.value.neighbors, ip).Some?
              && FindNeighbor(m.bgp.value.neighbors, ip).value.state ==
                 FindNeighbor(n.bgp.value.neighbors, ip).value.state
  {
    var found := FindNeighbor(n.bgp.value.neighbors, ip);
    if found.Some? {
      var all := m.bgp.value.neighbors;
      var y :| y in all && found.value.neighborIp == y.neighborIp && found.value.state == y.state;
      var i :| 0 <= i < |all| && all[i] == y;
      var other := FindNeighbor(all, ip);
      assert other.Some?;
      var k :| 0 <= k < |all| && all[k] == other.value;
      assert m.bgp.value.Valid();
      assert k == i;
    }
  }

  /** Of two views of an end, the first knows less. */
  ghost predicate KnowsLess(v: EndView, w: EndView) {
    && v.end == w.end && v.peer == w.peer
    && (v.InterfaceState().EndUnknown? || v.InterfaceState() == w.InterfaceState())
    && (v.BgpState().BgpIsUnknown? || v.BgpState() == w.BgpState())
  }

  lemma SymptomsOfLess(a: EndView, b: EndView, a': EndView, b': EndView)
    requires KnowsLess(a, a') && KnowsLess(b, b')
    ensures InterfaceSymptom(a, b) || BgpSymptom(a, b) ==> InterfaceSymptom(a', b') || BgpSymptom(a', b')
  {
  }

  lemma KeysOfLess(a: EndView, b: EndView, a': EndView, b': EndView, k: SymptomKey)
    requires KnowsLess(a, a') && KnowsLess(b, b')
    requires DeviceId(a.end.nodeId).Some? && DeviceId(b.end.nodeId).Some?
    ensures k in SymptomKeys(a, b) ==> k in SymptomKeys(a', b')
  {
    KeysOfDownEnds(a, b);
    KeysOfDownEnds(a', b');
  }

  /** Losing observations never adds a diagnosed link, nor a symptom key. */
  lemma FewerObservationsAddNothing(t: Topology, less: Fabric, more: Fabric, link: PhysicalLink)
    requires less.Valid() && more.Valid() && ObservesLess(less, more) && RouterLink(link)
    ensures DiagnoseLink(t, less, link).Some? ==>
              && DiagnoseLink(t, more, link).Some?
              && forall k | k in DiagnoseLink(t, less, link).value.symptomKeys ::
                   k in DiagnoseLink(t, more, link).value.symptomKeys
  {
    var a, b := View(less, link.endA, link.endB), View(less, link.endB, link.endA);
    var a', b' := View(more, link.endA, link.endB), View(more, link.endB, link.endA);
    LessIsKnown(less, more, link.endA, link.endB);
    LessIsKnown(less, more, link.endB, link.endA);
    SymptomsOfLess(a, b, a', b');
    forall k ensures k in SymptomKeys(a, b) ==> k in SymptomKeys(a', b') {
      KeysOfLess(a, b, a', b', k);
    }
  }

  /** The keys are exactly those of the ends whose session is down, each once. */
  lemma KeysOfDownEnds(a: EndView, b: EndView)
    requires DeviceId(a.end.nodeId).Some? && DeviceId(b.end.nodeId).Some?
    ensures forall k :: k in SymptomKeys(a, b) <==>
              (a.BgpState().BgpIsDown? && k == KeyOf(a)) || (b.BgpState().BgpIsDown? && k == KeyOf(b))
    ensures forall i, j | 0 <= i < j < |SymptomKeys(a, b)| :: SymptomKeys(a, b)[i] != SymptomKeys(a, b)[j]
  {
    hide EndView.BgpState, KeyLe, Sort, DeviceId, BgpNeighborResource;
    SortTwo(KeyLe, KeyOf(a), KeyOf(b));
  }

  // What fewer observations can do is strengthen a verdict

  /** No diagnosis, or one without a confidence, is weaker than any with one. */
  function Rank(c: Option<Confidence>): nat {
    match c
    case None => 0
    case Some(LowConfidence) => 1
    case Some(MediumConfidence) => 2
    case Some(HighConfidence) => 3
  }

  function Strength(d: Option<Diagnosis>): nat {
    if d.None? then 0 else Rank(d.value.confidence)
  }

  predicate SomeEstablished(a: EndView, b: EndView) {
    a.BgpState().BgpIsEstablished? || b.BgpState().BgpIsEstablished?
  }

  predicate BothDown(a: EndView, b: EndView) {
    a.InterfaceState().EndDown? && b.InterfaceState().EndDown?
  }

  predicate BothUp(a: EndView, b: EndView) {
    a.InterfaceState().EndUp? && b.InterfaceState().EndUp?
  }

  /** The fuller pair saw an established session, the lesser one saw none but does see a fault. */
  predicate LosesEstablished(a: EndView, b: EndView, a': EndView, b': EndView) {
    && SomeEstablished(a', b') && !SomeEstablished(a, b)
    && (InterfaceSymptom(a, b) || (BothUp(a, b) && BgpSymptom(a, b)))
  }

  predicate InConflict(a: EndView, b: EndView) {
    AddressMatches(a).1 == Some(false) || AddressMatches(b).1 == Some(false)
  }

  /** The fuller pair saw a wrong address, the lesser one did not but sees all that makes it certain:
      both ends failed the same way, with the session down. */
  predicate LosesConflict(a: EndView, b: EndView, a': EndView, b': EndView) {
    && InConflict(a', b') && !InConflict(a, b) && !SomeEstablished(a, b)
    && ((BothDown(a, b) && BgpSymptom(a, b))
        || (BothUp(a, b) && a.BgpState().BgpIsDown? && b.BgpState().BgpIsDown?))
  }

  /** Before the cap, only losing the sight of an established session raises the confidence. */
  lemma UncappedRisesIff(a: EndView, b: EndView, a': EndView, b': EndView)
    requires KnowsLess(a, a') && KnowsLess(b, b')
    ensures Rank(Classify(a, b).1) > Rank(Classify(a', b').1) <==> LosesEstablished(a, b, a', b')
  {
  }

  lemma CappedRisesIff(a: EndView, b: EndView, a': EndView, b': EndView)
    requires KnowsLess(a, a') && KnowsLess(b, b')
    ensures Rank(Capped(Classify(a, b).1, a, b)) > Rank(Capped(Classify(a', b').1, a', b')) <==>
            LosesEstablished(a, b, a', b') || LosesConflict(a, b, a', b')
  {
    hide AddressMatches;
    UncappedRisesIff(a, b, a', b');
    assert AddressItem(a).role.Contradicts? || AddressItem(b).role.Contradicts? <==> InConflict(a, b);
    assert AddressItem(a').role.Contradicts? || AddressItem(b').role.Contradicts? <==> InConflict(a', b');
  }

  /** Fewer observations raise a link's confidence exactly when they lose the sight of an established
      session or of a conflicting address, and still show the fault these spoke against. */
  lemma FewerObservationsStrengthenIff(t: Topology, less: Fabric, more: Fabric, link: PhysicalLink)
    requires less.Valid() && more.Valid() && ObservesLess(less, more) && RouterLink(link)
    ensures var a, b := View(less, link.endA, link.endB), View(less, link.endB, link.endA);
            var a', b' := View(more, link.endA, link.endB), View(more, link.endB, link.endA);
            Strength(DiagnoseLink(t, less, link)) > Strength(DiagnoseLink(t, more, link)) <==>
            LosesEstablished(a, b, a', b') || LosesConflict(a, b, a', b')
  {
    var a, b := View(less, link.endA, link.endB), View(less, link.endB, link.endA);
    var a', b' := View(more, link.endA, link.endB), View(more, link.endB, link.endA);
    LessIsKnown(less, more, link.endA, link.endB);
    LessIsKnown(less, more, link.endB, link.endA);
    StrengthOfViews(t, less, link, a, b);
    StrengthOfViews(t, more, link, a', b');
    hide *;
    CappedRisesIff(a, b, a', b');
  }

  lemma StrengthOfViews(t: Topology, f: Fabric, link: PhysicalLink, a: EndView, b: EndView)
    requires RouterLink(link)
    requires a == View(f, link.endA, link.endB) && b == View(f, link.endB, link.endA)
    ensures Strength(DiagnoseLink(t, f, link)) == Rank(Capped(Classify(a, b).1, a, b))
  {
    hide LinkEvidence, View, SymptomKeys, AddressItem, Sort;
  }

  // Both ways occur, on the first link of Lab 1

  function Seen(end: Endpoint, peer: Endpoint, interface: InterfaceObservation, state: BgpSessionState): NodeState {
    NodeState(end.nodeId, Router, 0, CollectionSource("agent", "lab-1", "c"), [interface],
              Some(BgpObservation(65001, "r", [BgpNeighbor(peer.address, None, state, None, None, None)])), [], [], {})
  }

  lemma SeenIsFound(f: Fabric, end: Endpoint, peer: Endpoint, i: InterfaceObservation, state: BgpSessionState)
    requires f.Valid() && Seen(end, peer, i, state) in f.nodes && i.name == end.interfaceName
    ensures var v := View(f, end, peer);
            && v.end == end && v.peer == peer && v.interface == Some(i)
            && v.neighbor == Some(BgpNeighbor(peer.address, None, state, None, None, None))
  {
    UniqueNode(f, Seen(end, peer, i, state));
  }

  /** What is diagnosed is the classification of the views of both ends. */
  lemma DiagnosisOfViews(t: Topology, f: Fabric, link: PhysicalLink, a: EndView, b: EndView)
    requires RouterLink(link)
    requires a == View(f, link.endA, link.endB) && b == View(f, link.endB, link.endA)
    requires InterfaceSymptom(a, b)
    ensures DiagnoseLink(t, f, link).Some?
    ensures DiagnoseLink(t, f, link).value.diagnosisType == Classify(a, b).0
    ensures DiagnoseLink(t, f, link).value.confidence == Capped(Classify(a, b).1, a, b)
  {
    hide LinkEvidence, View, SymptomKeys, AddressItem, Sort;
  }

  predicate IsPart(n: NodeState) {
    n.collectedAt == 0 && n.source.collectionId == "c"
  }

  lemma SeenIsPart(end: Endpoint, peer: Endpoint, i: InterfaceObservation, state: BgpSessionState)
    ensures Seen(end, peer, i, state).Valid() && IsPart(Seen(end, peer, i, state))
  {
  }

  lemma FabricsOf(m: NodeState, n: NodeState) returns (one: Fabric, two: Fabric)
    requires m.Valid() && n.Valid() && m.nodeId != n.nodeId && IsPart(m) && IsPart(n)
    ensures one.nodes == [m] && two.nodes == [m, n] && one.Valid() && two.Valid()
  {
    one, two := Fabric("c", 0, [m]), Fabric("c", 0, [m, n]);
  }

  lemma {:induction false} EverythingIsKnown(n: NodeState)
    ensures NodeObservesLess(n, n)
  {
  }

  lemma DroppedNode(less: Fabric, more: Fabric, m: NodeState, n: NodeState)
    requires less.nodes == [m] && more.nodes == [m, n]
    ensures ObservesLess(less, more)
  {
    EverythingIsKnown(m);
    assert more.nodes[0] == m;
  }

  lemma DroppedFacts(less: Fabric, more: Fabric, m: NodeState, m': NodeState, n: NodeState)
    requires less.nodes == [m, n] && more.nodes == [m', n] && NodeObservesLess(m, m')
    ensures ObservesLess(less, more)
  {
    EverythingIsKnown(n);
    assert more.nodes[0] == m' && more.nodes[1] == n;
  }

  lemma NotSeen(f: Fabric, end: Endpoint, peer: Endpoint)
    requires forall n | n in f.nodes :: n.nodeId != end.nodeId
    ensures View(f, end, peer) == EndView(end, peer, None, None, None)
  {
  }

  lemma FirstLink() returns (link: PhysicalLink)
    ensures link in Lab1().routerLinks && RouterLink(link)
    ensures link.endA.interfaceName == link.endB.interfaceName == "eth1"
    ensures link.endA.address == "10.255.0.1"
  {
    link := Lab1().routerLinks[0];
  }

  /** Without the spine, which reports the session established, the leaf's down interface becomes a
      physical link failure. */
  lemma DroppingANodeStrengthens() returns (less: Fabric, more: Fabric, link: PhysicalLink)
    ensures link in Lab1().routerLinks && RouterLink(link)
    ensures less.Valid() && more.Valid() && ObservesLess(less, more)
    ensures DiagnoseLink(Lab1(), more, link).Some? && DiagnoseLink(Lab1(), less, link).Some?
    ensures DiagnoseLink(Lab1(), more, link).value.diagnosisType.InsufficientEvidence?
    ensures DiagnoseLink(Lab1(), less, link).value.diagnosisType.PhysicalLinkFailure?
  {
    hide FindNode, FindInterface, FindNeighbor, View, DiagnoseLink, Lab1, ObservesLess;
    link := FirstLink();
    var down, up := InterfaceObservation("eth1", InterfaceDown, []), InterfaceObservation("eth1", InterfaceUp, []);
    var leaf, spine := Seen(link.endA, link.endB, down, Connect), Seen(link.endB, link.endA, up, Established);
    SeenIsPart(link.endA, link.endB, down, Connect);
    SeenIsPart(link.endB, link.endA, up, Established);
    less, more := FabricsOf(leaf, spine);
    DroppedNode(less, more, leaf, spine);
    SeenIsFound(more, link.endA, link.endB, down, Connect);
    SeenIsFound(more, link.endB, link.endA, up, Established);
    SeenIsFound(less, link.endA, link.endB, down, Connect);
    NotSeen(less, link.endB, link.endA);
    DiagnosisOfViews(Lab1(), more, link, View(more, link.endA, link.endB), View(more, link.endB, link.endA));
    DiagnosisOfViews(Lab1(), less, link, View(less, link.endA, link.endB), View(less, link.endB, link.endA));
  }

  /** Without the leaf's wrong address the failure of the link is certain. */
  lemma DroppingAnAddressStrengthens() returns (less: Fabric, more: Fabric, link: PhysicalLink)
    ensures link in Lab1().routerLinks && RouterLink(link)
    ensures less.Valid() && more.Valid() && ObservesLess(less, more)
    ensures DiagnoseLink(Lab1(), more, link).Some? && DiagnoseLink(Lab1(), less, link).Some?
    ensures DiagnoseLink(Lab1(), more, link).value.confidence == Some(MediumConfidence)
    ensures DiagnoseLink(Lab1(), less, link).value.confidence == Some(HighConfidence)
  {
    hide *;
    link := FirstLink();
    var wrong := InterfaceObservation("eth1", InterfaceDown, [IPv4Address("10.9.9.9", 31)]);
    var down := InterfaceObservation("eth1", InterfaceDown, []);
    assert "10.9.9.9"[3] != "10.255.0.1"[3];
    less := BothEndsFailed(link, down, down, "10.9.9.9");
    more := BothEndsFailed(link, wrong, down, "10.9.9.9");
    MoreAddresses(link.endA, link.endB, down, wrong, Idle);
    DroppedFacts(less, more, Seen(link.endA, link.endB, down, Idle), Seen(link.endA, link.endB, wrong, Idle),
                 Seen(link.endB, link.endA, down, Idle));
  }

  lemma BothEndsFailed(link: PhysicalLink, i: InterfaceObservation, j: InterfaceObservation, ip: string)
    returns (f: Fabric)
    requires RouterLink(link) && link.endA.address != ip
    requires i.name == link.endA.interfaceName && i.operState.InterfaceDown?
    requires j.name == link.endB.interfaceName && j.operState.InterfaceDown? && j.addresses == []
    requires i.addresses == [] || i.addresses == [IPv4Address(ip, 31)]
    ensures f.Valid() && f.nodes == [Seen(link.endA, link.endB, i, Idle), Seen(link.endB, link.endA, j, Idle)]
    ensures DiagnoseLink(Lab1(), f, link).Some?
    ensures DiagnoseLink(Lab1(), f, link).value.confidence ==
            Some(if i.addresses == [] then HighConfidence else MediumConfidence)
  {
    hide FindNode, FindInterface, FindNeighbor, View, DiagnoseLink, Lab1, AddressItem;
    SeenIsPart(link.endA, link.endB, i, Idle);
    SeenIsPart(link.endB, link.endA, j, Idle);
    var _, two := FabricsOf(Seen(link.endA, link.endB, i, Idle), Seen(link.endB, link.endA, j, Idle));
    f := two;
    SeenIsFound(f, link.endA, link.endB, i, Idle);
    SeenIsFound(f, link.endB, link.endA, j, Idle);
    var a, b := View(f, link.endA, link.endB), View(f, link.endB, link.endA);
    OneAddress(a, i, ip);
    OneAddress(b, j, ip);
    DiagnosisOfViews(Lab1(), f, link, a, b);
  }

  lemma MoreAddresses(
    end: Endpoint, peer: Endpoint, i: InterfaceObservation, j: InterfaceObservation, state: BgpSessionState)
    requires i.name == j.name && i.operState == j.operState
    ensures NodeObservesLess(Seen(end, peer, i, state), Seen(end, peer, j, state))
  {
    assert Seen(end, peer, j, state).interfaces[0] == j;
    var neighbors := Seen(end, peer, j, state).bgp.value.neighbors;
    assert neighbors[0] in neighbors;
  }

  lemma OneAddress(v: EndView, i: InterfaceObservation, ip: string)
    requires v.interface == Some(i)
    ensures i.addresses == [] ==> !AddressItem(v).role.Contradicts?
    ensures i.addresses == [IPv4Address(ip, 31)] && v.end.address != ip ==> AddressItem(v).role.Contradicts?
  {
    if i.addresses == [IPv4Address(ip, 31)] {
      assert i.addresses[1..] == [] && IPv4Of([]) == [];
      assert IPv4Of(i.addresses) == [ip];
      SortPermutes(StringLe, [ip]);
      assert |Sort(StringLe, [ip])| == 1 && Sort(StringLe, [ip])[0] in multiset([ip]);
    }
  }

  /** Routes and reachability never decide a diagnosis, its confidence or its symptom keys. */
  lemma RoutesNeverDecide(t: Topology, f: Fabric, g: Fabric, link: PhysicalLink)
    requires f.Valid() && g.Valid() && RouterLink(link)
    requires |f.nodes| == |g.nodes|
    requires forall i | 0 <= i < |f.nodes| ::
               && f.nodes[i].nodeId == g.nodes[i].nodeId
               && f.nodes[i].interfaces == g.nodes[i].interfaces && f.nodes[i].bgp == g.nodes[i].bgp
    ensures DiagnoseLink(t, f, link).Some? <==> DiagnoseLink(t, g, link).Some?
    ensures DiagnoseLink(t, f, link).Some? ==>
              var d, e := DiagnoseLink(t, f, link).value, DiagnoseLink(t, g, link).value;
              && d.diagnosisType == e.diagnosisType && d.confidence == e.confidence
              && d.symptomKeys == e.symptomKeys
  {
    SameWithoutRoutes(f, g, link.endA, link.endB);
    SameWithoutRoutes(f, g, link.endB, link.endA);
    SameViewsSameFacts(View(f, link.endA, link.endB), View(f, link.endB, link.endA),
                       View(g, link.endA, link.endB), View(g, link.endB, link.endA));
  }

  lemma SameWithoutRoutes(f: Fabric, g: Fabric, end: Endpoint, peer: Endpoint)
    requires f.Valid() && g.Valid() && |f.nodes| == |g.nodes|
    requires forall i | 0 <= i < |f.nodes| ::
               && f.nodes[i].nodeId == g.nodes[i].nodeId
               && f.nodes[i].interfaces == g.nodes[i].interfaces && f.nodes[i].bgp == g.nodes[i].bgp
    ensures SameView(View(f, end, peer), View(g, end, peer))
  {
    hide FindNode, FindInterface, FindNeighbor, ObservedIPv4;
    NodeWithoutRoutes(f, g, end.nodeId);
  }

  lemma {:induction false} NodeWithoutRoutes(f: Fabric, g: Fabric, nodeId: string)
    requires f.Valid() && g.Valid() && |f.nodes| == |g.nodes|
    requires forall i | 0 <= i < |f.nodes| ::
               && f.nodes[i].nodeId == g.nodes[i].nodeId
               && f.nodes[i].interfaces == g.nodes[i].interfaces && f.nodes[i].bgp == g.nodes[i].bgp
    ensures var n, m := FindNode(f.nodes, nodeId), FindNode(g.nodes, nodeId);
            && (n.Some? <==> m.Some?)
            && (n.Some? ==> n.value.interfaces == m.value.interfaces && n.value.bgp == m.value.bgp
                            && n.value.Valid() && m.value.Valid())
  {
    var n := FindNode(f.nodes, nodeId);
    if n.Some? {
      var i :| 0 <= i < |f.nodes| && f.nodes[i] == n.value;
      UniqueNode(g, g.nodes[i]);
      UniqueNode(f, f.nodes[i]);
    } else {
      forall x | x in g.nodes ensures x.nodeId != nodeId {
        var i :| 0 <= i < |g.nodes| && g.nodes[i] == x;
        assert f.nodes[i] in f.nodes;
      }
    }
  }
}
