/** The collected operational state of one lab, and which collection is its latest. */
module OperationalState {
  import opened Wrappers

  datatype NodeRole = Router | Host
  datatype InterfaceOperState = InterfaceUp | InterfaceDown | InterfaceUnknown

  /** The BGP finite-state-machine states (section 8.2.2 of RFC 4271), plus "not recognized". */
  datatype BgpSessionState =
    Idle | Connect | Active | OpenSent | OpenConfirm | Established | UnknownState

  datatype Facet = Interfaces | Bgp | Routes | Reachability

  datatype CollectionSource = CollectionSource(collector: string, labName: string, collectionId: string)

  datatype InterfaceAddress = IPv4Address(ip: string, prefixLength: nat) | IPv6Address(text: string)

  datatype InterfaceObservation =
    InterfaceObservation(name: string, operState: InterfaceOperState, addresses: seq<InterfaceAddress>)

  datatype BgpNeighbor = BgpNeighbor(
    neighborIp: string,
    remoteAs: Option<nat>,
    state: BgpSessionState,
    rawState: Option<string>,
    prefixesReceived: Option<nat>,
    uptimeMs: Option<nat>)
  {
    predicate Valid() {
      && (remoteAs.Some? ==> remoteAs.value > 0)
      && (!state.Established? ==> prefixesReceived.None? && uptimeMs.None?)
    }

    predicate IsDown() {
      state.Idle? || state.Active?
    }
  }

  datatype BgpObservation = BgpObservation(localAs: nat, routerId: string, neighbors: seq<BgpNeighbor>) {
    ghost predicate Valid() {
      && localAs > 0
      && (forall i | 0 <= i < |neighbors| :: neighbors[i].Valid())
      && (forall i, j | 0 <= i < j < |neighbors| :: neighbors[i].neighborIp != neighbors[j].neighborIp)
    }
  }

  datatype NextHop = NextHop(ip: Option<string>, interfaceName: Option<string>)

  datatype Route = Route(prefix: string, protocol: string, nextHops: seq<NextHop>)

  datatype Probe = Probe(target: string, sent: nat, received: nat)

  datatype NodeState = NodeState(
    nodeId: string,
    role: NodeRole,
    collectedAt: int,
    source: CollectionSource,
    interfaces: seq<InterfaceObservation>,
    bgp: Option<BgpObservation>,
    routes: seq<Route>,
    reachability: seq<Probe>,
    unavailable: set<Facet>)
  {
    /** What the constructor enforces: an unavailable facet carries no data, and a router either
        reports BGP or marks it unavailable, while a host does neither. */
    ghost predicate Valid() {
      && (forall i, j | 0 <= i < j < |interfaces| :: interfaces[i].name != interfaces[j].name)
      && (forall i, j | 0 <= i < j < |routes| ::
            (routes[i].prefix, routes[i].protocol) != (routes[j].prefix, routes[j].protocol))
      && (Interfaces in unavailable ==> interfaces == [])
      && (Routes in unavailable ==> routes == [])
      && (Reachability in unavailable ==> reachability == [])
      && (if role.Host? then bgp.None? && Bgp !in unavailable else bgp.None? <==> Bgp in unavailable)
      && (bgp.Some? ==> bgp.value.Valid())
    }
  }

  datatype Fabric = Fabric(collectionId: string, collectedAt: int, nodes: seq<NodeState>) {
    ghost predicate Valid() {
      && (forall i, j | 0 <= i < j < |nodes| :: nodes[i].nodeId != nodes[j].nodeId)
      && (forall i | 0 <= i < |nodes| ::
            && nodes[i].Valid()
            && nodes[i].collectedAt == collectedAt
            && nodes[i].source.collectionId == collectionId)
    }
  }

  /** The exceptions raised on the way to a committed write. */
  datatype Error =
    | EmptyFabric
    | MixedLabName
    | MixedCollector
    | UnknownRouter(nodeId: string)
    | DeviceNotFound(deviceId: string)
    | StaleOperationalState
    | OperationalStateConflict
    | StaleObservation
    | ResolvedTooEarly
    | NotResolvable
    | IncidentNotFound(incidentId: nat)
    | DeviceMismatch
    | CommitFailed

  // The lab a fabric belongs to

  function DeriveLab(fabric: Fabric): (r: Result<string, Error>) {
    if fabric.nodes == [] then Failure(EmptyFabric)
    else if exists i | 0 <= i < |fabric.nodes| ::
              fabric.nodes[i].source.labName != fabric.nodes[0].source.labName then
      Failure(MixedLabName)
    else if exists i | 0 <= i < |fabric.nodes| ::
              fabric.nodes[i].source.collector != fabric.nodes[0].source.collector then
      Failure(MixedCollector)
    else
      Success(fabric.nodes[0].source.labName)
  }

  predicate OneCollector(fabric: Fabric) {
    forall i, j | 0 <= i < |fabric.nodes| && 0 <= j < |fabric.nodes| ::
      fabric.nodes[i].source.collector == fabric.nodes[j].source.collector
  }

  predicate OneLab(fabric: Fabric) {
    forall i, j | 0 <= i < |fabric.nodes| && 0 <= j < |fabric.nodes| ::
      fabric.nodes[i].source.labName == fabric.nodes[j].source.labName
  }

  /** A fabric has a lab exactly when it has nodes and all of them name one lab and one collector; the
      lab is then any node's, and otherwise the first of the three that fails is the exception. */
  lemma DeriveLabIsExact(fabric: Fabric)
    ensures DeriveLab(fabric).Success? <==> fabric.nodes != [] && OneLab(fabric) && OneCollector(fabric)
    ensures DeriveLab(fabric).Success? ==>
              forall i | 0 <= i < |fabric.nodes| :: fabric.nodes[i].source.labName == DeriveLab(fabric).value
    ensures DeriveLab(fabric) == Failure(EmptyFabric) <==> fabric.nodes == []
    ensures DeriveLab(fabric) == Failure(MixedLabName) <==> !OneLab(fabric)
    ensures DeriveLab(fabric) == Failure(MixedCollector) <==> OneLab(fabric) && !OneCollector(fabric)
  {
    if DeriveLab(fabric) == Failure(MixedLabName) {
      var i :| 0 <= i < |fabric.nodes| && fabric.nodes[i].source.labName != fabric.nodes[0].source.labName;
      assert !OneLab(fabric);
    }
    if DeriveLab(fabric) == Failure(MixedCollector) {
      var i :| 0 <= i < |fabric.nodes| && fabric.nodes[i].source.collector != fabric.nodes[0].source.collector;
      assert !OneCollector(fabric);
    }
  }

  // Latest-state writes

  datatype SaveOutcome = Created | Replaced | Unchanged

  function DecideLatestWrite(stored: Fabric, incoming: Fabric): Result<SaveOutcome, Error> {
    if incoming.collectionId == stored.collectionId then
      if incoming.collectedAt != stored.collectedAt then Failure(OperationalStateConflict)
      else if incoming != stored then Failure(OperationalStateConflict)
      else Success(Unchanged)
    else if incoming.collectedAt > stored.collectedAt then Success(Replaced)
    else if incoming.collectedAt < stored.collectedAt then Failure(StaleOperationalState)
    else Failure(OperationalStateConflict)
  }

  /** One write to a lab's row: the new row, or the exception. */
  function Write(row: Option<Fabric>, incoming: Fabric): Result<(Fabric, SaveOutcome), Error> {
    match row
    case None => Success((incoming, Created))
    case Some(stored) =>
      var outcome :- DecideLatestWrite(stored, incoming);
      Success((incoming, outcome))
  }

  /** The conditional upsert of the SQL repository: insert, or update only for a distinct and
      strictly newer collection, or else read the row back and classify it. `None` is its
      "vanished or not applied" internal error. */
  function ConditionalUpsert(row: Option<Fabric>, incoming: Fabric): Option<Result<(Fabric, SaveOutcome), Error>> {
    match row
    case None => Some(Success((incoming, Created)))
    case Some(stored) =>
      if stored.collectionId != incoming.collectionId && stored.collectedAt < incoming.collectedAt then
        Some(Success((incoming, Replaced)))
      else
        match DecideLatestWrite(stored, incoming)
        case Failure(e) => Some(Failure(e))
        case Success(outcome) => if outcome.Unchanged? then Some(Success((stored, Unchanged))) else None
  }

  /** Both repositories write alike, and the SQL one never reaches its internal error. */
  lemma RepositoriesWriteAlike(row: Option<Fabric>, incoming: Fabric)
    ensures ConditionalUpsert(row, incoming) == Some(Write(row, incoming))
  {
  }

  predicate Accepts(row: Option<Fabric>, incoming: Fabric) {
    var w := Write(row, incoming);
    w.Success? && !w.value.1.Unchanged?
  }

  function Deliver(row: Option<Fabric>, deliveries: seq<Fabric>): (r: Option<Fabric>) {
    if deliveries == [] then row
    else
      var before := Deliver(row, deliveries[..|deliveries| - 1]);
      match Write(before, deliveries[|deliveries| - 1])
      case Success((stored, _)) => Some(stored)
      case Failure(_) => before
  }

  /** A collection identifier always names the same fabric. */
  ghost predicate Consistent(deliveries: seq<Fabric>) {
    forall i, j | 0 <= i < |deliveries| && 0 <= j < |deliveries| ::
      deliveries[i].collectionId == deliveries[j].collectionId ==> deliveries[i] == deliveries[j]
  }

  /** After any deliveries the row is the first one with the greatest collection time. */
  lemma {:induction false} DeliverKeepsFirstMaximum(deliveries: seq<Fabric>) returns (m: nat)
    requires deliveries != [] && Consistent(deliveries)
    ensures m < |deliveries| && Deliver(None, deliveries) == Some(deliveries[m])
    ensures forall i | 0 <= i < |deliveries| :: deliveries[i].collectedAt <= deliveries[m].collectedAt
    ensures forall i | 0 <= i < m :: deliveries[i].collectedAt < deliveries[m].collectedAt
  {
    var n := |deliveries| - 1;
    if n == 0 {
      m := 0;
      assert Deliver(None, deliveries[..0]) == None;
    } else {
      m := DeliverKeepsFirstMaximum(deliveries[..n]);
      assert deliveries[..n][m] == deliveries[m];
      if deliveries[n].collectedAt > deliveries[m].collectedAt {
        m := n;
      }
    }
  }

  /** The accepted deliveries are exactly the strict left-to-right maxima by collection time. */
  lemma AcceptedAreStrictMaxima(deliveries: seq<Fabric>, n: nat)
    requires n < |deliveries| && Consistent(deliveries)
    ensures Accepts(Deliver(None, deliveries[..n]), deliveries[n]) <==>
            forall i | 0 <= i < n :: deliveries[i].collectedAt < deliveries[n].collectedAt
  {
    if n > 0 {
      var m := DeliverKeepsFirstMaximum(deliveries[..n]);
      assert deliveries[..n][m] == deliveries[m];
      assert forall i | 0 <= i < n :: deliveries[..n][i] == deliveries[i];
    }
  }

  /** A delivery that is neither accepted nor the stored collection raises, and is
      re-delivery of the stored one exactly when nothing is raised and nothing changes. */
  lemma RedeliveryIsUnchanged(stored: Fabric, incoming: Fabric)
    ensures Write(Some(stored), incoming) == Success((stored, Unchanged)) <==> incoming == stored
    ensures incoming != stored ==>
              (Write(Some(stored), incoming).Success? <==>
               incoming.collectionId != stored.collectionId && incoming.collectedAt > stored.collectedAt)
  {
  }

  /** Which error a write raises: an older collection is stale, and everything else that is neither newer nor
      the stored one is a conflict, be it another content, another time, or another collection of one instant. */
  lemma WriteIsExact(stored: Fabric, incoming: Fabric)
    ensures Write(None, incoming) == Success((incoming, Created))
    ensures Write(Some(stored), incoming) ==
            if incoming == stored then Success((stored, Unchanged))
            else if incoming.collectionId == stored.collectionId then Failure(OperationalStateConflict)
            else if incoming.collectedAt == stored.collectedAt then Failure(OperationalStateConflict)
            else if incoming.collectedAt > stored.collectedAt then Success((incoming, Replaced))
            else Failure(StaleOperationalState)
  {
  }

  predicate IsLatest(deliveries: seq<Fabric>, f: Fabric) {
    f in deliveries && forall i | 0 <= i < |deliveries| :: deliveries[i].collectedAt <= f.collectedAt
  }

  /** Only one collection carries the greatest collection time. */
  ghost predicate OneLatest(deliveries: seq<Fabric>) {
    forall f, g :: IsLatest(deliveries, f) && IsLatest(deliveries, g) ==> f == g
  }

  ghost predicate OrderIsIrrelevant(deliveries: seq<Fabric>) {
    forall reordered: seq<Fabric> :: multiset(reordered) == multiset(deliveries) ==>
      Deliver(None, reordered) == Deliver(None, deliveries)
  }

  lemma ReorderedStaysConsistent(deliveries: seq<Fabric>, reordered: seq<Fabric>)
    requires Consistent(deliveries) && multiset(reordered) == multiset(deliveries)
    ensures Consistent(reordered) && |reordered| == |deliveries|
    ensures forall f :: IsLatest(reordered, f) <==> IsLatest(deliveries, f)
  {
    assert |reordered| == |multiset(reordered)| == |deliveries|;
    forall x ensures x in reordered <==> x in deliveries {
      assert x in reordered <==> x in multiset(reordered);
      assert x in deliveries <==> x in multiset(deliveries);
    }
    assert forall i | 0 <= i < |reordered| :: reordered[i] in deliveries;
    assert forall i | 0 <= i < |deliveries| :: deliveries[i] in reordered;
  }

  lemma {:induction false} OneLatestDecides(deliveries: seq<Fabric>, reordered: seq<Fabric>)
    requires Consistent(deliveries) && OneLatest(deliveries)
    requires multiset(reordered) == multiset(deliveries)
    ensures Deliver(None, reordered) == Deliver(None, deliveries)
  {
    ReorderedStaysConsistent(deliveries, reordered);
    if deliveries != [] {
      var m := DeliverKeepsFirstMaximum(deliveries);
      var k := DeliverKeepsFirstMaximum(reordered);
      assert IsLatest(deliveries, deliveries[m]) && IsLatest(reordered, reordered[k]);
    }
  }

  /** A tie for latest makes the order visible: bring another latest collection to the front. */
  lemma TieDependsOnOrder(deliveries: seq<Fabric>, h: Fabric) returns (reordered: seq<Fabric>)
    requires Consistent(deliveries) && IsLatest(deliveries, h)
    ensures multiset(reordered) == multiset(deliveries) && Deliver(None, reordered) == Some(h)
  {
    var i :| 0 <= i < |deliveries| && deliveries[i] == h;
    reordered := [h] + deliveries[..i] + deliveries[i + 1..];
    assert deliveries == deliveries[..i] + [h] + deliveries[i + 1..];
    assert multiset(reordered) == multiset(deliveries);
    ReorderedStaysConsistent(deliveries, reordered);
    var k := DeliverKeepsFirstMaximum(reordered);
    assert IsLatest(reordered, h);
    assert reordered[0] == h;
  }

  function OneHost(collectionId: string): Fabric {
    Fabric(collectionId, 0, [NodeState("host-1", Host, 0, CollectionSource("agent", "lab-1", collectionId),
                                       [], None, [], [], {})])
  }

  lemma OneHostIsValid(collectionId: string)
    ensures OneHost(collectionId).Valid() && DeriveLab(OneHost(collectionId)) == Success("lab-1")
  {
  }

  /** Ties occur: two collections of one lab taken at one instant, of which the first to arrive stays. */
  lemma TiesOccur() returns (f: Fabric, g: Fabric)
    ensures f.Valid() && g.Valid() && f != g && DeriveLab(f) == DeriveLab(g) == Success("lab-1")
    ensures Consistent([f, g]) && IsLatest([f, g], f) && IsLatest([f, g], g)
    ensures Deliver(None, [f, g]) == Some(f) && Deliver(None, [g, f]) == Some(g)
  {
    hide DeriveLab, Deliver;
    f, g := OneHost("one"), OneHost("two");
    OneHostIsValid("one");
    OneHostIsValid("two");
    assert "one"[0] != "two"[0];
    assert [f, g][0] == f && [f, g][1] == g;
    DeliverTwo(f, g);
    DeliverTwo(g, f);
  }

  lemma DeliverTwo(f: Fabric, g: Fabric)
    requires !Accepts(Some(f), g)
    ensures Deliver(None, [f, g]) == Some(f)
  {
    assert [f, g][..1] == [f] && [f][..0] == [];
    assert Deliver(None, [f]) == Some(f);
  }

  /** The final row is the same for every delivery order exactly when one collection is latest. */
  lemma OrderIsIrrelevantIffOneLatest(deliveries: seq<Fabric>)
    requires Consistent(deliveries)
    ensures OrderIsIrrelevant(deliveries) <==> OneLatest(deliveries)
  {
    if OneLatest(deliveries) {
      forall reordered: seq<Fabric> | multiset(reordered) == multiset(deliveries)
        ensures Deliver(None, reordered) == Deliver(None, deliveries)
      {
        OneLatestDecides(deliveries, reordered);
      }
    } else {
      var f, g :| IsLatest(deliveries, f) && IsLatest(deliveries, g) && f != g;
      var one := TieDependsOnOrder(deliveries, f);
      var other := TieDependsOnOrder(deliveries, g);
      assert Deliver(None, one) != Deliver(None, other);
    }
  }
}
