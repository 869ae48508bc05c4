/** Which BGP neighbors of a fabric are observed down or established, and under which fingerprint. */
module Detection {
  import opened Wrappers
  import opened OperationalState
  import opened Anomalies

  /** The fixed map from collector node to registered device; hosts are absent. */
  function DeviceId(nodeId: string): Option<string> {
    if nodeId == "spine-1" then Some("lab1-spine-1")
    else if nodeId == "spine-2" then Some("lab1-spine-2")
    else if nodeId == "leaf-1" then Some("lab1-leaf-1")
    else if nodeId == "leaf-2" then Some("lab1-leaf-2")
    else None
  }

  /** The four routers of Lab 1, each registered under the lab's prefix. */
  lemma DeviceIdIsPrefixed(nodeId: string)
    ensures DeviceId(nodeId) ==
            if nodeId in {"leaf-1", "leaf-2", "spine-1", "spine-2"} then Some("lab1-" + nodeId) else None
  {
    assert DeviceId(nodeId).Some? ==> DeviceId(nodeId).value == "lab1-" + nodeId;
  }

  lemma DeviceIdInjective(m: string, n: string)
    requires DeviceId(m).Some? && DeviceId(m) == DeviceId(n)
    ensures m == n
  {
    assert forall k | DeviceId(k).Some? :: DeviceId(k).value == "lab1-" + k;
    PrefixCancels("lab1-", m, n);
  }

  // The detector

  function DownAnomaly(deviceId: string, neighbor: BgpNeighbor, at: int): Anomaly
    requires neighbor.IsDown()
  {
    Anomaly(deviceId, BgpDown, BgpDownEvidence(neighbor.neighborIp, neighbor.state, None), at)
  }

  function DetectNeighbors(deviceId: string, neighbors: seq<BgpNeighbor>, at: int): seq<Anomaly> {
    if neighbors == [] then []
    else
      (if neighbors[0].IsDown() then [DownAnomaly(deviceId, neighbors[0], at)] else [])
      + DetectNeighbors(deviceId, neighbors[1..], at)
  }

  function DetectNodes(nodes: seq<NodeState>, at: int): Result<seq<Anomaly>, Error> {
    if nodes == [] then Success([])
    else if nodes[0].role.Host? then DetectNodes(nodes[1..], at)
    else
      match DeviceId(nodes[0].nodeId)
      case None => Failure(UnknownRouter(nodes[0].nodeId))
      case Some(deviceId) =>
        var rest :- DetectNodes(nodes[1..], at);
        if nodes[0].bgp.None? then Success(rest)
        else Success(DetectNeighbors(deviceId, nodes[0].bgp.value.neighbors, at) + rest)
  }

  function Prepend<T>(s: seq<T>, r: Result<seq<T>, Error>): Result<seq<T>, Error> {
    match r
    case Success(t) => Success(s + t)
    case Failure(e) => Failure(e)
  }

  lemma PrependTwice<T>(s: seq<T>, t: seq<T>, r: Result<seq<T>, Error>)
    ensures Prepend(s, Prepend(t, r)) == Prepend(s + t, r)
    ensures Prepend([], r) == r
  {
    if r.Success? {
      assert s + (t + r.value) == (s + t) + r.value;
      assert [] + r.value == r.value;
    }
  }

  /** `OperationalStateDetector.detect`: the nested loops over nodes and neighbors. */
  method Detect(fabric: Fabric) returns (r: Result<seq<Anomaly>, Error>)
    ensures r == DetectNodes(fabric.nodes, fabric.collectedAt)
  {
    hide DeviceId, DownAnomaly;
    var anomalies: seq<Anomaly> := [];
    var i := 0;
    assert fabric.nodes[0..] == fabric.nodes;
    PrependTwice([], [], DetectNodes(fabric.nodes, fabric.collectedAt));
    while i < |fabric.nodes|
      invariant i <= |fabric.nodes|
      invariant DetectNodes(fabric.nodes, fabric.collectedAt) ==
                Prepend(anomalies, DetectNodes(fabric.nodes[i..], fabric.collectedAt))
    {
      var node := fabric.nodes[i];
      ghost var rest := fabric.nodes[i + 1..];
      assert fabric.nodes[i..][0] == node && fabric.nodes[i..][1..] == rest;
      i := i + 1;
      if node.role.Host? {
        continue;
      }
      var device := DeviceId(node.nodeId);
      if device.None? {
        return Failure(UnknownRouter(node.nodeId));
      }
      if node.bgp.None? {
        continue;
      }
      var neighbors := node.bgp.value.neighbors;
      ghost var before := anomalies;
      ghost var here := DetectNeighbors(device.value, neighbors, fabric.collectedAt);
      assert neighbors[0..] == neighbors;
      for j := 0 to |neighbors|
        invariant anomalies + DetectNeighbors(device.value, neighbors[j..], fabric.collectedAt) ==
                  before + here
      {
        assert neighbors[j..][1..] == neighbors[j + 1..];
        if neighbors[j].IsDown() {
          anomalies := anomalies + [DownAnomaly(device.value, neighbors[j], fabric.collectedAt)];
        }
      }
      assert anomalies == before + here;
      PrependTwice(before, here, DetectNodes(rest, fabric.collectedAt));
    }
    assert fabric.nodes[i..] == [] && anomalies + [] == anomalies;
    return Success(anomalies);
  }

  // The fingerprints whose incidents an observation recovers

  function EstablishedNeighbors(deviceId: string, neighbors: seq<BgpNeighbor>): seq<Fingerprint> {
    if neighbors == [] then []
    else
      (if neighbors[0].state.Established? then [BgpFingerprint(deviceId, neighbors[0].neighborIp)] else [])
      + EstablishedNeighbors(deviceId, neighbors[1..])
  }

  /** In the source a router outside the device map would be a lookup error here. */
  function EstablishedNodes(nodes: seq<NodeState>): seq<Fingerprint> {
    if nodes == [] then []
    else
      (if nodes[0].role.Host? || nodes[0].bgp.None? || DeviceId(nodes[0].nodeId).None? then []
       else EstablishedNeighbors(DeviceId(nodes[0].nodeId).value, nodes[0].bgp.value.neighbors))
      + EstablishedNodes(nodes[1..])
  }

  // What the fabric says about one fingerprint, stated without the loops

  ghost predicate Observes(nodes: seq<NodeState>, i: int, j: int, f: Fingerprint) {
    && 0 <= i < |nodes| && nodes[i].role.Router? && nodes[i].bgp.Some?
    && 0 <= j < |nodes[i].bgp.value.neighbors|
    && DeviceId(nodes[i].nodeId).Some?
    && f == BgpFingerprint(DeviceId(nodes[i].nodeId).value, nodes[i].bgp.value.neighbors[j].neighborIp)
  }

  ghost function Neighbor(nodes: seq<NodeState>, i: int, j: int, f: Fingerprint): BgpNeighbor
    requires Observes(nodes, i, j, f)
  {
    nodes[i].bgp.value.neighbors[j]
  }

  ghost predicate SeesDown(nodes: seq<NodeState>, f: Fingerprint) {
    exists i, j :: Observes(nodes, i, j, f) && Neighbor(nodes, i, j, f).state in {Idle, Active}
  }

  ghost predicate SeesEstablished(nodes: seq<NodeState>, f: Fingerprint) {
    exists i, j :: Observes(nodes, i, j, f) && Neighbor(nodes, i, j, f).state.Established?
  }

  ghost predicate RoutersKnown(nodes: seq<NodeState>) {
    forall i | 0 <= i < |nodes| && nodes[i].role.Router? :: DeviceId(nodes[i].nodeId).Some?
  }

  /** A fabric speaks of each fingerprint at most once. */
  lemma ObservesOnce(fabric: Fabric, i: int, j: int, i': int, j': int, f: Fingerprint)
    requires fabric.Valid()
    requires Observes(fabric.nodes, i, j, f) && Observes(fabric.nodes, i', j', f)
    ensures i == i' && j == j'
  {
    var nodes := fabric.nodes;
    BgpFingerprintInjective(
      DeviceId(nodes[i].nodeId).value, nodes[i].bgp.value.neighbors[j].neighborIp,
      DeviceId(nodes[i'].nodeId).value, nodes[i'].bgp.value.neighbors[j'].neighborIp);
    DeviceIdInjective(nodes[i].nodeId, nodes[i'].nodeId);
    assert nodes[i].bgp.value.Valid();
  }

  lemma NeverBothDownAndEstablished(fabric: Fabric, f: Fingerprint)
    requires fabric.Valid()
    ensures !(SeesDown(fabric.nodes, f) && SeesEstablished(fabric.nodes, f))
  {
    if SeesDown(fabric.nodes, f) && SeesEstablished(fabric.nodes, f) {
      var i, j :| Observes(fabric.nodes, i, j, f) && Neighbor(fabric.nodes, i, j, f).state in {Idle, Active};
      var i', j' :| Observes(fabric.nodes, i', j', f) && Neighbor(fabric.nodes, i', j', f).state.Established?;
      ObservesOnce(fabric, i, j, i', j', f);
    }
  }

  /** Node `i` is the first router the mapping does not know. */
  ghost predicate FirstUnknown(nodes: seq<NodeState>, i: int) {
    && 0 <= i < |nodes| && nodes[i].role.Router? && DeviceId(nodes[i].nodeId).None?
    && RoutersKnown(nodes[..i])
  }

  /** A failing detection names the first unknown router, although later nodes may be unknown too. */
  lemma {:induction false} DetectionNamesFirstUnknown(nodes: seq<NodeState>, at: int) returns (i: int)
    requires !RoutersKnown(nodes)
    ensures FirstUnknown(nodes, i) && DetectNodes(nodes, at) == Failure(UnknownRouter(nodes[i].nodeId))
  {
    if nodes[0].role.Router? && DeviceId(nodes[0].nodeId).None? {
      i := 0;
    } else {
      assert !RoutersKnown(nodes[1..]) by {
        if RoutersKnown(nodes[1..]) {
          forall k | 0 <= k < |nodes| && nodes[k].role.Router? ensures DeviceId(nodes[k].nodeId).Some? {
            if k > 0 { assert nodes[k] == nodes[1..][k - 1]; }
          }
        }
      }
      var k := DetectionNamesFirstUnknown(nodes[1..], at);
      i := k + 1;
      forall m | 0 <= m < i && nodes[..i][m].role.Router? ensures DeviceId(nodes[..i][m].nodeId).Some? {
        if m > 0 { assert nodes[..i][m] == nodes[1..][..k][m - 1]; }
      }
    }
  }

  lemma {:induction false} DetectsKnownRouters(nodes: seq<NodeState>, at: int)
    ensures DetectNodes(nodes, at).Success? <==> RoutersKnown(nodes)
  {
    if nodes != [] {
      DetectsKnownRouters(nodes[1..], at);
      assert forall i | 0 <= i < |nodes[1..]| :: nodes[1..][i] == nodes[i + 1];
      if RoutersKnown(nodes[1..]) && (nodes[0].role.Router? ==> DeviceId(nodes[0].nodeId).Some?) {
        forall i | 0 <= i < |nodes| && nodes[i].role.Router? ensures DeviceId(nodes[i].nodeId).Some? {
          if i > 0 { assert nodes[i] == nodes[1..][i - 1]; }
        }
      }
    }
  }

  /** An anomaly of the detector is exactly one neighbor observed Idle or Active. */
  ghost predicate AnomalyOf(nodes: seq<NodeState>, at: int, a: Anomaly, i: int, j: int) {
    && Observes(nodes, i, j, FingerprintOf(a))
    && var n := nodes[i].bgp.value.neighbors[j];
       && n.state in {Idle, Active}
       && a == Anomaly(DeviceId(nodes[i].nodeId).value, BgpDown, BgpDownEvidence(n.neighborIp, n.state, None), at)
  }

  /** What the detector builds for a neighbor is what that says. */
  lemma DownAnomalyIs(nodes: seq<NodeState>, at: int, a: Anomaly, i: int, j: int)
    ensures AnomalyOf(nodes, at, a, i, j) <==>
            && Observes(nodes, i, j, FingerprintOf(a)) && nodes[i].bgp.value.neighbors[j].IsDown()
            && a == DownAnomaly(DeviceId(nodes[i].nodeId).value, nodes[i].bgp.value.neighbors[j], at)
  {
  }

  lemma {:induction false} DetectNeighborsExact(deviceId: string, neighbors: seq<BgpNeighbor>, at: int)
    ensures forall a | a in DetectNeighbors(deviceId, neighbors, at) ::
              exists j | 0 <= j < |neighbors| ::
                neighbors[j].IsDown() && a == DownAnomaly(deviceId, neighbors[j], at)
    ensures forall j | 0 <= j < |neighbors| && neighbors[j].IsDown() ::
              DownAnomaly(deviceId, neighbors[j], at) in DetectNeighbors(deviceId, neighbors, at)
  {
    if neighbors != [] {
      DetectNeighborsExact(deviceId, neighbors[1..], at);
      forall j | 0 <= j < |neighbors| && neighbors[j].IsDown()
        ensures DownAnomaly(deviceId, neighbors[j], at) in DetectNeighbors(deviceId, neighbors, at)
      {
        if j > 0 { assert neighbors[j] == neighbors[1..][j - 1]; }
      }
    }
  }

  lemma {:induction false} DetectNodesExact(nodes: seq<NodeState>, at: int)
    requires DetectNodes(nodes, at).Success?
    ensures forall a | a in DetectNodes(nodes, at).value :: exists i, j :: AnomalyOf(nodes, at, a, i, j)
    ensures forall a, i, j | AnomalyOf(nodes, at, a, i, j) :: a in DetectNodes(nodes, at).value
  {
    if nodes != [] {
      var tail := nodes[1..];
      DetectNodesExact(tail, at);
      var found := DetectNodes(nodes, at).value;
      if nodes[0].role.Router? && nodes[0].bgp.Some? {
        DetectNeighborsExact(DeviceId(nodes[0].nodeId).value, nodes[0].bgp.value.neighbors, at);
      }
      forall a | a in found ensures exists i, j :: AnomalyOf(nodes, at, a, i, j) {
        if a in DetectNodes(tail, at).value {
          var i, j :| AnomalyOf(tail, at, a, i, j);
          assert AnomalyOf(nodes, at, a, i + 1, j);
        } else {
          var neighbors := nodes[0].bgp.value.neighbors;
          var j :| 0 <= j < |neighbors| && neighbors[j].IsDown()
            && a == DownAnomaly(DeviceId(nodes[0].nodeId).value, neighbors[j], at);
          assert AnomalyOf(nodes, at, a, 0, j);
        }
      }
      forall a, i, j | AnomalyOf(nodes, at, a, i, j) ensures a in found {
        if i > 0 { assert AnomalyOf(tail, at, a, i - 1, j); }
      }
    }
  }

  lemma {:induction false} NeighborsInOrder(deviceId: string, ns: seq<BgpNeighbor>, at: int, k: int, l: int)
    returns (j: int, j': int)
    requires 0 <= k < l < |DetectNeighbors(deviceId, ns, at)|
    ensures 0 <= j < j' < |ns| && ns[j].IsDown() && ns[j'].IsDown()
    ensures DetectNeighbors(deviceId, ns, at)[k] == DownAnomaly(deviceId, ns[j], at)
    ensures DetectNeighbors(deviceId, ns, at)[l] == DownAnomaly(deviceId, ns[j'], at)
  {
    hide DownAnomaly;
    var rest := DetectNeighbors(deviceId, ns[1..], at);
    if !ns[0].IsDown() {
      j, j' := NeighborsInOrder(deviceId, ns[1..], at, k, l);
      j, j' := j + 1, j' + 1;
    } else if k > 0 {
      j, j' := NeighborsInOrder(deviceId, ns[1..], at, k - 1, l - 1);
      j, j' := j + 1, j' + 1;
    } else {
      DetectNeighborsExact(deviceId, ns[1..], at);
      assert rest[l - 1] in rest;
      var m :| 0 <= m < |ns[1..]| && ns[1..][m].IsDown() && rest[l - 1] == DownAnomaly(deviceId, ns[1..][m], at);
      j, j' := 0, m + 1;
    }
  }

  /** Anomalies come out in the order of the nodes, and on one node in the order of its neighbors. */
  lemma {:induction false} DetectedInOrder(nodes: seq<NodeState>, at: int, k: int, l: int)
    returns (i: int, j: int, i': int, j': int)
    requires DetectNodes(nodes, at).Success? && 0 <= k < l < |DetectNodes(nodes, at).value|
    ensures AnomalyOf(nodes, at, DetectNodes(nodes, at).value[k], i, j)
    ensures AnomalyOf(nodes, at, DetectNodes(nodes, at).value[l], i', j')
    ensures i < i' || (i == i' && j < j')
  {
    hide FingerprintOf, DeviceId, AnomalyOf, DownAnomaly, DetectNeighbors, BgpNeighbor.IsDown;
    var tail := nodes[1..];
    var there := DetectNodes(tail, at).value;
    var here := if nodes[0].role.Router? && nodes[0].bgp.Some?
                then DetectNeighbors(DeviceId(nodes[0].nodeId).value, nodes[0].bgp.value.neighbors, at) else [];
    var found := DetectNodes(nodes, at).value;
    assert found == here + there;
    if k >= |here| {
      i, j, i', j' := DetectedInOrder(tail, at, k - |here|, l - |here|);
      i, i' := i + 1, i' + 1;
      AnomalyOfTail(nodes, at, found[k], i, j);
      AnomalyOfTail(nodes, at, found[l], i', j');
    } else {
      i := 0;
      if l < |here| {
        j, j' := NeighborsInOrder(
          DeviceId(nodes[0].nodeId).value, nodes[0].bgp.value.neighbors, at, k, l);
        i' := 0;
        AnomalyOfHead(nodes, at, j');
      } else {
        j := DetectedHere(DeviceId(nodes[0].nodeId).value, nodes[0].bgp.value.neighbors, at, k);
        DetectNodesExact(tail, at);
        assert found[l] == there[l - |here|] && there[l - |here|] in there;
        i', j' :| AnomalyOf(tail, at, found[l], i', j');
        i' := i' + 1;
        AnomalyOfTail(nodes, at, found[l], i', j');
      }
      AnomalyOfHead(nodes, at, j);
    }
  }

  lemma {:induction false} DetectedHere(deviceId: string, ns: seq<BgpNeighbor>, at: int, k: int) returns (j: int)
    requires 0 <= k < |DetectNeighbors(deviceId, ns, at)|
    ensures 0 <= j < |ns| && ns[j].IsDown()
    ensures DetectNeighbors(deviceId, ns, at)[k] == DownAnomaly(deviceId, ns[j], at)
  {
    DetectNeighborsExact(deviceId, ns, at);
    assert DetectNeighbors(deviceId, ns, at)[k] in DetectNeighbors(deviceId, ns, at);
    j :| 0 <= j < |ns| && ns[j].IsDown()
      && DetectNeighbors(deviceId, ns, at)[k] == DownAnomaly(deviceId, ns[j], at);
  }

  lemma AnomalyOfTail(nodes: seq<NodeState>, at: int, a: Anomaly, i: int, j: int)
    requires nodes != [] && AnomalyOf(nodes[1..], at, a, i - 1, j)
    ensures i > 0 && AnomalyOf(nodes, at, a, i, j)
  {
    assert nodes[1..][i - 1] == nodes[i];
  }

  lemma AnomalyOfHead(nodes: seq<NodeState>, at: int, j: int)
    requires nodes != [] && nodes[0].role.Router? && nodes[0].bgp.Some? && DeviceId(nodes[0].nodeId).Some?
    requires 0 <= j < |nodes[0].bgp.value.neighbors| && nodes[0].bgp.value.neighbors[j].IsDown()
    ensures AnomalyOf(nodes, at,
                      DownAnomaly(DeviceId(nodes[0].nodeId).value, nodes[0].bgp.value.neighbors[j], at), 0, j)
  {
  }

  lemma {:induction false} EstablishedNeighborsExact(deviceId: string, neighbors: seq<BgpNeighbor>)
    ensures forall f | f in EstablishedNeighbors(deviceId, neighbors) ::
              exists j | 0 <= j < |neighbors| ::
                neighbors[j].state.Established? && f == BgpFingerprint(deviceId, neighbors[j].neighborIp)
    ensures forall j | 0 <= j < |neighbors| && neighbors[j].state.Established? ::
              BgpFingerprint(deviceId, neighbors[j].neighborIp) in EstablishedNeighbors(deviceId, neighbors)
  {
    if neighbors != [] {
      EstablishedNeighborsExact(deviceId, neighbors[1..]);
      forall j | 0 <= j < |neighbors| && neighbors[j].state.Established?
        ensures BgpFingerprint(deviceId, neighbors[j].neighborIp) in EstablishedNeighbors(deviceId, neighbors)
      {
        if j > 0 { assert neighbors[j] == neighbors[1..][j - 1]; }
      }
    }
  }

  lemma {:induction false} FirstOrLaterEstablished(nodes: seq<NodeState>, f: Fingerprint)
    requires nodes != []
    requires f in EstablishedNodes(nodes[1..]) <==> SeesEstablished(nodes[1..], f)
    ensures f in EstablishedNodes(nodes) <==> SeesEstablished(nodes, f)
  {
    hide DeviceId, BgpFingerprint;
    var tail, mine := nodes[1..], DeviceId(nodes[0].nodeId);
    if nodes[0].role.Router? && nodes[0].bgp.Some? && mine.Some? {
      EstablishedNeighborsExact(mine.value, nodes[0].bgp.value.neighbors);
    }
    if SeesEstablished(nodes, f) {
      var i, j :| Observes(nodes, i, j, f) && Neighbor(nodes, i, j, f).state.Established?;
      if i > 0 { assert Observes(tail, i - 1, j, f); }
    }
    if f in EstablishedNodes(tail) {
      var i, j :| Observes(tail, i, j, f) && Neighbor(tail, i, j, f).state.Established?;
      assert Observes(nodes, i + 1, j, f);
    } else if f in EstablishedNodes(nodes) {
      var neighbors := nodes[0].bgp.value.neighbors;
      var j :| 0 <= j < |neighbors| && neighbors[j].state.Established?
        && f == BgpFingerprint(mine.value, neighbors[j].neighborIp);
      assert Observes(nodes, 0, j, f);
    }
  }

  lemma {:induction false} EstablishedNodesExact(nodes: seq<NodeState>)
    ensures forall f :: f in EstablishedNodes(nodes) <==> SeesEstablished(nodes, f)
  {
    if nodes != [] {
      EstablishedNodesExact(nodes[1..]);
      forall f ensures f in EstablishedNodes(nodes) <==> SeesEstablished(nodes, f) {
        FirstOrLaterEstablished(nodes, f);
      }
    }
  }

  // No two anomalies of one fabric share a fingerprint

  lemma DownFingerprint(deviceId: string, n: BgpNeighbor, at: int)
    requires n.IsDown()
    ensures FingerprintOf(DownAnomaly(deviceId, n, at)) == BgpFingerprint(deviceId, n.neighborIp)
  {
  }

  lemma {:induction false} DetectNeighborsDistinct(deviceId: string, neighbors: seq<BgpNeighbor>, at: int)
    requires forall i, j | 0 <= i < j < |neighbors| :: neighbors[i].neighborIp != neighbors[j].neighborIp
    ensures DistinctAnomalies(DetectNeighbors(deviceId, neighbors, at))
  {
    hide FingerprintOf, BgpFingerprint;
    if neighbors != [] {
      var tail := neighbors[1..];
      DetectNeighborsDistinct(deviceId, tail, at);
      DetectNeighborsExact(deviceId, tail, at);
      if neighbors[0].IsDown() {
        var first := DownAnomaly(deviceId, neighbors[0], at);
        forall a | a in DetectNeighbors(deviceId, tail, at) ensures FingerprintOf(a) != FingerprintOf(first) {
          var j :| 0 <= j < |tail| && tail[j].IsDown() && a == DownAnomaly(deviceId, tail[j], at);
          DownFingerprint(deviceId, tail[j], at);
          DownFingerprint(deviceId, neighbors[0], at);
          BgpFingerprintInjective(deviceId, tail[j].neighborIp, deviceId, neighbors[0].neighborIp);
        }
      }
    }
  }

  lemma {:induction false} DetectNodesDistinct(nodes: seq<NodeState>, at: int)
    requires DetectNodes(nodes, at).Success?
    requires forall i, j | 0 <= i < j < |nodes| :: nodes[i].nodeId != nodes[j].nodeId
    requires forall i | 0 <= i < |nodes| :: nodes[i].Valid()
    ensures DistinctAnomalies(DetectNodes(nodes, at).value)
  {
    if nodes != [] {
      var tail := nodes[1..];
      DetectNodesDistinct(tail, at);
      if nodes[0].role.Router? && nodes[0].bgp.Some? {
        var mine := DeviceId(nodes[0].nodeId).value;
        var here := DetectNeighbors(mine, nodes[0].bgp.value.neighbors, at);
        var there := DetectNodes(tail, at).value;
        DetectNeighborsDistinct(mine, nodes[0].bgp.value.neighbors, at);
        DetectNeighborsExact(mine, nodes[0].bgp.value.neighbors, at);
        DetectNodesExact(tail, at);
        forall a, b | a in here && b in there ensures FingerprintOf(a) != FingerprintOf(b) {
          var i, j :| AnomalyOf(tail, at, b, i, j);
          if a.deviceId == b.deviceId {
            DeviceIdInjective(nodes[0].nodeId, tail[i].nodeId);
          }
        }
      }
    }
  }

  lemma DownIsDetected(fabric: Fabric, f: Fingerprint)
    requires fabric.Valid() && DetectNodes(fabric.nodes, fabric.collectedAt).Success?
    ensures SeesDown(fabric.nodes, f) <==>
            exists a :: a in DetectNodes(fabric.nodes, fabric.collectedAt).value && FingerprintOf(a) == f
  {
    hide DetectNodes, DeviceId;
    var nodes, at := fabric.nodes, fabric.collectedAt;
    var found := DetectNodes(nodes, at).value;
    DetectNodesExact(nodes, at);
    if SeesDown(nodes, f) {
      var i, j :| Observes(nodes, i, j, f) && Neighbor(nodes, i, j, f).IsDown();
      var a := DownAnomaly(DeviceId(nodes[i].nodeId).value, Neighbor(nodes, i, j, f), at);
      assert AnomalyOf(nodes, at, a, i, j);
    }
    if exists a :: a in found && FingerprintOf(a) == f {
      var a :| a in found && FingerprintOf(a) == f;
      var i, j :| AnomalyOf(nodes, at, a, i, j);
      assert Observes(nodes, i, j, f);
    }
  }

  /** The detector is exact: its anomalies are, once each, the neighbors that a router observes Idle or
      Active, with that very state as evidence and no previous one; nothing comes of any other state, of
      hosts, or of a router without BGP data. It fails exactly when some router is not a known one. */
  lemma DetectIsExact(fabric: Fabric)
    requires fabric.Valid()
    ensures DetectNodes(fabric.nodes, fabric.collectedAt).Success? <==> RoutersKnown(fabric.nodes)
    ensures RoutersKnown(fabric.nodes) ==>
              var found := DetectNodes(fabric.nodes, fabric.collectedAt).value;
              && DistinctAnomalies(found)
              && (forall a :: a in found <==> exists i, j :: AnomalyOf(fabric.nodes, fabric.collectedAt, a, i, j))
              && (forall a | a in found :: a.Valid() && a.ruleId.BgpDown? && a.detectedAt == fabric.collectedAt)
              && (forall f :: SeesDown(fabric.nodes, f) <==> exists a :: a in found && FingerprintOf(a) == f)
  {
    hide DetectNodes, DeviceId, FingerprintOf, RoutersKnown, SeesDown;
    DetectsKnownRouters(fabric.nodes, fabric.collectedAt);
    if RoutersKnown(fabric.nodes) {
      DetectNodesDistinct(fabric.nodes, fabric.collectedAt);
      DetectNodesExact(fabric.nodes, fabric.collectedAt);
      forall f ensures SeesDown(fabric.nodes, f) <==>
                       exists a :: a in DetectNodes(fabric.nodes, fabric.collectedAt).value && FingerprintOf(a) == f {
        DownIsDetected(fabric, f);
      }
    }
  }
}
