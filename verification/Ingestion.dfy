/** One fabric ingestion as a function of the committed state, and its exact effect. */
module Ingestion {
  import opened Wrappers
  import opened OperationalState
  import opened Anomalies
  import opened Incidents
  import opened Detection
  import opened RuleProperties

  datatype Db = Db(
    devices: set<string>,
    incidents: Table,
    states: map<string, Fabric>,
    samples: map<string, seq<Sample>>)
  {
    /** What holds in every reachable state. */
    ghost predicate Sound() {
      && SoundTable(incidents)
      && (forall lab | lab in states :: states[lab].Valid() && DeriveLab(states[lab]) == Success(lab))
      && (forall d | d in samples :: InTimeOrder(samples[d]) && forall s | s in samples[d] :: s.deviceId == d)
    }

    function Telemetry(deviceId: string): seq<Sample> {
      if deviceId in samples then samples[deviceId] else []
    }

    function StateRow(lab: string): Option<Fabric> {
      if lab in states then Some(states[lab]) else None
    }
  }

  datatype IngestionResult = IngestionResult(
    collectionId: string,
    anomalies: seq<Anomaly>,
    upserts: seq<UpsertResult>,
    stateOutcome: SaveOutcome,
    resolvedIncidents: seq<Incident>)
  {
    function IncidentsCreated(): nat {
      CountOutcome(upserts, CreatedIncident)
    }

    function IncidentsUpdated(): nat {
      CountOutcome(upserts, UpdatedIncident)
    }
  }

  function CountOutcome(upserts: seq<UpsertResult>, outcome: UpsertOutcome): nat {
    if upserts == [] then 0
    else (if upserts[0].outcome == outcome then 1 else 0) + CountOutcome(upserts[1..], outcome)
  }

  /** The first anomaly device that is not registered. */
  function FirstMissing(devices: set<string>, anomalies: seq<Anomaly>): (r: Option<string>)
    ensures r.None? <==> forall a | a in anomalies :: a.deviceId in devices
  {
    if anomalies == [] then None
    else if anomalies[0].deviceId !in devices then Some(anomalies[0].deviceId)
    else FirstMissing(devices, anomalies[1..])
  }

  ghost predicate AllValid(anomalies: seq<Anomaly>) {
    forall i | 0 <= i < |anomalies| :: anomalies[i].Valid()
  }

  function Candidates(anomalies: seq<Anomaly>): (cs: seq<Candidate>)
    requires AllValid(anomalies)
    ensures |cs| == |anomalies|
    ensures forall i | 0 <= i < |cs| :: cs[i] == BuildCandidate(anomalies[i])
  {
    if anomalies == [] then [] else [BuildCandidate(anomalies[0])] + Candidates(anomalies[1..])
  }

  lemma {:induction false} DetectedAreValid(nodes: seq<NodeState>, at: int)
    requires DetectNodes(nodes, at).Success?
    ensures AllValid(DetectNodes(nodes, at).value)
  {
    DetectNodesExact(nodes, at);
    var found := DetectNodes(nodes, at).value;
    forall i | 0 <= i < |found| ensures found[i].Valid() {
      assert found[i] in found;
      var k, j :| AnomalyOf(nodes, at, found[i], k, j);
    }
  }

  function Ingest(db: Db, fabric: Fabric): Result<(Db, IngestionResult), Error> {
    var lab :- DeriveLab(fabric);
    var detected := DetectNodes(fabric.nodes, fabric.collectedAt);
    if detected.Failure? then Failure(detected.error)
    else
      var anomalies := detected.value;
      var missing := FirstMissing(db.devices, anomalies);
      if missing.Some? then Failure(DeviceNotFound(missing.value))
      else
        var (stored, outcome) :- Write(db.StateRow(lab), fabric);
        var db1 := db.(states := db.states[lab := stored]);
        if outcome.Unchanged? then
          Success((db1, IngestionResult(fabric.collectionId, anomalies, [], outcome, [])))
        else
          DetectedAreValid(fabric.nodes, fabric.collectedAt);
          var (rows, upserts, resolved) :- 
            Lifecycle(db.devices, db.incidents, Candidates(anomalies), EstablishedNodes(fabric.nodes),
                      fabric.collectedAt);
          Success((db1.(incidents := rows),
                   IngestionResult(fabric.collectionId, anomalies, upserts, outcome, resolved)))
  }

  // The effect of a new collection, row by row

  /** The candidate for the neighbor that a router observes down under a fingerprint, field by field. */
  ghost function DownCandidate(fabric: Fabric, f: Fingerprint): (c: Candidate)
    requires SeesDown(fabric.nodes, f)
    ensures c.fingerprint == f && c.observedAt == fabric.collectedAt
  {
    var i, j :| Observes(fabric.nodes, i, j, f) && Neighbor(fabric.nodes, i, j, f).state in {Idle, Active};
    CandidateOf(DeviceId(fabric.nodes[i].nodeId).value, Neighbor(fabric.nodes, i, j, f), f, fabric.collectedAt)
  }

  ghost function CandidateOf(deviceId: string, n: BgpNeighbor, f: Fingerprint, at: int): Candidate
    requires !n.state.UnknownState?
  {
    Candidate(f, Critical, RuleEvidence(BgpDownEvidence(n.neighborIp, n.state, None)),
              "Investigate BGP session down on " + deviceId + " neighbor " + n.neighborIp + ".", at)
  }

  /** The row this collection makes of a row: only the open row of an observed fingerprint changes. */
  ghost function ObservedRow(fabric: Fabric, row: Incident): Incident {
    if !row.status.Open? then row
    else if SeesDown(fabric.nodes, row.fingerprint) then row.Seen(DownCandidate(fabric, row.fingerprint))
    else if SeesEstablished(fabric.nodes, row.fingerprint) then Recovered(row, fabric.collectedAt)
    else row
  }

  ghost predicate Registered(devices: set<string>, fabric: Fabric) {
    forall f | SeesDown(fabric.nodes, f) :: f.deviceId in devices
  }

  /** No open incident that this collection observes was last seen after it was collected. */
  ghost predicate NothingSeenLater(rows: Table, fabric: Fabric) {
    forall i | 0 <= i < |rows| && rows[i].status.Open? ::
      SeesDown(fabric.nodes, rows[i].fingerprint) || SeesEstablished(fabric.nodes, rows[i].fingerprint)
      ==> rows[i].lastSeenAt <= fabric.collectedAt
  }

  ghost function Detected(fabric: Fabric): seq<Anomaly>
    requires RoutersKnown(fabric.nodes)
    ensures AllValid(Detected(fabric))
  {
    DetectsKnownRouters(fabric.nodes, fabric.collectedAt);
    DetectedAreValid(fabric.nodes, fabric.collectedAt);
    DetectNodes(fabric.nodes, fabric.collectedAt).value
  }

  lemma DownCandidateIs(fabric: Fabric, f: Fingerprint, i: int, j: int)
    requires fabric.Valid() && Observes(fabric.nodes, i, j, f)
             && Neighbor(fabric.nodes, i, j, f).state in {Idle, Active}
    ensures SeesDown(fabric.nodes, f)
    ensures DownCandidate(fabric, f) == CandidateOf(
              DeviceId(fabric.nodes[i].nodeId).value, Neighbor(fabric.nodes, i, j, f), f, fabric.collectedAt)
  {
    var i', j' :| Observes(fabric.nodes, i', j', f) && Neighbor(fabric.nodes, i', j', f).state in {Idle, Active}
      && DownCandidate(fabric, f) == CandidateOf(
           DeviceId(fabric.nodes[i'].nodeId).value, Neighbor(fabric.nodes, i', j', f), f, fabric.collectedAt);
    ObservesOnce(fabric, i, j, i', j', f);
  }

  lemma DetectedCandidate(fabric: Fabric, a: Anomaly)
    requires fabric.Valid() && RoutersKnown(fabric.nodes) && a in Detected(fabric) && a.Valid()
    ensures SeesDown(fabric.nodes, FingerprintOf(a))
    ensures BuildCandidate(a) == DownCandidate(fabric, FingerprintOf(a))
  {
    DetectsKnownRouters(fabric.nodes, fabric.collectedAt);
    DetectNodesExact(fabric.nodes, fabric.collectedAt);
    var i, j :| AnomalyOf(fabric.nodes, fabric.collectedAt, a, i, j);
    DownCandidateIs(fabric, FingerprintOf(a), i, j);
  }

  lemma CandidateIsDown(fabric: Fabric, k: nat)
    requires fabric.Valid() && RoutersKnown(fabric.nodes) && k < |Detected(fabric)|
    ensures var c := Candidates(Detected(fabric))[k];
            && SeesDown(fabric.nodes, c.fingerprint) && c == DownCandidate(fabric, c.fingerprint)
            && c.observedAt == fabric.collectedAt && c.fingerprint == FingerprintOf(Detected(fabric)[k])
  {
    var a := Detected(fabric)[k];
    assert a in Detected(fabric);
    DetectedCandidate(fabric, a);
    DetectIsExact(fabric);
  }

  lemma DownIsCandidate(fabric: Fabric, f: Fingerprint)
    requires fabric.Valid() && RoutersKnown(fabric.nodes) && SeesDown(fabric.nodes, f)
    ensures exists k :: 0 <= k < |Detected(fabric)| && FingerprintOf(Detected(fabric)[k]) == f
  {
    DetectIsExact(fabric);
    var a :| a in Detected(fabric) && FingerprintOf(a) == f;
    var k :| 0 <= k < |Detected(fabric)| && Detected(fabric)[k] == a;
  }

  lemma CandidatesAreDistinct(fabric: Fabric)
    requires fabric.Valid() && RoutersKnown(fabric.nodes)
    ensures DistinctFingerprints(Candidates(Detected(fabric)))
  {
    var cs := Candidates(Detected(fabric));
    forall i, j | 0 <= i < j < |cs| ensures cs[i].fingerprint != cs[j].fingerprint {
      CandidateIsDown(fabric, i);
      CandidateIsDown(fabric, j);
      DetectIsExact(fabric);
    }
  }

  /** The candidate a fabric has for a fingerprint is the neighbor it observed down, if any. */
  lemma {:induction false} CandidateForIsDown(fabric: Fabric, f: Fingerprint)
    requires fabric.Valid() && RoutersKnown(fabric.nodes)
    ensures CandidateFor(Candidates(Detected(fabric)), f) ==
            if SeesDown(fabric.nodes, f) then Some(DownCandidate(fabric, f)) else None
  {
    var cs := Candidates(Detected(fabric));
    var c := CandidateFor(cs, f);
    if c.Some? {
      var k :| 0 <= k < |cs| && cs[k] == c.value;
      CandidateIsDown(fabric, k);
    }
    assert SeesDown(fabric.nodes, f) ==> c.Some? by {
      if SeesDown(fabric.nodes, f) {
        DownIsCandidate(fabric, f);
        var k :| 0 <= k < |Detected(fabric)| && FingerprintOf(Detected(fabric)[k]) == f;
        CandidateIsDown(fabric, k);
        var named := cs[k];
        assert named in cs && named.fingerprint == f;
      }
    }
  }

  /** A neighbor failing in a snapshot never recovers in it: the service's `failing` guard never fires. */
  lemma FailingGuardNeverFires(fabric: Fabric)
    requires fabric.Valid() && RoutersKnown(fabric.nodes)
    ensures Separate(Candidates(Detected(fabric)), EstablishedNodes(fabric.nodes))
  {
    var cs := Candidates(Detected(fabric));
    forall c | c in cs ensures c.fingerprint !in EstablishedNodes(fabric.nodes) {
      var k :| 0 <= k < |cs| && cs[k] == c;
      CandidateIsDown(fabric, k);
      NeverBothDownAndEstablished(fabric, c.fingerprint);
      EstablishedNodesExact(fabric.nodes);
    }
  }

  lemma RowAfterIsObserved(fabric: Fabric, row: Incident)
    requires fabric.Valid() && RoutersKnown(fabric.nodes)
    ensures RowAfter(row, Candidates(Detected(fabric)), EstablishedNodes(fabric.nodes), fabric.collectedAt)
            == ObservedRow(fabric, row)
  {
    CandidateForIsDown(fabric, row.fingerprint);
    EstablishedNodesExact(fabric.nodes);
    NeverBothDownAndEstablished(fabric, row.fingerprint);
  }

  ghost function LifecycleOf(db: Db, fabric: Fabric): Result<(Table, seq<UpsertResult>, seq<Incident>), Error>
    requires RoutersKnown(fabric.nodes)
  {
    Lifecycle(db.devices, db.incidents, Candidates(Detected(fabric)), EstablishedNodes(fabric.nodes),
              fabric.collectedAt)
  }

  lemma RegisteredAnomalies(db: Db, fabric: Fabric)
    requires fabric.Valid() && RoutersKnown(fabric.nodes)
    ensures FirstMissing(db.devices, Detected(fabric)).None? <==> Registered(db.devices, fabric)
  {
    var found := Detected(fabric);
    if FirstMissing(db.devices, found).None? {
      forall f | SeesDown(fabric.nodes, f) ensures f.deviceId in db.devices {
        DownIsCandidate(fabric, f);
        var k :| 0 <= k < |found| && FingerprintOf(found[k]) == f;
        assert found[k] in found;
      }
    }
    if Registered(db.devices, fabric) {
      forall a | a in found ensures a.deviceId in db.devices {
        var k :| 0 <= k < |found| && found[k] == a;
        CandidateIsDown(fabric, k);
      }
    }
  }

  /** The rows a new collection leaves, and the only way its incident part can fail. */
  lemma LifecycleIsExact(db: Db, fabric: Fabric)
    requires SoundTable(db.incidents) && fabric.Valid()
    requires RoutersKnown(fabric.nodes) && Registered(db.devices, fabric)
    ensures var r := LifecycleOf(db, fabric);
            && (r.Success? <==> NothingSeenLater(db.incidents, fabric))
            && (r.Failure? ==> r.error == StaleObservation)
            && (r.Success? ==>
                  && SoundTable(r.value.0) && TableFollows(db.incidents, r.value.0)
                  && (forall i | 0 <= i < |db.incidents| :: r.value.0[i] == ObservedRow(fabric, db.incidents[i]))
                  && r.value.0[|db.incidents|..] ==
                     NewRows(db.incidents, Candidates(Detected(fabric)), |db.incidents|))
  {
    hide Lifecycle, Candidates, EstablishedNodes, ObservedRow, RowAfter, NothingSeenLater, SeenByThen, SoundTable;
    var cs, fs := Candidates(Detected(fabric)), EstablishedNodes(fabric.nodes);
    CandidatesAreDistinct(fabric);
    FailingGuardNeverFires(fabric);
    forall c | c in cs ensures c.fingerprint.deviceId in db.devices && c.observedAt == fabric.collectedAt {
      var k :| 0 <= k < |cs| && cs[k] == c;
      CandidateIsDown(fabric, k);
    }
    LifecycleClosedForm(db.devices, db.incidents, cs, fs, fabric.collectedAt);
    forall row: Incident ensures RowAfter(row, cs, fs, fabric.collectedAt) == ObservedRow(fabric, row) {
      RowAfterIsObserved(fabric, row);
    }
    SeenByThenMeans(db.incidents, fabric);
  }

  lemma SeenByThenMeans(rows: Table, fabric: Fabric)
    requires fabric.Valid() && RoutersKnown(fabric.nodes)
    ensures SeenByThen(rows, Candidates(Detected(fabric)), EstablishedNodes(fabric.nodes), fabric.collectedAt)
            <==> NothingSeenLater(rows, fabric)
  {
    forall f ensures CandidateFor(Candidates(Detected(fabric)), f).Some? <==> SeesDown(fabric.nodes, f) {
      CandidateForIsDown(fabric, f);
    }
    EstablishedNodesExact(fabric.nodes);
  }

  // The service call

  ghost predicate PassesChecks(db: Db, fabric: Fabric) {
    DeriveLab(fabric).Success? && RoutersKnown(fabric.nodes) && Registered(db.devices, fabric)
  }

  ghost predicate IsNew(db: Db, fabric: Fabric) {
    DeriveLab(fabric).Success? && Accepts(db.StateRow(DeriveLab(fabric).value), fabric)
  }

  ghost predicate IsReplay(db: Db, fabric: Fabric) {
    DeriveLab(fabric).Success? && db.StateRow(DeriveLab(fabric).value) == Some(fabric)
  }

  /** `Ingest` unfolded for a fabric whose lab, routers and devices are all known. */
  lemma IngestPastChecks(db: Db, fabric: Fabric)
    requires fabric.Valid() && PassesChecks(db, fabric)
    ensures IsNew(db, fabric) ==>
              var r := LifecycleOf(db, fabric);
              && (r.Failure? ==> Ingest(db, fabric) == Failure(r.error))
              && (r.Success? ==>
                    && Ingest(db, fabric).Success?
                    && Ingest(db, fabric).value.0 ==
                       db.(incidents := r.value.0, states := db.states[DeriveLab(fabric).value := fabric])
                    && Ingest(db, fabric).value.1.upserts == r.value.1
                    && Ingest(db, fabric).value.1.resolvedIncidents == r.value.2)
    ensures IsReplay(db, fabric) ==> Ingest(db, fabric).Success? && Ingest(db, fabric).value.0 == db
    ensures !IsNew(db, fabric) && !IsReplay(db, fabric) ==> Ingest(db, fabric).Failure?
  {
    DetectsKnownRouters(fabric.nodes, fabric.collectedAt);
    RegisteredAnomalies(db, fabric);
    if IsReplay(db, fabric) {
      assert db.states[DeriveLab(fabric).value := fabric] == db.states;
    }
  }

  /** The device reported missing is one that a neighbor was seen down on. */
  lemma {:induction false} MissingIsSeenDown(db: Db, fabric: Fabric) returns (f: Fingerprint)
    requires fabric.Valid() && RoutersKnown(fabric.nodes) && !Registered(db.devices, fabric)
    ensures SeesDown(fabric.nodes, f) && f.deviceId !in db.devices
    ensures FirstMissing(db.devices, Detected(fabric)) == Some(f.deviceId)
  {
    RegisteredAnomalies(db, fabric);
    var k := FirstMissingIs(db.devices, Detected(fabric));
    CandidateIsDown(fabric, k);
    f := FingerprintOf(Detected(fabric)[k]);
  }

  /** The device reported missing is the one of the first anomaly whose device is not registered. */
  lemma {:induction false} FirstMissingIs(devices: set<string>, anomalies: seq<Anomaly>) returns (k: nat)
    requires FirstMissing(devices, anomalies).Some?
    ensures k < |anomalies| && anomalies[k].deviceId !in devices
    ensures forall a | a in anomalies[..k] :: a.deviceId in devices
    ensures FirstMissing(devices, anomalies) == Some(anomalies[k].deviceId)
  {
    if anomalies[0].deviceId !in devices {
      k := 0;
    } else {
      var rest := FirstMissingIs(devices, anomalies[1..]);
      k := rest + 1;
      assert anomalies[..k] == [anomalies[0]] + anomalies[1..][..rest];
    }
  }

  /** The stored state is left alone by a failing write, for the reason the write rule gives. */
  lemma NotAcceptedIs(db: Db, fabric: Fabric, row: Option<Fabric>)
    requires fabric.Valid() && PassesChecks(db, fabric) && !IsNew(db, fabric) && Ingest(db, fabric).Failure?
    requires row == db.StateRow(DeriveLab(fabric).value)
    ensures row.Some?
    ensures Ingest(db, fabric).error ==
            if fabric.collectionId != row.value.collectionId && fabric.collectedAt < row.value.collectedAt
            then StaleOperationalState else OperationalStateConflict
  {
    hide DeriveLab, DetectNodes, Lifecycle, Candidates, EstablishedNodes, SeesDown, Registered, RoutersKnown;
    DetectsKnownRouters(fabric.nodes, fabric.collectedAt);
    RegisteredAnomalies(db, fabric);
  }

  /** Which exception a failing ingestion raises, in the order the service checks: the fabric's lab, its
      routers, the devices seen down, the stored state, the open incidents. */
  lemma IngestErrorIs(db: Db, fabric: Fabric)
    requires db.Sound() && fabric.Valid() && Ingest(db, fabric).Failure?
    ensures var e := Ingest(db, fabric).error;
            if fabric.nodes == [] then e == EmptyFabric
            else if !OneLab(fabric) then e == MixedLabName
            else if !OneCollector(fabric) then e == MixedCollector
            else if !RoutersKnown(fabric.nodes) then
              exists i :: FirstUnknown(fabric.nodes, i) && e == UnknownRouter(fabric.nodes[i].nodeId)
            else if !Registered(db.devices, fabric) then
              exists f :: SeesDown(fabric.nodes, f) && f.deviceId !in db.devices && e == DeviceNotFound(f.deviceId)
            else if IsNew(db, fabric) then e == StaleObservation
            else
              var row := db.StateRow(fabric.nodes[0].source.labName);
              && row.Some?
              && (if fabric.collectionId != row.value.collectionId && fabric.collectedAt < row.value.collectedAt
                  then e == StaleOperationalState else e == OperationalStateConflict)
  {
    hide DetectNodes, Lifecycle, Candidates, EstablishedNodes, SeesDown, FirstUnknown, Registered, RoutersKnown;
    hide Accepts, FirstMissing, OneLab, OneCollector, DeriveLab, Write;
    DeriveLabIsExact(fabric);
    DetectsKnownRouters(fabric.nodes, fabric.collectedAt);
    if DeriveLab(fabric).Success? {
      if !RoutersKnown(fabric.nodes) {
        var i := DetectionNamesFirstUnknown(fabric.nodes, fabric.collectedAt);
      } else if !Registered(db.devices, fabric) {
        var f := MissingIsSeenDown(db, fabric);
      } else if IsNew(db, fabric) {
        IngestPastChecks(db, fabric);
        LifecycleIsExact(db, fabric);
      } else {
        NotAcceptedIs(db, fabric, db.StateRow(DeriveLab(fabric).value));
      }
    }
  }

  /** Exactly when a collection is accepted. */
  lemma IngestSucceedsIff(db: Db, fabric: Fabric)
    requires db.Sound() && fabric.Valid()
    ensures Ingest(db, fabric).Success? <==>
            && PassesChecks(db, fabric)
            && (IsReplay(db, fabric) || (IsNew(db, fabric) && NothingSeenLater(db.incidents, fabric)))
  {
    if PassesChecks(db, fabric) {
      IngestPastChecks(db, fabric);
      LifecycleIsExact(db, fabric);
    } else if DeriveLab(fabric).Success? && RoutersKnown(fabric.nodes) {
      RegisteredAnomalies(db, fabric);
      DetectsKnownRouters(fabric.nodes, fabric.collectedAt);
    } else {
      DetectsKnownRouters(fabric.nodes, fabric.collectedAt);
    }
  }

  /** An exact replay changes nothing at all, though its anomalies are still returned. */
  lemma ReplayIsANoOp(db: Db, fabric: Fabric)
    requires db.Sound() && fabric.Valid() && IsReplay(db, fabric) && Ingest(db, fabric).Success?
    ensures Ingest(db, fabric).value.0 == db
    ensures Ingest(db, fabric).value.1 ==
            IngestionResult(fabric.collectionId, DetectNodes(fabric.nodes, fabric.collectedAt).value, [], Unchanged, [])
  {
    assert db.states[DeriveLab(fabric).value := fabric] == db.states;
  }

  /** The exact effect of an accepted new collection: the lab's latest state is it; each existing row
      becomes what the fabric observed of it; a row is added for each neighbor observed down that had
      no open incident. */
  lemma IngestExactEffect(db: Db, fabric: Fabric)
    requires db.Sound() && fabric.Valid() && IsNew(db, fabric) && Ingest(db, fabric).Success?
    ensures PassesChecks(db, fabric)
    ensures var after := Ingest(db, fabric).value.0;
            && after.Sound() && TableFollows(db.incidents, after.incidents)
            && after == db.(incidents := after.incidents, states := db.states[DeriveLab(fabric).value := fabric])
            && (forall i | 0 <= i < |db.incidents| :: after.incidents[i] == ObservedRow(fabric, db.incidents[i]))
            && after.incidents[|db.incidents|..] ==
               NewRows(db.incidents, Candidates(Detected(fabric)), |db.incidents|)
  {
    hide Ingest, ObservedRow, Candidates, NewRows, DeriveLab, NothingSeenLater, Registered, RoutersKnown;
    hide TableFollows, LifecycleOf;
    IngestSucceedsIff(db, fabric);
    IngestPastChecks(db, fabric);
    LifecycleIsExact(db, fabric);
  }

  /** Every added row is the first sighting of a neighbor observed down. */
  lemma AddedRowsAreDown(db: Db, fabric: Fabric, i: nat)
    requires db.Sound() && fabric.Valid() && IsNew(db, fabric) && Ingest(db, fabric).Success?
    requires |db.incidents| <= i < |Ingest(db, fabric).value.0.incidents|
    ensures var row := Ingest(db, fabric).value.0.incidents[i];
            && SeesDown(fabric.nodes, row.fingerprint)
            && FindOpen(db.incidents, row.fingerprint).None?
            && row == NewIncident(i, DownCandidate(fabric, row.fingerprint))
  {
    IngestExactEffect(db, fabric);
    var rows := Ingest(db, fabric).value.0.incidents;
    var cs := Candidates(Detected(fabric));
    NewRowsAreNamed(db.incidents, cs, |db.incidents|);
    var row := rows[|db.incidents|..][i - |db.incidents|];
    assert row in rows[|db.incidents|..] && rows[i] == row && row.incidentId == i;
    var c :| c in cs && FindOpen(db.incidents, c.fingerprint).None? && row == NewIncident(row.incidentId, c);
    var k :| 0 <= k < |cs| && cs[k] == c;
    CandidateIsDown(fabric, k);
  }

  lemma {:induction false} TouchedStaysOpen(db: Db, fabric: Fabric, f: Fingerprint)
    requires db.Sound() && fabric.Valid() && IsNew(db, fabric) && Ingest(db, fabric).Success?
    requires SeesDown(fabric.nodes, f) && FindOpen(db.incidents, f).Some?
    ensures var rows := Ingest(db, fabric).value.0.incidents;
            && FindOpen(rows, f) == FindOpen(db.incidents, f)
            && rows[FindOpen(rows, f).value] == db.incidents[FindOpen(rows, f).value].Seen(DownCandidate(fabric, f))
  {
    IngestExactEffect(db, fabric);
    var i := FindOpen(db.incidents, f).value;
    assert Ingest(db, fabric).value.0.incidents[i] == ObservedRow(fabric, db.incidents[i]);
    OpenRowIsFound(Ingest(db, fabric).value.0.incidents, i, f);
  }

  lemma {:induction false} AddedIsOpen(db: Db, fabric: Fabric, f: Fingerprint)
    requires db.Sound() && fabric.Valid() && IsNew(db, fabric) && Ingest(db, fabric).Success?
    requires SeesDown(fabric.nodes, f) && FindOpen(db.incidents, f).None?
    ensures var rows := Ingest(db, fabric).value.0.incidents;
            && FindOpen(rows, f).Some? && FindOpen(rows, f).value >= |db.incidents|
  {
    IngestExactEffect(db, fabric);
    CandidateForIsDown(fabric, f);
    AddedRowIsFound(db.incidents, Candidates(Detected(fabric)), f, Ingest(db, fabric).value.0.incidents);
  }

  lemma UnobservedIsUntouched(db: Db, fabric: Fabric, f: Fingerprint, i: nat)
    requires db.Sound() && fabric.Valid() && IsNew(db, fabric) && Ingest(db, fabric).Success?
    requires !SeesDown(fabric.nodes, f) && !SeesEstablished(fabric.nodes, f)
    requires i < |Ingest(db, fabric).value.0.incidents| && Ingest(db, fabric).value.0.incidents[i].fingerprint == f
    ensures i < |db.incidents| && Ingest(db, fabric).value.0.incidents[i] == db.incidents[i]
  {
    IngestExactEffect(db, fabric);
    if i >= |db.incidents| {
      AddedRowsAreDown(db, fabric, i);
    } else {
      assert Ingest(db, fabric).value.0.incidents[i] == ObservedRow(fabric, db.incidents[i]);
    }
  }

  lemma {:induction false} DownLeavesOne(db: Db, fabric: Fabric, f: Fingerprint)
    requires db.Sound() && fabric.Valid() && IsNew(db, fabric) && Ingest(db, fabric).Success?
    requires SeesDown(fabric.nodes, f)
    ensures var rows := Ingest(db, fabric).value.0.incidents;
            && FindOpen(rows, f).Some?
            && var k := FindOpen(rows, f).value;
               rows[k] == if k < |db.incidents| then db.incidents[k].Seen(DownCandidate(fabric, f))
                          else NewIncident(k, DownCandidate(fabric, f))
    ensures var k := FindOpen(Ingest(db, fabric).value.0.incidents, f).value;
            if k < |db.incidents| then IsOpenFor(db.incidents[k], f) else FindOpen(db.incidents, f).None?
  {
    if FindOpen(db.incidents, f).Some? {
      TouchedStaysOpen(db, fabric, f);
    } else {
      AddedIsOpen(db, fabric, f);
      AddedRowsAreDown(db, fabric, FindOpen(Ingest(db, fabric).value.0.incidents, f).value);
    }
  }

  /** Neither a row of the fingerprint changed, nor was one added. */
  ghost predicate Untouched(before: Table, after: Table, f: Fingerprint) {
    forall k | 0 <= k < |after| && after[k].fingerprint == f :: k < |before| && after[k] == before[k]
  }

  /** The row says that the neighbor is down, as seen at this collection and in this state; it continues
      an open row, or starts one where none was open. */
  ghost predicate SaysDown(before: Table, row: Incident, k: nat, deviceId: string, n: BgpNeighbor, at: int) {
    && row.status.Open? && row.severity.Critical? && row.incidentId == k && row.resolvedAt == None
    && row.fingerprint == BgpFingerprint(deviceId, n.neighborIp)
    && (row.evidence.RuleEvidence? && row.evidence.evidence.BgpDownEvidence?)
    && row.evidence.evidence.neighborIp == n.neighborIp
    && row.evidence.evidence.state == n.state && row.evidence.evidence.previousState == None
    && row.recommendation == "Investigate BGP session down on " + deviceId + " neighbor " + n.neighborIp + "."
    && row.lastSeenAt == row.updatedAt == at
    && (if k < |before| then
          && before[k].status.Open? && before[k].fingerprint == row.fingerprint
          && row.createdAt == before[k].createdAt && row.occurrenceCount == before[k].occurrenceCount + 1
        else
          && row.createdAt == at && row.occurrenceCount == 1
          && forall i | 0 <= i < |before| && before[i].status.Open? :: before[i].fingerprint != row.fingerprint)
  }

  /** The open row of the fingerprint, if there was one, is resolved at this collection. */
  ghost predicate AllResolved(before: Table, after: Table, f: Fingerprint, at: int) {
    forall k | 0 <= k < |after| && after[k].fingerprint == f ::
      && k < |before|
      && after[k] == if before[k].status.Open?
                     then before[k].(status := Resolved, resolvedAt := Some(at), updatedAt := at) else before[k]
  }

  /** What a new collection does to the incidents of a neighbor, by the state its router observed: Idle or
      Active leaves exactly one open row that says so, Established resolves it, and in any other state, or
      without an observation, nothing is touched. */
  lemma {:induction false} IngestPerFingerprint(db: Db, fabric: Fabric, f: Fingerprint)
    requires db.Sound() && fabric.Valid() && IsNew(db, fabric) && Ingest(db, fabric).Success?
    ensures OneOpenEach(Ingest(db, fabric).value.0.incidents)
    ensures forall i, j | Observes(fabric.nodes, i, j, f) ::
              var rows := Ingest(db, fabric).value.0.incidents;
              var d, n := DeviceId(fabric.nodes[i].nodeId).value, fabric.nodes[i].bgp.value.neighbors[j];
              match n.state
              case Idle => exists k | 0 <= k < |rows| :: SaysDown(db.incidents, rows[k], k, d, n, fabric.collectedAt)
              case Active => exists k | 0 <= k < |rows| :: SaysDown(db.incidents, rows[k], k, d, n, fabric.collectedAt)
              case Established => AllResolved(db.incidents, rows, f, fabric.collectedAt)
              case _ => Untouched(db.incidents, rows, f)
    ensures (forall i, j :: !Observes(fabric.nodes, i, j, f)) ==>
              Untouched(db.incidents, Ingest(db, fabric).value.0.incidents, f)
  {
    hide Ingest, FindOpen, DeviceId, BgpFingerprint;
    IngestExactEffect(db, fabric);
    var rows := Ingest(db, fabric).value.0.incidents;
    forall i, j | Observes(fabric.nodes, i, j, f)
      ensures SeesOnly(fabric, i, j, f)
      ensures fabric.nodes[i].bgp.value.neighbors[j].state in {Idle, Active} ==>
                exists k | 0 <= k < |rows| ::
                  SaysDown(db.incidents, rows[k], k, DeviceId(fabric.nodes[i].nodeId).value,
                           fabric.nodes[i].bgp.value.neighbors[j], fabric.collectedAt)
    {
      StateDecides(fabric, i, j, f);
      if fabric.nodes[i].bgp.value.neighbors[j].state in {Idle, Active} { ObservedDown(db, fabric, i, j, f); }
    }
    if SeesEstablished(fabric.nodes, f) {
      EstablishedResolves(db, fabric, f);
    }
    if !SeesDown(fabric.nodes, f) && !SeesEstablished(fabric.nodes, f) {
      forall k | 0 <= k < |rows| && rows[k].fingerprint == f ensures k < |db.incidents| && rows[k] == db.incidents[k] {
        UnobservedIsUntouched(db, fabric, f, k);
      }
    }
  }

  /** What a fabric says of a fingerprint is said by the one neighbor that carries it. */
  ghost predicate SeesOnly(fabric: Fabric, i: int, j: int, f: Fingerprint)
    requires Observes(fabric.nodes, i, j, f)
  {
    var state := fabric.nodes[i].bgp.value.neighbors[j].state;
    && (SeesDown(fabric.nodes, f) <==> state in {Idle, Active})
    && (SeesEstablished(fabric.nodes, f) <==> state.Established?)
  }

  lemma StateDecides(fabric: Fabric, i: int, j: int, f: Fingerprint)
    requires fabric.Valid() && Observes(fabric.nodes, i, j, f)
    ensures SeesOnly(fabric, i, j, f)
  {
    hide DeviceId, BgpFingerprint;
    forall i', j' | Observes(fabric.nodes, i', j', f) ensures i' == i && j' == j {
      ObservesOnce(fabric, i, j, i', j', f);
    }
  }

  lemma {:induction false} RowSaysDown(before: Table, row: Incident, k: nat, deviceId: string, n: BgpNeighbor, at: int)
    requires !n.state.UnknownState?
    requires var f := BgpFingerprint(deviceId, n.neighborIp); var c := CandidateOf(deviceId, n, f, at);
             if k < |before| then IsOpenFor(before[k], f) && before[k].incidentId == k && row == before[k].Seen(c)
             else FindOpen(before, f).None? && row == NewIncident(k, c)
    requires k < |before| && before[k].status.Open? ==> before[k].resolvedAt == None
    ensures SaysDown(before, row, k, deviceId, n, at)
  {
    hide BgpFingerprint;
  }

  lemma ObservedDown(db: Db, fabric: Fabric, i: int, j: int, f: Fingerprint)
    requires db.Sound() && fabric.Valid() && IsNew(db, fabric) && Ingest(db, fabric).Success?
    requires Observes(fabric.nodes, i, j, f) && fabric.nodes[i].bgp.value.neighbors[j].state in {Idle, Active}
    ensures var rows := Ingest(db, fabric).value.0.incidents;
            exists k | 0 <= k < |rows| ::
              SaysDown(db.incidents, rows[k], k, DeviceId(fabric.nodes[i].nodeId).value,
                       fabric.nodes[i].bgp.value.neighbors[j], fabric.collectedAt)
  {
    hide Ingest, FindOpen, DeviceId, BgpFingerprint, DownCandidate, CandidateOf, SaysDown, ObservedRow;
    DownCandidateIs(fabric, f, i, j);
    DownLeavesOne(db, fabric, f);
    IngestExactEffect(db, fabric);
    var rows := Ingest(db, fabric).value.0.incidents;
    RowSaysDown(db.incidents, rows[FindOpen(rows, f).value], FindOpen(rows, f).value,
                DeviceId(fabric.nodes[i].nodeId).value, fabric.nodes[i].bgp.value.neighbors[j], fabric.collectedAt);
  }

  lemma EstablishedResolves(db: Db, fabric: Fabric, f: Fingerprint)
    requires db.Sound() && fabric.Valid() && IsNew(db, fabric) && Ingest(db, fabric).Success?
    requires SeesEstablished(fabric.nodes, f)
    ensures AllResolved(db.incidents, Ingest(db, fabric).value.0.incidents, f, fabric.collectedAt)
  {
    hide Ingest, FindOpen;
    IngestExactEffect(db, fabric);
    NeverBothDownAndEstablished(fabric, f);
    var rows := Ingest(db, fabric).value.0.incidents;
    forall k | 0 <= k < |rows| && rows[k].fingerprint == f
      ensures k < |db.incidents| && rows[k] == ObservedRow(fabric, db.incidents[k])
    {
      if k >= |db.incidents| { AddedRowsAreDown(db, fabric, k); }
    }
    assert forall k | 0 <= k < |db.incidents| :: rows[k].fingerprint == db.incidents[k].fingerprint;
  }

  // What the result reports

  lemma {:induction false} CreationsAreNewRows(devices: set<string>, rows: Table, cs: seq<Candidate>)
    requires UpsertAll(devices, rows, cs).Success?
    ensures var (after, upserts) := UpsertAll(devices, rows, cs).value;
            && |after| == |rows| + CountOutcome(upserts, CreatedIncident)
            && |upserts| == |cs| == CountOutcome(upserts, CreatedIncident) + CountOutcome(upserts, UpdatedIncident)
    decreases cs
  {
    if cs != [] {
      var (rows1, first) := Upsert(devices, rows, cs[0]).value;
      CreationsAreNewRows(devices, rows1, cs[1..]);
      var (after, rest) := UpsertAll(devices, rows1, cs[1..]).value;
      assert ([first] + rest)[1..] == rest;
    }
  }

  lemma {:induction false} RecoveryAddsNoRows(rows: Table, fs: seq<Fingerprint>, at: int, failing: set<Fingerprint>)
    requires RecoverAll(rows, fs, at, failing).Success?
    ensures |RecoverAll(rows, fs, at, failing).value.0| == |rows|
    decreases fs
  {
    if fs != [] {
      var found := FindOpen(rows, fs[0]);
      if fs[0] in failing || found.None? {
        RecoveryAddsNoRows(rows, fs[1..], at, failing);
      } else {
        RecoveryAddsNoRows(ResolveRow(rows, rows[found.value].incidentId, at).value.value.0, fs[1..], at, failing);
      }
    }
  }

  /** The reported counts are the table's: incidents created are the rows added, and created and updated
      together are the anomalies of a collection that was written. */
  lemma {:induction false} ReportedCountsAreExact(db: Db, fabric: Fabric)
    requires Ingest(db, fabric).Success?
    ensures var (after, result) := Ingest(db, fabric).value;
            && |after.incidents| == |db.incidents| + result.IncidentsCreated()
            && (IsNew(db, fabric) ==> result.IncidentsCreated() + result.IncidentsUpdated() == |result.anomalies|)
  {
    var (after, result) := Ingest(db, fabric).value;
    if IsNew(db, fabric) {
      DetectedAreValid(fabric.nodes, fabric.collectedAt);
      var cs := Candidates(result.anomalies);
      CreationsAreNewRows(db.devices, db.incidents, cs);
      var (rows, upserts) := UpsertAll(db.devices, db.incidents, cs).value;
      RecoveryAddsNoRows(rows, EstablishedNodes(fabric.nodes), fabric.collectedAt, Fingerprints(upserts));
    }
  }
}
