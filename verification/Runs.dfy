/** Telemetry ingestion and operator resolution beside fabric ingestion, and whole runs of the three. */
module Runs {
  import opened Wrappers
  import opened OperationalState
  import opened Anomalies
  import opened Incidents
  import opened Detection
  import opened RuleEngine
  import opened RuleProperties
  import opened Retention
  import opened Ingestion

  // Telemetry ingestion

  datatype TelemetryCommand = TelemetryCommand(deviceId: string, sample: Sample, observedAt: int)

  function Evaluated(db: Db, cmd: TelemetryCommand): seq<Anomaly> {
    var rows := db.Telemetry(cmd.deviceId);
    Evaluate(cmd.observedAt, EvaluationSequence(Recent(rows, cmd.sample), cmd.sample))
  }

  lemma {:induction false} CandidatesDistinct(anomalies: seq<Anomaly>)
    requires AllValid(anomalies) && DistinctAnomalies(anomalies)
    ensures DistinctFingerprints(Candidates(anomalies))
  {
  }

  lemma EvaluatedAreValid(db: Db, cmd: TelemetryCommand)
    ensures AllValid(Evaluated(db, cmd)) && DistinctAnomalies(Evaluated(db, cmd))
  {
    var sequence := EvaluationSequence(Recent(db.Telemetry(cmd.deviceId), cmd.sample), cmd.sample);
    EvaluateIsDistinct(cmd.observedAt, sequence);
    var anomalies := Evaluate(cmd.observedAt, sequence);
    forall i | 0 <= i < |anomalies| ensures anomalies[i].Valid() {
      assert anomalies[i] in anomalies;
    }
  }

  /** The writes of one telemetry ingestion, given what the rules found. */
  function Record(db: Db, cmd: TelemetryCommand, anomalies: seq<Anomaly>): Result<Db, Error>
    requires AllValid(anomalies)
  {
    var (rows, _) :- UpsertAll(db.devices, db.incidents, Candidates(anomalies));
    var saved := Save(db.Telemetry(cmd.deviceId), cmd.sample);
    Success(db.(incidents := rows, samples := db.samples[cmd.deviceId := saved]))
  }

  function IngestTelemetry(db: Db, cmd: TelemetryCommand): Result<(Db, seq<Anomaly>), Error> {
    if cmd.deviceId !in db.devices then Failure(DeviceNotFound(cmd.deviceId))
    else if cmd.deviceId != cmd.sample.deviceId then Failure(DeviceMismatch)
    else
      EvaluatedAreValid(db, cmd);
      var anomalies := Evaluated(db, cmd);
      var db1 :- Record(db, cmd, anomalies);
      Success((db1, anomalies))
  }

  /** What one telemetry ingestion writes: every finding of the rules is the one open row of its fingerprint, as
      seen now, continued or started; no other row is touched; the sample is saved; nothing else changes. */
  lemma {:induction false} TelemetryWrites(db: Db, cmd: TelemetryCommand)
    requires db.Sound() && IngestTelemetry(db, cmd).Success?
    ensures var (after, anomalies) := IngestTelemetry(db, cmd).value;
            && anomalies == Evaluated(db, cmd)
            && after.devices == db.devices && after.states == db.states
            && after.samples == db.samples[cmd.deviceId := Save(db.Telemetry(cmd.deviceId), cmd.sample)]
            && (forall a | a in anomalies :: a.Valid() && exists k | 0 <= k < |after.incidents| ::
                  IsSeen(db.incidents, after.incidents[k], k, BuildCandidate(a)))
            && (forall k | 0 <= k < |after.incidents| && !Names(anomalies, after.incidents[k].fingerprint) ::
                  k < |db.incidents| && after.incidents[k] == db.incidents[k])
  {
    hide Evaluate, EvaluationSequence, UpsertAll, Save;
    EvaluatedAreValid(db, cmd);
    var anomalies := Evaluated(db, cmd);
    RecordWrites(db, cmd, anomalies);
  }

  /** The row is the candidate's open row: an earlier one counted once more, or a new one. */
  ghost predicate IsSeen(before: Table, row: Incident, k: nat, c: Candidate) {
    && row.status.Open? && row.fingerprint == c.fingerprint && row.severity == c.severity
    && row.evidence == c.evidence && row.recommendation == c.recommendation
    && row.lastSeenAt == row.updatedAt == c.observedAt
    && if k < |before| then
         && before[k].status.Open? && before[k].fingerprint == c.fingerprint
         && row.createdAt == before[k].createdAt && row.occurrenceCount == before[k].occurrenceCount + 1
       else
         && row.createdAt == c.observedAt && row.occurrenceCount == 1
         && forall i | 0 <= i < |before| && before[i].status.Open? :: before[i].fingerprint != c.fingerprint
  }

  lemma {:induction false} RecordWrites(db: Db, cmd: TelemetryCommand, anomalies: seq<Anomaly>)
    requires SoundTable(db.incidents) && AllValid(anomalies) && DistinctAnomalies(anomalies)
    requires Record(db, cmd, anomalies).Success?
    ensures var rows := Record(db, cmd, anomalies).value.incidents;
            && (forall a | a in anomalies :: a.Valid() && exists k | 0 <= k < |rows| ::
                  IsSeen(db.incidents, rows[k], k, BuildCandidate(a)))
            && (forall k | 0 <= k < |rows| && !Names(anomalies, rows[k].fingerprint) ::
                  k < |db.incidents| && rows[k] == db.incidents[k])
  {
    hide UpsertAll, Save, BuildCandidate;
    var cs := Candidates(anomalies);
    CandidatesDistinct(anomalies);
    BatchWrites(db.devices, db.incidents, cs);
    var rows := Record(db, cmd, anomalies).value.incidents;
    forall a | a in anomalies
      ensures a.Valid() && exists k | 0 <= k < |rows| :: IsSeen(db.incidents, rows[k], k, BuildCandidate(a))
    {
      var i :| 0 <= i < |anomalies| && anomalies[i] == a;
      assert cs[i] in cs;
    }
    forall k | 0 <= k < |rows| && !Names(anomalies, rows[k].fingerprint)
      ensures k < |db.incidents| && rows[k] == db.incidents[k]
    {
      CandidateForNamed(anomalies, rows[k].fingerprint);
    }
  }

  lemma {:induction false} BatchWrites(devices: set<string>, rows: Table, cs: seq<Candidate>)
    requires SoundTable(rows) && DistinctFingerprints(cs) && UpsertAll(devices, rows, cs).Success?
    ensures var after := UpsertAll(devices, rows, cs).value.0;
            && (forall c | c in cs :: exists k | 0 <= k < |after| :: IsSeen(rows, after[k], k, c))
            && (forall k | 0 <= k < |after| && CandidateFor(cs, after[k].fingerprint).None? ::
                  k < |rows| && after[k] == rows[k])
  {
    hide UpsertAll, FindOpen, NewRows;
    var after := UpsertAll(devices, rows, cs).value.0;
    UpsertAllTouches(devices, rows, cs);
    UpsertAllAppends(devices, rows, cs);
    forall c | c in cs ensures exists k | 0 <= k < |after| :: IsSeen(rows, after[k], k, c) {
      CandidateForItself(cs, c);
      var found := FindOpen(rows, c.fingerprint);
      if found.Some? {
        assert after[found.value] == AfterUpserts(rows[found.value], cs);
        assert IsSeen(rows, after[found.value], found.value, c);
      } else {
        var m := NewRowFor(rows, cs, c, |rows|);
        assert after[|rows| + m] == after[|rows|..][m];
        assert IsSeen(rows, after[|rows| + m], |rows| + m, c);
      }
    }
    NewRowsAreNamed(rows, cs, |rows|);
    forall k | |rows| <= k < |after| ensures CandidateFor(cs, after[k].fingerprint).Some? {
      assert after[k] == after[|rows|..][k - |rows|];
    }
    assert forall k | 0 <= k < |rows| :: after[k] == AfterUpserts(rows[k], cs);
  }

  lemma {:induction false} CandidateForItself(cs: seq<Candidate>, c: Candidate)
    requires DistinctFingerprints(cs) && c in cs
    ensures CandidateFor(cs, c.fingerprint) == Some(c)
  {
    hide CandidateFor;
    var found := CandidateFor(cs, c.fingerprint);
    var i :| 0 <= i < |cs| && cs[i] == c;
    assert found.Some?;
    var j :| 0 <= j < |cs| && cs[j] == found.value;
  }

  lemma {:induction false} NewRowFor(rows: Table, cs: seq<Candidate>, c: Candidate, n: nat) returns (m: nat)
    requires c in cs && FindOpen(rows, c.fingerprint).None?
    ensures m < |NewRows(rows, cs, n)| && NewRows(rows, cs, n)[m] == NewIncident(n + m, c)
    decreases cs
  {
    hide FindOpen, NewIncident;
    m := 0;
    if cs[0] != c {
      if FindOpen(rows, cs[0].fingerprint).Some? {
        m := NewRowFor(rows, cs[1..], c, n);
      } else {
        m := NewRowFor(rows, cs[1..], c, n + 1);
        m := m + 1;
      }
    }
  }

  // Operator resolution

  function ResolveIncident(db: Db, id: nat, now: int): Result<(Db, Incident), Error> {
    if id >= |db.incidents| then Failure(IncidentNotFound(id))
    else if db.incidents[id].status.Resolved? then Success((db, db.incidents[id]))
    else
      var resolved :- ResolveRow(db.incidents, id, now);
      match resolved
      case None => Failure(IncidentNotFound(id))
      case Some((rows, row)) => Success((db.(incidents := rows), row))
  }

  /** The service reads at one state and writes at a later one; other transactions may commit between. */
  function ResolveAcross(read: Db, write: Db, id: nat, now: int): Result<(Db, Incident), Error> {
    if id >= |read.incidents| then Failure(IncidentNotFound(id))
    else if read.incidents[id].status.Resolved? then Success((write, read.incidents[id]))
    else
      var resolved :- ResolveRow(write.incidents, id, now);
      match resolved
      case None => Failure(IncidentNotFound(id))
      case Some((rows, row)) => Success((write.(incidents := rows), row))
  }

  /** Whatever commits between the read and the write, the call answers and acts as one atomic
      resolution: at the write, or at the read when the incident did not exist yet. */
  lemma ResolutionIsLinearizable(read: Db, write: Db, id: nat, now: int)
    requires read.Sound() && write.Sound() && TableFollows(read.incidents, write.incidents)
    ensures id < |read.incidents| ==> ResolveAcross(read, write, id, now) == ResolveIncident(write, id, now)
    ensures id >= |read.incidents| ==>
              ResolveAcross(read, write, id, now) == Failure(IncidentNotFound(id)) == ResolveIncident(read, id, now)
  {
    if id < |read.incidents| {
      assert Follows(read.incidents[id], write.incidents[id]);
      if write.incidents[id].status.Resolved? {
        assert write.incidents[id := write.incidents[id]] == write.incidents[..];
        assert write.incidents[..] == write.incidents;
      }
    }
  }

  /** Resolving twice answers with the first resolution and changes nothing more, whatever the clock. */
  lemma ResolvingTwiceIsOnce(db: Db, id: nat, now: int, later: int)
    requires db.Sound() && ResolveIncident(db, id, now).Success?
    ensures var (db1, row) := ResolveIncident(db, id, now).value;
            ResolveIncident(db1, id, later) == Success((db1, row))
  {
  }

  // Configuration ingestion and device registration

  /** One finding of the policy evaluator about a device's configuration. */
  datatype Violation = Violation(
    policyId: string,
    affectedResource: string,
    severity: Severity,
    evidence: IncidentEvidence,
    recommendation: string)

  /** `IncidentFactory.build_candidate` of each finding, in order. */
  function PolicyCandidates(deviceId: string, violations: seq<Violation>, at: int): seq<Candidate> {
    if violations == [] then []
    else
      var v := violations[0];
      var fingerprint := Fingerprint(deviceId, PolicyViolation, v.policyId, v.affectedResource);
      [Candidate(fingerprint, v.severity, v.evidence, v.recommendation, at)]
      + PolicyCandidates(deviceId, violations[1..], at)
  }

  /** The writes of one configuration ingestion, given what the policies found: the device is registered
      unless it was, and every finding is upserted. */
  function IngestConfiguration(db: Db, deviceId: string, violations: seq<Violation>, at: int): Result<Db, Error> {
    var devices := db.devices + {deviceId};
    var (rows, _) :- UpsertAll(devices, db.incidents, PolicyCandidates(deviceId, violations, at));
    Success(db.(devices := devices, incidents := rows))
  }

  // Runs

  datatype Event =
    | ConfigurationEvent(deviceId: string, violations: seq<Violation>, at: int, commits: bool)
    | RegisterEvent(deviceIds: set<string>, commits: bool)
    | FabricEvent(fabric: Fabric, commits: bool)
    | TelemetryEvent(cmd: TelemetryCommand, commits: bool)
    | ResolveEvent(id: nat, now: int, commits: bool)

  ghost predicate ValidEvent(e: Event) {
    e.FabricEvent? ==> e.fabric.Valid()
  }

  /** The committed state after one call: a call that raises, or whose commit fails, leaves it alone. */
  function Step(db: Db, e: Event): Db {
    if !e.commits then db
    else
      match e
      case FabricEvent(fabric, _) =>
        var r := Ingest(db, fabric);
        if r.Success? then r.value.0 else db
      case TelemetryEvent(cmd, _) =>
        var r := IngestTelemetry(db, cmd);
        if r.Success? then r.value.0 else db
      case ResolveEvent(id, now, _) =>
        var r := ResolveIncident(db, id, now);
        if r.Success? then r.value.0 else db
      case ConfigurationEvent(deviceId, violations, at, _) =>
        var r := IngestConfiguration(db, deviceId, violations, at);
        if r.Success? then r.value else db
      case RegisterEvent(deviceIds, _) => db.(devices := db.devices + deviceIds)
  }

  function Run(db: Db, events: seq<Event>): Db {
    if events == [] then db else Step(Run(db, events[..|events| - 1]), events[|events| - 1])
  }

  ghost predicate ValidEvents(events: seq<Event>) {
    forall i | 0 <= i < |events| :: ValidEvent(events[i])
  }

  ghost predicate Evolves(before: Db, after: Db) {
    after.Sound() && before.devices <= after.devices && TableFollows(before.incidents, after.incidents)
  }

  lemma TableFollowsItself(rows: Table)
    ensures TableFollows(rows, rows)
  {
  }

  lemma FabricStepIsSafe(db: Db, fabric: Fabric)
    requires db.Sound() && fabric.Valid() && Ingest(db, fabric).Success?
    ensures Evolves(db, Ingest(db, fabric).value.0)
  {
    IngestSucceedsIff(db, fabric);
    TableFollowsItself(db.incidents);
    if IsReplay(db, fabric) {
      ReplayIsANoOp(db, fabric);
    } else {
      IngestExactEffect(db, fabric);
    }
  }

  lemma RecordIsSafe(db: Db, cmd: TelemetryCommand, anomalies: seq<Anomaly>)
    requires db.Sound() && cmd.deviceId == cmd.sample.deviceId
    requires AllValid(anomalies) && Record(db, cmd, anomalies).Success?
    ensures Evolves(db, Record(db, cmd, anomalies).value)
  {
    UpsertAllKeepsSound(db.devices, db.incidents, Candidates(anomalies));
    SaveKeepsOrder(db.Telemetry(cmd.deviceId), cmd.sample);
  }

  lemma TelemetryStepIsSafe(db: Db, cmd: TelemetryCommand)
    requires db.Sound() && IngestTelemetry(db, cmd).Success?
    ensures Evolves(db, IngestTelemetry(db, cmd).value.0)
  {
    EvaluatedAreValid(db, cmd);
    RecordIsSafe(db, cmd, Evaluated(db, cmd));
  }

  lemma ResolveStepIsSafe(db: Db, id: nat, now: int)
    requires db.Sound() && ResolveIncident(db, id, now).Success?
    ensures Evolves(db, ResolveIncident(db, id, now).value.0)
  {
    TableFollowsItself(db.incidents);
    if !db.incidents[id].status.Resolved? {
      ResolveKeepsSound(db.incidents, id, now);
    }
  }

  lemma ConfigurationStepIsSafe(db: Db, deviceId: string, violations: seq<Violation>, at: int)
    requires db.Sound() && IngestConfiguration(db, deviceId, violations, at).Success?
    ensures Evolves(db, IngestConfiguration(db, deviceId, violations, at).value)
  {
    UpsertAllKeepsSound(db.devices + {deviceId}, db.incidents, PolicyCandidates(deviceId, violations, at));
  }

  lemma StepIsSafe(db: Db, e: Event)
    requires db.Sound() && ValidEvent(e)
    ensures Evolves(db, Step(db, e))
  {
    TableFollowsItself(db.incidents);
    match e
    case FabricEvent(fabric, commits) =>
      if commits && Ingest(db, fabric).Success? { FabricStepIsSafe(db, fabric); }
    case TelemetryEvent(cmd, commits) =>
      if commits && IngestTelemetry(db, cmd).Success? { TelemetryStepIsSafe(db, cmd); }
    case ResolveEvent(id, now, commits) =>
      if commits && ResolveIncident(db, id, now).Success? { ResolveStepIsSafe(db, id, now); }
    case ConfigurationEvent(d, vs, at, commits) =>
      if commits && IngestConfiguration(db, d, vs, at).Success? { ConfigurationStepIsSafe(db, d, vs, at); }
    case RegisterEvent(_, _) =>
  }

  /** Over any mix of accepted, replayed, stale, conflicting and failing calls: one open row per
      fingerprint, timestamps in order, resolved rows and identity frozen, no row ever lost. */
  lemma {:induction false} RunIsSafe(db: Db, events: seq<Event>)
    requires db.Sound() && ValidEvents(events)
    ensures Evolves(db, Run(db, events))
  {
    TableFollowsItself(db.incidents);
    if events != [] {
      var n := |events| - 1;
      var before := Run(db, events[..n]);
      RunIsSafe(db, events[..n]);
      StepIsSafe(before, events[n]);
      TableFollowsTransitive(db.incidents, before.incidents, Step(before, events[n]).incidents);
    }
  }

  // Conservation of occurrences

  /** How many sightings of a fingerprint an event commits. */
  ghost function Sightings(db: Db, e: Event, f: Fingerprint): nat {
    if !e.commits then 0
    else
      match e
      case FabricEvent(fabric, _) =>
        if Ingest(db, fabric).Success? && IsNew(db, fabric) && SeesDown(fabric.nodes, f) then 1 else 0
      case TelemetryEvent(cmd, _) =>
        if IngestTelemetry(db, cmd).Success? && Names(Evaluated(db, cmd), f) then 1 else 0
      case ConfigurationEvent(deviceId, violations, at, _) =>
        if IngestConfiguration(db, deviceId, violations, at).Success? then
          CountOf(PolicyCandidates(deviceId, violations, at), f)
        else 0
      case ResolveEvent(_, _, _) => 0
      case RegisterEvent(_, _) => 0
  }

  ghost function RunSightings(db: Db, events: seq<Event>, f: Fingerprint): nat {
    if events == [] then 0
    else
      var n := |events| - 1;
      RunSightings(db, events[..n], f) + Sightings(Run(db, events[..n]), events[n], f)
  }

  lemma {:induction false} CountDistinct(cs: seq<Candidate>, f: Fingerprint)
    requires DistinctFingerprints(cs)
    ensures CountOf(cs, f) == if CandidateFor(cs, f).Some? then 1 else 0
  {
    if cs != [] {
      CountDistinct(cs[1..], f);
      if cs[0].fingerprint == f {
        assert CandidateFor(cs[1..], f).None?;
      }
    }
  }

  lemma {:induction false} FabricStepCounts(db: Db, fabric: Fabric, f: Fingerprint)
    requires db.Sound() && fabric.Valid() && Ingest(db, fabric).Success?
    ensures Occurrences(Ingest(db, fabric).value.0.incidents, f) ==
            Occurrences(db.incidents, f) + if IsNew(db, fabric) && SeesDown(fabric.nodes, f) then 1 else 0
  {
    hide Ingest, Lifecycle, Occurrences, CandidateFor, CountOf, Candidates, SeesDown, SoundTable;
    IngestSucceedsIff(db, fabric);
    if IsReplay(db, fabric) {
      ReplayIsANoOp(db, fabric);
    } else {
      IngestPastChecks(db, fabric);
      var cs := Candidates(Detected(fabric));
      LifecycleIsExact(db, fabric);
      LifecycleCounts(db.devices, db.incidents, cs, EstablishedNodes(fabric.nodes), fabric.collectedAt, f);
      CandidatesAreDistinct(fabric);
      CountDistinct(cs, f);
      CandidateForIsDown(fabric, f);
    }
  }

  ghost predicate Names(anomalies: seq<Anomaly>, f: Fingerprint) {
    exists a :: a in anomalies && FingerprintOf(a) == f
  }

  lemma {:induction false} CandidateForNamed(anomalies: seq<Anomaly>, f: Fingerprint)
    requires AllValid(anomalies)
    ensures CandidateFor(Candidates(anomalies), f).Some? <==> Names(anomalies, f)
  {
    var cs := Candidates(anomalies);
    var c := CandidateFor(cs, f);
    if c.Some? {
      var i :| 0 <= i < |cs| && cs[i] == c.value;
      assert anomalies[i] in anomalies && FingerprintOf(anomalies[i]) == f;
    } else {
      forall a | a in anomalies ensures FingerprintOf(a) != f {
        var i :| 0 <= i < |anomalies| && anomalies[i] == a;
        assert cs[i] in cs;
      }
    }
  }

  lemma {:induction false} RecordCounts(db: Db, cmd: TelemetryCommand, anomalies: seq<Anomaly>, f: Fingerprint)
    requires AllValid(anomalies) && DistinctAnomalies(anomalies) && Record(db, cmd, anomalies).Success?
    ensures Occurrences(Record(db, cmd, anomalies).value.incidents, f) ==
            Occurrences(db.incidents, f) + if Names(anomalies, f) then 1 else 0
  {
    var cs := Candidates(anomalies);
    CandidatesDistinct(anomalies);
    UpsertAllCounts(db.devices, db.incidents, cs, f);
    CountDistinct(cs, f);
    CandidateForNamed(anomalies, f);
  }

  lemma {:induction false} TelemetryStepCounts(db: Db, cmd: TelemetryCommand, f: Fingerprint)
    requires IngestTelemetry(db, cmd).Success?
    ensures Occurrences(IngestTelemetry(db, cmd).value.0.incidents, f) ==
            Occurrences(db.incidents, f) + if Names(Evaluated(db, cmd), f) then 1 else 0
  {
    EvaluatedAreValid(db, cmd);
    RecordCounts(db, cmd, Evaluated(db, cmd), f);
  }

  lemma {:induction false} UpsertAllCountsIf(devices: set<string>, rows: Table, cs: seq<Candidate>, f: Fingerprint)
    ensures UpsertAll(devices, rows, cs).Success? ==>
              Occurrences(UpsertAll(devices, rows, cs).value.0, f) == Occurrences(rows, f) + CountOf(cs, f)
  {
    if UpsertAll(devices, rows, cs).Success? { UpsertAllCounts(devices, rows, cs, f); }
  }

  lemma {:induction false} StepCounts(db: Db, e: Event, f: Fingerprint)
    requires db.Sound() && ValidEvent(e)
    ensures Occurrences(Step(db, e).incidents, f) == Occurrences(db.incidents, f) + Sightings(db, e, f)
  {
    hide Ingest, IngestTelemetry, Occurrences, UpsertAll, CountOf, SoundTable, SeesDown, Names, IsNew;
    match e
    case FabricEvent(fabric, commits) =>
      if commits && Ingest(db, fabric).Success? { FabricStepCounts(db, fabric, f); }
    case TelemetryEvent(cmd, commits) =>
      if commits && IngestTelemetry(db, cmd).Success? { TelemetryStepCounts(db, cmd, f); }
    case ResolveEvent(id, now, commits) =>
      if commits && ResolveIncident(db, id, now).Success? && !db.incidents[id].status.Resolved? {
        ResolveCountsNothing(db.incidents, id, now, f);
      }
    case ConfigurationEvent(d, vs, at, commits) =>
      UpsertAllCountsIf(db.devices + {d}, db.incidents, PolicyCandidates(d, vs, at), f);
    case RegisterEvent(_, _) =>
  }

  /** Over a whole run the occurrence counts of a fingerprint, summed over its open and resolved rows,
      grow by exactly the committed sightings: replays, rollbacks, recoveries and resolutions neither
      lose nor invent one. */
  lemma {:induction false} RunConservesOccurrences(db: Db, events: seq<Event>, f: Fingerprint)
    requires db.Sound() && ValidEvents(events)
    ensures Occurrences(Run(db, events).incidents, f) == Occurrences(db.incidents, f) + RunSightings(db, events, f)
  {
    if events != [] {
      var n := |events| - 1;
      RunConservesOccurrences(db, events[..n], f);
      RunIsSafe(db, events[..n]);
      StepCounts(Run(db, events[..n]), events[n], f);
    }
  }

  // Fabric ingestion as the only writer of BGP-down incidents

  /** Every open BGP-down incident was last touched no later than the lab's latest collection. */
  ghost predicate SoleWriter(db: Db, lab: string) {
    forall i | 0 <= i < |db.incidents| && db.incidents[i].status.Open? && IsBgpDown(db.incidents[i].fingerprint) ::
      && lab in db.states
      && db.incidents[i].lastSeenAt == db.incidents[i].updatedAt <= db.states[lab].collectedAt
  }

  /** The events of such a run: collections of that lab, or of none, resolutions, configurations,
      registrations, and telemetry that raises no BGP-down anomaly. */
  ghost predicate OneLabEvent(db: Db, e: Event, lab: string) {
    match e
    case FabricEvent(fabric, _) => DeriveLab(fabric).Success? ==> DeriveLab(fabric).value == lab
    case TelemetryEvent(cmd, _) => forall a | a in Evaluated(db, cmd) :: !a.ruleId.BgpDown?
    case _ => true
  }

  lemma ObservedAreBgpDown(nodes: seq<NodeState>, f: Fingerprint)
    ensures SeesDown(nodes, f) || SeesEstablished(nodes, f) ==> IsBgpDown(f)
  {
  }

  /** Then nothing past the early checks can reject a new collection: neither the service's stale
      check, nor the upsert's, nor the chronology check of a resolution. */
  lemma SoleWriterNeverStale(db: Db, fabric: Fabric, lab: string)
    requires db.Sound() && fabric.Valid() && SoleWriter(db, lab) && DeriveLab(fabric) == Success(lab)
    ensures Ingest(db, fabric).Success? <==> PassesChecks(db, fabric) && (IsNew(db, fabric) || IsReplay(db, fabric))
  {
    IngestSucceedsIff(db, fabric);
    if IsNew(db, fabric) {
      forall i | 0 <= i < |db.incidents| && db.incidents[i].status.Open?
                 && (SeesDown(fabric.nodes, db.incidents[i].fingerprint)
                     || SeesEstablished(fabric.nodes, db.incidents[i].fingerprint))
        ensures db.incidents[i].lastSeenAt <= fabric.collectedAt
      {
        ObservedAreBgpDown(fabric.nodes, db.incidents[i].fingerprint);
      }
    }
  }

  lemma ObservedOnTime(fabric: Fabric, row: Incident)
    ensures var after := ObservedRow(fabric, row);
            after.status.Open? ==>
              || after == row
              || (after.fingerprint == row.fingerprint && after.lastSeenAt == after.updatedAt == fabric.collectedAt)
  {
  }

  lemma SoleWriterFabricStep(db: Db, fabric: Fabric, lab: string)
    requires db.Sound() && fabric.Valid() && SoleWriter(db, lab) && DeriveLab(fabric) == Success(lab)
    requires Ingest(db, fabric).Success? && IsNew(db, fabric)
    ensures SoleWriter(Ingest(db, fabric).value.0, lab)
  {
    hide Ingest, ObservedRow;
    var after := Ingest(db, fabric).value.0;
    IngestExactEffect(db, fabric);
    forall i | 0 <= i < |after.incidents| && after.incidents[i].status.Open?
               && IsBgpDown(after.incidents[i].fingerprint)
      ensures after.incidents[i].lastSeenAt == after.incidents[i].updatedAt <= fabric.collectedAt
    {
      if i < |db.incidents| {
        assert after.incidents[i] == ObservedRow(fabric, db.incidents[i]);
        ObservedOnTime(fabric, db.incidents[i]);
      } else {
        AddedRowsAreDown(db, fabric, i);
      }
    }
  }

  lemma UpsertElsewhere(devices: set<string>, rows: Table, c: Candidate, i: nat)
    requires Upsert(devices, rows, c).Success? && !IsBgpDown(c.fingerprint)
    requires i < |Upsert(devices, rows, c).value.0| && IsBgpDown(Upsert(devices, rows, c).value.0[i].fingerprint)
    ensures i < |rows| && Upsert(devices, rows, c).value.0[i] == rows[i]
  {
  }

  lemma {:induction false} UpsertsElsewhere(devices: set<string>, rows: Table, cs: seq<Candidate>, i: nat)
    requires UpsertAll(devices, rows, cs).Success? && forall c | c in cs :: !IsBgpDown(c.fingerprint)
    requires i < |UpsertAll(devices, rows, cs).value.0|
             && IsBgpDown(UpsertAll(devices, rows, cs).value.0[i].fingerprint)
    ensures i < |rows| && UpsertAll(devices, rows, cs).value.0[i] == rows[i]
    decreases cs
  {
    if cs != [] {
      UpsertsElsewhere(devices, Upsert(devices, rows, cs[0]).value.0, cs[1..], i);
      UpsertElsewhere(devices, rows, cs[0], i);
    }
  }

  lemma {:induction false} PoliciesAreElsewhere(deviceId: string, violations: seq<Violation>, at: int)
    ensures forall c | c in PolicyCandidates(deviceId, violations, at) :: !IsBgpDown(c.fingerprint)
  {
    if violations != [] { PoliciesAreElsewhere(deviceId, violations[1..], at); }
  }

  /** Rows of other incidents may come, go and change without affecting the invariant. */
  lemma {:induction false} SoleWriterElsewhere(db: Db, after: Db, cs: seq<Candidate>, lab: string)
    requires SoleWriter(db, lab) && after.states == db.states && forall c | c in cs :: !IsBgpDown(c.fingerprint)
    requires UpsertAll(after.devices, db.incidents, cs).Success?
    requires after.incidents == UpsertAll(after.devices, db.incidents, cs).value.0
    ensures SoleWriter(after, lab)
  {
    var rows := after.incidents;
    forall i | 0 <= i < |rows| && IsBgpDown(rows[i].fingerprint)
      ensures i < |db.incidents| && rows[i] == db.incidents[i]
    {
      UpsertsElsewhere(after.devices, db.incidents, cs, i);
    }
  }

  lemma SoleWriterRecord(db: Db, cmd: TelemetryCommand, anomalies: seq<Anomaly>, lab: string)
    requires SoleWriter(db, lab) && AllValid(anomalies) && Record(db, cmd, anomalies).Success?
    requires forall a | a in anomalies :: !a.ruleId.BgpDown?
    ensures SoleWriter(Record(db, cmd, anomalies).value, lab)
  {
    var cs := Candidates(anomalies);
    forall c | c in cs ensures !IsBgpDown(c.fingerprint) {
      var i :| 0 <= i < |cs| && cs[i] == c;
      assert anomalies[i] in anomalies;
      RuleRefsDiffer(anomalies[i].ruleId, BgpDown);
    }
    SoleWriterElsewhere(db, Record(db, cmd, anomalies).value, cs, lab);
  }

  lemma SoleWriterTelemetryStep(db: Db, cmd: TelemetryCommand, lab: string)
    requires db.Sound() && SoleWriter(db, lab) && IngestTelemetry(db, cmd).Success?
    requires forall a | a in Evaluated(db, cmd) :: !a.ruleId.BgpDown?
    ensures SoleWriter(IngestTelemetry(db, cmd).value.0, lab)
  {
    EvaluatedAreValid(db, cmd);
    SoleWriterRecord(db, cmd, Evaluated(db, cmd), lab);
  }

  lemma SoleWriterIngest(db: Db, fabric: Fabric, lab: string)
    requires db.Sound() && fabric.Valid() && SoleWriter(db, lab) && Ingest(db, fabric).Success?
    requires DeriveLab(fabric).Success? ==> DeriveLab(fabric).value == lab
    ensures SoleWriter(Ingest(db, fabric).value.0, lab)
  {
    hide Ingest, SoleWriter, SoundTable;
    IngestSucceedsIff(db, fabric);
    if IsReplay(db, fabric) {
      ReplayIsANoOp(db, fabric);
    } else {
      SoleWriterFabricStep(db, fabric, lab);
    }
  }

  lemma SoleWriterStep(db: Db, e: Event, lab: string)
    requires db.Sound() && ValidEvent(e) && SoleWriter(db, lab) && OneLabEvent(db, e, lab)
    ensures SoleWriter(Step(db, e), lab)
  {
    hide Ingest, IngestTelemetry, UpsertAll, SoundTable, Evaluated;
    match e
    case FabricEvent(fabric, commits) =>
      if commits && Ingest(db, fabric).Success? { SoleWriterIngest(db, fabric, lab); }
    case TelemetryEvent(cmd, commits) =>
      if commits && IngestTelemetry(db, cmd).Success? { SoleWriterTelemetryStep(db, cmd, lab); }
    case ConfigurationEvent(d, vs, at, commits) =>
      if commits && IngestConfiguration(db, d, vs, at).Success? {
        PoliciesAreElsewhere(d, vs, at);
        SoleWriterElsewhere(db, IngestConfiguration(db, d, vs, at).value, PolicyCandidates(d, vs, at), lab);
      }
    case _ =>
  }

  ghost predicate OneLabRun(db: Db, events: seq<Event>, lab: string) {
    events == []
    || (OneLabRun(db, events[..|events| - 1], lab)
        && OneLabEvent(Run(db, events[..|events| - 1]), events[|events| - 1], lab))
  }

  lemma {:induction false} SoleWriterRun(db: Db, events: seq<Event>, lab: string)
    requires db.Sound() && ValidEvents(events) && SoleWriter(db, lab) && OneLabRun(db, events, lab)
    ensures SoleWriter(Run(db, events), lab)
  {
    if events != [] {
      var n := |events| - 1;
      SoleWriterRun(db, events[..n], lab);
      RunIsSafe(db, events[..n]);
      SoleWriterStep(Run(db, events[..n]), events[n], lab);
    }
  }
}
