/** The store, the unit of work and the three write services, as they update state step by step. */
module Services {
  import opened Wrappers
  import opened OperationalState
  import opened Anomalies
  import opened Incidents
  import opened Detection
  import opened RuleEngine
  import opened Retention
  import opened Ingestion
  import opened Runs

  class Store {
    var devices: set<string>
    var incidents: Table
    var states: map<string, Fabric>
    var samples: map<string, seq<Sample>>

    constructor (from: Db)
      ensures Snapshot() == from
    {
      devices, incidents, states, samples := from.devices, from.incidents, from.states, from.samples;
    }

    function Snapshot(): Db
      reads this
    {
      Db(devices, incidents, states, samples)
    }

    method Restore(from: Db)
      modifies this
      ensures Snapshot() == from
    {
      devices, incidents, states, samples := from.devices, from.incidents, from.states, from.samples;
    }

    // Incident repository

    method GetOpenByFingerprint(f: Fingerprint) returns (r: Option<Incident>)
      ensures FindOpen(incidents, f).None? ==> r == None
      ensures FindOpen(incidents, f).Some? ==> r == Some(incidents[FindOpen(incidents, f).value])
    {
      for i := 0 to |incidents|
        invariant FindOpen(incidents[..i], f) == None
      {
        assert incidents[..i + 1][..i] == incidents[..i];
        if IsOpenFor(incidents[i], f) {
          FindOpenInPrefix(incidents, i + 1, f);
          return Some(incidents[i]);
        }
      }
      assert incidents[..|incidents|] == incidents;
      return None;
    }

    /** Atomic create-or-update of the one open row of a fingerprint. */
    method UpsertOpenIncident(c: Candidate) returns (r: Result<UpsertResult, Error>)
      requires SoundTable(incidents)
      modifies this`incidents
      ensures match Upsert(devices, old(incidents), c)
              case Success((rows, result)) => r == Success(result) && incidents == rows
              case Failure(e) => r == Failure(e) && incidents == old(incidents)
    {
      var existing := GetOpenByFingerprint(c.fingerprint);
      if existing.None? {
        if c.fingerprint.deviceId !in devices {
          return Failure(DeviceNotFound(c.fingerprint.deviceId));
        }
        var incident := NewIncident(|incidents|, c);
        incidents := incidents + [incident];
        return Success(UpsertResult(incident, CreatedIncident));
      }
      if c.observedAt < existing.value.lastSeenAt {
        return Failure(StaleObservation);
      }
      var updated := existing.value.Seen(c);
      incidents := incidents[existing.value.incidentId := updated];
      return Success(UpsertResult(updated, UpdatedIncident));
    }

    /** Atomic open-to-resolved transition of one row. */
    method Resolve(id: nat, at: int) returns (r: Result<Option<Incident>, Error>)
      modifies this`incidents
      ensures match ResolveRow(old(incidents), id, at)
              case Success(None) => r == Success(None) && incidents == old(incidents)
              case Success(Some((rows, row))) => r == Success(Some(row)) && incidents == rows
              case Failure(e) => r == Failure(e) && incidents == old(incidents)
    {
      if id >= |incidents| {
        return Success(None);
      }
      var resolved := incidents[id].Resolve(at);
      if resolved.Failure? {
        return Failure(resolved.error);
      }
      incidents := incidents[id := resolved.value];
      return Success(Some(resolved.value));
    }

    // Operational-state repository

    method SaveLatest(fabric: Fabric) returns (r: Result<SaveOutcome, Error>)
      modifies this`states
      ensures match DeriveLab(fabric)
              case Failure(e) => r == Failure(e) && states == old(states)
              case Success(lab) =>
                match Write(old(Snapshot()).StateRow(lab), fabric)
                case Failure(e) => r == Failure(e) && states == old(states)
                case Success((stored, outcome)) => r == Success(outcome) && states == old(states)[lab := stored]
    {
      var lab := DeriveLab(fabric);
      if lab.Failure? {
        return Failure(lab.error);
      }
      if lab.value !in states {
        states := states[lab.value := fabric];
        return Success(Created);
      }
      var decision := DecideLatestWrite(states[lab.value], fabric);
      if decision.Failure? {
        return Failure(decision.error);
      }
      if decision.value.Unchanged? {
        assert states[lab.value] == fabric && states[lab.value := fabric] == states;
        return Success(Unchanged);
      }
      states := states[lab.value := fabric];
      return Success(Replaced);
    }

    // Telemetry repository

    method SaveSample(deviceId: string, sample: Sample) returns (r: Result<(), Error>)
      modifies this`samples
      ensures if deviceId != sample.deviceId then r == Failure(DeviceMismatch) && samples == old(samples)
              else r == Success(())
                   && samples == old(samples)[deviceId := Save(old(Snapshot()).Telemetry(deviceId), sample)]
    {
      if deviceId != sample.deviceId {
        return Failure(DeviceMismatch);
      }
      var existing := if deviceId in samples then samples[deviceId] else [];
      samples := samples[deviceId := Save(existing, sample)];
      return Success(());
    }
  }

  lemma {:induction false} FindOpenInPrefix(rows: Table, n: nat, f: Fingerprint)
    requires n <= |rows| && FindOpen(rows[..n], f).Some?
    ensures FindOpen(rows, f) == FindOpen(rows[..n], f)
  {
    if n < |rows| {
      var m := |rows| - 1;
      assert rows[..m][..n] == rows[..n];
      FindOpenInPrefix(rows[..m], n, f);
    } else {
      assert rows[..n] == rows;
    }
  }

  /** A private working copy of the committed store. */
  class UnitOfWork {
    const committed: Store
    const working: Store

    constructor (committed: Store)
      ensures this.committed == committed && fresh(working)
      ensures working.Snapshot() == committed.Snapshot()
    {
      this.committed := committed;
      working := new Store(committed.Snapshot());
    }

    method Commit()
      modifies committed
      ensures committed.Snapshot() == working.Snapshot()
    {
      committed.Restore(working.Snapshot());
    }

    method Rollback()
      modifies working
      ensures working.Snapshot() == committed.Snapshot()
    {
      working.Restore(committed.Snapshot());
    }
  }

  /** What was done so far, and what the rest of the batch makes of it. */
  function Then<T>(done: seq<T>, rest: Result<(Table, seq<T>), Error>): Result<(Table, seq<T>), Error> {
    match rest
    case Success((rows, more)) => Success((rows, done + more))
    case Failure(e) => Failure(e)
  }

  lemma ThenSnoc<T>(done: seq<T>, x: T, rest: Result<(Table, seq<T>), Error>)
    ensures Then(done, Then([x], rest)) == Then(done + [x], rest)
  {
    if rest.Success? {
      assert done + ([x] + rest.value.1) == (done + [x]) + rest.value.1;
    }
  }

  lemma ThenNothing<T>(done: seq<T>, rows: Table, rest: Result<(Table, seq<T>), Error>)
    ensures Then([], rest) == rest
    ensures Then(done, Success((rows, []))) == Success((rows, done))
  {
    assert done + [] == done;
    if rest.Success? {
      assert [] + rest.value.1 == rest.value.1;
    }
  }

  method UpsertEach(store: Store, cs: seq<Candidate>) returns (r: Result<seq<UpsertResult>, Error>)
    requires SoundTable(store.incidents)
    modifies store`incidents
    ensures match UpsertAll(store.devices, old(store.incidents), cs)
            case Success((rows, upserts)) => r == Success(upserts) && store.incidents == rows
            case Failure(e) => r == Failure(e)
  {
    var upserts: seq<UpsertResult> := [];
    ghost var all := UpsertAll(store.devices, store.incidents, cs);
    ThenNothing([], store.incidents, all);
    assert cs[0..] == cs;
    for i := 0 to |cs|
      invariant SoundTable(store.incidents)
      invariant all == Then(upserts, UpsertAll(store.devices, store.incidents, cs[i..]))
    {
      assert cs[i..][1..] == cs[i + 1..];
      ghost var rows := store.incidents;
      var result := store.UpsertOpenIncident(cs[i]);
      if result.Failure? {
        return Failure(result.error);
      }
      UpsertKeepsSound(store.devices, rows, cs[i]);
      ThenSnoc(upserts, result.value, UpsertAll(store.devices, store.incidents, cs[i + 1..]));
      upserts := upserts + [result.value];
    }
    assert cs[|cs|..] == [];
    ThenNothing(upserts, store.incidents, all);
    return Success(upserts);
  }

  /** One step of the recovery loop: the neighbor's open incident, if any, unless it is failing. */
  method RecoverOne(store: Store, f: Fingerprint, at: int, failing: set<Fingerprint>)
    returns (r: Result<Option<Incident>, Error>)
    requires SoundTable(store.incidents)
    modifies store`incidents
    ensures match RecoverAll(old(store.incidents), [f], at, failing)
            case Success((rows, resolved)) =>
              && r.Success? && store.incidents == rows && SoundTable(rows)
              && resolved == (if r.value.Some? then [r.value.value] else [])
            case Failure(e) => r == Failure(e)
  {
    assert [f][1..] == [];
    RecoverOneUnfolds(store.incidents, f, at, failing);
    if f in failing {
      return Success(None);
    }
    var open := store.GetOpenByFingerprint(f);
    if open.None? {
      return Success(None);
    }
    if at < open.value.lastSeenAt {
      return Failure(StaleObservation);
    }
    var resolved := store.Resolve(open.value.incidentId, at);
    if resolved.Failure? {
      return Failure(resolved.error);
    }
    if resolved.value.None? {
      return Failure(IncidentNotFound(open.value.incidentId));
    }
    return Success(resolved.value);
  }

  lemma {:induction false} RecoverOneUnfolds(rows: Table, f: Fingerprint, at: int, failing: set<Fingerprint>)
    requires SoundTable(rows)
    ensures RecoverAll(rows, [f], at, failing).Success? ==> SoundTable(RecoverAll(rows, [f], at, failing).value.0)
  {
    if RecoverAll(rows, [f], at, failing).Success? {
      RecoverAllKeepsSound(rows, [f], at, failing);
    }
  }

  lemma {:induction false} RecoverAppend(
    rows: Table, fs: seq<Fingerprint>, gs: seq<Fingerprint>, at: int, failing: set<Fingerprint>)
    ensures RecoverAll(rows, fs + gs, at, failing) ==
            match RecoverAll(rows, fs, at, failing)
            case Success((rows1, resolved)) => Then(resolved, RecoverAll(rows1, gs, at, failing))
            case Failure(e) => Failure(e)
    decreases fs
  {
    if fs == [] {
      assert fs + gs == gs;
      ThenNothing([], rows, RecoverAll(rows, gs, at, failing));
    } else {
      assert (fs + gs)[0] == fs[0] && (fs + gs)[1..] == fs[1..] + gs;
      var found := FindOpen(rows, fs[0]);
      if fs[0] in failing || found.None? {
        RecoverAppend(rows, fs[1..], gs, at, failing);
      } else if rows[found.value].lastSeenAt <= at {
        var resolved := ResolveRow(rows, rows[found.value].incidentId, at);
        if resolved.Success? && resolved.value.Some? {
          var (rows1, row) := resolved.value.value;
          RecoverAppend(rows1, fs[1..], gs, at, failing);
          var rest := RecoverAll(rows1, fs[1..], at, failing);
          if rest.Success? {
            var more := RecoverAll(rest.value.0, gs, at, failing);
            if more.Success? {
              assert [row] + (rest.value.1 + more.value.1) == ([row] + rest.value.1) + more.value.1;
            }
          }
        }
      }
    }
  }

  /** The inner loop of `_recover`, over one router's neighbors. */
  method RecoverNeighbors(
    store: Store, deviceId: string, neighbors: seq<BgpNeighbor>, at: int, failing: set<Fingerprint>)
    returns (r: Result<seq<Incident>, Error>)
    requires SoundTable(store.incidents)
    modifies store`incidents
    ensures match RecoverAll(old(store.incidents), EstablishedNeighbors(deviceId, neighbors), at, failing)
            case Success((rows, resolved)) => r == Success(resolved) && store.incidents == rows && SoundTable(rows)
            case Failure(e) => r == Failure(e)
  {
    var resolved: seq<Incident> := [];
    ghost var all := RecoverAll(store.incidents, EstablishedNeighbors(deviceId, neighbors), at, failing);
    ThenNothing([], store.incidents, all);
    assert neighbors[0..] == neighbors;
    for j := 0 to |neighbors|
      invariant SoundTable(store.incidents)
      invariant all ==
                Then(resolved, RecoverAll(store.incidents, EstablishedNeighbors(deviceId, neighbors[j..]), at, failing))
    {
      ghost var after := EstablishedNeighbors(deviceId, neighbors[j + 1..]);
      assert neighbors[j..][0] == neighbors[j] && neighbors[j..][1..] == neighbors[j + 1..];
      if !neighbors[j].state.Established? {
        assert [] + after == after;
        continue;
      }
      var f := BgpFingerprint(deviceId, neighbors[j].neighborIp);
      RecoverAppend(store.incidents, [f], after, at, failing);
      var one := RecoverOne(store, f, at, failing);
      if one.Failure? {
        return Failure(one.error);
      }
      ghost var onward := RecoverAll(store.incidents, after, at, failing);
      if one.value.Some? {
        ThenSnoc(resolved, one.value.value, onward);
        resolved := resolved + [one.value.value];
      } else {
        ThenNothing([], store.incidents, onward);
      }
    }
    assert neighbors[|neighbors|..] == [];
    ThenNothing(resolved, store.incidents, all);
    return Success(resolved);
  }

  lemma ThenTwice<T>(done: seq<T>, more: seq<T>, rest: Result<(Table, seq<T>), Error>)
    ensures Then(done, Then(more, rest)) == Then(done + more, rest)
  {
    if rest.Success? {
      assert done + (more + rest.value.1) == (done + more) + rest.value.1;
    }
  }

  /** `_recover`: for every router with BGP, its established neighbors. */
  method Recover(store: Store, fabric: Fabric, upserts: seq<UpsertResult>) returns (r: Result<seq<Incident>, Error>)
    requires SoundTable(store.incidents) && RoutersKnown(fabric.nodes)
    modifies store`incidents
    ensures match RecoverAll(old(store.incidents), EstablishedNodes(fabric.nodes), fabric.collectedAt,
                             Fingerprints(upserts))
            case Success((rows, resolved)) => r == Success(resolved) && store.incidents == rows
            case Failure(e) => r == Failure(e)
  {
    var failing := Fingerprints(upserts);
    var resolved: seq<Incident> := [];
    var at := fabric.collectedAt;
    ghost var all := RecoverAll(store.incidents, EstablishedNodes(fabric.nodes), at, failing);
    ThenNothing([], store.incidents, all);
    assert fabric.nodes[0..] == fabric.nodes;
    var i := 0;
    while i < |fabric.nodes|
      invariant i <= |fabric.nodes| && SoundTable(store.incidents)
      invariant all == Then(resolved, RecoverAll(store.incidents, EstablishedNodes(fabric.nodes[i..]), at, failing))
    {
      var node := fabric.nodes[i];
      ghost var rest := EstablishedNodes(fabric.nodes[i + 1..]);
      assert fabric.nodes[i..][0] == node && fabric.nodes[i..][1..] == fabric.nodes[i + 1..];
      i := i + 1;
      if node.role.Host? || node.bgp.None? {
        assert [] + rest == rest;
        continue;
      }
      var deviceId := DeviceId(node.nodeId).value;
      RecoverAppend(store.incidents, EstablishedNeighbors(deviceId, node.bgp.value.neighbors), rest, at, failing);
      var here := RecoverNeighbors(store, deviceId, node.bgp.value.neighbors, at, failing);
      if here.Failure? {
        return Failure(here.error);
      }
      ThenTwice(resolved, here.value, RecoverAll(store.incidents, rest, at, failing));
      resolved := resolved + here.value;
    }
    assert fabric.nodes[|fabric.nodes|..] == [];
    ThenNothing(resolved, store.incidents, all);
    return Success(resolved);
  }

  // The services

  /** The body of one ingestion on a working copy; the copy is meaningless after a failure. */
  method TryIngest(store: Store, fabric: Fabric) returns (r: Result<IngestionResult, Error>)
    requires store.Snapshot().Sound()
    modifies store
    ensures match Ingest(old(store.Snapshot()), fabric)
            case Success((db, result)) => r == Success(result) && store.Snapshot() == db
            case Failure(e) => r == Failure(e)
  {
    hide DeriveLab, DetectNodes, FirstMissing, Candidates, EstablishedNodes, UpsertAll, RecoverAll, SoundTable;
    hide Fingerprints;
    var lab := DeriveLab(fabric);
    if lab.Failure? {
      return Failure(lab.error);
    }
    var detected := Detect(fabric);
    if detected.Failure? {
      return Failure(detected.error);
    }
    var anomalies := detected.value;
    DetectedAreValid(fabric.nodes, fabric.collectedAt);
    DetectsKnownRouters(fabric.nodes, fabric.collectedAt);
    var missing := MissingDevice(store, anomalies);
    if missing.Some? {
      return Failure(DeviceNotFound(missing.value));
    }
    var outcome := store.SaveLatest(fabric);
    if outcome.Failure? {
      return Failure(outcome.error);
    }
    if outcome.value.Unchanged? {
      return Success(IngestionResult(fabric.collectionId, anomalies, [], outcome.value, []));
    }
    ghost var rows := store.incidents;
    var upserts := UpsertEach(store, Candidates(anomalies));
    if upserts.Failure? {
      return Failure(upserts.error);
    }
    UpsertAllKeepsSound(store.devices, rows, Candidates(anomalies));
    var resolved := Recover(store, fabric, upserts.value);
    if resolved.Failure? {
      return Failure(resolved.error);
    }
    return Success(IngestionResult(fabric.collectionId, anomalies, upserts.value, outcome.value, resolved.value));
  }

  method MissingDevice(store: Store, anomalies: seq<Anomaly>) returns (r: Option<string>)
    ensures r == FirstMissing(store.devices, anomalies)
  {
    assert anomalies[0..] == anomalies;
    for i := 0 to |anomalies|
      invariant FirstMissing(store.devices, anomalies) == FirstMissing(store.devices, anomalies[i..])
    {
      assert anomalies[i..][1..] == anomalies[i + 1..];
      if anomalies[i].deviceId !in store.devices {
        return Some(anomalies[i].deviceId);
      }
    }
    return None;
  }

  /** `OperationalStateIngestionService.ingest`: one transaction. A call that raises, at any point,
      leaves the committed store exactly as it was. */
  method IngestFabric(committed: Store, fabric: Fabric, commits: bool) returns (r: Result<IngestionResult, Error>)
    requires committed.Snapshot().Sound()
    modifies committed
    ensures committed.Snapshot() == Step(old(committed.Snapshot()), FabricEvent(fabric, commits))
    ensures match Ingest(old(committed.Snapshot()), fabric)
            case Success((_, result)) => r == if commits then Success(result) else Failure(CommitFailed)
            case Failure(e) => r == Failure(e)
    ensures r.Failure? ==> committed.Snapshot() == old(committed.Snapshot())
  {
    hide Ingest, SoundTable, DeriveLab;
    var uow := new UnitOfWork(committed);
    r := TryIngest(uow.working, fabric);
    if r.Success? && !commits {
      r := Failure(CommitFailed);
    }
    if r.Failure? {
      uow.Rollback();
    } else {
      uow.Commit();
    }
  }

  /** `ResolveIncidentService.resolve`, when nothing else commits between its read and its write. */
  method ResolveService(committed: Store, id: nat, now: int, commits: bool) returns (r: Result<Incident, Error>)
    modifies committed
    ensures committed.Snapshot() == Step(old(committed.Snapshot()), ResolveEvent(id, now, commits))
    ensures match ResolveIncident(old(committed.Snapshot()), id, now)
            case Success((db, row)) =>
              r == if commits || old(committed.incidents)[id].status.Resolved? then Success(row)
                   else Failure(CommitFailed)
            case Failure(e) => r == Failure(e)
    ensures r.Failure? ==> committed.Snapshot() == old(committed.Snapshot())
  {
    var uow := new UnitOfWork(committed);
    var working := uow.working;
    if id >= |working.incidents| {
      uow.Rollback();
      return Failure(IncidentNotFound(id));
    }
    if working.incidents[id].status.Resolved? {
      return Success(working.incidents[id]);
    }
    var resolved := working.Resolve(id, now);
    if resolved.Failure? {
      uow.Rollback();
      return Failure(resolved.error);
    }
    // The row was read from this same working copy, so the repository has found it.
    if !commits {
      uow.Rollback();
      return Failure(CommitFailed);
    }
    uow.Commit();
    return Success(resolved.value.value);
  }

  method TryIngestTelemetry(store: Store, cmd: TelemetryCommand) returns (r: Result<seq<Anomaly>, Error>)
    requires store.Snapshot().Sound()
    modifies store
    ensures match IngestTelemetry(old(store.Snapshot()), cmd)
            case Success((db, anomalies)) => r == Success(anomalies) && store.Snapshot() == db
            case Failure(e) => r == Failure(e)
  {
    hide Evaluate, EvaluationSequence, Recent, Save, Candidates, UpsertAll, SoundTable, DeriveLab;
    ghost var before := store.Snapshot();
    if cmd.deviceId !in store.devices {
      return Failure(DeviceNotFound(cmd.deviceId));
    }
    var rows := if cmd.deviceId in store.samples then store.samples[cmd.deviceId] else [];
    var sequence := BuildEvaluationSequence(Recent(rows, cmd.sample), cmd.sample);
    var saved := store.SaveSample(cmd.deviceId, cmd.sample);
    if saved.Failure? {
      return Failure(saved.error);
    }
    var anomalies := EvaluateRules(cmd.observedAt, sequence);
    EvaluatedAreValid(before, cmd);
    assert anomalies == Evaluated(before, cmd);
    var upserts := UpsertEach(store, Candidates(anomalies));
    if upserts.Failure? {
      return Failure(upserts.error);
    }
    return Success(anomalies);
  }

  /** `TelemetryIngestionService.ingest`: the sample and its incidents commit together or not at all. */
  method IngestSample(committed: Store, cmd: TelemetryCommand, commits: bool) returns (r: Result<seq<Anomaly>, Error>)
    requires committed.Snapshot().Sound()
    modifies committed
    ensures committed.Snapshot() == Step(old(committed.Snapshot()), TelemetryEvent(cmd, commits))
    ensures match IngestTelemetry(old(committed.Snapshot()), cmd)
            case Success((_, anomalies)) => r == if commits then Success(anomalies) else Failure(CommitFailed)
            case Failure(e) => r == Failure(e)
    ensures r.Failure? ==> committed.Snapshot() == old(committed.Snapshot())
  {
    hide IngestTelemetry, SoundTable, DeriveLab;
    var uow := new UnitOfWork(committed);
    r := TryIngestTelemetry(uow.working, cmd);
    if r.Success? && !commits {
      r := Failure(CommitFailed);
    }
    if r.Failure? {
      uow.Rollback();
    } else {
      uow.Commit();
    }
  }
}
