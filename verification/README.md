# Verified model of the Meta RNE platform

Meta RNE ingests snapshots of a small BGP fabric, telemetry samples and vendor configurations, keeps
incidents about them, diagnoses links, and shows the result in a dashboard that polls it. This project
models the parts whose correctness depends on many steps together and proves what they promise on all
inputs and over all runs.

## What is modelled

**Incidents and fabric ingestion.** `OperationalState` holds the fabric values and the "latest state
per lab" write rule, in its in-memory and SQL forms. `Anomalies` and `Incidents` hold fingerprints, the
incident table and its two writes, again in both forms, and their closed forms for whole batches.
`Detection` is the level-triggered detector. `Ingestion` is one ingestion as a function of the database,
and `Runs` any mix of fabric, telemetry and configuration ingestions, device registrations and operator
resolutions, each of which may raise or fail to commit; what a configuration's policies find is arbitrary.
`Services` is the same transactions as the code performs them: stores updated in place by loops, with commit
and rollback, proved to take exactly the steps of `Runs`.

**Diagnosis and correlation.** `Diagnosis` is the engine over a declared topology and the table its verdicts
follow, `DiagnosisEvidence` what its evidence says, `DiagnosisProperties` how verdicts depend on what was
observed; `Correlation` looks its symptom keys up again in the incident table.

**Telemetry.** `Retention` is the sample table and the sequence handed to the rules; `RuleEngine` and
`RuleProperties` are the three rules with their grouping, state changes and windows.

**Dashboard.** `ClientIncidents` is the choice between two versions of an incident and the merge of lists.
`RequestProtocol` is the request-identifier protocol that `IncidentsHook` and `NetworkStateHook` share;
`UseIncidents` and the class in `NetworkStateHook` are the hooks with their refs and state, each handler and
callback proved to take one step of the protocol. `HookDeliveries` reads a run of the incident hook as the
responses its list received, and `EndToEnd` composes that with the server's runs.

**Vendor adapters and drift.** `AclNumbering` is the two ways of numbering list entries, `Adapters` the
line-oriented parsers, `ParseMeaning` what any text means to them, line by line, `BlockOrder` and `RoundTrip`
further properties. `Drift` is the structural diff, `DriftOnRecords` its report in terms of the records,
`DriftProperties` and `DriftOfParsed` further properties.

**Indentation reader.** `TopologyReader` and `TopologyProperties` are the lab validator's reader for its
subset of YAML; `TopologyTrace` is the reader again with the positions of the lines it reads.

`Config`, `Sorting` and `Wrappers` are shared values, the stable sort and the result types.

## How to read it

An operation that the code performs in steps is a method; its `ensures` equates the new state, or the
result, with a specification function, and the theorems are lemmas about that function. A raised exception
is a `Failure`. Where a property that the code or its documentation suggests is not true, there is a lemma
with an input that shows it and one that says exactly when it holds:

- The final state of a lab does not depend on delivery order if and only if one collection is latest
  (`OrderIsIrrelevantIffOneLatest`, `TiesOccur`).
- A configuration compared with itself has an empty report if and only if no neighbor is declared twice
  with different remote ASes (`ParsedHasNoSelfDriftIff`, `SelfDriftExists`); `domain/drift.py` promises it
  without the condition.
- All `changed` drift entries have both values if and only if every compared field of a baseline resource is
  set exactly when it is set in the resource it is compared with (`ChangedHasBothIff`,
  `ConfigurationsHaveBothIff`, `ChangedMayLackAValue`); `domain/drift.py` says they always have.
- An accepted topology file is read in full if and only if no `- key:` item read in it, at any depth, has a
  line under it that is indented by exactly one column more (`EveryLineIsReadIff`, `OddLinesAreNeverRead`).
- The resolving marks of the incident hook equal its active requests if and only if no request dropped by an
  unmount is still waiting to be made again; an unmount that finds none active drops none
  (`ResolvingMarksAreActive`, `MarksCanOutliveRequests`).
- Every active request of the hook is still to be answered if and only if none was answered unmounted since
  the last unmount (`StuckAreAnsweredUnmounted`, `UnmountedRequestsStick`).
- Erasing observations never adds a diagnosis or a symptom key (`FewerObservationsAddNothing`), but it raises a
  link's confidence if and only if it takes the sight of an established session, or of a wrong address, from
  a link that still shows the fault (`FewerObservationsStrengthenIff`, `DroppingANodeStrengthens`,
  `DroppingAnAddressStrengthens`).

Modelling choices:

- Instants are integers in microseconds. The client's parsed instants are any monotone image of them.
- A fingerprint is the value of its identity fields: the hash is taken to be injective on them.
- Incident identifiers are positions in the table, in creation order, in place of random identifiers.
- The telemetry repository's insertion number only breaks ties, which is what a stable sort does.
- An IPv4 address is its 32-bit value; lines of a configuration are already classified into commands and
  tokens, with a token that does not convert shown as absent.
- Clocks, outcomes of commits, and responses in flight are parameters or events.

## Model

| member | source | states |
|---|---|---|
| OperationalState.RepositoriesWriteAlike | backend/src/meta_rne/persistence/sqlalchemy/operational_state_repository.py:99-142 | The conditional SQL upsert with its follow-up read gives, for every stored row and every incoming fabric, the result of the in-memory rule, and its internal-error branch is never reached. |
| OperationalState.DeriveLabIsExact | backend/src/meta_rne/domain/operational_state.py:347-357 | A fabric has a lab exactly when it has nodes that all name one lab and one collector; otherwise the first of the three that fails is the exception. |
| OperationalState.WriteIsExact | backend/src/meta_rne/persistence/operational_state_semantics.py:42-55 | Every outcome and error of a write: created, unchanged, replaced, stale, or a conflict of content, time or instant. |
| OperationalState.DeliverKeepsFirstMaximum | backend/src/meta_rne/persistence/operational_state_semantics.py:29-55 | After any consistent delivery sequence the stored state is the first collection with the greatest collection time. |
| OperationalState.AcceptedAreStrictMaxima | backend/src/meta_rne/persistence/operational_state_semantics.py:29-55 | A delivery is accepted if and only if it is strictly newer than everything delivered before it. |
| OperationalState.RedeliveryIsUnchanged | backend/src/meta_rne/domain/ports.py:127-141 | Writing is a no-op exactly for the stored fabric itself; any other fabric is written exactly when its identifier differs and it is strictly newer, and raises otherwise. |
| OperationalState.OrderIsIrrelevantIffOneLatest | backend/src/meta_rne/persistence/operational_state_semantics.py:29-55 | The final state is the same for every delivery order if and only if only one collection carries the latest time: the promise of convergence holds for distinct times, and for ties exactly when they are not at the top. |
| OperationalState.TieDependsOnOrder | backend/src/meta_rne/persistence/operational_state_semantics.py:42-55 | For any collection tied for latest there is an order that ends with it: the counterexample behind the previous row. |
| OperationalState.TiesOccur | backend/src/meta_rne/persistence/operational_state_semantics.py:42-55 | Two valid, distinct collections of one lab taken at one instant: the first to arrive stays. |
| Anomalies.BgpFingerprintInjective | backend/src/meta_rne/detection/anomaly_incident_mapper.py:36-41 | Two neighbors of two devices share a fingerprint only if they are the same neighbor of the same device, although the resource is a prefixed string. |
| Anomalies.FingerprintTellsApart | backend/src/meta_rne/detection/anomaly_incident_mapper.py:43-92 | Two anomalies map to one fingerprint exactly when device, rule and resource agree. |
| Anomalies.CandidateIsExact | backend/src/meta_rne/detection/anomaly_incident_mapper.py:44-92 | Per rule: the fingerprint fields, the severity, the evidence, the recommendation and the time of the candidate. |
| Incidents.RepositoriesAgree | backend/src/meta_rne/persistence/sqlalchemy/incident_repository.py:236-399 | The two SQL statements (insert with conflict clause, guarded update) do exactly what the in-memory upsert and resolve do on any sound table. |
| Incidents.OpenRowIsFound | backend/src/meta_rne/persistence/memory/incident_repository.py:32-36 | With at most one open row per fingerprint the scan finds that row and no other. |
| Incidents.UpsertIsExact | backend/src/meta_rne/persistence/memory/incident_repository.py:60-113 | Field by field: an upsert counts one more sighting in the open row unless that was seen later, or starts a row for a registered device. |
| Incidents.ResolveIsExact | backend/src/meta_rne/persistence/memory/incident_repository.py:115-126 | Field by field: an open row is resolved at the given time unless touched later, a resolved one stays, an unknown one is none. |
| Incidents.UpsertKeepsSound | backend/src/meta_rne/persistence/memory/incident_repository.py:60-113 | An upsert keeps one open row per fingerprint, the chronology of every row and every resolved row, and only moves rows forward. |
| Incidents.ResolveKeepsSound | backend/src/meta_rne/domain/incident.py:164-188 | A resolution keeps the same invariants and freezes identity fields. |
| Incidents.UpsertCountsOne | backend/src/meta_rne/persistence/memory/incident_repository.py:60-113 | The sum of occurrence counts over all rows of a fingerprint grows by one for an upsert of it and not at all otherwise. |
| Incidents.UpsertAllTouches | backend/src/meta_rne/application/operational_state_ingestion.py:145-148 | A batch with distinct fingerprints succeeds exactly when every candidate was admissible beforehand, and changes exactly the open rows it names. |
| Incidents.UpsertAllAppends | backend/src/meta_rne/application/operational_state_ingestion.py:145-148 | The rows it adds are, in order, one for each candidate that had no open row. |
| Incidents.RecoverAllClosedForm | backend/src/meta_rne/application/operational_state_ingestion.py:175-213 | A batch of recoveries resolves exactly the open rows it names; its only failure is an open row last seen later, never a missing identifier and never the chronology check inside the resolution. |
| Incidents.LifecycleClosedForm | backend/src/meta_rne/application/operational_state_ingestion.py:145-155 | Upserting and then recovering separate fingerprints acts on each row on its own and fails exactly when a named open row was seen after the collection. |
| Incidents.LifecycleCounts | backend/src/meta_rne/application/operational_state_ingestion.py:145-155 | Recoveries neither add nor lose an occurrence. |
| Detection.DeviceIdInjective | backend/src/meta_rne/detection/operational_state_detector.py:53-82 | No two router nodes share a device. |
| Detection.Detect | backend/src/meta_rne/detection/operational_state_detector.py:53-82 | The nested loops compute the detection function, including the error for an unknown router; what that function finds is the next row. |
| Detection.DetectIsExact | backend/src/meta_rne/detection/operational_state_detector.py:42-82 | Detection succeeds exactly when every router is known, and its anomalies are then, once each, the neighbors a router observes in state Idle or Active, with that very state as evidence, no previous state and the collection time; no other state yields one. |
| Detection.DetectedInOrder | backend/src/meta_rne/detection/operational_state_detector.py:55-82 | Anomalies come in the order of the nodes, and on one node in the order of its neighbors. |
| Detection.DetectionNamesFirstUnknown | backend/src/meta_rne/detection/operational_state_detector.py:58-63 | A failing detection names the first router that no device is registered for in the mapping. |
| Detection.DeviceIdIsPrefixed | backend/src/meta_rne/lab1_identity.py:12-17 | The four router nodes and their registered devices, and nothing else. |
| Detection.ObservesOnce | backend/src/meta_rne/domain/operational_state.py:138-151 | A valid fabric speaks of each fingerprint at most once. |
| Detection.NeverBothDownAndEstablished | backend/src/meta_rne/domain/operational_state.py:59-67 | No fingerprint is observed down and established in one fabric. |
| Detection.EstablishedNodesExact | backend/src/meta_rne/application/operational_state_ingestion.py:184-196 | The recovery loop visits exactly the neighbors observed Established. |
| Ingestion.FailingGuardNeverFires | backend/src/meta_rne/application/operational_state_ingestion.py:184-200 | A neighbor that fails in a snapshot never recovers in it, so the `failing` guard never skips anything. |
| Ingestion.LifecycleIsExact | backend/src/meta_rne/application/operational_state_ingestion.py:145-155 | The incident part of a collection succeeds exactly when no observed open incident was seen later, and leaves each row as observed plus the new rows. |
| Ingestion.IngestSucceedsIff | backend/src/meta_rne/application/operational_state_ingestion.py:111-173 | A collection commits exactly when it passes the lab, router and device checks and is either the stored collection or a new one that no observed open incident outdates. |
| Ingestion.IngestErrorIs | backend/src/meta_rne/application/operational_state_ingestion.py:111-173 | Which exception a failing ingestion raises, in the order the service checks: lab, routers, devices of what is seen down, stored state, open incidents. |
| Ingestion.ReplayIsANoOp | backend/src/meta_rne/application/operational_state_ingestion.py:125-144 | A replay of the stored collection changes nothing at all, and still returns its anomalies. |
| Ingestion.IngestExactEffect | backend/src/meta_rne/application/operational_state_ingestion.py:111-173 | The whole new database after an accepted collection: the state row of its lab, every old incident row, the rows added, and nothing else. |
| Ingestion.IngestPerFingerprint | backend/src/meta_rne/application/operational_state_ingestion.py:111-213 | By the state observed of a neighbor: Idle or Active leaves exactly one open incident, critical, with that state as evidence, continued with one more occurrence or started; Established resolves the open one at the collection time; Connect, OpenSent, OpenConfirm, an unknown state or no observation touches nothing. |
| Ingestion.ReportedCountsAreExact | backend/src/meta_rne/application/operational_state_ingestion.py:156-173 | The reported creations are the rows added to the table, and creations and updates together are the anomalies. |
| Runs.EvaluatedAreValid | backend/src/meta_rne/application/telemetry_ingestion.py:140-196 | Every anomaly of one telemetry ingestion is valid and no two share a fingerprint. |
| Runs.TelemetryWrites | backend/src/meta_rne/application/telemetry_ingestion.py:140-196 | One telemetry ingestion leaves every finding as the one open incident of its fingerprint, continued or started, saves the sample, and touches no other row. |
| Runs.ResolutionIsLinearizable | backend/src/meta_rne/application/incident_resolution.py:42-85 | With anything committed between its read and its conditional write, a resolution answers and acts as one atomic resolution at the write, or at the read when the incident was unknown there. |
| Runs.ResolvingTwiceIsOnce | backend/src/meta_rne/application/incident_resolution.py:42-85 | Resolving a resolved incident returns it unchanged, at any later time. |
| Runs.StepIsSafe | backend/src/meta_rne/domain/ports.py:68-102 | Each fabric, telemetry or configuration ingestion, registration or resolution, successful, raising or not committed, keeps the database invariant and only moves incidents forward. |
| Runs.ConfigurationStepIsSafe | backend/src/meta_rne/application/config_ingestion.py:107-190 | Registering a device and upserting whatever its policies find, repeated findings included, keeps the invariant and only moves incidents forward. |
| Runs.RunIsSafe | backend/src/meta_rne/domain/ports.py:68-102 | So does every run of them: at most one open row per fingerprint, resolved rows and identity fields frozen, chronology kept. |
| Runs.RunConservesOccurrences | backend/src/meta_rne/application/operational_state_ingestion.py:111-173 | Over any run the summed occurrence counts of a fingerprint grow by exactly the number of committed sightings of it. |
| Runs.SoleWriterNeverStale | backend/src/meta_rne/application/operational_state_ingestion.py:184-213 | Where fabric ingestion alone opens BGP-down incidents, a new collection that passes the early checks always commits: no stale raise, no chronology error. |
| Runs.SoleWriterRun | README.md:1521-1538 | In such one-lab runs every open BGP-down incident keeps `last_seen_at == updated_at <= collected_at` of the stored state, operator resolutions included. |
| Services.Store.UpsertOpenIncident | backend/src/meta_rne/persistence/memory/incident_repository.py:60-113 | The stored table becomes the upsert of the old one, or stays as it was with the error raised. |
| Services.Store.Resolve | backend/src/meta_rne/persistence/memory/incident_repository.py:115-126 | The stored table becomes the old one with that row resolved, or stays as it was. |
| Services.Store.SaveLatest | backend/src/meta_rne/persistence/memory/operational_state_repository.py:22-31 | The stored state follows the latest-write rule and is unchanged on every error. |
| Services.Store.SaveSample | backend/src/meta_rne/persistence/memory/telemetry_repository.py:34-52 | The stored samples of one device become the sorted, windowed and capped list; no other device changes. |
| Services.RecoverNeighbors | backend/src/meta_rne/application/operational_state_ingestion.py:184-213 | The inner loop of the recovery, with its in-place resolutions, computes the recovery function. |
| Services.IngestFabric | backend/src/meta_rne/application/operational_state_ingestion.py:111-173 | The committed store after the transaction is one step of the run model; a raising call leaves it exactly as it was. |
| Services.ResolveService | backend/src/meta_rne/application/incident_resolution.py:42-85 | The same for an operator resolution that nothing interleaves with. |
| Services.IngestSample | backend/src/meta_rne/application/telemetry_ingestion.py:140-196 | The same for telemetry: sample and incidents commit together or not at all. |
| Services.UnitOfWork.Commit | backend/src/meta_rne/persistence/memory/unit_of_work.py:106-121 | Committing makes the committed store the working copy. |
| RuleEngine.GroupedIsExact | backend/src/meta_rne/detection/rule_engine.py:103-111 | Grouping gives each device and resource its own observations, in the order met, and has a key exactly for those observed. |
| RuleEngine.TransitionsForResource | backend/src/meta_rne/detection/rule_engine.py:114-123 | The loop over observations computes the state changes. |
| RuleEngine.EvaluateRules | backend/src/meta_rne/detection/rule_engine.py:197-227 | The evaluation loops compute the evaluation function, anomalies in order. |
| RuleProperties.EvaluateProjects | backend/src/meta_rne/detection/rule_engine.py:69-75 | Keeping one device of a mixed evaluation is, as a sequence, evaluating that device alone. |
| RuleProperties.EvaluateIsDistinct | backend/src/meta_rne/detection/rule_engine.py:197-227 | All anomalies of one call are valid and map to pairwise distinct fingerprints. |
| RuleProperties.EvaluateIsExact | backend/src/meta_rne/detection/rule_engine.py:197-227 | The engine reports an anomaly if and only if one of the three rules finds it in the observations of some key. |
| RuleProperties.LinkFlapIsExact | backend/src/meta_rne/detection/rule_engine.py:103-152 | The engine reports a link flap of a device's interface if and only if the samples hold at least four changes of its state and the last four do not go back in time and span at most 60 seconds. |
| RuleProperties.BgpDownIsExact | backend/src/meta_rne/detection/rule_engine.py:155-194 | It reports a session as down if and only if its last two observations, in time order, go from a state that is not down to one that is. |
| RuleProperties.CpuHighIsExact | backend/src/meta_rne/detection/rule_engine.py:69-100 | It reports a processor if and only if the last two samples of the device are both over the threshold. |
| RuleProperties.RepeatedStateIsIgnored | backend/src/meta_rne/detection/rule_engine.py:114-123 | Repeating a state right after it was observed changes neither the verdict nor its evidence. |
| RuleProperties.OmittingSamplesAreIgnored | backend/src/meta_rne/detection/rule_engine.py:103-111 | Samples that omit an interface, wherever they come, change nothing the flap rule sees of it. |
| RuleProperties.GuardsNeverReject | backend/src/meta_rne/detection/rule_engine.py:136-182 | On samples in time order the guards on time reject nothing: the engine reports every interface with four changes within the window, and every fall into a down state. |
| RuleProperties.LinkFlapsAre | backend/src/meta_rne/detection/rule_engine.py:126-152 | The link-flap anomalies of a call are exactly those of the interfaces that flap, each with its last four changes, times and states, as evidence. |
| RuleProperties.BgpDownsAre | backend/src/meta_rne/detection/rule_engine.py:166-194 | The BGP-down anomalies are exactly those of the sessions that fell down, each with the last state and the one before it. |
| RuleProperties.CpuHighsAre | backend/src/meta_rne/detection/rule_engine.py:78-100 | The CPU anomalies are exactly those of the devices whose last two samples exceed 90 percent, with those two readings as evidence. |
| Retention.BuildEvaluationSequence | backend/src/meta_rne/application/telemetry_ingestion.py:104-124 | The tag, sort, cap, filter and append steps compute the evaluation sequence. |
| Retention.EvaluationSequenceClosedForm | backend/src/meta_rne/application/telemetry_ingestion.py:104-124 | It is the last `max(0, 99 - |F|)` samples of P followed by the current sample, with P and F the sorted history up to and after it. |
| Retention.EvaluationSequenceShape | backend/src/meta_rne/application/telemetry_ingestion.py:104-124 | It has 1 to 100 samples in time order, the current one last, and repeats no stored sample. |
| Retention.EvaluatesTheRetainedState | backend/src/meta_rne/persistence/memory/telemetry_repository.py:34-52 | It is the list the repository retains after the save, cut just after the current sample; the current sample alone when the save itself drops it. |
| Retention.SaveIsExact | backend/src/meta_rne/persistence/memory/telemetry_repository.py:26-52 | Saving inserts the sample after those that are not later and keeps exactly the longest rest of the table that is within 300 seconds of the latest sample and at most 100 long. |
| Retention.SaveKeepsOrder | backend/src/meta_rne/persistence/memory/telemetry_repository.py:34-52 | The retained list stays in time order, within the cap, and holds nothing that was not saved. |
| Diagnosis.LinkDiagnosis | backend/src/meta_rne/diagnosis/engine.py:386-457 | The code for one link computes its diagnosis, and the result is the one in the verdict table. |
| Diagnosis.DiagnoseLinkIsExact | backend/src/meta_rne/diagnosis/engine.py:364-441 | The verdict table, on the observed interface and session states of both ends: a symptom is an interface down or a session Idle or Active; physical exactly when an interface is down and no session established; session failure exactly when both are up, a session is Idle or Active and none established; inconclusive otherwise; every cell of the confidence, the cap by a wrong address included; and the exact symptom keys. |
| Diagnosis.DiagnoseFabric | backend/src/meta_rne/diagnosis/engine.py:460-471 | The engine returns one diagnosis, by the verdict table, for every declared link with a symptom and no other, in the order of the link identifiers. |
| Diagnosis.EcmpEvidence | backend/src/meta_rne/diagnosis/engine.py:287-326 | The evidence loop over expectations computes the ECMP items. |
| Diagnosis.ReachabilityEvidence | backend/src/meta_rne/diagnosis/engine.py:329-363 | The loop over hosts and targets computes the reachability items. |
| DiagnosisProperties.DiagnoseIsCanonical | backend/src/meta_rne/diagnosis/engine.py:460-471 | Identical diagnoses, evidence included, for any reordering of nodes, interfaces, addresses, neighbors, routes and next hops. |
| DiagnosisProperties.FewerObservationsAddNothing | backend/src/meta_rne/diagnosis/engine.py:386-457 | Erasing observations never adds a diagnosed link or a symptom key. |
| DiagnosisProperties.FewerObservationsStrengthenIff | backend/src/meta_rne/diagnosis/engine.py:364-429 | Fewer observations raise the confidence of a link, an absent one ranking lowest, if and only if they lose the sight of an established session and still show a fault, or lose the sight of a wrong address and still show all that makes the failure certain. |
| DiagnosisProperties.UncappedRisesIff | backend/src/meta_rne/diagnosis/engine.py:397-413 | Before the cap only the first of the two raises it. |
| DiagnosisProperties.DroppingANodeStrengthens | backend/src/meta_rne/diagnosis/engine.py:397-413 | Two valid fabrics: without the spine, which saw the session established, an inconclusive link is called physically failed. |
| DiagnosisProperties.DroppingAnAddressStrengthens | backend/src/meta_rne/diagnosis/engine.py:421-425 | Two valid fabrics: without the wrong address medium confidence becomes high. |
| DiagnosisProperties.RoutesNeverDecide | backend/src/meta_rne/diagnosis/engine.py:386-457 | Routes and reachability never change whether a link is diagnosed, its type, confidence or symptom keys. |
| DiagnosisProperties.KeysOfDownEnds | backend/src/meta_rne/diagnosis/engine.py:431-441 | The symptom keys are those of the ends whose session is down, each once. |
| DiagnosisEvidence.EvidenceIsExact | backend/src/meta_rne/diagnosis/engine.py:169-361 | Every evidence item says what the fabric observed, in the role that gives it for the type; both ends are always spoken of, and a conclusive diagnosis has both next hops, every lost path and every probe; by kind, node and subject. |
| DiagnosisEvidence.HopIsLostIff | backend/src/meta_rne/diagnosis/engine.py:287-326 | An expectation loses a hop with a link exactly when the link joins one spine and one leaf, the leaf is at one end of the expected paths, and the node has a link with that spine. |
| Correlation.GetNetworkDiagnosis | backend/src/meta_rne/application/network_diagnosis_query.py:82-134 | The nested loops over diagnoses and keys, with the dictionary of linked incidents, compute the correlated diagnoses. |
| Correlation.DownEndIsSeenDown | backend/src/meta_rne/diagnosis/engine.py:137-166 | An end the engine calls down is a neighbor the detector sees down, under the same fingerprint, although the two derive it separately. |
| Correlation.LinkedIff | backend/src/meta_rne/application/network_diagnosis_query.py:85-108 | In any sound state a key is linked exactly when its incident is open and was seen by the snapshot time. |
| Correlation.LinkedAreOpen | backend/src/meta_rne/application/network_diagnosis_query.py:85-108 | Links are distinct open incidents of the diagnosis's own keys. |
| Correlation.CorrelationIsExact | backend/src/meta_rne/application/network_diagnosis_query.py:82-124 | Right after an accepted collection the service answers with every diagnosis of it, in order, each linked to exactly one distinct open incident per symptom key, last seen at that collection. |
| Correlation.Lab1IsValid | backend/src/meta_rne/lab1_topology.py:102-152 | The declared topology meets what the engine relies on. |
| ClientIncidents.PickIsGreatest | frontend/src/hooks/useIncidents.ts:47-83 | With parsed instants the choice is the greater by instant, then resolution, then occurrence count, the incoming response winning ties. |
| ClientIncidents.PickKeepsResolved | frontend/src/hooks/useIncidents.ts:47-83 | Whatever parses, a resolved incident gives way to an unresolved one only if that one is strictly later. |
| ClientIncidents.PickWithoutInstant | frontend/src/hooks/useIncidents.ts:47-83 | When an instant does not parse the incoming response wins, except over a resolved incident that it would reopen. |
| ClientIncidents.ServerOrderIsRankOrder | backend/src/meta_rne/domain/incident.py:164-188 | Every change the server makes to a row raises that rank, through any monotone parse, however lossy. |
| ClientIncidents.PickKeepsLaterVersion | frontend/src/hooks/useIncidents.ts:47-83 | Of two versions of one incident the client keeps the later, whichever it already holds. |
| ClientIncidents.MergeIsExact | frontend/src/hooks/useIncidents.ts:94-109 | A merge holds each identifier of either list once, with the chosen response where both have it. |
| ClientIncidents.MergeKeepsOrder | frontend/src/hooks/useIncidents.ts:94-109 | The merged list has the incoming order, then what only the client held in the order it had. |
| ClientIncidents.ReplaceIsExact | frontend/src/hooks/useIncidents.ts:278-299 | A resolve response replaces its incident in place and never inserts one. |
| ClientIncidents.ReplaceKeepsPlaces | frontend/src/hooks/useIncidents.ts:280-300 | A resolve response touches the place of its incident at most. |
| ClientIncidents.DeliveryAdvances | frontend/src/hooks/useIncidents.ts:94-109 | A delivered response moves each incident it carries to the later version and leaves the others. |
| ClientIncidents.ShownMovesForward | frontend/src/hooks/useIncidents.ts:47-109 | Nothing shown disappears or goes back, and a shown resolution stays. |
| ClientIncidents.ShownIsLatest | frontend/src/hooks/useIncidents.ts:94-109 | After any deliveries the version shown is the latest that any of them carried. |
| ClientIncidents.DeliveriesConverge | frontend/src/hooks/useIncidents.ts:94-109 | Two clients that received the same responses, in any orders and multiplicities, show the same incidents. |
| EndToEnd.RunsAreHistories | README.md:1521-1538 | Whatever fabric, telemetry and configuration ingestions, registrations and resolutions run, the committed incident tables form a history the client's order can rely on. |
| HookDeliveries.RunIsTracked | frontend/src/hooks/useIncidents.ts:149-319 | Over any run of the hook that keeps its list, what is displayed is the merge of the responses let through, and every resolution was requested for an incident that an earlier list brought. |
| EndToEnd.ClientCatchesUp | frontend/src/hooks/useIncidents.ts:47-319 | After any run of the hook beside the server that keeps its list and was given one read after the server's last event, the list on display is exactly the server's table. |
| EndToEnd.OneLabStateIsDelivered | backend/src/meta_rne/application/operational_state_ingestion.py:125-144 | In one-lab runs the stored state is what the latest-write rule alone keeps of the offered collections: no other check of the transaction interferes. |
| EndToEnd.OneLabAcceptsStrictMaxima | backend/src/meta_rne/application/operational_state_ingestion.py:125-155 | There a collection commits as new exactly when it is newer than every collection offered before, whatever resolutions, configurations and telemetry came between. |
| RequestProtocol.OneLiveRequest | frontend/src/hooks/useIncidents.ts:141-196 | While mounted, a request is live exactly when the in-flight mark names it, and it is the one whose response counts. |
| RequestProtocol.PollIsNeverBlockedForGood | frontend/src/hooks/useIncidents.ts:205-210 | What holds a poll back is a live request, and however that settles the mark is cleared. |
| RequestProtocol.BeginIsSound | frontend/src/hooks/useIncidents.ts:186-196 | Starting a request aborts the previous one and leaves one live request. |
| IncidentsHook.StepIsSound | frontend/src/hooks/useIncidents.ts:111-342 | Every event in every order keeps: one live fetch, waits backed by a foreground request, active map and unaborted posts naming each other. |
| IncidentsHook.RunsNeverOverlap | frontend/src/hooks/useIncidents.ts:198-319 | Over every run: no two live fetches, no two live resolve requests for one incident, no loading or refreshing display without its foreground request. |
| IncidentsHook.OnlyLiveResponsesChangeTheView | frontend/src/hooks/useIncidents.ts:149-177 | Only a refresh, the live fetch or a current resolve response changes what is shown, and the responses only while mounted. |
| IncidentsHook.FetchedShows | frontend/src/hooks/useIncidents.ts:149-160 | Only the response of the current request changes the display: it is merged into the list, or shown as the first one. |
| IncidentsHook.FailureShows | frontend/src/hooks/useIncidents.ts:161-177 | A reported failure of the current request is noted beside the list if a poll made it, and otherwise replaces the list; an abort is never shown. |
| IncidentsHook.ResolveStarts | frontend/src/hooks/useIncidents.ts:234-262 | A resolution is requested exactly for an incident that the committed list shows open and that has no request. |
| IncidentsHook.AnswerShows | frontend/src/hooks/useIncidents.ts:263-317 | An answer to the current request of its incident clears its marks and goes into the list or into the errors; any other answer changes nothing. |
| IncidentsHook.ResolvingMarksAreActive | frontend/src/hooks/useIncidents.ts:234-339 | Over every run the resolving marks are the active requests if and only if no request that an unmount dropped is still waiting to be made again; always, if no unmount finds one active. |
| IncidentsHook.MarksAreActiveOrLeftOver | frontend/src/hooks/useIncidents.ts:234-339 | The marks are the active requests and, apart from them, exactly those dropped by an unmount and not made again. |
| IncidentsHook.MarksCanOutliveRequests | frontend/src/hooks/useIncidents.ts:321-339 | A run after which a mark has no request, and its continuation after which every mark has one again. |
| IncidentsHook.StuckAreAnsweredUnmounted | frontend/src/hooks/useIncidents.ts:234-319 | Over every run the active requests that were answered but not cleared are exactly those answered unmounted since the last unmount; none, if every resolution is requested mounted. |
| IncidentsHook.UnmountedRequestsStick | frontend/src/hooks/useIncidents.ts:234-339 | A run after which such an incident can no longer be requested. |
| IncidentsHook.ListIsLostOnlyInForeground | frontend/src/hooks/useIncidents.ts:161-177 | The shown list is lost exactly when a live foreground request fails with a reported error. |
| IncidentsHook.ListChangesByDelivery | frontend/src/hooks/useIncidents.ts:149-160 | As long as there is a list it changes by the merge of the live response, or by a current resolve response, and by nothing else. |
| IncidentsHook.RunMovesForward | frontend/src/hooks/useIncidents.ts:47-319 | Over any run that keeps the list on display each shown incident only moves forward through server versions and a shown resolution never reverts. |
| UseIncidents.Hook.Refresh | frontend/src/hooks/useIncidents.ts:198-203 | The handler performs the refresh step of the protocol. |
| UseIncidents.Hook.Poll | frontend/src/hooks/useIncidents.ts:205-210 | The handler performs the poll step: nothing while a request is in flight. |
| UseIncidents.Hook.OnFetched | frontend/src/hooks/useIncidents.ts:149-160 | The callback performs the fetched step, dropping superseded responses. |
| UseIncidents.Hook.OnFetchFailed | frontend/src/hooks/useIncidents.ts:161-177 | The callback performs the failed step, silent for aborts and background-safe. |
| UseIncidents.Hook.ResolveIncident | frontend/src/hooks/useIncidents.ts:234-262 | The handler performs the resolve step, reading the committed state and the active map. |
| UseIncidents.Hook.OnResolved | frontend/src/hooks/useIncidents.ts:264-300 | The callback performs the resolved step for the current request of its incident only. |
| UseIncidents.Hook.OnResolveFailed | frontend/src/hooks/useIncidents.ts:301-316 | The callback performs the failed step for the current request of its incident only. |
| UseIncidents.Hook.OnUnmount | frontend/src/hooks/useIncidents.ts:333-338 | Unmounting aborts the fetch and every active resolve request. |
| NetworkStateHook.SnapshotNeverGoesBack | frontend/src/network/reconcile.ts:16-32 | A shown snapshot changes only through the live request, is never taken away, never gets older, and never changes collection at one instant. |
| NetworkStateHook.RunsNeverGoBack | frontend/src/hooks/useNetworkState.ts:65-147 | Over every run: one live request, every wait backed by it, and no earlier display newer than a later one. |
| NetworkStateHook.FetchedShows | frontend/src/network/reconcile.ts:16-32 | The response of the current request replaces what is shown exactly when nothing was shown, it is newer, or it is of the same instant and collection; otherwise the old snapshot stays. |
| NetworkStateHook.ShownIsLatest | frontend/src/hooks/useNetworkState.ts:65-147 | Over every run the display shows the newest of all responses let through, in any order, of the collection that came first at that instant, and shows one as soon as there was one. |
| NetworkStateHook.FailureShows | frontend/src/hooks/useNetworkState.ts:92-120 | A reported failure keeps a shown snapshot; without one, not-found and other errors are told apart; an abort is never shown. |
| NetworkStateHook.Hook.OnFetched | frontend/src/hooks/useNetworkState.ts:73-91 | The callback performs the fetched step with reconciliation. |
| NetworkStateHook.Hook.OnFetchFailed | frontend/src/hooks/useNetworkState.ts:92-120 | The callback performs the failed step: a loaded snapshot is kept and flagged. |
| AclNumbering.SearchFree | backend/src/meta_rne/adapters/cisco.py:138-140 | The inner search ends, bounded by the used set, at the first free candidate. |
| AclNumbering.FinalizeCisco | backend/src/meta_rne/adapters/cisco.py:122-153 | The loop with its used set and greatest number computes the numbered, sorted list. |
| AclNumbering.FinalizeArista | backend/src/meta_rne/adapters/arista.py:127-163 | The loop with its restarting search computes the numbered list in encounter order. |
| AclNumbering.ImplicitNeverCollides | backend/src/meta_rne/adapters/arista.py:127-163 | For both vendors an entry without a sequence gets a positive multiple of ten that no other entry has, even one that names it later. |
| AclNumbering.CiscoGoesUp | backend/src/meta_rne/adapters/cisco.py:138-143 | IOS-XE numbers such an entry above every entry before it. |
| AclNumbering.CiscoGivesLeastFree | backend/src/meta_rne/adapters/cisco.py:122-153 | IOS-XE gives an entry without a sequence the least multiple of ten that is above every number before it and that no entry names. |
| AclNumbering.FinalizeIsExact | backend/src/meta_rne/adapters/cisco.py:122-153 | Every entry keeps its rule and its own sequence; EOS keeps the order, IOS-XE sorts the same entries. |
| AclNumbering.CiscoKeepsImplicitOrder | backend/src/meta_rne/adapters/cisco.py:153 | So the final sort keeps them after whatever was met before them. |
| AclNumbering.AristaGivesKthFree | backend/src/meta_rne/adapters/arista.py:149-153 | EOS gives the k-th such entry the k-th smallest multiple of ten that no entry names. |
| AclNumbering.CiscoSkipsAtLeast | backend/src/meta_rne/adapters/cisco.py:138-143 | IOS-XE gives it one with at least k free multiples of ten below. |
| AclNumbering.AristaIsNeverAbove | backend/src/meta_rne/adapters/arista.py:127-163 | Entry by entry, EOS never numbers above IOS-XE. |
| Adapters.ParseConfiguration | backend/src/meta_rne/adapters/cisco.py:159-377 | The line loop with its mutable builders, the reference check and the final sorts compute the parse function, for either vendor. |
| Adapters.Parser.Read | backend/src/meta_rne/adapters/arista.py:185-317 | One line changes the parser state as the line function says, or stops with its error. |
| Adapters.Parser.TopLevel | backend/src/meta_rne/adapters/cisco.py:189-246 | A top-level line closes the open block and opens its own. |
| Adapters.Parser.Child | backend/src/meta_rne/adapters/cisco.py:248-320 | An indented line acts on the open block only. |
| Adapters.Parser.CheckReferences | backend/src/meta_rne/adapters/cisco.py:328-338 | The reference check looks at every interface and both directions. |
| Adapters.InsertionOrderIsForgotten | backend/src/meta_rne/adapters/cisco.py:340-366 | Sorting by name makes the dictionaries' insertion order irrelevant. |
| BlockOrder.LineIsLocal | backend/src/meta_rne/adapters/cisco.py:175-320 | A line reads and writes only the target of its block. |
| BlockOrder.BlocksProject | backend/src/meta_rne/adapters/cisco.py:175-320 | What a text leaves at one target is what the blocks about that target alone leave there. |
| BlockOrder.BlockOrderDoesNotMatter | backend/src/meta_rne/adapters/cisco.py:175-338 | Any reordering of blocks that keeps the order for each target is accepted just when the original is, and parses to the same configuration. |
| RoundTrip.ParseIsWellFormed | backend/src/meta_rne/adapters/arista.py:325-374 | Every accepted text gives a well-formed configuration. |
| RoundTrip.ParseOfRender | backend/src/meta_rne/adapters/arista.py:169-374 | Rendering any well-formed configuration and parsing it gives it back, for both adapters. |
| RoundTrip.WellFormedIffParsed | backend/src/meta_rne/adapters/cisco.py:159-377 | The well-formed configurations are exactly those an adapter can return. |
| RoundTrip.OnlySortedListsAreCisco | backend/src/meta_rne/adapters/cisco.py:153 | Of the configurations EOS can return, IOS-XE can return exactly those with sorted lists. |
| ParseMeaning.ParseIsExact | backend/src/meta_rne/adapters/cisco.py:159-377 | What any text parses to, for either vendor: the error of the first wrong line, then a missing hostname, then an undeclared list, and otherwise the last word said on each point of each interface, neighbor and list. |
| Drift.Compare | backend/src/meta_rne/detection/drift_detector.py:197-206 | The three walks that append to shared lists compute one diff of all resources. |
| Drift.OneDiff | backend/src/meta_rne/detection/drift_detector.py:52-190 | Resources of different kinds never meet, so the three walks are one. |
| DriftProperties.EntriesAreValid | backend/src/meta_rne/domain/drift.py:44-47 | No entry lacks both values; added and removed entries are whole-resource, changed ones differ. |
| DriftProperties.KeysAreExact | backend/src/meta_rne/detection/drift_detector.py:62-81 | The current resources are the baseline's without those reported removed and with those reported added. |
| DriftProperties.ChangesAreExact | backend/src/meta_rne/detection/drift_detector.py:84-157 | With unique keys a compared field is reported, with both values, exactly when it differs. |
| DriftOnRecords.ChangedOnRecords | backend/src/meta_rne/detection/drift_detector.py:84-157 | For any two configurations a changed entry is exactly one of the six record fields of an interface and the last one of its name, or the remote AS of a neighbor and the last one of its address, that differs, with the two record values; list entries are never compared. |
| DriftOnRecords.NothingChangedIff | backend/src/meta_rne/detection/drift_detector.py:84-157 | Nothing is changed exactly when all those record fields agree for every matched pair. |
| DriftOnRecords.WholeResourcesAreExact | backend/src/meta_rne/detection/drift_detector.py:52-190 | Added and removed entries are exactly the interfaces, neighbors and lists that one side has and the other has not. |
| DriftOnRecords.ChangedInOrder | backend/src/meta_rne/detection/drift_detector.py:84-157 | Changed entries come in the order of the baseline, those of one resource in the order of the compared fields. |
| DriftProperties.ChangedHasBothIff | backend/src/meta_rne/domain/drift.py:35-36 | The documentation says a changed entry has both values; all entries of a comparison have, if and only if every compared field of a baseline resource is set exactly when it is set in the resource it is compared with. |
| DriftProperties.ConfigurationsHaveBothIff | backend/src/meta_rne/domain/drift.py:35-36 | For two configurations only the five optional fields of their interfaces matter. |
| DriftProperties.ChangedMayLackAValue | backend/src/meta_rne/domain/drift.py:35-36 | Two configurations of one device whose changed entry has no old value. |
| DriftProperties.SwappingMirrors | backend/src/meta_rne/detection/drift_detector.py:197-206 | Swapping the arguments mirrors the report: additions and removals in order, changes up to order and never twice. |
| DriftProperties.SelfComparison | backend/src/meta_rne/detection/drift_detector.py:197-206 | A configuration has no drift from itself exactly when every resource agrees, on compared fields, with the last one of its key. |
| DriftOfParsed.ParsedHasNoSelfDriftIff | backend/src/meta_rne/domain/drift.py:50-56 | For parsed configurations that is: no neighbor declared twice with two remote ASes. The documented promise of an empty diff holds exactly then. |
| DriftOfParsed.SelfDriftExists | backend/src/meta_rne/domain/drift.py:50-56 | A text for which the documented promise fails. |
| TopologyReader.ReadTopology | scripts/lab_validate.py:231-238 | The whole reader, on one list of lines, computes the parse function. |
| TopologyReader.ReadMapping | scripts/lab_validate.py:185-203 | The mapping loop with its dictionary and index computes the mapping function and ends. |
| TopologyReader.ReadSequence | scripts/lab_validate.py:206-228 | The sequence loop computes the sequence function and ends. |
| TopologyReader.ReadItem | scripts/lab_validate.py:215-228 | An item is re-read from its virtual list; the recursion ends because that list is no longer than what remains and a mapping ranks below an item. |
| TopologyReader.CollectVirtual | scripts/lab_validate.py:219-223 | The inner loop collects exactly the deeper lines under the item. |
| TopologyProperties.LeafTextReadsBack | scripts/lab_validate.py:167-174 | Any text, bare where it can be or in either kind of quotes, and any list on one line reads back as itself and never looks like a key. |
| TopologyProperties.FlowReadsEveryPart | scripts/lab_validate.py:169-171 | Between brackets, texts without commas joined by commas read as exactly those parts in order, and nothing as the empty list. |
| TopologyProperties.KeyMatchIff | scripts/lab_validate.py:142 | The key pattern matches exactly a key of letters, digits, `_`, `.` and `-`, a colon, and then nothing or a blank. |
| TopologyProperties.EntriesReadBack | scripts/lab_validate.py:185-203 | The rendered lines of any entries are read back, up to whatever less indented lines follow. |
| TopologyProperties.ItemsReadBack | scripts/lab_validate.py:206-228 | The same for the items of a sequence, mappings under a dash included. |
| TopologyProperties.TopologyReadsBack | scripts/lab_validate.py:231-238 | Rendering any mapping of the subset and reading it gives it back, for any margin and child indentation, any choice of quotes, and any choice of the lists that are written on one line. |
| TopologyTrace.EveryLineIsReadIff | scripts/lab_validate.py:185-238 | An accepted file is read in full, each line once and in order, if and only if no `- key:` item read in it, at any depth, has a line under it indented by exactly one column more. |
| TopologyTrace.TracedTopologyAgrees | scripts/lab_validate.py:185-238 | Following which lines are read changes neither which files are accepted nor the error of the others. |
| TopologyProperties.LosesLinesIff | scripts/lab_validate.py:219-225 | The mapping call of one item leaves lines unread exactly when a line under the item is indented by one column only, and then from the first such line on. |
| TopologyProperties.OddLinesAreNeverRead | scripts/lab_validate.py:219-225 | Any lines that start one column under a mapping item can follow it without changing what is read. |

## Left out

- HTTP routes, schemas, middleware, rendering, styling, forms, demo and Docker scripts: plumbing.
- Snapshots, policies and the policy evaluator: their properties read off one branch. A run's configuration
  ingestions carry any findings, and the vendor a registered device keeps is not part of the model.
- Structured log events: emitted after the commit and never read back.
- `_emit_incident_events` and the `add_note` of a rollback that itself fails: no effect on stored state.
- SQL execution, isolation and locking: the conditional statements are modelled as atomic steps on one table.
- Checks for blank strings, time zones and digest format in value constructors: types carry them here.
- JSON encoding of evidence and fabrics, and the decoding errors of a corrupted row.
- SHA-256 collisions, since a fingerprint is its fields.
- Services.ResolveService: performs its read and write without anything between; interleavings are in `Runs.ResolveAcross`.
- The builders of the adapters are values in maps, so aliasing of a reopened builder is by name; the order
  of the dictionaries is kept and shown not to matter.
- Error messages and line numbers of a parse error: only the code is kept, and with several undeclared
  references which interface is named.
- Regular expressions at character level, Unicode white space and `ipaddress` internals.
- Adapters.ParseConfiguration: both vendors run one method, because their loops differ only in numbered
  entries, address tokens and numbering, which the vendor parameter selects.
- BlockOrder.BlockOrderDoesNotMatter: says nothing about which error a rejected text reports; `ParseMeaning.ParseIsExact`
  does, for one text.
- Tokenizing the topology file: comments, blank lines and tab indentation are gone before the reader starts.
- A list on one line is rendered from texts without commas; nested lists and texts with commas are read part by
  part, as the code does, but have no rendering. An empty mapping has none either.
- The fixed-contract comparisons of the lab validator, and the topology constants beyond their validity.
- `useNetworkDiagnosis` and `reconcileNetworkDiagnosis`: the same protocol and rule as for the network state.
- Resolve responses are taken to carry the incident identifier of their request.
