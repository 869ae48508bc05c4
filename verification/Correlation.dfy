/** The incidents attached to a diagnosis, and their agreement with what ingestion wrote. */
module Correlation {
  import opened Wrappers
  import opened Sorting
  import opened OperationalState
  import opened Anomalies
  import opened Incidents
  import opened Detection
  import opened Ingestion
  import opened Diagnosis
  import opened DiagnosisProperties
  import opened Services

  function KeyFingerprint(k: SymptomKey): Fingerprint {
    Fingerprint(k.deviceId, AnomalySource, RuleRef(BgpDown), k.affectedResource)
  }

  predicate Holds(linked: seq<Incident>, id: nat) {
    exists row | row in linked :: row.incidentId == id
  }

  /** The open incidents of the keys in turn, each once, skipping those seen after the snapshot. */
  function Linked(rows: Table, at: int, keys: seq<SymptomKey>): seq<Incident> {
    if keys == [] then []
    else
      var before := Linked(rows, at, keys[..|keys| - 1]);
      var found := FindOpen(rows, KeyFingerprint(keys[|keys| - 1]));
      if found.None? || rows[found.value].lastSeenAt > at || Holds(before, rows[found.value].incidentId) then before
      else before + [rows[found.value]]
  }

  datatype Correlated = Correlated(diagnosis: Diagnosis, linkedIncidents: seq<Incident>)

  function CorrelateAll(rows: Table, at: int, diagnoses: seq<Diagnosis>): seq<Correlated> {
    if diagnoses == [] then []
    else
      var d := diagnoses[|diagnoses| - 1];
      CorrelateAll(rows, at, diagnoses[..|diagnoses| - 1]) + [Correlated(d, Linked(rows, at, d.symptomKeys))]
  }

  /** `GetNetworkDiagnosisService.get` for one lab: `None` when it has no state. */
  function NetworkDiagnosis(t: Topology, db: Db, lab: string): Option<seq<Correlated>>
    requires t.Valid()
  {
    match db.StateRow(lab)
    case None => None
    case Some(fabric) => Some(CorrelateAll(db.incidents, fabric.collectedAt, Diagnose(t, fabric)))
  }

  method GetNetworkDiagnosis(t: Topology, store: Store, lab: string) returns (r: Option<seq<Correlated>>)
    requires t.Valid()
    ensures r == NetworkDiagnosis(t, store.Snapshot(), lab)
  {
    hide Diagnose, FindOpen, KeyFingerprint, Holds;
    if lab !in store.states {
      return None;
    }
    var fabric := store.states[lab];
    var diagnoses := DiagnoseFabric(t, fabric);
    var correlated: seq<Correlated> := [];
    for i := 0 to |diagnoses|
      invariant correlated == CorrelateAll(store.incidents, fabric.collectedAt, diagnoses[..i])
    {
      assert diagnoses[..i + 1][..i] == diagnoses[..i];
      var keys := diagnoses[i].symptomKeys;
      var linked: seq<Incident> := [];
      for j := 0 to |keys|
        invariant linked == Linked(store.incidents, fabric.collectedAt, keys[..j])
      {
        assert keys[..j + 1][..j] == keys[..j];
        var incident := store.GetOpenByFingerprint(KeyFingerprint(keys[j]));
        if incident.None? || incident.value.lastSeenAt > fabric.collectedAt {
          continue;
        }
        if !Holds(linked, incident.value.incidentId) {
          linked := linked + [incident.value];
        }
      }
      assert keys[..|keys|] == keys;
      correlated := correlated + [Correlated(diagnoses[i], linked)];
    }
    assert diagnoses[..|diagnoses|] == diagnoses;
    return Some(correlated);
  }

  // What is linked, in any reachable state

  /** Links are distinct open incidents of the diagnosis's own keys, seen no later than its snapshot. */
  lemma {:induction false} LinkedAreOpen(rows: Table, at: int, keys: seq<SymptomKey>)
    requires SoundTable(rows)
    ensures forall i, j | 0 <= i < j < |Linked(rows, at, keys)| ::
              Linked(rows, at, keys)[i].incidentId != Linked(rows, at, keys)[j].incidentId
    ensures forall row | row in Linked(rows, at, keys) ::
              && row in rows && row.status.Open? && row.lastSeenAt <= at
              && exists k :: k in keys && row.fingerprint == KeyFingerprint(k)
  {
    if keys != [] {
      var front := keys[..|keys| - 1];
      LinkedAreOpen(rows, at, front);
      forall row | row in Linked(rows, at, front)
        ensures exists k :: k in keys && row.fingerprint == KeyFingerprint(k)
      {
        var k :| k in front && row.fingerprint == KeyFingerprint(k);
        assert k in keys;
      }
      assert keys[|keys| - 1] in keys;
    }
  }

  /** Every key that has an open incident seen by the snapshot time is linked, in key order. */
  lemma {:induction false} LinkedIsComplete(rows: Table, at: int, keys: seq<SymptomKey>)
    requires SoundTable(rows)
    requires forall i, j | 0 <= i < j < |keys| :: keys[i] != keys[j]
    requires forall k | k in keys ::
               FindOpen(rows, KeyFingerprint(k)).Some? && rows[FindOpen(rows, KeyFingerprint(k)).value].lastSeenAt <= at
    ensures |Linked(rows, at, keys)| == |keys|
    ensures forall i | 0 <= i < |keys| ::
              Linked(rows, at, keys)[i] == rows[FindOpen(rows, KeyFingerprint(keys[i])).value]
  {
    hide FindOpen, OneOpenEach, RuleRef;
    if keys != [] {
      var n := |keys| - 1;
      var front, last := keys[..n], keys[n];
      LinkedIsComplete(rows, at, front);
      var before := Linked(rows, at, front);
      var found := FindOpen(rows, KeyFingerprint(last)).value;
      forall i | 0 <= i < n ensures before[i].incidentId != rows[found].incidentId {
        assert front[i] == keys[i] && keys[i] != last;
      }
    }
  }

  /** In any reachable state a key is linked exactly when its incident is open and was seen by the
      snapshot time. */
  lemma {:induction false} LinkedIff(rows: Table, at: int, keys: seq<SymptomKey>, k: SymptomKey)
    requires SoundTable(rows) && k in keys
    ensures (exists row :: row in Linked(rows, at, keys) && row.fingerprint == KeyFingerprint(k)) <==>
            && FindOpen(rows, KeyFingerprint(k)).Some?
            && rows[FindOpen(rows, KeyFingerprint(k)).value].lastSeenAt <= at
  {
    LinkedAreOpen(rows, at, keys);
    var found := FindOpen(rows, KeyFingerprint(k));
    if exists row :: row in Linked(rows, at, keys) && row.fingerprint == KeyFingerprint(k) {
      var row :| row in Linked(rows, at, keys) && row.fingerprint == KeyFingerprint(k);
      var i :| 0 <= i < |rows| && rows[i] == row;
      OpenRowIsFound(rows, i, KeyFingerprint(k));
    } else if found.Some? && rows[found.value].lastSeenAt <= at {
      LinkedOnce(rows, at, keys, k);
    }
  }

  lemma {:induction false} LinkedOnce(rows: Table, at: int, keys: seq<SymptomKey>, k: SymptomKey)
    requires SoundTable(rows) && k in keys && FindOpen(rows, KeyFingerprint(k)).Some?
    requires rows[FindOpen(rows, KeyFingerprint(k)).value].lastSeenAt <= at
    ensures rows[FindOpen(rows, KeyFingerprint(k)).value] in Linked(rows, at, keys)
  {
    var front := keys[..|keys| - 1];
    if k in front {
      LinkedOnce(rows, at, front, k);
    } else {
      var row := rows[FindOpen(rows, KeyFingerprint(k)).value];
      LinkedAreOpen(rows, at, front);
      forall other | other in Linked(rows, at, front) ensures other.incidentId != row.incidentId {
        var other' :| other' in front && other.fingerprint == KeyFingerprint(other');
        var i :| 0 <= i < |rows| && rows[i] == other;
      }
    }
  }

  // Agreement with ingestion

  /** An end whose session the engine calls down is a neighbor the detector sees down, under the same
      fingerprint, though the two derive it separately. */
  lemma DownEndIsSeenDown(fabric: Fabric, end: Endpoint, peer: Endpoint)
    requires fabric.Valid() && DeviceId(end.nodeId).Some?
    requires View(fabric, end, peer).BgpState().BgpIsDown?
    ensures SeesDown(fabric.nodes, KeyFingerprint(KeyOf(View(fabric, end, peer))))
  {
    var node := FindNode(fabric.nodes, end.nodeId).value;
    var i :| 0 <= i < |fabric.nodes| && fabric.nodes[i] == node;
    var neighbors := node.bgp.value.neighbors;
    var neighbor := FindNeighbor(neighbors, peer.address).value;
    var j :| 0 <= j < |neighbors| && neighbors[j] == neighbor;
    assert node.Valid();
    assert Observes(fabric.nodes, i, j, KeyFingerprint(KeyOf(View(fabric, end, peer))));
  }

  lemma KeysAreSeenDown(t: Topology, fabric: Fabric, link: PhysicalLink)
    requires fabric.Valid() && RouterLink(link) && DiagnoseLink(t, fabric, link).Some?
    ensures var keys := DiagnoseLink(t, fabric, link).value.symptomKeys;
            && (forall k | k in keys :: SeesDown(fabric.nodes, KeyFingerprint(k)))
            && (forall i, j | 0 <= i < j < |keys| :: keys[i] != keys[j])
  {
    hide FindNode, FindInterface, FindNeighbor, EndView.BgpState, LinkEvidence, Classify, SymptomKeys, SeesDown;
    var a, b := View(fabric, link.endA, link.endB), View(fabric, link.endB, link.endA);
    KeysOfDownEnds(a, b);
    if a.BgpState().BgpIsDown? { DownEndIsSeenDown(fabric, link.endA, link.endB); }
    if b.BgpState().BgpIsDown? { DownEndIsSeenDown(fabric, link.endB, link.endA); }
  }

  lemma {:induction false} DiagnosesComeFromLinks(t: Topology, fabric: Fabric, links: seq<PhysicalLink>)
    requires forall i | 0 <= i < |links| :: RouterLink(links[i])
    ensures forall d | d in DiagnoseLinks(t, fabric, links) ::
              exists link :: link in links && RouterLink(link) && DiagnoseLink(t, fabric, link) == Some(d)
  {
    if links != [] {
      DiagnosesComeFromLinks(t, fabric, links[..|links| - 1]);
      assert links[|links| - 1] in links;
    }
  }

  lemma DiagnosisKeysAreSeenDown(t: Topology, fabric: Fabric, d: Diagnosis)
    requires t.Valid() && fabric.Valid() && d in Diagnose(t, fabric)
    ensures forall k | k in d.symptomKeys :: SeesDown(fabric.nodes, KeyFingerprint(k))
    ensures forall i, j | 0 <= i < j < |d.symptomKeys| :: d.symptomKeys[i] != d.symptomKeys[j]
  {
    SortPermutes(DiagnosisLe, DiagnoseLinks(t, fabric, t.routerLinks));
    SameMembers(Diagnose(t, fabric), DiagnoseLinks(t, fabric, t.routerLinks));
    DiagnosesComeFromLinks(t, fabric, t.routerLinks);
    var link :| link in t.routerLinks && RouterLink(link) && DiagnoseLink(t, fabric, link) == Some(d);
    KeysAreSeenDown(t, fabric, link);
  }

  lemma {:induction false} LinkedAfterIngest(db: Db, fabric: Fabric, keys: seq<SymptomKey>)
    requires db.Sound() && fabric.Valid() && IsNew(db, fabric) && Ingest(db, fabric).Success?
    requires forall k | k in keys :: SeesDown(fabric.nodes, KeyFingerprint(k))
    requires forall i, j | 0 <= i < j < |keys| :: keys[i] != keys[j]
    ensures var after := Ingest(db, fabric).value.0.incidents;
            var linked := Linked(after, fabric.collectedAt, keys);
            && |linked| == |keys|
            && forall i | 0 <= i < |linked| ::
                 linked[i].fingerprint == KeyFingerprint(keys[i]) && linked[i].lastSeenAt == fabric.collectedAt
  {
    hide Ingest, Linked, FindOpen, SeesDown, ObservedRow;
    var after := Ingest(db, fabric).value.0.incidents;
    IngestExactEffect(db, fabric);
    forall k | k in keys
      ensures FindOpen(after, KeyFingerprint(k)).Some?
      ensures after[FindOpen(after, KeyFingerprint(k)).value].lastSeenAt == fabric.collectedAt
    {
      DownLeavesOne(db, fabric, KeyFingerprint(k));
    }
    LinkedIsComplete(after, fabric.collectedAt, keys);
  }

  /** Exactly one distinct open incident per symptom key, in key order, each last seen at `at`. */
  ghost predicate ExactlyLinked(c: Correlated, rows: Table, at: int) {
    var (keys, linked) := (c.diagnosis.symptomKeys, c.linkedIncidents);
    && |linked| == |keys|
    && (forall i, j | 0 <= i < j < |linked| :: linked[i].incidentId != linked[j].incidentId)
    && (forall row | row in linked :: row in rows && row.status.Open?)
    && (forall i | 0 <= i < |linked| ::
          linked[i].fingerprint == KeyFingerprint(keys[i]) && linked[i].lastSeenAt == at)
  }

  lemma DiagnosisIsExactlyLinked(t: Topology, db: Db, fabric: Fabric, c: Correlated)
    requires t.Valid() && db.Sound() && fabric.Valid()
    requires IsNew(db, fabric) && Ingest(db, fabric).Success? && c.diagnosis in Diagnose(t, fabric)
    requires c.linkedIncidents ==
             Linked(Ingest(db, fabric).value.0.incidents, fabric.collectedAt, c.diagnosis.symptomKeys)
    ensures ExactlyLinked(c, Ingest(db, fabric).value.0.incidents, fabric.collectedAt)
  {
    hide Linked, Ingest, Diagnose;
    DiagnosisKeysAreSeenDown(t, fabric, c.diagnosis);
    IngestExactEffect(db, fabric);
    LinkedAfterIngest(db, fabric, c.diagnosis.symptomKeys);
    LinkedAreOpen(Ingest(db, fabric).value.0.incidents, fabric.collectedAt, c.diagnosis.symptomKeys);
  }

  lemma {:induction false} CorrelatedAre(rows: Table, at: int, diagnoses: seq<Diagnosis>, i: nat)
    requires i < |diagnoses|
    ensures |CorrelateAll(rows, at, diagnoses)| == |diagnoses|
    ensures CorrelateAll(rows, at, diagnoses)[i] ==
            Correlated(diagnoses[i], Linked(rows, at, diagnoses[i].symptomKeys))
  {
    hide Linked;
    var n := |diagnoses| - 1;
    if i < n {
      CorrelatedAre(rows, at, diagnoses[..n], i);
    } else if n > 0 {
      CorrelatedAre(rows, at, diagnoses[..n], 0);
    }
  }

  /** Right after an accepted new collection the service answers with every diagnosis of it, in order,
      each linked to exactly one distinct open incident per symptom key. */
  lemma CorrelationIsExact(t: Topology, db: Db, fabric: Fabric)
    requires t.Valid() && db.Sound() && fabric.Valid() && IsNew(db, fabric) && Ingest(db, fabric).Success?
    ensures var after := Ingest(db, fabric).value.0;
            var r := NetworkDiagnosis(t, after, DeriveLab(fabric).value);
            && r.Some? && |r.value| == |Diagnose(t, fabric)|
            && forall i | 0 <= i < |r.value| ::
                 && r.value[i].diagnosis == Diagnose(t, fabric)[i]
                 && ExactlyLinked(r.value[i], after.incidents, fabric.collectedAt)
  {
    hide Ingest, Diagnose, ExactlyLinked, Linked;
    var after := Ingest(db, fabric).value.0;
    IngestExactEffect(db, fabric);
    var diagnoses := Diagnose(t, fabric);
    var all := CorrelateAll(after.incidents, fabric.collectedAt, diagnoses);
    if diagnoses != [] { CorrelatedAre(after.incidents, fabric.collectedAt, diagnoses, 0); }
    forall i | 0 <= i < |diagnoses|
      ensures all[i].diagnosis == diagnoses[i] && ExactlyLinked(all[i], after.incidents, fabric.collectedAt)
    {
      CorrelatedAre(after.incidents, fabric.collectedAt, diagnoses, i);
      assert diagnoses[i] in diagnoses;
      DiagnosisIsExactlyLinked(t, db, fabric, all[i]);
    }
  }

  /** The declared Lab 1 topology is one the engine accepts. */
  lemma Lab1IsValid()
    ensures Lab1().Valid() && |Lab1().routerLinks| == 4
  {
  }
}
