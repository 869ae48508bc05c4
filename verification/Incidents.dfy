/** The incident lifecycle: one row, then the table with its two atomic writes. */
module Incidents {
  import opened Wrappers
  import opened OperationalState
  import opened Anomalies

  datatype Status = Open | Acknowledged | Resolved

  datatype Incident = Incident(
    incidentId: nat,
    fingerprint: Fingerprint,
    severity: Severity,
    status: Status,
    evidence: IncidentEvidence,
    recommendation: string,
    createdAt: int,
    lastSeenAt: int,
    occurrenceCount: nat,
    updatedAt: int,
    resolvedAt: Option<int>)
  {
    /** What the constructor and the table's check constraints enforce. */
    predicate Valid() {
      && occurrenceCount >= 1
      && createdAt <= lastSeenAt <= updatedAt
      && (resolvedAt.Some? ==> resolvedAt.value <= updatedAt)
      && (status.Resolved? <==> resolvedAt.Some?)
    }

    function Resolve(at: int): Result<Incident, Error> {
      if status.Resolved? then Success(this)
      else if !status.Open? then Failure(NotResolvable)
      else if at < updatedAt then Failure(ResolvedTooEarly)
      else Success(this.(status := Resolved, resolvedAt := Some(at), updatedAt := at))
    }

    function Seen(c: Candidate): Incident {
      this.(severity := c.severity, evidence := c.evidence, recommendation := c.recommendation,
            lastSeenAt := c.observedAt, occurrenceCount := occurrenceCount + 1, updatedAt := c.observedAt)
    }
  }

  function NewIncident(id: nat, c: Candidate): Incident {
    Incident(id, c.fingerprint, c.severity, Open, c.evidence, c.recommendation,
             c.observedAt, c.observedAt, 1, c.observedAt, None)
  }

  datatype UpsertOutcome = CreatedIncident | UpdatedIncident
  datatype UpsertResult = UpsertResult(incident: Incident, outcome: UpsertOutcome)

  /** Incident rows in insertion order; identifiers are never reused, so a row's place serves as one. */
  type Table = seq<Incident>

  predicate IsOpenFor(row: Incident, f: Fingerprint) {
    row.status.Open? && row.fingerprint == f
  }

  ghost predicate OneOpenEach(rows: Table) {
    forall i, j | 0 <= i < j < |rows| ::
      rows[i].status.Open? && rows[j].status.Open? ==> rows[i].fingerprint != rows[j].fingerprint
  }

  /** What holds of the table in every reachable state. */
  ghost predicate SoundTable(rows: Table) {
    && (forall i | 0 <= i < |rows| ::
          && rows[i].incidentId == i
          && rows[i].Valid()
          && !rows[i].status.Acknowledged?
          && (rows[i].status.Open? ==> rows[i].updatedAt == rows[i].lastSeenAt)
          && (rows[i].status.Resolved? ==> rows[i].resolvedAt == Some(rows[i].updatedAt)))
    && OneOpenEach(rows)
  }

  function FindOpen(rows: Table, f: Fingerprint): (r: Option<nat>)
    ensures r.Some? ==> r.value < |rows| && IsOpenFor(rows[r.value], f)
    ensures r.None? ==> forall i | 0 <= i < |rows| :: !IsOpenFor(rows[i], f)
  {
    if rows == [] then None
    else
      var n := |rows| - 1;
      var r := FindOpen(rows[..n], f);
      if r.Some? then r
      else if IsOpenFor(rows[n], f) then Some(n)
      else None
  }

  function Upsert(devices: set<string>, rows: Table, c: Candidate): Result<(Table, UpsertResult), Error> {
    match FindOpen(rows, c.fingerprint)
    case None =>
      if c.fingerprint.deviceId !in devices then Failure(DeviceNotFound(c.fingerprint.deviceId))
      else
        var row := NewIncident(|rows|, c);
        Success((rows + [row], UpsertResult(row, CreatedIncident)))
    case Some(i) =>
      if c.observedAt < rows[i].lastSeenAt then Failure(StaleObservation)
      else
        var row := rows[i].Seen(c);
        Success((rows[i := row], UpsertResult(row, UpdatedIncident)))
  }

  /** The repository's resolve: `None` for an unknown identifier. */
  function ResolveRow(rows: Table, id: nat, at: int): Result<Option<(Table, Incident)>, Error> {
    if id >= |rows| then Success(None)
    else
      var row :- rows[id].Resolve(at);
      Success(Some((rows[id := row], row)))
  }

  function UpsertAll(devices: set<string>, rows: Table, cs: seq<Candidate>)
    : Result<(Table, seq<UpsertResult>), Error>
    decreases cs
  {
    if cs == [] then Success((rows, []))
    else
      var (rows1, first) :- Upsert(devices, rows, cs[0]);
      var (rows2, rest) :- UpsertAll(devices, rows1, cs[1..]);
      Success((rows2, [first] + rest))
  }

  // The same two writes as the SQL repository states them: one conditional statement, and a
  // follow-up read only when it wrote nothing.

  /** `INSERT ... ON CONFLICT (fingerprint) WHERE status = 'OPEN' DO UPDATE ... WHERE`; the outer
      `None` is the "affected no row" internal error. */
  function UpsertStatement(devices: set<string>, rows: Table, c: Candidate)
    : Option<Result<(Table, UpsertResult), Error>>
  {
    var conflict := FindOpen(rows, c.fingerprint);
    if conflict.None? && c.fingerprint.deviceId !in devices then
      Some(Failure(DeviceNotFound(c.fingerprint.deviceId)))
    else if conflict.None? then
      var row := NewIncident(|rows|, c);
      Some(Success((rows + [row], UpsertResult(row, CreatedIncident))))
    else if c.observedAt >= rows[conflict.value].lastSeenAt then
      var row := rows[conflict.value].Seen(c);
      Some(Success((rows[conflict.value := row], UpsertResult(row, UpdatedIncident))))
    else
      match FindOpen(rows, c.fingerprint)
      case Some(i) => if c.observedAt < rows[i].lastSeenAt then Some(Failure(StaleObservation)) else None
      case None => None
  }

  /** `UPDATE ... WHERE incident_id AND status = 'OPEN' AND updated_at <= resolved_at`. */
  function ResolveStatement(rows: Table, id: nat, at: int): Result<Option<(Table, Incident)>, Error> {
    if id < |rows| && rows[id].status.Open? && rows[id].updatedAt <= at then
      var row := rows[id].(status := Resolved, resolvedAt := Some(at), updatedAt := at);
      Success(Some((rows[id := row], row)))
    else if id >= |rows| then Success(None)
    else if rows[id].status.Resolved? then Success(Some((rows, rows[id])))
    else if rows[id].status.Open? then Failure(ResolvedTooEarly)
    else Failure(NotResolvable)
  }

  lemma RepositoriesAgree(devices: set<string>, rows: Table, c: Candidate, id: nat, at: int)
    requires SoundTable(rows)
    ensures UpsertStatement(devices, rows, c) == Some(Upsert(devices, rows, c))
    ensures ResolveStatement(rows, id, at) == ResolveRow(rows, id, at)
  {
    if id < |rows| {
      assert rows[id := rows[id]] == rows;
    }
  }

  /** What an upsert does, field by field: it counts one more sighting in the open row of the fingerprint, if
      that was not seen later, and otherwise starts a row for a registered device. */
  lemma UpsertIsExact(devices: set<string>, rows: Table, c: Candidate)
    requires SoundTable(rows)
    ensures forall i | 0 <= i < |rows| && rows[i].status.Open? && rows[i].fingerprint == c.fingerprint ::
              if c.observedAt < rows[i].lastSeenAt then Upsert(devices, rows, c) == Failure(StaleObservation)
              else
                var row := Incident(i, c.fingerprint, c.severity, Open, c.evidence, c.recommendation,
                                    rows[i].createdAt, c.observedAt, rows[i].occurrenceCount + 1, c.observedAt, None);
                Upsert(devices, rows, c) == Success((rows[i := row], UpsertResult(row, UpdatedIncident)))
    ensures (forall i | 0 <= i < |rows| :: !rows[i].status.Open? || rows[i].fingerprint != c.fingerprint) ==>
              if c.fingerprint.deviceId !in devices then
                Upsert(devices, rows, c) == Failure(DeviceNotFound(c.fingerprint.deviceId))
              else
                var row := Incident(|rows|, c.fingerprint, c.severity, Open, c.evidence, c.recommendation,
                                    c.observedAt, c.observedAt, 1, c.observedAt, None);
                Upsert(devices, rows, c) == Success((rows + [row], UpsertResult(row, CreatedIncident)))
  {
    hide FindOpen;
    forall i | 0 <= i < |rows| && rows[i].status.Open? && rows[i].fingerprint == c.fingerprint
      ensures FindOpen(rows, c.fingerprint) == Some(i)
    {
      OpenRowIsFound(rows, i, c.fingerprint);
    }
  }

  /** What a resolution does: an open row is resolved at the given time unless it was touched later, a resolved
      one stays as it is, and an unknown identifier is none. */
  lemma ResolveIsExact(rows: Table, id: nat, at: int)
    requires SoundTable(rows)
    ensures ResolveRow(rows, id, at) ==
            if id >= |rows| then Success(None)
            else if rows[id].status.Resolved? then Success(Some((rows, rows[id])))
            else if at < rows[id].updatedAt then Failure(ResolvedTooEarly)
            else
              var row := rows[id].(status := Resolved, resolvedAt := Some(at), updatedAt := at);
              Success(Some((rows[id := row], row)))
  {
    if id < |rows| && rows[id].status.Resolved? {
      assert rows[id := rows[id]] == rows;
    }
  }

  // How a row may change

  /** Identity never changes, a row that is not open never changes, and an open row only moves
      forward: any change resolves it or counts another occurrence. */
  ghost predicate Follows(before: Incident, after: Incident) {
    && after.incidentId == before.incidentId
    && after.fingerprint == before.fingerprint
    && after.createdAt == before.createdAt
    && (!before.status.Open? ==> after == before)
    && before.lastSeenAt <= after.lastSeenAt
    && before.updatedAt <= after.updatedAt
    && before.occurrenceCount <= after.occurrenceCount
    && (after != before ==> after.status.Resolved? || before.occurrenceCount < after.occurrenceCount)
  }

  ghost predicate TableFollows(before: Table, after: Table) {
    |before| <= |after| && forall i | 0 <= i < |before| :: Follows(before[i], after[i])
  }

  lemma TableFollowsTransitive(a: Table, b: Table, c: Table)
    requires TableFollows(a, b) && TableFollows(b, c)
    ensures TableFollows(a, c)
  {
    forall i | 0 <= i < |a| ensures Follows(a[i], c[i]) {
      assert Follows(a[i], b[i]) && Follows(b[i], c[i]);
    }
  }

  lemma {:induction false} OpenRowIsFound(rows: Table, i: nat, f: Fingerprint)
    requires OneOpenEach(rows) && i < |rows| && IsOpenFor(rows[i], f)
    ensures FindOpen(rows, f) == Some(i)
  {
  }

  lemma UpsertKeepsSound(devices: set<string>, rows: Table, c: Candidate)
    requires SoundTable(rows) && Upsert(devices, rows, c).Success?
    ensures SoundTable(Upsert(devices, rows, c).value.0)
    ensures TableFollows(rows, Upsert(devices, rows, c).value.0)
  {
    hide FindOpen;
  }

  lemma ResolveKeepsSound(rows: Table, id: nat, at: int)
    requires SoundTable(rows) && id < |rows| && ResolveRow(rows, id, at).Success?
    ensures SoundTable(ResolveRow(rows, id, at).value.value.0)
    ensures TableFollows(rows, ResolveRow(rows, id, at).value.value.0)
  {
  }

  lemma {:induction false} UpsertAllKeepsSound(devices: set<string>, rows: Table, cs: seq<Candidate>)
    requires SoundTable(rows) && UpsertAll(devices, rows, cs).Success?
    ensures SoundTable(UpsertAll(devices, rows, cs).value.0)
    ensures TableFollows(rows, UpsertAll(devices, rows, cs).value.0)
    decreases cs
  {
    if cs != [] {
      var rows1 := Upsert(devices, rows, cs[0]).value.0;
      UpsertKeepsSound(devices, rows, cs[0]);
      UpsertAllKeepsSound(devices, rows1, cs[1..]);
      TableFollowsTransitive(rows, rows1, UpsertAll(devices, rows, cs).value.0);
    }
  }

  // Conservation

  /** The sum of `occurrence_count` over all rows, open and resolved, of one fingerprint. */
  function Occurrences(rows: Table, f: Fingerprint): nat {
    if rows == [] then 0
    else
      var last := rows[|rows| - 1];
      Occurrences(rows[..|rows| - 1], f) + if last.fingerprint == f then last.occurrenceCount else 0
  }

  function CountOf(cs: seq<Candidate>, f: Fingerprint): nat {
    if cs == [] then 0 else (if cs[0].fingerprint == f then 1 else 0) + CountOf(cs[1..], f)
  }

  lemma {:induction false} OccurrencesUpdate(rows: Table, i: nat, row: Incident, f: Fingerprint)
    requires i < |rows| && row.fingerprint == rows[i].fingerprint
    ensures Occurrences(rows[i := row], f) ==
            Occurrences(rows, f)
            + if row.fingerprint == f then row.occurrenceCount - rows[i].occurrenceCount else 0
  {
    var n := |rows| - 1;
    if i == n {
      assert rows[i := row][..n] == rows[..n];
    } else {
      assert rows[i := row][..n] == rows[..n][i := row];
      OccurrencesUpdate(rows[..n], i, row, f);
    }
  }

  lemma {:induction false} UpsertCountsOne(devices: set<string>, rows: Table, c: Candidate, f: Fingerprint)
    requires Upsert(devices, rows, c).Success?
    ensures Occurrences(Upsert(devices, rows, c).value.0, f) ==
            Occurrences(rows, f) + if c.fingerprint == f then 1 else 0
  {
    match FindOpen(rows, c.fingerprint)
    case None =>
      assert (rows + [NewIncident(|rows|, c)])[..|rows|] == rows;
    case Some(i) =>
      OccurrencesUpdate(rows, i, rows[i].Seen(c), f);
  }

  lemma {:induction false} UpsertAllCounts(devices: set<string>, rows: Table, cs: seq<Candidate>, f: Fingerprint)
    requires UpsertAll(devices, rows, cs).Success?
    ensures Occurrences(UpsertAll(devices, rows, cs).value.0, f) == Occurrences(rows, f) + CountOf(cs, f)
    decreases cs
  {
    if cs != [] {
      UpsertCountsOne(devices, rows, cs[0], f);
      UpsertAllCounts(devices, Upsert(devices, rows, cs[0]).value.0, cs[1..], f);
    }
  }

  lemma {:induction false} ResolveCountsNothing(rows: Table, id: nat, at: int, f: Fingerprint)
    requires SoundTable(rows) && id < |rows| && ResolveRow(rows, id, at).Success?
    ensures Occurrences(ResolveRow(rows, id, at).value.value.0, f) == Occurrences(rows, f)
  {
    OccurrencesUpdate(rows, id, ResolveRow(rows, id, at).value.value.1, f);
  }

  // What a batch of upserts does, row by row

  ghost predicate DistinctFingerprints(cs: seq<Candidate>) {
    forall i, j | 0 <= i < j < |cs| :: cs[i].fingerprint != cs[j].fingerprint
  }

  function CandidateFor(cs: seq<Candidate>, f: Fingerprint): (r: Option<Candidate>)
    ensures r.Some? ==> r.value in cs && r.value.fingerprint == f
    ensures r.None? ==> forall c | c in cs :: c.fingerprint != f
  {
    if cs == [] then None
    else if cs[0].fingerprint == f then Some(cs[0])
    else CandidateFor(cs[1..], f)
  }

  predicate Admissible(devices: set<string>, rows: Table, c: Candidate) {
    match FindOpen(rows, c.fingerprint)
    case None => c.fingerprint.deviceId in devices
    case Some(i) => rows[i].lastSeenAt <= c.observedAt
  }

  function AfterUpserts(row: Incident, cs: seq<Candidate>): Incident {
    var c := CandidateFor(cs, row.fingerprint);
    if row.status.Open? && c.Some? then row.Seen(c.value) else row
  }

  /** The rows created for the candidates that find no open row, numbered from `n`. */
  function NewRows(rows: Table, cs: seq<Candidate>, n: nat): seq<Incident> {
    if cs == [] then []
    else if FindOpen(rows, cs[0].fingerprint).Some? then NewRows(rows, cs[1..], n)
    else [NewIncident(n, cs[0])] + NewRows(rows, cs[1..], n + 1)
  }

  lemma UpsertKeepsOneOpen(devices: set<string>, rows: Table, c: Candidate)
    requires OneOpenEach(rows) && Upsert(devices, rows, c).Success?
    ensures OneOpenEach(Upsert(devices, rows, c).value.0)
  {
    hide FindOpen;
  }

  lemma {:induction false} UpsertElsewhere(devices: set<string>, rows: Table, c: Candidate, f: Fingerprint)
    requires OneOpenEach(rows) && Upsert(devices, rows, c).Success? && f != c.fingerprint
    ensures OneOpenEach(Upsert(devices, rows, c).value.0)
    ensures FindOpen(Upsert(devices, rows, c).value.0, f) == FindOpen(rows, f)
    ensures var found := FindOpen(rows, f);
            found.Some? ==> Upsert(devices, rows, c).value.0[found.value] == rows[found.value]
  {
    hide FindOpen;
    var rows1 := Upsert(devices, rows, c).value.0;
    UpsertKeepsOneOpen(devices, rows, c);
    var before, after := FindOpen(rows, f), FindOpen(rows1, f);
    if before.Some? {
      assert rows1[before.value] == rows[before.value];
    }
    if after.Some? {
      assert after.value < |rows| && rows[after.value] == rows1[after.value];
    }
  }

  lemma {:induction false} NewRowsElsewhere(devices: set<string>, rows: Table, c: Candidate, cs: seq<Candidate>, n: nat)
    requires OneOpenEach(rows) && Upsert(devices, rows, c).Success?
    requires forall i | 0 <= i < |cs| :: cs[i].fingerprint != c.fingerprint
    ensures NewRows(Upsert(devices, rows, c).value.0, cs, n) == NewRows(rows, cs, n)
    ensures forall i | 0 <= i < |cs| ::
              Admissible(devices, Upsert(devices, rows, c).value.0, cs[i]) == Admissible(devices, rows, cs[i])
    decreases cs
  {
    hide Upsert, FindOpen;
    if cs != [] {
      UpsertElsewhere(devices, rows, c, cs[0].fingerprint);
      NewRowsElsewhere(devices, rows, c, cs[1..], if FindOpen(rows, cs[0].fingerprint).Some? then n else n + 1);
    }
    forall i | 0 <= i < |cs|
      ensures Admissible(devices, Upsert(devices, rows, c).value.0, cs[i]) == Admissible(devices, rows, cs[i])
    {
      UpsertElsewhere(devices, rows, c, cs[i].fingerprint);
    }
  }

  ghost predicate AllAdmissible(devices: set<string>, rows: Table, cs: seq<Candidate>) {
    forall i | 0 <= i < |cs| :: Admissible(devices, rows, cs[i])
  }

  lemma AdmissibleIff(devices: set<string>, rows: Table, c: Candidate)
    ensures Upsert(devices, rows, c).Success? <==> Admissible(devices, rows, c)
  {
    hide FindOpen;
  }

  lemma FirstIsAdmissible(devices: set<string>, rows: Table, cs: seq<Candidate>)
    requires OneOpenEach(rows) && DistinctFingerprints(cs) && cs != []
    ensures Upsert(devices, rows, cs[0]).Success? <==> Admissible(devices, rows, cs[0])
    ensures Upsert(devices, rows, cs[0]).Success? ==>
              var rows1 := Upsert(devices, rows, cs[0]).value.0;
              && OneOpenEach(rows1) && DistinctFingerprints(cs[1..])
              && (AllAdmissible(devices, rows, cs) <==> AllAdmissible(devices, rows1, cs[1..]))
  {
    hide Upsert, FindOpen, Admissible, NewRows;
    AdmissibleIff(devices, rows, cs[0]);
    if Upsert(devices, rows, cs[0]).Success? {
      var rows1 := Upsert(devices, rows, cs[0]).value.0;
      UpsertKeepsOneOpen(devices, rows, cs[0]);
      assert forall i | 0 <= i < |cs[1..]| :: cs[1..][i] == cs[i + 1];
      NewRowsElsewhere(devices, rows, cs[0], cs[1..], 0);
      if AllAdmissible(devices, rows1, cs[1..]) {
        forall i | 0 <= i < |cs| ensures Admissible(devices, rows, cs[i]) {
          if i > 0 { assert cs[i] == cs[1..][i - 1]; }
        }
      }
    }
  }

  lemma TouchedOnce(devices: set<string>, rows: Table, cs: seq<Candidate>, i: nat)
    requires OneOpenEach(rows) && DistinctFingerprints(cs) && cs != []
    requires Upsert(devices, rows, cs[0]).Success? && i < |rows|
    ensures AfterUpserts(Upsert(devices, rows, cs[0]).value.0[i], cs[1..]) == AfterUpserts(rows[i], cs)
  {
    if IsOpenFor(rows[i], cs[0].fingerprint) {
      OpenRowIsFound(rows, i, cs[0].fingerprint);
      assert CandidateFor(cs[1..], cs[0].fingerprint).None?;
    }
  }

  /** A batch with distinct fingerprints succeeds exactly when every candidate is admissible against
      the table as it was, and touches the open rows it names. */
  lemma {:induction false} UpsertAllTouches(devices: set<string>, rows: Table, cs: seq<Candidate>)
    requires OneOpenEach(rows) && DistinctFingerprints(cs)
    ensures UpsertAll(devices, rows, cs).Success? <==> AllAdmissible(devices, rows, cs)
    ensures UpsertAll(devices, rows, cs).Success? ==>
              var after := UpsertAll(devices, rows, cs).value.0;
              |after| >= |rows| && forall i | 0 <= i < |rows| :: after[i] == AfterUpserts(rows[i], cs)
    decreases cs
  {
    if cs != [] {
      FirstIsAdmissible(devices, rows, cs);
      if Upsert(devices, rows, cs[0]).Success? {
        var rows1 := Upsert(devices, rows, cs[0]).value.0;
        UpsertAllTouches(devices, rows1, cs[1..]);
        forall i | 0 <= i < |rows| ensures AfterUpserts(rows1[i], cs[1..]) == AfterUpserts(rows[i], cs) {
          TouchedOnce(devices, rows, cs, i);
        }
      }
    }
  }

  /** It appends one row for each name that had none, in order. */
  lemma {:induction false} UpsertAllAppends(devices: set<string>, rows: Table, cs: seq<Candidate>)
    requires OneOpenEach(rows) && DistinctFingerprints(cs) && UpsertAll(devices, rows, cs).Success?
    ensures |UpsertAll(devices, rows, cs).value.0| >= |rows|
    ensures UpsertAll(devices, rows, cs).value.0[|rows|..] == NewRows(rows, cs, |rows|)
    decreases cs
  {
    if cs == [] {
      assert rows[|rows|..] == [];
    } else {
      hide Upsert, FindOpen, AllAdmissible, NewIncident;
      FirstIsAdmissible(devices, rows, cs);
      var rows1 := Upsert(devices, rows, cs[0]).value.0;
      var after := UpsertAll(devices, rows1, cs[1..]).value.0;
      UpsertAllAppends(devices, rows1, cs[1..]);
      NewRowsElsewhere(devices, rows, cs[0], cs[1..], |rows1|);
      FirstAppends(devices, rows, cs, after);
    }
  }

  /** The first of a batch adds its row, if it finds none open, and the rest leave that row alone. */
  lemma {:induction false} FirstAppends(devices: set<string>, rows: Table, cs: seq<Candidate>, after: Table)
    requires OneOpenEach(rows) && DistinctFingerprints(cs) && cs != [] && Upsert(devices, rows, cs[0]).Success?
    requires var rest := UpsertAll(devices, Upsert(devices, rows, cs[0]).value.0, cs[1..]);
             rest.Success? && rest.value.0 == after
    ensures var rows1 := Upsert(devices, rows, cs[0]).value.0;
            if FindOpen(rows, cs[0].fingerprint).Some? then |rows1| == |rows|
            else |rows1| == |rows| + 1 <= |after|
                 && after[|rows|..] == [NewIncident(|rows|, cs[0])] + after[|rows1|..]
  {
    hide FindOpen, UpsertAll;
    var rows1 := Upsert(devices, rows, cs[0]).value.0;
    if FindOpen(rows, cs[0].fingerprint).None? {
      UpsertKeepsOneOpen(devices, rows, cs[0]);
      UpsertAllTouches(devices, rows1, cs[1..]);
      assert rows1[|rows|] == NewIncident(|rows|, cs[0]);
      assert CandidateFor(cs[1..], cs[0].fingerprint).None?;
      assert after[|rows|] == AfterUpserts(rows1[|rows|], cs[1..]);
    }
  }

  // What a batch of recoveries does

  /** Resolves the open row of each fingerprint in turn, skipping those failing in the same snapshot. */
  function RecoverAll(rows: Table, fs: seq<Fingerprint>, at: int, failing: set<Fingerprint>)
    : Result<(Table, seq<Incident>), Error>
    decreases fs
  {
    if fs == [] then Success((rows, []))
    else if fs[0] in failing then RecoverAll(rows, fs[1..], at, failing)
    else
      match FindOpen(rows, fs[0])
      case None => RecoverAll(rows, fs[1..], at, failing)
      case Some(i) =>
        if at < rows[i].lastSeenAt then Failure(StaleObservation)
        else
          var resolved :- ResolveRow(rows, rows[i].incidentId, at);
          match resolved
          case None => Failure(IncidentNotFound(rows[i].incidentId))
          case Some((rows1, row)) =>
            var (rows2, rest) :- RecoverAll(rows1, fs[1..], at, failing);
            Success((rows2, [row] + rest))
  }

  function Recovered(row: Incident, at: int): Incident {
    row.(status := Resolved, resolvedAt := Some(at), updatedAt := at)
  }

  function AfterRecovery(row: Incident, fs: seq<Fingerprint>, at: int): Incident {
    if row.status.Open? && row.fingerprint in fs then Recovered(row, at) else row
  }

  ghost predicate Recoverable(rows: Table, fs: seq<Fingerprint>, at: int) {
    forall i | 0 <= i < |rows| :: rows[i].status.Open? && rows[i].fingerprint in fs ==> rows[i].lastSeenAt <= at
  }

  /** A batch of recoveries resolves exactly the open rows it names, and the only way it fails is an
      open row last seen after `at`: the identifier is always found and the chronology check in
      `Incident.resolve` is never what raises. */
  lemma {:induction false} RecoverAllClosedForm(rows: Table, fs: seq<Fingerprint>, at: int, failing: set<Fingerprint>)
    requires SoundTable(rows) && forall f | f in fs :: f !in failing
    ensures RecoverAll(rows, fs, at, failing).Success? <==> Recoverable(rows, fs, at)
    ensures RecoverAll(rows, fs, at, failing).Failure? ==>
              RecoverAll(rows, fs, at, failing).error == StaleObservation
    ensures RecoverAll(rows, fs, at, failing).Success? ==>
              var after := RecoverAll(rows, fs, at, failing).value.0;
              && |after| == |rows|
              && forall i | 0 <= i < |rows| :: after[i] == AfterRecovery(rows[i], fs, at)
    decreases fs
  {
    hide FindOpen;
    if fs != [] {
      var found := FindOpen(rows, fs[0]);
      if found.None? {
        RecoverAllClosedForm(rows, fs[1..], at, failing);
        assert forall f | f in fs :: f == fs[0] || f in fs[1..];
      } else if rows[found.value].lastSeenAt <= at {
        var i := found.value;
        ResolveKeepsSound(rows, i, at);
        var rows1 := ResolveRow(rows, i, at).value.value.0;
        assert rows1 == rows[i := Recovered(rows[i], at)];
        RecoverAllClosedForm(rows1, fs[1..], at, failing);
        forall k | 0 <= k < |rows| && k != i ensures rows1[k] == rows[k] && !IsOpenFor(rows[k], fs[0]) {
          if IsOpenFor(rows[k], fs[0]) {
            OpenRowIsFound(rows, k, fs[0]);
          }
        }
        assert forall f | f in fs :: f == fs[0] || f in fs[1..];
      }
    }
  }

  lemma {:induction false} RecoverAllKeepsSound(rows: Table, fs: seq<Fingerprint>, at: int, failing: set<Fingerprint>)
    requires SoundTable(rows) && RecoverAll(rows, fs, at, failing).Success?
    ensures SoundTable(RecoverAll(rows, fs, at, failing).value.0)
    ensures TableFollows(rows, RecoverAll(rows, fs, at, failing).value.0)
    ensures forall f :: Occurrences(RecoverAll(rows, fs, at, failing).value.0, f) == Occurrences(rows, f)
    decreases fs
  {
    if fs == [] {
    } else if fs[0] in failing || FindOpen(rows, fs[0]).None? {
      RecoverAllKeepsSound(rows, fs[1..], at, failing);
    } else {
      var i := FindOpen(rows, fs[0]).value;
      ResolveKeepsSound(rows, i, at);
      var rows1 := ResolveRow(rows, i, at).value.value.0;
      RecoverAllKeepsSound(rows1, fs[1..], at, failing);
      TableFollowsTransitive(rows, rows1, RecoverAll(rows, fs, at, failing).value.0);
      forall f ensures Occurrences(rows1, f) == Occurrences(rows, f) {
        ResolveCountsNothing(rows, i, at, f);
      }
    }
  }

  // One collection's upserts and recoveries together

  function Fingerprints(upserts: seq<UpsertResult>): set<Fingerprint> {
    set u | u in upserts :: u.incident.fingerprint
  }

  /** Upsert every candidate, then recover every fingerprint of `fs` that is not failing. */
  function Lifecycle(devices: set<string>, rows: Table, cs: seq<Candidate>, fs: seq<Fingerprint>, at: int)
    : Result<(Table, seq<UpsertResult>, seq<Incident>), Error>
  {
    var (rows1, upserts) :- UpsertAll(devices, rows, cs);
    var (rows2, resolved) :- RecoverAll(rows1, fs, at, Fingerprints(upserts));
    Success((rows2, upserts, resolved))
  }

  function RowAfter(row: Incident, cs: seq<Candidate>, fs: seq<Fingerprint>, at: int): Incident {
    AfterRecovery(AfterUpserts(row, cs), fs, at)
  }

  ghost predicate SeenByThen(rows: Table, cs: seq<Candidate>, fs: seq<Fingerprint>, at: int) {
    forall i | 0 <= i < |rows| && rows[i].status.Open? ::
      CandidateFor(cs, rows[i].fingerprint).Some? || rows[i].fingerprint in fs ==> rows[i].lastSeenAt <= at
  }

  ghost predicate Separate(cs: seq<Candidate>, fs: seq<Fingerprint>) {
    forall c | c in cs :: c.fingerprint !in fs
  }

  lemma FingerprintsCons(first: UpsertResult, rest: seq<UpsertResult>, f: Fingerprint)
    ensures f in Fingerprints([first] + rest) <==> f == first.incident.fingerprint || f in Fingerprints(rest)
  {
    if f == first.incident.fingerprint {
      assert first in [first] + rest;
    } else if f in Fingerprints(rest) {
      var u :| u in rest && u.incident.fingerprint == f;
      assert u in [first] + rest;
    }
  }

  ghost predicate NamedBy(cs: seq<Candidate>, f: Fingerprint) {
    exists c :: c in cs && c.fingerprint == f
  }

  lemma NamedByCons(cs: seq<Candidate>, f: Fingerprint)
    requires cs != []
    ensures NamedBy(cs, f) <==> f == cs[0].fingerprint || NamedBy(cs[1..], f)
  {
    assert forall c :: c in cs <==> c == cs[0] || c in cs[1..];
  }

  lemma {:induction false} UpsertedFingerprint(devices: set<string>, rows: Table, cs: seq<Candidate>, f: Fingerprint)
    requires UpsertAll(devices, rows, cs).Success?
    ensures f in Fingerprints(UpsertAll(devices, rows, cs).value.1) <==> NamedBy(cs, f)
    decreases cs
  {
    hide Fingerprints, FindOpen, Upsert, NamedBy;
    if cs == [] {
      NothingUpserted(f);
    } else {
      var first, rest := FirstUpsert(devices, rows, cs);
      UpsertedFingerprint(devices, Upsert(devices, rows, cs[0]).value.0, cs[1..], f);
      FingerprintsCons(first, rest, f);
      NamedByCons(cs, f);
    }
  }

  lemma NothingUpserted(f: Fingerprint)
    ensures f !in Fingerprints([]) && !NamedBy([], f)
  {
  }

  lemma {:induction false} UpsertedFingerprints(devices: set<string>, rows: Table, cs: seq<Candidate>)
    requires UpsertAll(devices, rows, cs).Success?
    ensures forall f :: f in Fingerprints(UpsertAll(devices, rows, cs).value.1) <==> NamedBy(cs, f)
  {
    hide UpsertAll, Fingerprints, NamedBy;
    forall f ensures f in Fingerprints(UpsertAll(devices, rows, cs).value.1) <==> NamedBy(cs, f) {
      UpsertedFingerprint(devices, rows, cs, f);
    }
  }

  lemma FirstUpsert(devices: set<string>, rows: Table, cs: seq<Candidate>)
    returns (first: UpsertResult, rest: seq<UpsertResult>)
    requires UpsertAll(devices, rows, cs).Success? && cs != []
    ensures Upsert(devices, rows, cs[0]).Success? && first.incident.fingerprint == cs[0].fingerprint
    ensures var all := UpsertAll(devices, Upsert(devices, rows, cs[0]).value.0, cs[1..]);
            all.Success? && all.value.1 == rest
    ensures UpsertAll(devices, rows, cs).value.1 == [first] + rest
  {
    hide FindOpen;
    first := Upsert(devices, rows, cs[0]).value.1;
    rest := UpsertAll(devices, Upsert(devices, rows, cs[0]).value.0, cs[1..]).value.1;
  }

  /** With registered devices a batch of upserts is admissible exactly when nothing was seen later,
      and a later sighting is the only way it fails. */
  lemma {:induction false} UpsertAllFailure(devices: set<string>, rows: Table, cs: seq<Candidate>, at: int)
    requires OneOpenEach(rows) && DistinctFingerprints(cs)
    requires forall c | c in cs :: c.fingerprint.deviceId in devices && c.observedAt == at
    ensures UpsertAll(devices, rows, cs).Failure? ==> UpsertAll(devices, rows, cs).error == StaleObservation
    ensures UpsertAll(devices, rows, cs).Success? <==> SeenByThen(rows, cs, [], at)
    decreases cs
  {
    UpsertAllTouches(devices, rows, cs);
    if SeenByThen(rows, cs, [], at) {
      forall k | 0 <= k < |cs| ensures Admissible(devices, rows, cs[k]) {
        assert cs[k] in cs;
      }
    }
    if AllAdmissible(devices, rows, cs) {
      forall i | 0 <= i < |rows| && rows[i].status.Open? && CandidateFor(cs, rows[i].fingerprint).Some?
        ensures rows[i].lastSeenAt <= at
      {
        var k :| 0 <= k < |cs| && cs[k] == CandidateFor(cs, rows[i].fingerprint).value;
        OpenRowIsFound(rows, i, rows[i].fingerprint);
        assert Admissible(devices, rows, cs[k]);
      }
    }
    UpsertAllError(devices, rows, cs);
  }

  lemma {:induction false} UpsertAllError(devices: set<string>, rows: Table, cs: seq<Candidate>)
    requires OneOpenEach(rows) && forall c | c in cs :: c.fingerprint.deviceId in devices
    ensures UpsertAll(devices, rows, cs).Failure? ==> UpsertAll(devices, rows, cs).error == StaleObservation
    decreases cs
  {
    if cs != [] && Upsert(devices, rows, cs[0]).Success? {
      assert OneOpenEach(Upsert(devices, rows, cs[0]).value.0);
      UpsertAllError(devices, Upsert(devices, rows, cs[0]).value.0, cs[1..]);
    }
  }

  /** The rows that the upserts added are never recovered by the same collection. */
  lemma {:induction false} RecoveryAfterUpserts(
    devices: set<string>, rows: Table, cs: seq<Candidate>, fs: seq<Fingerprint>, at: int)
    requires SoundTable(rows) && DistinctFingerprints(cs) && Separate(cs, fs)
    requires UpsertAll(devices, rows, cs).Success?
    ensures var (rows1, upserts) := UpsertAll(devices, rows, cs).value;
            && SoundTable(rows1)
            && (forall f | f in fs :: f !in Fingerprints(upserts))
            && (Recoverable(rows1, fs, at) <==> Recoverable(rows, fs, at))
            && |rows1| >= |rows|
            && (forall i | 0 <= i < |rows| :: AfterRecovery(rows1[i], fs, at) == RowAfter(rows[i], cs, fs, at))
            && (forall i | |rows| <= i < |rows1| :: AfterRecovery(rows1[i], fs, at) == rows1[i])
            && rows1[|rows|..] == NewRows(rows, cs, |rows|)
  {
    var (rows1, upserts) := UpsertAll(devices, rows, cs).value;
    UpsertAllTouches(devices, rows, cs);
    UpsertAllAppends(devices, rows, cs);
    UpsertAllKeepsSound(devices, rows, cs);
    UpsertedFingerprints(devices, rows, cs);
    NewRowsAreNamed(rows, cs, |rows|);
    forall i | |rows| <= i < |rows1| ensures rows1[i].fingerprint !in fs {
      assert rows1[i] == rows1[|rows|..][i - |rows|];
    }
    forall i | 0 <= i < |rows| ensures rows1[i].fingerprint in fs ==> rows1[i] == rows[i] {
      assert rows1[i] == AfterUpserts(rows[i], cs);
    }
  }

  /** Every added row is the first row of a candidate that found none open. */
  lemma {:induction false} NewRowsAreNamed(rows: Table, cs: seq<Candidate>, n: nat)
    ensures forall row | row in NewRows(rows, cs, n) ::
              exists c :: c in cs && FindOpen(rows, c.fingerprint).None? && row == NewIncident(row.incidentId, c)
  {
    if cs != [] {
      NewRowsAreNamed(rows, cs[1..], if FindOpen(rows, cs[0].fingerprint).Some? then n else n + 1);
    }
  }

  /** And every such candidate gets one. */
  lemma {:induction false} NewRowFor(rows: Table, cs: seq<Candidate>, n: nat, c: Candidate) returns (i: nat)
    requires c in cs && FindOpen(rows, c.fingerprint).None?
    ensures i < |NewRows(rows, cs, n)| && NewRows(rows, cs, n)[i] == NewIncident(n + i, c)
  {
    if c == cs[0] {
      i := 0;
    } else if FindOpen(rows, cs[0].fingerprint).Some? {
      i := NewRowFor(rows, cs[1..], n, c);
    } else {
      i := NewRowFor(rows, cs[1..], n + 1, c);
      i := i + 1;
    }
  }

  lemma {:induction false} AddedRowIsFound(rows: Table, cs: seq<Candidate>, f: Fingerprint, after: Table)
    requires OneOpenEach(after) && |after| >= |rows| && after[|rows|..] == NewRows(rows, cs, |rows|)
    requires CandidateFor(cs, f).Some? && FindOpen(rows, f).None?
    ensures FindOpen(after, f).Some? && FindOpen(after, f).value >= |rows|
  {
    var i := NewRowFor(rows, cs, |rows|, CandidateFor(cs, f).value);
    assert after[|rows| + i] == after[|rows|..][i];
    OpenRowIsFound(after, |rows| + i, f);
  }

  /** Upserting and recovering separate fingerprints acts on each row on its own, and fails exactly
      when an open row it names was seen after `at`. */
  lemma {:induction false} LifecycleClosedForm(
    devices: set<string>, rows: Table, cs: seq<Candidate>, fs: seq<Fingerprint>, at: int)
    requires SoundTable(rows) && DistinctFingerprints(cs) && Separate(cs, fs)
    requires forall c | c in cs :: c.fingerprint.deviceId in devices && c.observedAt == at
    ensures var r := Lifecycle(devices, rows, cs, fs, at);
            && (r.Success? <==> SeenByThen(rows, cs, fs, at))
            && (r.Failure? ==> r.error == StaleObservation)
            && (r.Success? ==>
                  && SoundTable(r.value.0) && TableFollows(rows, r.value.0)
                  && (forall i | 0 <= i < |rows| :: r.value.0[i] == RowAfter(rows[i], cs, fs, at))
                  && r.value.0[|rows|..] == NewRows(rows, cs, |rows|))
  {
    hide UpsertAll, RecoverAll, NewRows, AfterUpserts;
    UpsertAllFailure(devices, rows, cs, at);
    if UpsertAll(devices, rows, cs).Success? {
      var (rows1, upserts) := UpsertAll(devices, rows, cs).value;
      RecoveryAfterUpserts(devices, rows, cs, fs, at);
      RecoverAllClosedForm(rows1, fs, at, Fingerprints(upserts));
      UpsertAllKeepsSound(devices, rows, cs);
      if Recoverable(rows, fs, at) {
        var rows2 := RecoverAll(rows1, fs, at, Fingerprints(upserts)).value.0;
        RecoverAllKeepsSound(rows1, fs, at, Fingerprints(upserts));
        TableFollowsTransitive(rows, rows1, rows2);
        assert rows2[|rows|..] == rows1[|rows|..];
      }
    }
  }

  lemma {:induction false} LifecycleCounts(
    devices: set<string>, rows: Table, cs: seq<Candidate>, fs: seq<Fingerprint>, at: int, f: Fingerprint)
    requires SoundTable(rows) && Lifecycle(devices, rows, cs, fs, at).Success?
    ensures Occurrences(Lifecycle(devices, rows, cs, fs, at).value.0, f) == Occurrences(rows, f) + CountOf(cs, f)
  {
    var (rows1, upserts) := UpsertAll(devices, rows, cs).value;
    UpsertAllCounts(devices, rows, cs, f);
    UpsertAllKeepsSound(devices, rows, cs);
    RecoverAllKeepsSound(rows1, fs, at, Fingerprints(upserts));
  }
}
