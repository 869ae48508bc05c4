/** Rule evaluation over recent telemetry: grouping in encounter order, then one verdict per resource. */
module RuleEngine {
  import opened Wrappers
  import opened Anomalies

  /** Instants are whole microseconds. */
  const SECOND := 1_000_000
  const LINK_FLAP_TRANSITION_COUNT := 4
  const LINK_FLAP_WINDOW := 60 * SECOND
  const CPU_HIGH_THRESHOLD_PCT := 90.0

  /** A device and, for link and session rules, its interface or neighbor. */
  datatype Key = Key(deviceId: string, resource: string)

  // Grouping: a dictionary that keeps first-encounter order

  datatype Dict<V> = Dict(keys: seq<Key>, table: map<Key, seq<V>>) {
    /** `setdefault(key, []).append(value)` */
    function Append(key: Key, value: V): Dict<V> {
      if key in table then Dict(keys, table[key := table[key] + [value]])
      else Dict(keys + [key], table[key := [value]])
    }
  }

  function Grouped<V>(entries: seq<(Key, V)>): Dict<V> {
    if entries == [] then Dict([], map[])
    else
      var last := entries[|entries| - 1];
      Grouped(entries[..|entries| - 1]).Append(last.0, last.1)
  }

  function ValuesOf<V>(entries: seq<(Key, V)>, key: Key): seq<V> {
    if entries == [] then []
    else
      var last := entries[|entries| - 1];
      var before := ValuesOf(entries[..|entries| - 1], key);
      if last.0 == key then before + [last.1] else before
  }

  ghost predicate WellFormed<V>(d: Dict<V>) {
    && (forall i, j | 0 <= i < j < |d.keys| :: d.keys[i] != d.keys[j])
    && (forall k :: k in d.keys <==> k in d.table)
  }

  lemma AppendWellFormed<V>(d: Dict<V>, key: Key, value: V)
    requires WellFormed(d)
    ensures WellFormed(d.Append(key, value))
  {
    if key !in d.table {
      forall k ensures k in d.keys + [key] <==> k in d.keys || k == key {}
    }
  }

  lemma {:induction false} GroupedWellFormed<V>(entries: seq<(Key, V)>)
    ensures WellFormed(Grouped(entries))
  {
    if entries != [] {
      var last := entries[|entries| - 1];
      GroupedWellFormed(entries[..|entries| - 1]);
      AppendWellFormed(Grouped(entries[..|entries| - 1]), last.0, last.1);
    }
  }

  /** Each key has its own values, in the order met. */
  lemma {:induction false} GroupedIsExact<V>(entries: seq<(Key, V)>, k: Key)
    ensures k in Grouped(entries).table <==> ValuesOf(entries, k) != []
    ensures k in Grouped(entries).table ==> Grouped(entries).table[k] == ValuesOf(entries, k)
  {
    if entries != [] {
      GroupedIsExact(entries[..|entries| - 1], k);
    }
  }

  function OfDevice(samples: seq<Sample>): seq<(Key, Sample)> {
    if samples == [] then []
    else OfDevice(samples[..|samples| - 1]) + [(Key(samples[|samples| - 1].deviceId, ""), samples[|samples| - 1])]
  }

  function SampleLinks(s: Sample, n: nat): seq<(Key, (int, LinkState))>
    requires n <= |s.interfaceStates|
  {
    if n == 0 then []
    else
      var link := s.interfaceStates[n - 1];
      SampleLinks(s, n - 1) + [(Key(s.deviceId, link.name), (s.sampledAt, link.operState))]
  }

  function Links(samples: seq<Sample>): seq<(Key, (int, LinkState))> {
    if samples == [] then []
    else
      var last := samples[|samples| - 1];
      Links(samples[..|samples| - 1]) + SampleLinks(last, |last.interfaceStates|)
  }

  function SampleSessions(s: Sample, n: nat): seq<(Key, (int, BgpState))>
    requires n <= |s.bgpSessions|
  {
    if n == 0 then []
    else
      var session := s.bgpSessions[n - 1];
      SampleSessions(s, n - 1) + [(Key(s.deviceId, session.neighborIp), (s.sampledAt, session.state))]
  }

  function Sessions(samples: seq<Sample>): seq<(Key, (int, BgpState))> {
    if samples == [] then []
    else
      var last := samples[|samples| - 1];
      Sessions(samples[..|samples| - 1]) + SampleSessions(last, |last.bgpSessions|)
  }

  // The three verdicts

  function EvaluateCpuHigh(observedAt: int, key: Key, samples: seq<Sample>): Option<Anomaly> {
    var n := |samples|;
    if n < 2 then None
    else if samples[n - 2].cpuPct > CPU_HIGH_THRESHOLD_PCT && samples[n - 1].cpuPct > CPU_HIGH_THRESHOLD_PCT then
      Some(Anomaly(key.deviceId, CpuHigh,
                   CpuHighEvidence([(samples[n - 2].sampledAt, samples[n - 2].cpuPct),
                                    (samples[n - 1].sampledAt, samples[n - 1].cpuPct)]), observedAt))
    else None
  }

  function Transitions(observations: seq<(int, LinkState)>): seq<Transition> {
    if |observations| < 2 then []
    else
      var n := |observations| - 1;
      var before := Transitions(observations[..n]);
      if observations[n].1 != observations[n - 1].1 then
        before + [Transition(observations[n].0, observations[n].1)]
      else before
  }

  function LatestFour(transitions: seq<Transition>): seq<Transition>
    requires |transitions| >= LINK_FLAP_TRANSITION_COUNT
  {
    transitions[|transitions| - LINK_FLAP_TRANSITION_COUNT..]
  }

  predicate WithinWindow(four: seq<Transition>)
    requires |four| == 4
  {
    && four[0].timestamp <= four[1].timestamp <= four[2].timestamp <= four[3].timestamp
    && four[3].timestamp - four[0].timestamp <= LINK_FLAP_WINDOW
  }

  function EvaluateLinkFlap(observedAt: int, key: Key, observations: seq<(int, LinkState)>): Option<Anomaly> {
    var transitions := Transitions(observations);
    if |transitions| < LINK_FLAP_TRANSITION_COUNT then None
    else if !WithinWindow(LatestFour(transitions)) then None
    else Some(Anomaly(key.deviceId, LinkFlap, LinkFlapEvidence(key.resource, LatestFour(transitions)), observedAt))
  }

  function EvaluateBgpDown(observedAt: int, key: Key, observations: seq<(int, BgpState)>): Option<Anomaly> {
    var n := |observations|;
    if n < 2 then None
    else
      var (previousAt, previous) := observations[n - 2];
      var (currentAt, current) := observations[n - 1];
      if currentAt < previousAt then None
      else if previous.Idle? || previous.Active? then None
      else if !(current.Idle? || current.Active?) then None
      else Some(Anomaly(key.deviceId, BgpDown, BgpDownEvidence(key.resource, current, Some(previous)), observedAt))
  }

  function AppendSome<T>(s: seq<T>, o: Option<T>): seq<T> {
    if o.Some? then s + [o.value] else s
  }

  /** Verdicts for the keys in order, skipping those without one. */
  function Verdicts<V>(judge: (Key, seq<V>) -> Option<Anomaly>, keys: seq<Key>, table: map<Key, seq<V>>): seq<Anomaly>
    requires forall k | k in keys :: k in table
  {
    if keys == [] then []
    else
      var k := keys[|keys| - 1];
      AppendSome(Verdicts(judge, keys[..|keys| - 1], table), judge(k, table[k]))
  }

  /** One rule over its entries: group, then judge each group. */
  function Part<V>(judge: (Key, seq<V>) -> Option<Anomaly>, entries: seq<(Key, V)>): seq<Anomaly> {
    GroupedWellFormed(entries);
    var g := Grouped(entries);
    Verdicts(judge, g.keys, g.table)
  }

  function CpuJudge(observedAt: int): (Key, seq<Sample>) -> Option<Anomaly> {
    (k, samples) => EvaluateCpuHigh(observedAt, k, samples)
  }

  function LinkJudge(observedAt: int): (Key, seq<(int, LinkState)>) -> Option<Anomaly> {
    (k, observations) => EvaluateLinkFlap(observedAt, k, observations)
  }

  function BgpJudge(observedAt: int): (Key, seq<(int, BgpState)>) -> Option<Anomaly> {
    (k, observations) => EvaluateBgpDown(observedAt, k, observations)
  }

  /** CPU verdicts, then link-flap verdicts, then BGP-down verdicts. */
  function Evaluate(observedAt: int, samples: seq<Sample>): seq<Anomaly> {
    Part(CpuJudge(observedAt), OfDevice(samples))
    + Part(LinkJudge(observedAt), Links(samples))
    + Part(BgpJudge(observedAt), Sessions(samples))
  }

  // The loops

  method SamplesByDevice(samples: seq<Sample>) returns (byDevice: Dict<Sample>)
    ensures byDevice == Grouped(OfDevice(samples))
  {
    byDevice := Dict([], map[]);
    for i := 0 to |samples|
      invariant byDevice == Grouped(OfDevice(samples[..i]))
    {
      assert samples[..i + 1][..i] == samples[..i];
      byDevice := byDevice.Append(Key(samples[i].deviceId, ""), samples[i]);
    }
    assert samples[..|samples|] == samples;
  }

  lemma {:induction false} GroupedAppend<V>(entries: seq<(Key, V)>, more: seq<(Key, V)>, last: (Key, V))
    ensures Grouped(entries + (more + [last])) == Grouped(entries + more).Append(last.0, last.1)
  {
    assert entries + (more + [last]) == (entries + more) + [last];
    assert (entries + more + [last])[..|entries| + |more|] == entries + more;
  }

  method InterfaceObservations(samples: seq<Sample>) returns (observations: Dict<(int, LinkState)>)
    ensures observations == Grouped(Links(samples))
  {
    observations := Dict([], map[]);
    for i := 0 to |samples|
      invariant observations == Grouped(Links(samples[..i]))
    {
      var sample := samples[i];
      ghost var before := Links(samples[..i]);
      assert before + SampleLinks(sample, 0) == before;
      for j := 0 to |sample.interfaceStates|
        invariant observations == Grouped(before + SampleLinks(sample, j))
      {
        var link := sample.interfaceStates[j];
        GroupedAppend(before, SampleLinks(sample, j),
                      (Key(sample.deviceId, link.name), (sample.sampledAt, link.operState)));
        observations := observations.Append(Key(sample.deviceId, link.name), (sample.sampledAt, link.operState));
      }
      assert samples[..i + 1][..i] == samples[..i];
    }
    assert samples[..|samples|] == samples;
  }

  method BgpObservations(samples: seq<Sample>) returns (observations: Dict<(int, BgpState)>)
    ensures observations == Grouped(Sessions(samples))
  {
    observations := Dict([], map[]);
    for i := 0 to |samples|
      invariant observations == Grouped(Sessions(samples[..i]))
    {
      var sample := samples[i];
      ghost var before := Sessions(samples[..i]);
      assert before + SampleSessions(sample, 0) == before;
      for j := 0 to |sample.bgpSessions|
        invariant observations == Grouped(before + SampleSessions(sample, j))
      {
        var session := sample.bgpSessions[j];
        GroupedAppend(before, SampleSessions(sample, j),
                      (Key(sample.deviceId, session.neighborIp), (sample.sampledAt, session.state)));
        observations := observations.Append(Key(sample.deviceId, session.neighborIp),
                                            (sample.sampledAt, session.state));
      }
      assert samples[..i + 1][..i] == samples[..i];
    }
    assert samples[..|samples|] == samples;
  }

  method TransitionsForResource(observations: seq<(int, LinkState)>) returns (transitions: seq<Transition>)
    requires observations != []
    ensures transitions == Transitions(observations)
  {
    transitions := [];
    var previous := observations[0].1;
    for i := 1 to |observations|
      invariant transitions == Transitions(observations[..i])
      invariant previous == observations[i - 1].1
    {
      assert observations[..i + 1][..i] == observations[..i];
      if observations[i].1 != previous {
        transitions := transitions + [Transition(observations[i].0, observations[i].1)];
      }
      previous := observations[i].1;
    }
    assert observations[..|observations|] == observations;
  }

  method LinkFlapVerdict(observedAt: int, key: Key, observations: seq<(int, LinkState)>)
    returns (anomaly: Option<Anomaly>)
    requires observations != []
    ensures anomaly == EvaluateLinkFlap(observedAt, key, observations)
  {
    var transitions := TransitionsForResource(observations);
    if |transitions| < LINK_FLAP_TRANSITION_COUNT {
      return None;
    }
    var latestFour := transitions[|transitions| - LINK_FLAP_TRANSITION_COUNT..];
    for i := 0 to 3
      invariant forall j | 0 <= j < i :: latestFour[j].timestamp <= latestFour[j + 1].timestamp
    {
      if latestFour[i].timestamp > latestFour[i + 1].timestamp {
        return None;
      }
    }
    if latestFour[3].timestamp - latestFour[0].timestamp > LINK_FLAP_WINDOW {
      return None;
    }
    return Some(Anomaly(key.deviceId, LinkFlap, LinkFlapEvidence(key.resource, latestFour), observedAt));
  }

  lemma {:induction false} GroupedNonEmpty<V>(entries: seq<(Key, V)>)
    ensures forall k | k in Grouped(entries).table :: Grouped(entries).table[k] != []
  {
    forall k | k in Grouped(entries).table ensures Grouped(entries).table[k] != [] {
      GroupedIsExact(entries, k);
    }
  }

  method CpuAnomalies(observedAt: int, samples: seq<Sample>) returns (anomalies: seq<Anomaly>)
    ensures anomalies == Part(CpuJudge(observedAt), OfDevice(samples))
  {
    hide Grouped, OfDevice, EvaluateCpuHigh;
    GroupedWellFormed(OfDevice(samples));
    anomalies := [];
    var byDevice := SamplesByDevice(samples);
    ghost var judge := CpuJudge(observedAt);
    for i := 0 to |byDevice.keys|
      invariant anomalies == Verdicts(judge, byDevice.keys[..i], byDevice.table)
    {
      assert byDevice.keys[..i + 1][..i] == byDevice.keys[..i];
      var k := byDevice.keys[i];
      anomalies := AppendSome(anomalies, EvaluateCpuHigh(observedAt, k, byDevice.table[k]));
    }
    assert byDevice.keys[..|byDevice.keys|] == byDevice.keys;
  }

  method LinkAnomalies(observedAt: int, samples: seq<Sample>) returns (anomalies: seq<Anomaly>)
    ensures anomalies == Part(LinkJudge(observedAt), Links(samples))
  {
    hide Grouped, Links, EvaluateLinkFlap;
    GroupedWellFormed(Links(samples));
    GroupedNonEmpty(Links(samples));
    anomalies := [];
    var links := InterfaceObservations(samples);
    ghost var judge := LinkJudge(observedAt);
    for i := 0 to |links.keys|
      invariant anomalies == Verdicts(judge, links.keys[..i], links.table)
    {
      assert links.keys[..i + 1][..i] == links.keys[..i];
      var k := links.keys[i];
      var flap := LinkFlapVerdict(observedAt, k, links.table[k]);
      anomalies := AppendSome(anomalies, flap);
    }
    assert links.keys[..|links.keys|] == links.keys;
  }

  method BgpAnomalies(observedAt: int, samples: seq<Sample>) returns (anomalies: seq<Anomaly>)
    ensures anomalies == Part(BgpJudge(observedAt), Sessions(samples))
  {
    hide Grouped, Sessions, EvaluateBgpDown;
    GroupedWellFormed(Sessions(samples));
    anomalies := [];
    var sessions := BgpObservations(samples);
    ghost var judge := BgpJudge(observedAt);
    for i := 0 to |sessions.keys|
      invariant anomalies == Verdicts(judge, sessions.keys[..i], sessions.table)
    {
      assert sessions.keys[..i + 1][..i] == sessions.keys[..i];
      var k := sessions.keys[i];
      anomalies := AppendSome(anomalies, EvaluateBgpDown(observedAt, k, sessions.table[k]));
    }
    assert sessions.keys[..|sessions.keys|] == sessions.keys;
  }

  /** `RuleEngine.evaluate` */
  method EvaluateRules(observedAt: int, samples: seq<Sample>) returns (anomalies: seq<Anomaly>)
    ensures anomalies == Evaluate(observedAt, samples)
  {
    var cpu := CpuAnomalies(observedAt, samples);
    var links := LinkAnomalies(observedAt, samples);
    var sessions := BgpAnomalies(observedAt, samples);
    anomalies := cpu + links + sessions;
  }

  // Projection to one device

  function OwnAnomalies(anomalies: seq<Anomaly>, d: string): seq<Anomaly> {
    if anomalies == [] then []
    else
      var last := anomalies[|anomalies| - 1];
      var before := OwnAnomalies(anomalies[..|anomalies| - 1], d);
      if last.deviceId == d then before + [last] else before
  }

  function OwnKeys(keys: seq<Key>, d: string): seq<Key> {
    if keys == [] then []
    else
      var last := keys[|keys| - 1];
      var before := OwnKeys(keys[..|keys| - 1], d);
      if last.deviceId == d then before + [last] else before
  }

  function OwnEntries<V>(entries: seq<(Key, V)>, d: string): seq<(Key, V)> {
    if entries == [] then []
    else
      var last := entries[|entries| - 1];
      var before := OwnEntries(entries[..|entries| - 1], d);
      if last.0.deviceId == d then before + [last] else before
  }

  function OwnSamples(samples: seq<Sample>, d: string): seq<Sample> {
    if samples == [] then []
    else
      var last := samples[|samples| - 1];
      var before := OwnSamples(samples[..|samples| - 1], d);
      if last.deviceId == d then before + [last] else before
  }

  lemma {:induction false} OwnAnomaliesAppend(s: seq<Anomaly>, t: seq<Anomaly>, d: string)
    ensures OwnAnomalies(s + t, d) == OwnAnomalies(s, d) + OwnAnomalies(t, d)
  {
    if t == [] {
      assert s + t == s;
    } else {
      var n := |t| - 1;
      assert (s + t)[..|s + t| - 1] == s + t[..n];
      OwnAnomaliesAppend(s, t[..n], d);
    }
  }

  lemma {:induction false} OwnEntriesAppend<V>(s: seq<(Key, V)>, t: seq<(Key, V)>, d: string)
    ensures OwnEntries(s + t, d) == OwnEntries(s, d) + OwnEntries(t, d)
  {
    if t == [] {
      assert s + t == s;
    } else {
      var n := |t| - 1;
      assert (s + t)[..|s + t| - 1] == s + t[..n];
      OwnEntriesAppend(s, t[..n], d);
    }
  }

  lemma {:induction false} OwnKeysAreOwn(keys: seq<Key>, d: string)
    ensures forall k | k in OwnKeys(keys, d) :: k in keys && k.deviceId == d
  {
    if keys != [] {
      OwnKeysAreOwn(keys[..|keys| - 1], d);
    }
  }

  /** A judge's verdicts are about the key's own device. */
  ghost predicate OwnVerdicts<V(!new)>(judge: (Key, seq<V>) -> Option<Anomaly>) {
    forall k, vs :: judge(k, vs).Some? ==> judge(k, vs).value.deviceId == k.deviceId
  }

  lemma {:induction false} SnocUnfolds<V>(entries: seq<(Key, V)>, last: (Key, V), k: Key, d: string)
    ensures ValuesOf(entries + [last], k) ==
            if last.0 == k then ValuesOf(entries, k) + [last.1] else ValuesOf(entries, k)
    ensures Grouped(entries + [last]) == Grouped(entries).Append(last.0, last.1)
    ensures OwnEntries(entries + [last], d) ==
            if last.0.deviceId == d then OwnEntries(entries, d) + [last] else OwnEntries(entries, d)
  {
    assert (entries + [last])[..|entries|] == entries;
  }

  lemma {:induction false} OwnKeysSnoc(keys: seq<Key>, k: Key, d: string)
    ensures OwnKeys(keys + [k], d) == if k.deviceId == d then OwnKeys(keys, d) + [k] else OwnKeys(keys, d)
  {
    assert (keys + [k])[..|keys|] == keys;
  }

  lemma {:induction false} VerdictsSnoc<V>(
    judge: (Key, seq<V>) -> Option<Anomaly>, keys: seq<Key>, k: Key, table: map<Key, seq<V>>)
    requires forall j | j in keys + [k] :: j in table
    ensures (forall j | j in keys :: j in table) && k in table
    ensures Verdicts(judge, keys + [k], table) == AppendSome(Verdicts(judge, keys, table), judge(k, table[k]))
  {
    assert (keys + [k])[..|keys|] == keys;
    assert forall j | j in keys :: j in keys + [k];
    assert k in keys + [k];
  }

  lemma {:induction false} OwnAppendSome(s: seq<Anomaly>, o: Option<Anomaly>, d: string)
    ensures OwnAnomalies(AppendSome(s, o), d) ==
            if o.Some? && o.value.deviceId == d then OwnAnomalies(s, d) + [o.value] else OwnAnomalies(s, d)
  {
    if o.Some? {
      assert (s + [o.value])[..|s|] == s;
    }
  }

  lemma {:induction false} VerdictsProject<V(!new)>(
    judge: (Key, seq<V>) -> Option<Anomaly>, keys: seq<Key>, table: map<Key, seq<V>>, table': map<Key, seq<V>>,
    d: string)
    requires OwnVerdicts(judge) && forall k | k in keys :: k in table
    requires forall k | k in OwnKeys(keys, d) :: k in table' && k in table && table'[k] == table[k]
    ensures OwnAnomalies(Verdicts(judge, keys, table), d) == Verdicts(judge, OwnKeys(keys, d), table')
  {
    if keys != [] {
      var n := |keys| - 1;
      var front, k := keys[..n], keys[n];
      assert keys == front + [k];
      OwnKeysSnoc(front, k, d);
      VerdictsSnoc(judge, front, k, table);
      VerdictsProject(judge, front, table, table', d);
      OwnAppendSome(Verdicts(judge, front, table), judge(k, table[k]), d);
      if k.deviceId == d {
        VerdictsSnoc(judge, OwnKeys(front, d), k, table');
      }
    }
  }

  lemma {:induction false} ValuesProject<V>(entries: seq<(Key, V)>, d: string, k: Key)
    requires k.deviceId == d
    ensures ValuesOf(OwnEntries(entries, d), k) == ValuesOf(entries, k)
  {
    if entries != [] {
      var n := |entries| - 1;
      ValuesProject(entries[..n], d, k);
      SnocUnfolds(OwnEntries(entries[..n], d), entries[n], k, d);
    }
  }

  lemma {:induction false} KeysProject<V>(entries: seq<(Key, V)>, d: string)
    ensures Grouped(OwnEntries(entries, d)).keys == OwnKeys(Grouped(entries).keys, d)
  {
    if entries != [] {
      var n := |entries| - 1;
      var last := entries[n];
      var g, before := Grouped(entries[..n]), OwnEntries(entries[..n], d);
      KeysProject(entries[..n], d);
      OwnKeysSnoc(g.keys, last.0, d);
      SnocUnfolds(before, last, last.0, d);
      if last.0.deviceId == d {
        ValuesProject(entries[..n], d, last.0);
        GroupedIsExact(entries[..n], last.0);
        GroupedIsExact(before, last.0);
      }
    }
  }

  lemma {:induction false} PartProjects<V(!new)>(
    judge: (Key, seq<V>) -> Option<Anomaly>, entries: seq<(Key, V)>, d: string)
    requires OwnVerdicts(judge)
    ensures OwnAnomalies(Part(judge, entries), d) == Part(judge, OwnEntries(entries, d))
  {
    var kept := OwnEntries(entries, d);
    var g, g' := Grouped(entries), Grouped(kept);
    GroupedWellFormed(entries);
    GroupedWellFormed(kept);
    KeysProject(entries, d);
    OwnKeysAreOwn(g.keys, d);
    forall k | k in OwnKeys(g.keys, d) ensures k in g'.table && k in g.table && g'.table[k] == g.table[k] {
      GroupedIsExact(entries, k);
      GroupedIsExact(kept, k);
      ValuesProject(entries, d, k);
    }
    VerdictsProject(judge, g.keys, g.table, g'.table, d);
  }
}
