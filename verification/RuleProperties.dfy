/** What the rule engine's output means, resource by resource. */
module RuleProperties {
  import opened Wrappers
  import opened OperationalState
  import opened Anomalies
  import opened RuleEngine

  // Projection: a device's verdicts depend on its own samples only

  lemma {:induction false} SampleLinksOwn(s: Sample, n: nat, d: string)
    requires n <= |s.interfaceStates|
    ensures OwnEntries(SampleLinks(s, n), d) == if s.deviceId == d then SampleLinks(s, n) else []
  {
    if n > 0 {
      SampleLinksOwn(s, n - 1, d);
      var link := s.interfaceStates[n - 1];
      var e := (Key(s.deviceId, link.name), (s.sampledAt, link.operState));
      SnocUnfolds(SampleLinks(s, n - 1), e, e.0, d);
    }
  }

  lemma {:induction false} SampleSessionsOwn(s: Sample, n: nat, d: string)
    requires n <= |s.bgpSessions|
    ensures OwnEntries(SampleSessions(s, n), d) == if s.deviceId == d then SampleSessions(s, n) else []
  {
    if n > 0 {
      SampleSessionsOwn(s, n - 1, d);
      var session := s.bgpSessions[n - 1];
      var e := (Key(s.deviceId, session.neighborIp), (s.sampledAt, session.state));
      SnocUnfolds(SampleSessions(s, n - 1), e, e.0, d);
    }
  }

  lemma {:induction false} EntriesProject(samples: seq<Sample>, d: string)
    ensures OwnEntries(OfDevice(samples), d) == OfDevice(OwnSamples(samples, d))
    ensures OwnEntries(Links(samples), d) == Links(OwnSamples(samples, d))
    ensures OwnEntries(Sessions(samples), d) == Sessions(OwnSamples(samples, d))
  {
    if samples != [] {
      var n := |samples| - 1;
      var front, last := samples[..n], samples[n];
      EntriesProject(front, d);
      SnocUnfolds(OfDevice(front), (Key(last.deviceId, ""), last), Key(last.deviceId, ""), d);
      OwnEntriesAppend(Links(front), SampleLinks(last, |last.interfaceStates|), d);
      SampleLinksOwn(last, |last.interfaceStates|, d);
      OwnEntriesAppend(Sessions(front), SampleSessions(last, |last.bgpSessions|), d);
      SampleSessionsOwn(last, |last.bgpSessions|, d);
      var own := OwnSamples(front, d);
      assert (own + [last])[..|own|] == own;
    }
  }

  /** Keeping one device's anomalies of a mixed evaluation is evaluating that device alone. */
  lemma {:induction false} EvaluateProjects(observedAt: int, samples: seq<Sample>, d: string)
    ensures OwnAnomalies(Evaluate(observedAt, samples), d) == Evaluate(observedAt, OwnSamples(samples, d))
  {
    var cpu := Part(CpuJudge(observedAt), OfDevice(samples));
    var link := Part(LinkJudge(observedAt), Links(samples));
    var bgp := Part(BgpJudge(observedAt), Sessions(samples));
    EntriesProject(samples, d);
    PartProjects(CpuJudge(observedAt), OfDevice(samples), d);
    PartProjects(LinkJudge(observedAt), Links(samples), d);
    PartProjects(BgpJudge(observedAt), Sessions(samples), d);
    OwnAnomaliesAppend(cpu + link, bgp, d);
    OwnAnomaliesAppend(cpu, link, d);
  }

  // One evaluation names each fingerprint at most once

  /** An anomaly carries the key it was judged under. */
  ghost predicate Carries(a: Anomaly, k: Key) {
    && a.Valid() && a.deviceId == k.deviceId
    && (a.evidence.LinkFlapEvidence? ==> a.evidence.interfaceName == k.resource)
    && (a.evidence.BgpDownEvidence? ==> a.evidence.neighborIp == k.resource)
    && (a.evidence.CpuHighEvidence? ==> k.resource == "")
  }

  ghost predicate Judges<V(!new)>(
    judge: (Key, seq<V>) -> Option<Anomaly>, keys: seq<Key>, rule: RuleId, observedAt: int)
  {
    forall k, vs | k in keys && judge(k, vs).Some? ::
      Carries(judge(k, vs).value, k) && judge(k, vs).value.ruleId == rule && judge(k, vs).value.detectedAt == observedAt
  }

  lemma {:induction false} VerdictsAre<V(!new)>(
    judge: (Key, seq<V>) -> Option<Anomaly>, keys: seq<Key>, table: map<Key, seq<V>>, a: Anomaly)
    requires forall k | k in keys :: k in table
    ensures a in Verdicts(judge, keys, table) <==> exists k :: k in keys && judge(k, table[k]) == Some(a)
  {
    if keys != [] {
      var n := |keys| - 1;
      assert keys == keys[..n] + [keys[n]];
      VerdictsAre(judge, keys[..n], table, a);
    }
  }

  lemma {:induction false} VerdictCarries<V(!new)>(
    judge: (Key, seq<V>) -> Option<Anomaly>, keys: seq<Key>, table: map<Key, seq<V>>, rule: RuleId, observedAt: int,
    a: Anomaly)
    requires Judges(judge, keys, rule, observedAt) && forall k | k in keys :: k in table
    ensures a in Verdicts(judge, keys, table) ==>
              a.ruleId == rule && a.detectedAt == observedAt && exists k :: k in keys && Carries(a, k)
  {
    hide Verdicts, Carries;
    VerdictsAre(judge, keys, table, a);
  }

  lemma {:induction false} VerdictsAreDistinct<V(!new)>(
    judge: (Key, seq<V>) -> Option<Anomaly>, keys: seq<Key>, table: map<Key, seq<V>>, rule: RuleId, observedAt: int)
    requires Judges(judge, keys, rule, observedAt) && forall k | k in keys :: k in table
    requires forall i, j | 0 <= i < j < |keys| :: keys[i] != keys[j]
    ensures DistinctAnomalies(Verdicts(judge, keys, table))
  {
    hide FingerprintOf;
    if keys != [] {
      var n := |keys| - 1;
      var front, k := keys[..n], keys[n];
      assert keys == front + [k] && k !in front;
      VerdictsAreDistinct(judge, front, table, rule, observedAt);
      VerdictsSnoc(judge, front, k, table);
      var verdict := judge(k, table[k]);
      forall a | a in Verdicts(judge, front, table) && verdict.Some?
        ensures FingerprintOf(a) != FingerprintOf(verdict.value)
      {
        VerdictCarries(judge, front, table, rule, observedAt, a);
        FingerprintTellsApart(a, verdict.value);
      }
    }
  }

  lemma {:induction false} OfDeviceKeys(samples: seq<Sample>)
    ensures forall k | k in Grouped(OfDevice(samples)).table :: k.resource == ""
  {
    if samples != [] {
      OfDeviceKeys(samples[..|samples| - 1]);
      var before := OfDevice(samples[..|samples| - 1]);
      var last := (Key(samples[|samples| - 1].deviceId, ""), samples[|samples| - 1]);
      SnocUnfolds(before, last, last.0, "");
    }
  }

  lemma {:induction false} PartIsDistinct<V(!new)>(
    judge: (Key, seq<V>) -> Option<Anomaly>, entries: seq<(Key, V)>, rule: RuleId, observedAt: int)
    requires Judges(judge, Grouped(entries).keys, rule, observedAt)
    ensures DistinctAnomalies(Part(judge, entries))
    ensures forall a | a in Part(judge, entries) :: a.Valid() && a.ruleId == rule && a.detectedAt == observedAt
  {
    hide Grouped, Verdicts, DistinctAnomalies;
    GroupedWellFormed(entries);
    var g := Grouped(entries);
    VerdictsAreDistinct(judge, g.keys, g.table, rule, observedAt);
    forall a | a in Part(judge, entries) ensures a.Valid() && a.ruleId == rule && a.detectedAt == observedAt {
      VerdictCarries(judge, g.keys, g.table, rule, observedAt, a);
    }
  }

  lemma DistinctAppend(s: seq<Anomaly>, t: seq<Anomaly>)
    requires DistinctAnomalies(s) && DistinctAnomalies(t)
    requires forall a, b | a in s && b in t :: a.Valid() && b.Valid() && a.ruleId != b.ruleId
    ensures DistinctAnomalies(s + t)
  {
    forall a, b | a in s && b in t ensures FingerprintOf(a) != FingerprintOf(b) {
      FingerprintTellsApart(a, b);
    }
  }

  lemma JudgesCarry(observedAt: int, keys: seq<Key>)
    ensures (forall k | k in keys :: k.resource == "") ==> Judges(CpuJudge(observedAt), keys, CpuHigh, observedAt)
    ensures Judges(LinkJudge(observedAt), keys, LinkFlap, observedAt)
    ensures Judges(BgpJudge(observedAt), keys, BgpDown, observedAt)
  {
    hide Transitions, WithinWindow;
  }

  lemma {:induction false} CpuIsDistinct(observedAt: int, samples: seq<Sample>)
    ensures DistinctAnomalies(Part(CpuJudge(observedAt), OfDevice(samples)))
    ensures forall a | a in Part(CpuJudge(observedAt), OfDevice(samples)) ::
              a.Valid() && a.ruleId == CpuHigh && a.detectedAt == observedAt
  {
    hide Grouped, OfDevice, CpuJudge, Part, Judges, DistinctAnomalies;
    var entries := OfDevice(samples);
    GroupedWellFormed(entries);
    OfDeviceKeys(samples);
    assert forall k | k in Grouped(entries).keys :: k in Grouped(entries).table;
    JudgesCarry(observedAt, Grouped(entries).keys);
    PartIsDistinct(CpuJudge(observedAt), entries, CpuHigh, observedAt);
  }

  lemma {:induction false} LinkIsDistinct(observedAt: int, samples: seq<Sample>)
    ensures DistinctAnomalies(Part(LinkJudge(observedAt), Links(samples)))
    ensures forall a | a in Part(LinkJudge(observedAt), Links(samples)) ::
              a.Valid() && a.ruleId == LinkFlap && a.detectedAt == observedAt
  {
    hide Grouped, Links, LinkJudge, Part, Judges, DistinctAnomalies;
    var entries := Links(samples);
    GroupedWellFormed(entries);
    JudgesCarry(observedAt, Grouped(entries).keys);
    PartIsDistinct(LinkJudge(observedAt), entries, LinkFlap, observedAt);
  }

  lemma {:induction false} BgpIsDistinct(observedAt: int, samples: seq<Sample>)
    ensures DistinctAnomalies(Part(BgpJudge(observedAt), Sessions(samples)))
    ensures forall a | a in Part(BgpJudge(observedAt), Sessions(samples)) ::
              a.Valid() && a.ruleId == BgpDown && a.detectedAt == observedAt
  {
    hide Grouped, Sessions, BgpJudge, Part, Judges, DistinctAnomalies;
    var entries := Sessions(samples);
    GroupedWellFormed(entries);
    JudgesCarry(observedAt, Grouped(entries).keys);
    PartIsDistinct(BgpJudge(observedAt), entries, BgpDown, observedAt);
  }

  /** All anomalies of one evaluation are well-formed, carry its time, and have pairwise distinct
      fingerprints, so one telemetry ingestion writes each incident row at most once. */
  lemma EvaluateIsDistinct(observedAt: int, samples: seq<Sample>)
    ensures DistinctAnomalies(Evaluate(observedAt, samples))
    ensures forall a | a in Evaluate(observedAt, samples) :: a.Valid() && a.detectedAt == observedAt
  {
    var cpu := Part(CpuJudge(observedAt), OfDevice(samples));
    var link := Part(LinkJudge(observedAt), Links(samples));
    var bgp := Part(BgpJudge(observedAt), Sessions(samples));
    CpuIsDistinct(observedAt, samples);
    LinkIsDistinct(observedAt, samples);
    BgpIsDistinct(observedAt, samples);
    DistinctAppend(cpu, link);
    DistinctAppend(cpu + link, bgp);
  }

  // Link flap, stated on the raw observations

  ghost predicate IsChange(obs: seq<(int, LinkState)>, i: int) {
    1 <= i < |obs| && obs[i].1 != obs[i - 1].1
  }

  /** The indices a < b < c < d are the last four changes. */
  ghost predicate LastFourChanges(obs: seq<(int, LinkState)>, a: int, b: int, c: int, d: int) {
    && a < b < c < d
    && IsChange(obs, a) && IsChange(obs, b) && IsChange(obs, c) && IsChange(obs, d)
    && forall i | a < i && IsChange(obs, i) :: i == b || i == c || i == d
  }

  /** These observations are in time order and within the window. */
  ghost predicate InWindow(obs: seq<(int, LinkState)>, a: int, b: int, c: int, d: int) {
    && 0 <= a < |obs| && 0 <= b < |obs| && 0 <= c < |obs| && 0 <= d < |obs|
    && obs[a].0 <= obs[b].0 <= obs[c].0 <= obs[d].0
    && obs[d].0 - obs[a].0 <= 60_000_000
  }

  /** At least four changes, the last four in time order and within the window. */
  ghost predicate Flaps(obs: seq<(int, LinkState)>) {
    exists a, b, c, d :: LastFourChanges(obs, a, b, c, d) && InWindow(obs, a, b, c, d)
  }

  function Changes(obs: seq<(int, LinkState)>): seq<nat> {
    if |obs| < 2 then []
    else
      var n := |obs| - 1;
      var before := Changes(obs[..n]);
      if obs[n].1 != obs[n - 1].1 then before + [n] else before
  }

  lemma {:induction false} ChangesAreExact(obs: seq<(int, LinkState)>)
    ensures forall i :: i in Changes(obs) <==> IsChange(obs, i)
    ensures forall i, j | 0 <= i < j < |Changes(obs)| :: Changes(obs)[i] < Changes(obs)[j]
    ensures |Transitions(obs)| == |Changes(obs)|
    ensures forall i | 0 <= i < |Changes(obs)| :: Changes(obs)[i] < |obs| &&
              Transitions(obs)[i] == Transition(obs[Changes(obs)[i]].0, obs[Changes(obs)[i]].1)
  {
    if |obs| >= 2 {
      var n := |obs| - 1;
      ChangesAreExact(obs[..n]);
      assert forall i | 0 <= i < n :: obs[..n][i] == obs[i];
      forall i ensures i in Changes(obs) <==> IsChange(obs, i) {
        assert i in Changes(obs[..n]) <==> IsChange(obs[..n], i);
      }
    }
  }

  lemma {:induction false} LatestAreLast(obs: seq<(int, LinkState)>)
    requires |Changes(obs)| >= 4
    ensures var ch, n := Changes(obs), |Changes(obs)|;
            LastFourChanges(obs, ch[n - 4], ch[n - 3], ch[n - 2], ch[n - 1])
  {
    ChangesAreExact(obs);
    var ch, n := Changes(obs), |Changes(obs)|;
    assert ch[n - 4] in ch && ch[n - 3] in ch && ch[n - 2] in ch && ch[n - 1] in ch;
    forall i | ch[n - 4] < i && IsChange(obs, i) ensures i == ch[n - 3] || i == ch[n - 2] || i == ch[n - 1] {
      var k :| 0 <= k < n && ch[k] == i;
    }
  }

  lemma ChangeIndex(obs: seq<(int, LinkState)>, x: int) returns (i: nat)
    requires IsChange(obs, x)
    ensures i < |Changes(obs)| && Changes(obs)[i] == x
  {
    ChangesAreExact(obs);
    assert x in Changes(obs);
    i :| 0 <= i < |Changes(obs)| && Changes(obs)[i] == x;
  }

  lemma {:induction false} LaterChange(obs: seq<(int, LinkState)>, i: nat, j: nat)
    requires i < |Changes(obs)| && j < |Changes(obs)| && Changes(obs)[i] < Changes(obs)[j]
    ensures i < j
  {
    ChangesAreExact(obs);
  }

  lemma {:induction false} FourChangesAreCounted(obs: seq<(int, LinkState)>, a: int, b: int, c: int, d: int)
    requires a < b < c < d && IsChange(obs, a) && IsChange(obs, b) && IsChange(obs, c) && IsChange(obs, d)
    ensures |Changes(obs)| >= 4
  {
    var i := ChangeIndex(obs, a);
    var j := ChangeIndex(obs, b);
    var k := ChangeIndex(obs, c);
    var l := ChangeIndex(obs, d);
    LaterChange(obs, i, j);
    LaterChange(obs, j, k);
    LaterChange(obs, k, l);
  }

  lemma {:induction false} VerdictByChanges(observedAt: int, key: Key, obs: seq<(int, LinkState)>)
    ensures EvaluateLinkFlap(observedAt, key, obs).Some? <==>
            var ch, n := Changes(obs), |Changes(obs)|;
            n >= 4 && InWindow(obs, ch[n - 4], ch[n - 3], ch[n - 2], ch[n - 1])
  {
    hide Changes, Transitions;
    ChangesAreExact(obs);
  }

  lemma FlapVerdictIff(observedAt: int, key: Key, obs: seq<(int, LinkState)>)
    ensures EvaluateLinkFlap(observedAt, key, obs).Some? <==> Flaps(obs)
  {
    hide Changes, EvaluateLinkFlap, InWindow, LastFourChanges;
    VerdictByChanges(observedAt, key, obs);
    var ch, n := Changes(obs), |Changes(obs)|;
    if n >= 4 { LatestAreLast(obs); }
    if Flaps(obs) {
      var a, b, c, d :| LastFourChanges(obs, a, b, c, d) && InWindow(obs, a, b, c, d);
      LastFourAreChanges(obs, a, b, c, d);
      FourChangesAreCounted(obs, a, b, c, d);
      LatestAreLast(obs);
      LastFourAreUnique(obs, a, b, c, d, ch[n - 4], ch[n - 3], ch[n - 2], ch[n - 1]);
    }
  }

  lemma LastFourAreChanges(obs: seq<(int, LinkState)>, a: int, b: int, c: int, d: int)
    requires LastFourChanges(obs, a, b, c, d)
    ensures a < b < c < d && IsChange(obs, a) && IsChange(obs, b) && IsChange(obs, c) && IsChange(obs, d)
  {
  }

  lemma LastFourAreUnique(
    obs: seq<(int, LinkState)>, a: int, b: int, c: int, d: int, a': int, b': int, c': int, d': int)
    requires LastFourChanges(obs, a, b, c, d) && LastFourChanges(obs, a', b', c', d')
    ensures a == a' && b == b' && c == c' && d == d'
  {
  }

  /** Repeating an observed state right after it changes neither the verdict nor its evidence. */
  lemma {:induction false} RepeatedStateIsIgnored(
    before: seq<(int, LinkState)>, o: (int, LinkState), again: (int, LinkState), after: seq<(int, LinkState)>)
    requires again.1 == o.1
    ensures Transitions(before + [o, again] + after) == Transitions(before + [o] + after)
  {
    hide Transitions;
    if after == [] {
      TransitionsSnoc(before + [o], again);
      assert before + [o, again] + after == (before + [o]) + [again] && before + [o] + after == before + [o];
    } else {
      var m := |after| - 1;
      var long, short := before + [o, again] + after[..m], before + [o] + after[..m];
      RepeatedStateIsIgnored(before, o, again, after[..m]);
      TransitionsSnoc(long, after[m]);
      TransitionsSnoc(short, after[m]);
      assert before + [o, again] + after == long + [after[m]] && before + [o] + after == short + [after[m]];
      assert long[|long| - 1].1 == short[|short| - 1].1;
    }
  }

  lemma {:induction false} TransitionsSnoc(obs: seq<(int, LinkState)>, x: (int, LinkState))
    requires obs != []
    ensures Transitions(obs + [x]) ==
            if x.1 != obs[|obs| - 1].1 then Transitions(obs) + [Transition(x.0, x.1)] else Transitions(obs)
  {
    assert (obs + [x])[..|obs|] == obs;
  }

  // The time guards and ordered input

  ghost predicate InTimeOrder(samples: seq<Sample>) {
    forall i, j | 0 <= i < j < |samples| :: samples[i].sampledAt <= samples[j].sampledAt
  }

  ghost predicate TimesUpTo<V>(entries: seq<(Key, (int, V))>, at: int) {
    forall i | 0 <= i < |entries| :: entries[i].1.0 <= at
  }

  ghost predicate TimesInOrder<V>(obs: seq<(int, V)>) {
    forall i, j | 0 <= i < j < |obs| :: obs[i].0 <= obs[j].0
  }

  ghost predicate EntriesInOrder<V>(entries: seq<(Key, (int, V))>) {
    forall i, j | 0 <= i < j < |entries| :: entries[i].1.0 <= entries[j].1.0
  }

  lemma {:induction false} ValuesInOrder<V>(entries: seq<(Key, (int, V))>, k: Key)
    requires EntriesInOrder(entries)
    ensures TimesInOrder(ValuesOf(entries, k))
    ensures entries != [] ==> forall o | o in ValuesOf(entries, k) :: o.0 <= entries[|entries| - 1].1.0
    ensures entries == [] ==> ValuesOf(entries, k) == []
  {
    if entries != [] {
      ValuesInOrder(entries[..|entries| - 1], k);
    }
  }

  lemma {:induction false} SampleEntryTimes(s: Sample, n: nat, m: nat)
    requires n <= |s.interfaceStates| && m <= |s.bgpSessions|
    ensures forall i | 0 <= i < |SampleLinks(s, n)| :: SampleLinks(s, n)[i].1.0 == s.sampledAt
    ensures forall i | 0 <= i < |SampleSessions(s, m)| :: SampleSessions(s, m)[i].1.0 == s.sampledAt
  {
    if n > 0 {
      SampleEntryTimes(s, n - 1, m);
    } else if m > 0 {
      SampleEntryTimes(s, n, m - 1);
    }
  }

  lemma {:induction false} OrderedEntries(samples: seq<Sample>)
    requires InTimeOrder(samples)
    ensures EntriesInOrder(Links(samples)) && EntriesInOrder(Sessions(samples))
    ensures samples != [] ==> TimesUpTo(Links(samples), samples[|samples| - 1].sampledAt)
                              && TimesUpTo(Sessions(samples), samples[|samples| - 1].sampledAt)
  {
    if samples != [] {
      var last := samples[|samples| - 1];
      OrderedEntries(samples[..|samples| - 1]);
      SampleEntryTimes(last, |last.interfaceStates|, |last.bgpSessions|);
    }
  }

  lemma {:induction false} LinkGuardNeverRejects(observedAt: int, obs: seq<(int, LinkState)>, k: Key)
    requires TimesInOrder(obs)
    ensures var t := Transitions(obs);
            EvaluateLinkFlap(observedAt, k, obs).Some? <==>
            |t| >= 4 && t[|t| - 1].timestamp - t[|t| - 4].timestamp <= 60_000_000
  {
    ChangesAreExact(obs);
  }

  predicate Omits(s: Sample, k: Key) {
    s.deviceId != k.deviceId || forall i | 0 <= i < |s.interfaceStates| :: s.interfaceStates[i].name != k.resource
  }

  lemma {:induction false} OmittedLinks(s: Sample, n: nat, k: Key)
    requires n <= |s.interfaceStates| && Omits(s, k)
    ensures ValuesOf(SampleLinks(s, n), k) == []
  {
    if n > 0 {
      OmittedLinks(s, n - 1, k);
      var link := s.interfaceStates[n - 1];
      SnocUnfolds(SampleLinks(s, n - 1), (Key(s.deviceId, link.name), (s.sampledAt, link.operState)), k, k.deviceId);
    }
  }

  lemma {:induction false} ValuesAppend<V>(a: seq<(Key, V)>, b: seq<(Key, V)>, k: Key)
    ensures ValuesOf(a + b, k) == ValuesOf(a, k) + ValuesOf(b, k)
  {
    if b == [] {
      assert a + b == a;
    } else {
      var n := |b| - 1;
      assert (a + b)[..|a + b| - 1] == a + b[..n];
      ValuesAppend(a, b[..n], k);
    }
  }

  lemma {:induction false} LinksSnoc(samples: seq<Sample>, s: Sample, k: Key)
    ensures ValuesOf(Links(samples + [s]), k) ==
            ValuesOf(Links(samples), k) + ValuesOf(SampleLinks(s, |s.interfaceStates|), k)
  {
    hide ValuesOf, SampleLinks;
    assert (samples + [s])[..|samples|] == samples;
    ValuesAppend(Links(samples), SampleLinks(s, |s.interfaceStates|), k);
  }

  /** A sample that omits an interface, wherever it comes, changes nothing the flap rule sees of it. */
  lemma {:induction false} OmittingSamplesAreIgnored(before: seq<Sample>, s: Sample, after: seq<Sample>, k: Key)
    requires Omits(s, k)
    ensures ValuesOf(Links(before + [s] + after), k) == ValuesOf(Links(before + after), k)
  {
    hide ValuesOf, Links, SampleLinks;
    if after == [] {
      OmittedLinks(s, |s.interfaceStates|, k);
      LinksSnoc(before, s, k);
      assert before + [s] + after == before + [s] && before + after == before;
    } else {
      var n := |after| - 1;
      OmittingSamplesAreIgnored(before, s, after[..n], k);
      LinksSnoc(before + [s] + after[..n], after[n], k);
      LinksSnoc(before + after[..n], after[n], k);
      Regroup(before, s, after);
    }
  }

  lemma Regroup(before: seq<Sample>, s: Sample, after: seq<Sample>)
    requires after != []
    ensures before + [s] + after == (before + [s] + after[..|after| - 1]) + [after[|after| - 1]]
    ensures before + after == (before + after[..|after| - 1]) + [after[|after| - 1]]
  {
  }

  // Which anomalies an evaluation holds

  /** A rule reports the verdicts of the keys that have entries. */
  lemma {:induction false} PartIs<V(!new)>(judge: (Key, seq<V>) -> Option<Anomaly>, entries: seq<(Key, V)>, a: Anomaly)
    ensures a in Part(judge, entries) <==>
            exists k :: ValuesOf(entries, k) != [] && judge(k, ValuesOf(entries, k)) == Some(a)
  {
    hide Grouped, ValuesOf, Verdicts;
    GroupedWellFormed(entries);
    var g := Grouped(entries);
    assert Part(judge, entries) == Verdicts(judge, g.keys, g.table);
    VerdictsAre(judge, g.keys, g.table, a);
    if a in Part(judge, entries) {
      var k :| k in g.keys && judge(k, g.table[k]) == Some(a);
      GroupedIsExact(entries, k);
    }
    if k :| ValuesOf(entries, k) != [] && judge(k, ValuesOf(entries, k)) == Some(a) {
      GroupedIsExact(entries, k);
    }
  }

  lemma {:induction false} PartHolds<V(!new)>(
    judge: (Key, seq<V>) -> Option<Anomaly>, entries: seq<(Key, V)>, k: Key, a: Anomaly)
    requires ValuesOf(entries, k) != [] && judge(k, ValuesOf(entries, k)) == Some(a)
    ensures a in Part(judge, entries)
  {
    PartIs(judge, entries, a);
  }

  // The verdict of some key

  ghost predicate CpuVerdict(observedAt: int, samples: seq<Sample>, a: Anomaly) {
    exists k :: EvaluateCpuHigh(observedAt, k, ValuesOf(OfDevice(samples), k)) == Some(a)
  }

  ghost predicate LinkVerdict(observedAt: int, samples: seq<Sample>, a: Anomaly) {
    exists k :: EvaluateLinkFlap(observedAt, k, ValuesOf(Links(samples), k)) == Some(a)
  }

  ghost predicate BgpVerdict(observedAt: int, samples: seq<Sample>, a: Anomaly) {
    exists k :: EvaluateBgpDown(observedAt, k, ValuesOf(Sessions(samples), k)) == Some(a)
  }

  /** An anomaly is reported exactly when one of the three rules finds it in the values of some key. */
  lemma {:induction false} EvaluateIsExact(observedAt: int, samples: seq<Sample>, a: Anomaly)
    ensures a in Evaluate(observedAt, samples) <==>
            || CpuVerdict(observedAt, samples, a)
            || LinkVerdict(observedAt, samples, a)
            || BgpVerdict(observedAt, samples, a)
  {
    hide Part, CpuVerdict, LinkVerdict, BgpVerdict;
    CpuPartIs(observedAt, samples, a);
    LinkPartIs(observedAt, samples, a);
    BgpPartIs(observedAt, samples, a);
  }

  lemma {:induction false} CpuPartIs(observedAt: int, samples: seq<Sample>, a: Anomaly)
    ensures a in Part(CpuJudge(observedAt), OfDevice(samples)) <==> CpuVerdict(observedAt, samples, a)
  {
    var entries := OfDevice(samples);
    PartIs(CpuJudge(observedAt), entries, a);
    if a in Part(CpuJudge(observedAt), entries) {
      var k :| CpuJudge(observedAt)(k, ValuesOf(entries, k)) == Some(a);
      assert EvaluateCpuHigh(observedAt, k, ValuesOf(entries, k)) == Some(a);
    }
    if k :| EvaluateCpuHigh(observedAt, k, ValuesOf(entries, k)) == Some(a) {
      PartHolds(CpuJudge(observedAt), entries, k, a);
    }
  }

  lemma {:induction false} LinkPartIs(observedAt: int, samples: seq<Sample>, a: Anomaly)
    ensures a in Part(LinkJudge(observedAt), Links(samples)) <==> LinkVerdict(observedAt, samples, a)
  {
    var entries := Links(samples);
    PartIs(LinkJudge(observedAt), entries, a);
    if a in Part(LinkJudge(observedAt), entries) {
      var k :| LinkJudge(observedAt)(k, ValuesOf(entries, k)) == Some(a);
      assert EvaluateLinkFlap(observedAt, k, ValuesOf(entries, k)) == Some(a);
    }
    if k :| EvaluateLinkFlap(observedAt, k, ValuesOf(entries, k)) == Some(a) {
      PartHolds(LinkJudge(observedAt), entries, k, a);
    }
  }

  lemma {:induction false} BgpPartIs(observedAt: int, samples: seq<Sample>, a: Anomaly)
    ensures a in Part(BgpJudge(observedAt), Sessions(samples)) <==> BgpVerdict(observedAt, samples, a)
  {
    var entries := Sessions(samples);
    PartIs(BgpJudge(observedAt), entries, a);
    if a in Part(BgpJudge(observedAt), entries) {
      var k :| BgpJudge(observedAt)(k, ValuesOf(entries, k)) == Some(a);
      assert EvaluateBgpDown(observedAt, k, ValuesOf(entries, k)) == Some(a);
    }
    if k :| EvaluateBgpDown(observedAt, k, ValuesOf(entries, k)) == Some(a) {
      PartHolds(BgpJudge(observedAt), entries, k, a);
    }
  }

  ghost predicate ReportsLinkFlap(anomalies: seq<Anomaly>, k: Key) {
    exists a :: a in anomalies && a.deviceId == k.deviceId && a.ruleId == LinkFlap
                && a.evidence.LinkFlapEvidence? && a.evidence.interfaceName == k.resource
  }

  ghost predicate ReportsBgpDown(anomalies: seq<Anomaly>, k: Key) {
    exists a :: a in anomalies && a.deviceId == k.deviceId && a.ruleId == BgpDown
                && a.evidence.BgpDownEvidence? && a.evidence.neighborIp == k.resource
  }

  ghost predicate ReportsCpuHigh(anomalies: seq<Anomaly>, deviceId: string) {
    exists a :: a in anomalies && a.deviceId == deviceId && a.ruleId == CpuHigh
  }

  /** The engine reports an interface as flapping exactly when what the samples say of it flaps. */
  lemma {:induction false} LinkFlapIsExact(observedAt: int, samples: seq<Sample>, k: Key)
    ensures ReportsLinkFlap(Evaluate(observedAt, samples), k) <==> Flaps(ValuesOf(Links(samples), k))
  {
    FlapVerdictIff(observedAt, k, ValuesOf(Links(samples), k));
    LinkVerdictIsReported(observedAt, samples, k);
  }

  lemma {:induction false} LinkVerdictIsReported(observedAt: int, samples: seq<Sample>, k: Key)
    ensures ReportsLinkFlap(Evaluate(observedAt, samples), k) <==>
            EvaluateLinkFlap(observedAt, k, ValuesOf(Links(samples), k)).Some?
  {
    hide Evaluate, ValuesOf, Links, Sessions, OfDevice, Transitions;
    var found := EvaluateLinkFlap(observedAt, k, ValuesOf(Links(samples), k));
    if found.Some? {
      EvaluateIsExact(observedAt, samples, found.value);
    }
    if ReportsLinkFlap(Evaluate(observedAt, samples), k) {
      var a :| a in Evaluate(observedAt, samples) && a.deviceId == k.deviceId && a.ruleId == LinkFlap
               && a.evidence.LinkFlapEvidence? && a.evidence.interfaceName == k.resource;
      EvaluateIsExact(observedAt, samples, a);
      var k' :| EvaluateLinkFlap(observedAt, k', ValuesOf(Links(samples), k')) == Some(a);
      assert k' == k;
    }
  }

  /** The last two observations, in time order, go from a state that is not down to one that is. */
  ghost predicate FallsDown(obs: seq<(int, BgpState)>) {
    && |obs| >= 2
    && obs[|obs| - 2].0 <= obs[|obs| - 1].0
    && obs[|obs| - 2].1 !in {Idle, Active} && obs[|obs| - 1].1 in {Idle, Active}
  }

  /** The engine reports a session as down exactly when what the samples say of it falls down. */
  lemma {:induction false} BgpDownIsExact(observedAt: int, samples: seq<Sample>, k: Key)
    ensures ReportsBgpDown(Evaluate(observedAt, samples), k) <==> FallsDown(ValuesOf(Sessions(samples), k))
  {
    hide Evaluate, ValuesOf, Links, Sessions, OfDevice;
    var found := EvaluateBgpDown(observedAt, k, ValuesOf(Sessions(samples), k));
    if found.Some? {
      EvaluateIsExact(observedAt, samples, found.value);
    }
    if ReportsBgpDown(Evaluate(observedAt, samples), k) {
      var a :| a in Evaluate(observedAt, samples) && a.deviceId == k.deviceId && a.ruleId == BgpDown
               && a.evidence.BgpDownEvidence? && a.evidence.neighborIp == k.resource;
      EvaluateIsExact(observedAt, samples, a);
      var k' :| EvaluateBgpDown(observedAt, k', ValuesOf(Sessions(samples), k')) == Some(a);
      assert k' == k;
    }
  }

  lemma {:induction false} OwnSamplesAreItsValues(samples: seq<Sample>, k: Key)
    ensures ValuesOf(OfDevice(samples), k) == if k.resource == "" then OwnSamples(samples, k.deviceId) else []
  {
    if samples != [] {
      var n := |samples| - 1;
      OwnSamplesAreItsValues(samples[..n], k);
      SnocUnfolds(OfDevice(samples[..n]), (Key(samples[n].deviceId, ""), samples[n]), k, k.deviceId);
    }
  }

  /** The last two samples of the device are both over the threshold. */
  ghost predicate RunsHot(own: seq<Sample>) {
    |own| >= 2 && own[|own| - 2].cpuPct > 90.0 && own[|own| - 1].cpuPct > 90.0
  }

  /** The engine reports a device's processor exactly when its last two samples run hot. */
  lemma {:induction false} CpuHighIsExact(observedAt: int, samples: seq<Sample>, deviceId: string)
    ensures ReportsCpuHigh(Evaluate(observedAt, samples), deviceId) <==> RunsHot(OwnSamples(samples, deviceId))
  {
    hide Evaluate, ValuesOf, Links, Sessions, OfDevice, OwnSamples;
    var k := Key(deviceId, "");
    OwnSamplesAreItsValues(samples, k);
    var found := EvaluateCpuHigh(observedAt, k, ValuesOf(OfDevice(samples), k));
    if found.Some? {
      EvaluateIsExact(observedAt, samples, found.value);
    }
    if ReportsCpuHigh(Evaluate(observedAt, samples), deviceId) {
      var a :| a in Evaluate(observedAt, samples) && a.deviceId == deviceId && a.ruleId == CpuHigh;
      EvaluateIsExact(observedAt, samples, a);
      var k' :| EvaluateCpuHigh(observedAt, k', ValuesOf(OfDevice(samples), k')) == Some(a);
      OwnSamplesAreItsValues(samples, k');
      assert k' == k;
    }
  }

  // What is reported, whole

  /** The anomaly says that the interface flapped, with its last four changes as evidence. */
  ghost predicate SaysFlap(observedAt: int, k: Key, obs: seq<(int, LinkState)>, a: Anomaly) {
    exists w, x, y, z :: FlapsAt(observedAt, k, obs, a, w, x, y, z)
  }

  ghost predicate FlapsAt(
    observedAt: int, k: Key, obs: seq<(int, LinkState)>, a: Anomaly, w: int, x: int, y: int, z: int)
  {
    && LastFourChanges(obs, w, x, y, z) && InWindow(obs, w, x, y, z)
    && a == Anomaly(k.deviceId, LinkFlap,
                    LinkFlapEvidence(k.resource, [Transition(obs[w].0, obs[w].1), Transition(obs[x].0, obs[x].1),
                                                  Transition(obs[y].0, obs[y].1), Transition(obs[z].0, obs[z].1)]),
                    observedAt)
  }

  lemma FlapVerdictSays(observedAt: int, k: Key, obs: seq<(int, LinkState)>, a: Anomaly)
    ensures EvaluateLinkFlap(observedAt, k, obs) == Some(a) <==> SaysFlap(observedAt, k, obs, a)
  {
    hide Changes, Transitions, LastFourChanges;
    var ch, n := Changes(obs), |Changes(obs)|;
    VerdictByChanges(observedAt, k, obs);
    FlapVerdictIff(observedAt, k, obs);
    if n >= 4 {
      LatestAreLast(obs);
      var found := EvaluateLinkFlap(observedAt, k, obs);
      if found.Some? { LatestEvidence(observedAt, k, obs); }
      assert found.Some? ==> FlapsAt(observedAt, k, obs, found.value, ch[n - 4], ch[n - 3], ch[n - 2], ch[n - 1]);
    }
    if SaysFlap(observedAt, k, obs, a) {
      var w, x, y, z :| FlapsAt(observedAt, k, obs, a, w, x, y, z);
      LastFourAreChanges(obs, w, x, y, z);
      FourChangesAreCounted(obs, w, x, y, z);
      LatestAreLast(obs);
      LastFourAreUnique(obs, w, x, y, z, ch[n - 4], ch[n - 3], ch[n - 2], ch[n - 1]);
    }
  }

  lemma {:induction false} LatestEvidence(observedAt: int, k: Key, obs: seq<(int, LinkState)>)
    requires |Changes(obs)| >= 4 && EvaluateLinkFlap(observedAt, k, obs).Some?
    ensures var (ch, n) := (Changes(obs), |Changes(obs)|);
            && 0 <= ch[n - 4] < |obs| && 0 <= ch[n - 3] < |obs| && 0 <= ch[n - 2] < |obs| && 0 <= ch[n - 1] < |obs|
            && EvaluateLinkFlap(observedAt, k, obs).value == Anomaly(
                 k.deviceId, LinkFlap,
                 LinkFlapEvidence(k.resource, [Transition(obs[ch[n - 4]].0, obs[ch[n - 4]].1),
                                               Transition(obs[ch[n - 3]].0, obs[ch[n - 3]].1),
                                               Transition(obs[ch[n - 2]].0, obs[ch[n - 2]].1),
                                               Transition(obs[ch[n - 1]].0, obs[ch[n - 1]].1)]), observedAt)
  {
    hide Changes, Transitions, WithinWindow;
    ChangesAreExact(obs);
    var four := Transitions(obs)[|Changes(obs)| - 4..];
    assert four == [four[0], four[1], four[2], four[3]];
  }

  ghost predicate SomeFlap(observedAt: int, samples: seq<Sample>, a: Anomaly) {
    exists k :: SaysFlap(observedAt, k, ValuesOf(Links(samples), k), a)
  }

  /** Every link-flap anomaly of the engine is that of some interface whose observations flap, with its last
      four changes as evidence, and every such interface has its anomaly. */
  lemma {:induction false} LinkFlapsAre(observedAt: int, samples: seq<Sample>, a: Anomaly)
    ensures a in Evaluate(observedAt, samples) && a.ruleId == LinkFlap <==>
            SomeFlap(observedAt, samples, a)
  {
    hide Evaluate, EvaluateLinkFlap, EvaluateBgpDown, EvaluateCpuHigh, SaysFlap;
    EvaluateIsExact(observedAt, samples, a);
    RulesOfVerdicts(observedAt, samples, a);
    if LinkVerdict(observedAt, samples, a) {
      var k :| EvaluateLinkFlap(observedAt, k, ValuesOf(Links(samples), k)) == Some(a);
      FlapVerdictSays(observedAt, k, ValuesOf(Links(samples), k), a);
      assert SaysFlap(observedAt, k, ValuesOf(Links(samples), k), a);
    }
    if k :| SaysFlap(observedAt, k, ValuesOf(Links(samples), k), a) {
      FlapVerdictSays(observedAt, k, ValuesOf(Links(samples), k), a);
      assert EvaluateLinkFlap(observedAt, k, ValuesOf(Links(samples), k)) == Some(a);
    }
  }

  lemma RulesOfVerdicts(observedAt: int, samples: seq<Sample>, a: Anomaly)
    ensures CpuVerdict(observedAt, samples, a) ==> a.ruleId == CpuHigh
    ensures LinkVerdict(observedAt, samples, a) ==> a.ruleId == LinkFlap
    ensures BgpVerdict(observedAt, samples, a) ==> a.ruleId == BgpDown
  {
    hide ValuesOf, Transitions, WithinWindow;
  }

  /** The anomaly says that the session fell into its last observed state, from the one before. */
  ghost predicate SaysDown(observedAt: int, k: Key, obs: seq<(int, BgpState)>, a: Anomaly) {
    && FallsDown(obs)
    && a == Anomaly(k.deviceId, BgpDown,
                    BgpDownEvidence(k.resource, obs[|obs| - 1].1, Some(obs[|obs| - 2].1)), observedAt)
  }

  /** So is every BGP-down anomaly that of a session that fell down. */
  lemma {:induction false} BgpDownsAre(observedAt: int, samples: seq<Sample>, a: Anomaly)
    ensures a in Evaluate(observedAt, samples) && a.ruleId == BgpDown <==>
            exists k :: SaysDown(observedAt, k, ValuesOf(Sessions(samples), k), a)
  {
    hide Evaluate;
    EvaluateIsExact(observedAt, samples, a);
    RulesOfVerdicts(observedAt, samples, a);
    if BgpVerdict(observedAt, samples, a) {
      var k :| EvaluateBgpDown(observedAt, k, ValuesOf(Sessions(samples), k)) == Some(a);
      assert SaysDown(observedAt, k, ValuesOf(Sessions(samples), k), a);
    }
    if k :| SaysDown(observedAt, k, ValuesOf(Sessions(samples), k), a) {
      assert EvaluateBgpDown(observedAt, k, ValuesOf(Sessions(samples), k)) == Some(a);
      assert BgpVerdict(observedAt, samples, a);
    }
  }

  /** And every CPU anomaly that of a device whose last two samples run hot, which are its evidence. */
  lemma {:induction false} CpuHighsAre(observedAt: int, samples: seq<Sample>, a: Anomaly)
    ensures a in Evaluate(observedAt, samples) && a.ruleId == CpuHigh <==>
            var own := OwnSamples(samples, a.deviceId);
            && RunsHot(own)
            && a == Anomaly(a.deviceId, CpuHigh,
                            CpuHighEvidence([(own[|own| - 2].sampledAt, own[|own| - 2].cpuPct),
                                             (own[|own| - 1].sampledAt, own[|own| - 1].cpuPct)]), observedAt)
  {
    hide Evaluate;
    EvaluateIsExact(observedAt, samples, a);
    RulesOfVerdicts(observedAt, samples, a);
    OwnSamplesAreItsValues(samples, Key(a.deviceId, ""));
    if CpuVerdict(observedAt, samples, a) {
      var k :| EvaluateCpuHigh(observedAt, k, ValuesOf(OfDevice(samples), k)) == Some(a);
      OwnSamplesAreItsValues(samples, k);
      assert k == Key(a.deviceId, "");
    }
    if RunsHot(OwnSamples(samples, a.deviceId)) {
      var k := Key(a.deviceId, "");
      assert EvaluateCpuHigh(observedAt, k, ValuesOf(OfDevice(samples), k)).Some?;
      assert EvaluateCpuHigh(observedAt, k, ValuesOf(OfDevice(samples), k)) == Some(a) ==>
          CpuVerdict(observedAt, samples, a);
    }
  }

  /** On samples in time order the engine's nondecreasing-time guards reject nothing: four changes of an
      interface within the window are always reported, and so is any fall into a down state. */
  lemma {:induction false} GuardsNeverReject(observedAt: int, samples: seq<Sample>, k: Key)
    requires InTimeOrder(samples)
    ensures var t := Transitions(ValuesOf(Links(samples), k));
            ReportsLinkFlap(Evaluate(observedAt, samples), k) <==>
            |t| >= 4 && t[|t| - 1].timestamp - t[|t| - 4].timestamp <= 60_000_000
    ensures var o := ValuesOf(Sessions(samples), k);
            ReportsBgpDown(Evaluate(observedAt, samples), k) <==>
            |o| >= 2 && o[|o| - 2].1 !in {Idle, Active} && o[|o| - 1].1 in {Idle, Active}
  {
    hide Evaluate, ValuesOf, Links, Sessions, Transitions;
    OrderedEntries(samples);
    ValuesInOrder(Links(samples), k);
    ValuesInOrder(Sessions(samples), k);
    LinkGuardNeverRejects(observedAt, ValuesOf(Links(samples), k), k);
    LinkVerdictIsReported(observedAt, samples, k);
    BgpDownIsExact(observedAt, samples, k);
  }
}
