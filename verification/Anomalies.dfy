/** Telemetry samples, the anomalies found in them, and the incident candidates they map to. */
module Anomalies {
  import opened Wrappers
  import opened OperationalState

  datatype LinkState = LinkUp | LinkDown

  /** Telemetry reports one of the six states of the state machine, never "not recognized". */
  type BgpState = s: BgpSessionState | !s.UnknownState? witness Idle

  datatype InterfaceState = InterfaceState(name: string, operState: LinkState)
  datatype BgpSession = BgpSession(neighborIp: string, state: BgpState)

  datatype Sample = Sample(
    deviceId: string,
    sampledAt: int,
    cpuPct: real,
    memoryPct: real,
    interfaceErrorRate: real,
    interfaceStates: seq<InterfaceState>,
    bgpSessions: seq<BgpSession>)

  datatype RuleId = CpuHigh | LinkFlap | BgpDown

  datatype Transition = Transition(timestamp: int, operState: LinkState)

  datatype Evidence =
    | CpuHighEvidence(samples: seq<(int, real)>)
    | LinkFlapEvidence(interfaceName: string, transitions: seq<Transition>)
    | BgpDownEvidence(neighborIp: string, state: BgpState, previousState: Option<BgpState>)

  datatype Anomaly = Anomaly(deviceId: string, ruleId: RuleId, evidence: Evidence, detectedAt: int) {
    predicate Valid() {
      match ruleId
      case CpuHigh => evidence.CpuHighEvidence?
      case LinkFlap => evidence.LinkFlapEvidence?
      case BgpDown => evidence.BgpDownEvidence?
    }
  }

  datatype IncidentSource = PolicyViolation | Drift | AnomalySource
  datatype Severity = Critical | High | Medium | Low

  /** The SHA-256 fingerprint, taken as an injective function of its four arguments. */
  datatype Fingerprint =
    Fingerprint(deviceId: string, source: IncidentSource, ruleRef: string, affectedResource: string)

  datatype ViolationType = TargetInterfaceMissing | MissingRequiredAcl

  /** What an incident may carry: the evidence of a rule, or of a violated configuration policy. */
  datatype IncidentEvidence =
    | RuleEvidence(evidence: Evidence)
    | PolicyEvidence(
        snapshotId: string,
        violationType: ViolationType,
        expectedAcl: string,
        actualAcl: Option<string>,
        interfaceName: string,
        inbound: bool)

  datatype Candidate = Candidate(
    fingerprint: Fingerprint,
    severity: Severity,
    evidence: IncidentEvidence,
    recommendation: string,
    observedAt: int)

  function RuleRef(rule: RuleId): string {
    match rule
    case CpuHigh => "RULE-CPU-HIGH"
    case LinkFlap => "RULE-LINK-FLAP"
    case BgpDown => "RULE-BGP-DOWN"
  }

  function BgpDownAffectedResource(neighborIp: string): string {
    "bgp-neighbor:" + neighborIp
  }

  function AffectedResource(evidence: Evidence): string {
    match evidence
    case CpuHighEvidence(_) => "device"
    case LinkFlapEvidence(name, _) => "interface:" + name
    case BgpDownEvidence(ip, _, _) => BgpDownAffectedResource(ip)
  }

  function FingerprintOf(a: Anomaly): Fingerprint {
    Fingerprint(a.deviceId, AnomalySource, RuleRef(a.ruleId), AffectedResource(a.evidence))
  }

  /** No two anomalies share a fingerprint. */
  ghost predicate DistinctAnomalies(anomalies: seq<Anomaly>) {
    forall i, j | 0 <= i < j < |anomalies| :: FingerprintOf(anomalies[i]) != FingerprintOf(anomalies[j])
  }

  function SeverityOf(rule: RuleId): Severity {
    if rule.BgpDown? then Critical else High
  }

  function Recommendation(a: Anomaly): string {
    match a.evidence
    case CpuHighEvidence(_) => "Investigate sustained high CPU utilization on " + a.deviceId + "."
    case LinkFlapEvidence(name, _) =>
      "Investigate unstable link state on " + a.deviceId + " interface " + name + "."
    case BgpDownEvidence(ip, _, _) => "Investigate BGP session down on " + a.deviceId + " neighbor " + ip + "."
  }

  function BuildCandidate(a: Anomaly): Candidate
    requires a.Valid()
  {
    Candidate(FingerprintOf(a), SeverityOf(a.ruleId), RuleEvidence(a.evidence), Recommendation(a), a.detectedAt)
  }

  function BgpFingerprint(deviceId: string, neighborIp: string): Fingerprint {
    Fingerprint(deviceId, AnomalySource, RuleRef(BgpDown), BgpDownAffectedResource(neighborIp))
  }

  predicate IsBgpDown(f: Fingerprint) {
    f.source.AnomalySource? && f.ruleRef == RuleRef(BgpDown)
  }

  lemma PrefixCancels(p: string, a: string, b: string)
    requires p + a == p + b
    ensures a == b
  {
    assert a == (p + a)[|p|..] && b == (p + b)[|p|..];
  }

  lemma RuleRefsDiffer(r: RuleId, s: RuleId)
    ensures RuleRef(r) == RuleRef(s) <==> r == s
  {
    assert RuleRef(r)[5] == (if r.CpuHigh? then 'C' else if r.LinkFlap? then 'L' else 'B');
    assert RuleRef(s)[5] == (if s.CpuHigh? then 'C' else if s.LinkFlap? then 'L' else 'B');
  }

  lemma BgpFingerprintInjective(d: string, ip: string, d': string, ip': string)
    ensures BgpFingerprint(d, ip) == BgpFingerprint(d', ip') <==> d == d' && ip == ip'
  {
    if BgpDownAffectedResource(ip) == BgpDownAffectedResource(ip') {
      PrefixCancels("bgp-neighbor:", ip, ip');
    }
  }

  /** What a fingerprint tells apart: the device, the rule, and the interface or neighbor. */
  predicate SameResource(e: Evidence, e': Evidence) {
    match (e, e')
    case (CpuHighEvidence(_), CpuHighEvidence(_)) => true
    case (LinkFlapEvidence(n, _), LinkFlapEvidence(n', _)) => n == n'
    case (BgpDownEvidence(ip, _, _), BgpDownEvidence(ip', _, _)) => ip == ip'
    case _ => false
  }

  lemma FingerprintTellsApart(a: Anomaly, b: Anomaly)
    requires a.Valid() && b.Valid()
    ensures FingerprintOf(a) == FingerprintOf(b) <==>
            a.deviceId == b.deviceId && SameResource(a.evidence, b.evidence)
  {
    RuleRefsDiffer(a.ruleId, b.ruleId);
    if FingerprintOf(a) == FingerprintOf(b) {
      match a.evidence
      case CpuHighEvidence(_) =>
      case LinkFlapEvidence(n, _) => PrefixCancels("interface:", n, b.evidence.interfaceName);
      case BgpDownEvidence(ip, _, _) => PrefixCancels("bgp-neighbor:", ip, b.evidence.neighborIp);
    }
  }

  /** What each rule's anomaly becomes as an incident candidate, field by field. */
  lemma CandidateIsExact(a: Anomaly)
    requires a.Valid()
    ensures BuildCandidate(a).observedAt == a.detectedAt && BuildCandidate(a).evidence == RuleEvidence(a.evidence)
    ensures var (c, d) := (BuildCandidate(a), a.deviceId);
            match a.evidence
            case CpuHighEvidence(_) =>
              && c.fingerprint == Fingerprint(d, AnomalySource, "RULE-CPU-HIGH", "device") && c.severity == High
              && c.recommendation == "Investigate sustained high CPU utilization on " + d + "."
            case LinkFlapEvidence(name, _) =>
              && c.fingerprint == Fingerprint(d, AnomalySource, "RULE-LINK-FLAP", "interface:" + name)
              && c.severity == High
              && c.recommendation == "Investigate unstable link state on " + d + " interface " + name + "."
            case BgpDownEvidence(ip, _, _) =>
              && c.fingerprint == Fingerprint(d, AnomalySource, "RULE-BGP-DOWN", "bgp-neighbor:" + ip)
              && c.severity == Critical
              && c.recommendation == "Investigate BGP session down on " + d + " neighbor " + ip + "."
  {
  }
}
