/** The evidence gate of src/causure/engine.py: fifteen checks of one change
    case, and the decision their consequences add up to. */
module Engine {
  import opened Vocabulary
  import opened Reals
  import opened Rounding
  import opened Sequences
  import opened Sorting

  datatype RequirementStatus = Clear | Ambiguous | Conflicting | Unknown

  datatype HarnessComponent =
    | SystemPrompt | ToolDescription | ToolSchema | ModelRouting | RetrievalConfiguration | Reviewer
    | VerificationStep | RetryPolicy | StoppingPolicy | MemoryPolicy | ToolImplementation | Evaluator
    | Environment | ModelReasoning | Requirement | Other

  /** One reproduction or intervention trial; passed: reproduced, or failure resolved. */
  datatype Trial = Trial(id: string, passed: bool)

  datatype Intervention = Intervention(isolated: bool, trials: seq<Trial>)

  datatype Hypothesis = Hypothesis(component: HarnessComponent, confidence: real, intervention: Option<Intervention>)

  datatype ValidationKind = Positive | Negative | Regression

  datatype ValidationCase = ValidationCase(
    id: string, kind: ValidationKind, critical: bool, baselinePassed: bool, candidatePassed: bool)

  datatype Snapshot = Snapshot(latency: Option<real>, cost: Option<real>)

  datatype Metrics = Metrics(baseline: Snapshot, candidate: Snapshot)

  /** The parts of a parsed change case that the gate reads. */
  datatype ChangeCase = ChangeCase(
    requirement: RequirementStatus, oracleIndependent: bool, reproduction: seq<Trial>, hypotheses: seq<Hypothesis>,
    component: HarnessComponent, changedSurfaces: int, evidenceAgainst: nat,
    cases: seq<ValidationCase>, metrics: Option<Metrics>)

  datatype Policy = Policy(
    minReproductionTrials: int, minReproductionRate: real, requireIndependentOracle: bool,
    minConfidence: real, minMargin: real,
    minInterventionTrials: int, minInterventionRate: real, requireIsolated: bool,
    maxChangedSurfaces: int,
    minPositive: int, minPositiveRate: real, minNegative: int, minNegativeRate: real,
    minRegression: int, minRegressionRate: real, allowCritical: bool,
    requireMetrics: bool, maxCostIncrease: real, maxLatencyIncrease: real, blockOnMetrics: bool)

  datatype Code =
    | REQ001 | VER001 | VER002 | ATT001 | ATT002 | ATT003 | ATT004 | ATT005 | NULL001 | MIN001
    | VAL001 | VAL002 | VAL003 | MET001 | MET002

  datatype Finding = Finding(code: Code, status: CheckStatus, consequence: Consequence)

  datatype Review = Review(decision: Decision, action: RecommendedAction, findings: seq<Finding>)

  const SIX_DIGITS: real := 1000000.0

  function Passing(code: Code): Finding { Finding(code, Pass, NoConsequence) }

  function Failing(code: Code, consequence: Consequence): Finding { Finding(code, Fail, consequence) }

  // ---------------------------------------------------------------- arithmetic of the checks

  /** How many of a group passed, out of how many. */
  datatype Tally = Tally(passed: nat, total: nat)

  function Rate(t: Tally): Option<real> {
    if t.total == 0 then None else Some(RoundTo(t.passed as real / t.total as real, SIX_DIGITS))
  }

  predicate BelowRate(t: Tally, minimum: real) {
    Rate(t).Some? && Rate(t).value < minimum
  }

  function ChangeRatio(baseline: Option<real>, candidate: Option<real>): Option<real> {
    if baseline.None? || candidate.None? then None
    else if baseline.value == 0.0 then (if candidate.value == 0.0 then Some(0.0) else None)
    else Some(RoundTo((candidate.value - baseline.value) / baseline.value, SIX_DIGITS))
  }

  function TrialPassed(t: Trial): bool { t.passed }

  function TrialTally(trials: seq<Trial>): Tally {
    Tally(Count(trials, TrialPassed), |trials|)
  }

  /** Positive controls; negative and regression controls count with a passing baseline. */
  function Eligible(kind: ValidationKind): ValidationCase -> bool {
    (v: ValidationCase) => v.kind == kind && (kind == Positive || v.baselinePassed)
  }

  function PassedEligible(kind: ValidationKind): ValidationCase -> bool {
    (v: ValidationCase) => Eligible(kind)(v) && v.candidatePassed
  }

  function ControlTally(cases: seq<ValidationCase>, kind: ValidationKind): (t: Tally)
    ensures t.total == Count(cases, Eligible(kind))
  {
    Tally(Count(cases, PassedEligible(kind)), Count(cases, Eligible(kind)))
  }

  function IsFix(v: ValidationCase): bool { v.kind == Positive && !v.baselinePassed && v.candidatePassed }

  function IsCriticalFailure(v: ValidationCase): bool {
    v.kind == Regression && v.baselinePassed && v.critical && !v.candidatePassed
  }

  /** Descending confidence; the sort is stable. */
  predicate MoreConfident(a: Hypothesis, b: Hypothesis) { a.confidence >= b.confidence }

  function Ranked(hypotheses: seq<Hypothesis>): (r: seq<Hypothesis>)
    ensures |r| == |hypotheses|
  {
    Sort(hypotheses, MoreConfident)
  }

  function RunnerUp(ranked: seq<Hypothesis>): real {
    if |ranked| > 1 then ranked[1].confidence else 0.0
  }

  function Margin(ranked: seq<Hypothesis>): real
    requires ranked != []
  {
    RoundTo(ranked[0].confidence - RunnerUp(ranked), SIX_DIGITS)
  }

  // ---------------------------------------------------------------- the checks

  function RequirementFinding(c: ChangeCase): Finding {
    match c.requirement
    case Clear => Passing(REQ001)
    case Ambiguous | Conflicting => Failing(REQ001, HumanReviewNeeded)
    case Unknown => Failing(REQ001, EvidenceNeeded)
  }

  function OracleFinding(c: ChangeCase, p: Policy): Finding {
    if p.requireIndependentOracle && !c.oracleIndependent then Failing(VER001, EvidenceNeeded) else Passing(VER001)
  }

  /** Enough of them, then a high enough rate. */
  function RateFinding(code: Code, t: Tally, minimum: int, minRate: real): Finding {
    if t.total < minimum then Failing(code, EvidenceNeeded)
    else if BelowRate(t, minRate) then Failing(code, Rejection)
    else Passing(code)
  }

  function InterventionFindings(intervention: Option<Intervention>, p: Policy): seq<Finding> {
    match intervention
    case None => [Failing(ATT004, EvidenceNeeded)]
    case Some(i) =>
      [if p.requireIsolated && !i.isolated then Failing(ATT004, EvidenceNeeded) else Passing(ATT004),
       RateFinding(ATT005, TrialTally(i.trials), p.minInterventionTrials, p.minInterventionRate)]
  }

  function AttributionFindings(c: ChangeCase, p: Policy): seq<Finding> {
    var ranked := Ranked(c.hypotheses);
    if ranked == [] then [Failing(ATT001, EvidenceNeeded)]
    else
      [if ranked[0].confidence < p.minConfidence then Failing(ATT001, EvidenceNeeded) else Passing(ATT001),
       if Margin(ranked) < p.minMargin then Failing(ATT002, EvidenceNeeded) else Passing(ATT002),
       if ranked[0].component != c.component then Failing(ATT003, Rejection) else Passing(ATT003)]
      + InterventionFindings(ranked[0].intervention, p)
  }

  function PositiveFinding(c: ChangeCase, p: Policy): Finding {
    var t := ControlTally(c.cases, Positive);
    if t.total < p.minPositive then Failing(VAL001, EvidenceNeeded)
    else if Count(c.cases, IsFix) == 0 then Failing(VAL001, EvidenceNeeded)
    else if BelowRate(t, p.minPositiveRate) then Failing(VAL001, Rejection)
    else Passing(VAL001)
  }

  function RegressionFinding(c: ChangeCase, p: Policy): Finding {
    var t := ControlTally(c.cases, Regression);
    if t.total < p.minRegression then Failing(VAL003, EvidenceNeeded)
    else if Count(c.cases, IsCriticalFailure) > 0 && !p.allowCritical then Failing(VAL003, Rejection)
    else if BelowRate(t, p.minRegressionRate) then Failing(VAL003, Rejection)
    else Passing(VAL003)
  }

  function MetricFindings(code: Code, ratio: Option<real>, maximum: real, p: Policy): seq<Finding> {
    match ratio
    case None => if p.requireMetrics then [Finding(code, Warning, Conditional)] else []
    case Some(r) =>
      if r > maximum
      then [if p.blockOnMetrics then Failing(code, Rejection) else Finding(code, Warning, Conditional)]
      else [Passing(code)]
  }

  function CostAndLatencyFindings(c: ChangeCase, p: Policy): seq<Finding> {
    match c.metrics
    case None => if p.requireMetrics then [Finding(MET001, Warning, Conditional)] else []
    case Some(m) =>
      MetricFindings(MET001, ChangeRatio(m.baseline.cost, m.candidate.cost), p.maxCostIncrease, p)
      + MetricFindings(MET002, ChangeRatio(m.baseline.latency, m.candidate.latency), p.maxLatencyIncrease, p)
  }

  function SimpleFindings(c: ChangeCase, p: Policy): seq<Finding> {
    [RequirementFinding(c), OracleFinding(c, p),
     RateFinding(VER002, TrialTally(c.reproduction), p.minReproductionTrials, p.minReproductionRate)]
  }

  function ControlFindings(c: ChangeCase, p: Policy): seq<Finding> {
    [if c.evidenceAgainst == 0 then Failing(NULL001, EvidenceNeeded) else Passing(NULL001),
     if c.changedSurfaces > p.maxChangedSurfaces then Failing(MIN001, Rejection) else Passing(MIN001),
     PositiveFinding(c, p),
     RateFinding(VAL002, ControlTally(c.cases, Negative), p.minNegative, p.minNegativeRate),
     RegressionFinding(c, p)]
  }

  function Findings(c: ChangeCase, p: Policy): seq<Finding> {
    SimpleFindings(c, p) + AttributionFindings(c, p) + ControlFindings(c, p) + CostAndLatencyFindings(c, p)
  }

  /** Some finding has this consequence. */
  predicate Among(consequence: Consequence, findings: seq<Finding>) {
    exists i :: 0 <= i < |findings| && findings[i].consequence == consequence
  }

  function DecisionFor(findings: seq<Finding>): Decision {
    if Among(HumanReviewNeeded, findings) then HumanReview
    else if Among(Rejection, findings) then Reject
    else if Among(EvidenceNeeded, findings) then NeedsEvidence
    else if Among(Conditional, findings) then ConditionalPass
    else Approve
  }

  function ActionFor(decision: Decision): RecommendedAction {
    match decision
    case Approve | ConditionalPass => Patch
    case Reject => DoNotPatch
    case NeedsEvidence => CollectEvidence
    case HumanReview => Escalate
  }

  function ReviewOf(c: ChangeCase, p: Policy): Review {
    var findings := Findings(c, p);
    Review(DecisionFor(findings), ActionFor(DecisionFor(findings)), findings)
  }

  /** review_case: the findings are appended check by check. */
  method ReviewCase(c: ChangeCase, p: Policy) returns (r: Review)
    ensures r == ReviewOf(c, p)
  {
    hide SimpleFindings, AttributionFindings, ControlFindings, CostAndLatencyFindings, Among;
    var findings := AddSimple(c, p, []);
    findings := AddAttribution(c, p, findings);
    findings := AddControls(c, p, findings);
    findings := AddMetrics(c, p, findings);
    assert findings == Findings(c, p);
    var decision := DecisionFor(findings);
    return Review(decision, ActionFor(decision), findings);
  }

  method AddSimple(c: ChangeCase, p: Policy, before: seq<Finding>) returns (findings: seq<Finding>)
    ensures findings == before + SimpleFindings(c, p)
  {
    hide Count, Rate;
    findings := before;
    if c.requirement == Clear {
      findings := findings + [Passing(REQ001)];
    } else if c.requirement == Ambiguous || c.requirement == Conflicting {
      findings := findings + [Failing(REQ001, HumanReviewNeeded)];
    } else {
      findings := findings + [Failing(REQ001, EvidenceNeeded)];
    }
    if p.requireIndependentOracle && !c.oracleIndependent {
      findings := findings + [Failing(VER001, EvidenceNeeded)];
    } else {
      findings := findings + [Passing(VER001)];
    }
    findings := AddRate(findings, VER002, TrialTally(c.reproduction), p.minReproductionTrials, p.minReproductionRate);
  }

  method AddAttribution(c: ChangeCase, p: Policy, before: seq<Finding>) returns (findings: seq<Finding>)
    ensures findings == before + AttributionFindings(c, p)
  {
    hide Sort, RoundTo, Count, RateFinding;
    findings := before;
    var ranked := Ranked(c.hypotheses);
    if ranked == [] {
      findings := findings + [Failing(ATT001, EvidenceNeeded)];
    } else {
      var top := ranked[0];
      if top.confidence < p.minConfidence {
        findings := findings + [Failing(ATT001, EvidenceNeeded)];
      } else {
        findings := findings + [Passing(ATT001)];
      }
      if Margin(ranked) < p.minMargin {
        findings := findings + [Failing(ATT002, EvidenceNeeded)];
      } else {
        findings := findings + [Passing(ATT002)];
      }
      if top.component != c.component {
        findings := findings + [Failing(ATT003, Rejection)];
      } else {
        findings := findings + [Passing(ATT003)];
      }
      findings := AddIntervention(top.intervention, p, findings);
    }
  }

  method AddIntervention(intervention: Option<Intervention>, p: Policy, before: seq<Finding>) returns (findings: seq<Finding>)
    ensures findings == before + InterventionFindings(intervention, p)
  {
    hide Count, RateFinding;
    if intervention == None {
      findings := before + [Failing(ATT004, EvidenceNeeded)];
    } else {
      if p.requireIsolated && !intervention.value.isolated {
        findings := before + [Failing(ATT004, EvidenceNeeded)];
      } else {
        findings := before + [Passing(ATT004)];
      }
      findings := AddRate(findings, ATT005, TrialTally(intervention.value.trials), p.minInterventionTrials, p.minInterventionRate);
    }
  }

  /** The shape of the checks that ask for enough items and a high enough rate. */
  method AddRate(findings: seq<Finding>, code: Code, t: Tally, minimum: int, minRate: real) returns (r: seq<Finding>)
    ensures r == findings + [RateFinding(code, t, minimum, minRate)]
  {
    if t.total < minimum {
      r := findings + [Failing(code, EvidenceNeeded)];
    } else if Rate(t).Some? && Rate(t).value < minRate {
      r := findings + [Failing(code, Rejection)];
    } else {
      r := findings + [Passing(code)];
    }
  }

  method AddControls(c: ChangeCase, p: Policy, before: seq<Finding>) returns (findings: seq<Finding>)
    ensures findings == before + ControlFindings(c, p)
  {
    hide PositiveFinding, RegressionFinding, RateFinding, Count;
    findings := before;
    if c.evidenceAgainst == 0 {
      findings := findings + [Failing(NULL001, EvidenceNeeded)];
    } else {
      findings := findings + [Passing(NULL001)];
    }
    if c.changedSurfaces > p.maxChangedSurfaces {
      findings := findings + [Failing(MIN001, Rejection)];
    } else {
      findings := findings + [Passing(MIN001)];
    }
    findings := AddPositive(c, p, findings);
    findings := AddRate(findings, VAL002, ControlTally(c.cases, Negative), p.minNegative, p.minNegativeRate);
    findings := AddRegression(c, p, findings);
  }

  method AddPositive(c: ChangeCase, p: Policy, before: seq<Finding>) returns (findings: seq<Finding>)
    ensures findings == before + [PositiveFinding(c, p)]
  {
    var positive := ControlTally(c.cases, Positive);
    if positive.total < p.minPositive {
      findings := before + [Failing(VAL001, EvidenceNeeded)];
    } else if Count(c.cases, IsFix) == 0 {
      findings := before + [Failing(VAL001, EvidenceNeeded)];
    } else if BelowRate(positive, p.minPositiveRate) {
      findings := before + [Failing(VAL001, Rejection)];
    } else {
      findings := before + [Passing(VAL001)];
    }
  }

  method AddRegression(c: ChangeCase, p: Policy, before: seq<Finding>) returns (findings: seq<Finding>)
    ensures findings == before + [RegressionFinding(c, p)]
  {
    var regression := ControlTally(c.cases, Regression);
    if regression.total < p.minRegression {
      findings := before + [Failing(VAL003, EvidenceNeeded)];
    } else if Count(c.cases, IsCriticalFailure) > 0 && !p.allowCritical {
      findings := before + [Failing(VAL003, Rejection)];
    } else if BelowRate(regression, p.minRegressionRate) {
      findings := before + [Failing(VAL003, Rejection)];
    } else {
      findings := before + [Passing(VAL003)];
    }
  }

  method AddMetrics(c: ChangeCase, p: Policy, before: seq<Finding>) returns (findings: seq<Finding>)
    ensures findings == before + CostAndLatencyFindings(c, p)
  {
    hide ChangeRatio;
    findings := before;
    if c.metrics == None {
      if p.requireMetrics {
        findings := findings + [Finding(MET001, Warning, Conditional)];
      }
    } else {
      var m := c.metrics.value;
      var excess := if p.blockOnMetrics then Rejection else Conditional;
      var status := if p.blockOnMetrics then Fail else Warning;
      var cost := ChangeRatio(m.baseline.cost, m.candidate.cost);
      if cost == None {
        if p.requireMetrics {
          findings := findings + [Finding(MET001, Warning, Conditional)];
        }
      } else if cost.value > p.maxCostIncrease {
        findings := findings + [Finding(MET001, status, excess)];
      } else {
        findings := findings + [Passing(MET001)];
      }
      var latency := ChangeRatio(m.baseline.latency, m.candidate.latency);
      if latency == None {
        if p.requireMetrics {
          findings := findings + [Finding(MET002, Warning, Conditional)];
        }
      } else if latency.value > p.maxLatencyIncrease {
        findings := findings + [Finding(MET002, status, excess)];
      } else {
        findings := findings + [Passing(MET002)];
      }
    }
  }

  // ---------------------------------------------------------------- when a case is approved

  ghost predicate AllClear(findings: seq<Finding>) {
    forall i :: 0 <= i < |findings| ==> findings[i].consequence == NoConsequence
  }

  lemma ClearParts(a: seq<Finding>, b: seq<Finding>)
    ensures AllClear(a + b) <==> AllClear(a) && AllClear(b)
  {
    if AllClear(a + b) {
      assert forall i :: 0 <= i < |a| ==> (a + b)[i] == a[i];
      assert forall i :: 0 <= i < |b| ==> (a + b)[|a| + i] == b[i];
    }
  }

  /** Nothing but clear findings is approved. */
  lemma ApproveMeansClear(findings: seq<Finding>)
    ensures DecisionFor(findings) == Approve <==> AllClear(findings)
  {
    if DecisionFor(findings) == Approve {
      forall i | 0 <= i < |findings| ensures findings[i].consequence == NoConsequence {
        assert Among(findings[i].consequence, findings);
      }
    }
  }

  predicate EnoughAndHighEnough(t: Tally, minimum: int, minRate: real) {
    t.total >= minimum && !BelowRate(t, minRate)
  }

  predicate InterventionApproved(i: Intervention, p: Policy) {
    (p.requireIsolated ==> i.isolated) && EnoughAndHighEnough(TrialTally(i.trials), p.minInterventionTrials, p.minInterventionRate)
  }

  predicate AttributionApproved(c: ChangeCase, p: Policy) {
    var ranked := Ranked(c.hypotheses);
    && ranked != [] && ranked[0].confidence >= p.minConfidence && Margin(ranked) >= p.minMargin
    && ranked[0].component == c.component
    && ranked[0].intervention.Some? && InterventionApproved(ranked[0].intervention.value, p)
  }

  predicate ControlsApproved(cases: seq<ValidationCase>, p: Policy) {
    && EnoughAndHighEnough(ControlTally(cases, Positive), p.minPositive, p.minPositiveRate)
    && Count(cases, IsFix) > 0
    && EnoughAndHighEnough(ControlTally(cases, Negative), p.minNegative, p.minNegativeRate)
    && EnoughAndHighEnough(ControlTally(cases, Regression), p.minRegression, p.minRegressionRate)
    && (Count(cases, IsCriticalFailure) > 0 ==> p.allowCritical)
  }

  predicate RatioApproved(ratio: Option<real>, maximum: real, p: Policy) {
    if ratio.None? then !p.requireMetrics else ratio.value <= maximum
  }

  predicate MetricsApproved(metrics: Option<Metrics>, p: Policy) {
    match metrics
    case None => !p.requireMetrics
    case Some(m) =>
      && RatioApproved(ChangeRatio(m.baseline.cost, m.candidate.cost), p.maxCostIncrease, p)
      && RatioApproved(ChangeRatio(m.baseline.latency, m.candidate.latency), p.maxLatencyIncrease, p)
  }

  predicate SimpleApproved(c: ChangeCase, p: Policy) {
    && c.requirement == Clear && (p.requireIndependentOracle ==> c.oracleIndependent)
    && EnoughAndHighEnough(TrialTally(c.reproduction), p.minReproductionTrials, p.minReproductionRate)
    && c.evidenceAgainst > 0 && c.changedSurfaces <= p.maxChangedSurfaces
  }

  /** What an approval says about the case. */
  predicate Approvable(c: ChangeCase, p: Policy) {
    SimpleApproved(c, p) && AttributionApproved(c, p) && ControlsApproved(c.cases, p) && MetricsApproved(c.metrics, p)
  }

  lemma ClearAttribution(c: ChangeCase, p: Policy)
    ensures AllClear(AttributionFindings(c, p)) <==> AttributionApproved(c, p)
  {
    hide Sort, RoundTo, Count, Rate;
    var ranked := Ranked(c.hypotheses);
    var findings := AttributionFindings(c, p);
    if ranked != [] {
      var first := findings[..3];
      var rest := InterventionFindings(ranked[0].intervention, p);
      assert findings == first + rest;
      ClearParts(first, rest);
      if ranked[0].intervention.None? {
        assert rest[0].consequence == EvidenceNeeded;
      } else {
        assert AllClear(rest) <==> rest[0].consequence == NoConsequence && rest[1].consequence == NoConsequence;
      }
      assert AllClear(first) <==> first[0].consequence == NoConsequence && first[1].consequence == NoConsequence
                                  && first[2].consequence == NoConsequence;
    } else {
      assert findings[0].consequence == EvidenceNeeded;
    }
  }

  lemma ClearMetrics(c: ChangeCase, p: Policy)
    ensures AllClear(CostAndLatencyFindings(c, p)) <==> MetricsApproved(c.metrics, p)
  {
    hide ChangeRatio;
    match c.metrics
    case None =>
      if p.requireMetrics { assert CostAndLatencyFindings(c, p)[0].consequence == Conditional; }
    case Some(m) =>
      var cost := MetricFindings(MET001, ChangeRatio(m.baseline.cost, m.candidate.cost), p.maxCostIncrease, p);
      var latency := MetricFindings(MET002, ChangeRatio(m.baseline.latency, m.candidate.latency), p.maxLatencyIncrease, p);
      ClearParts(cost, latency);
      ClearRatio(MET001, ChangeRatio(m.baseline.cost, m.candidate.cost), p.maxCostIncrease, p);
      ClearRatio(MET002, ChangeRatio(m.baseline.latency, m.candidate.latency), p.maxLatencyIncrease, p);
  }

  lemma ClearRatio(code: Code, ratio: Option<real>, maximum: real, p: Policy)
    ensures AllClear(MetricFindings(code, ratio, maximum, p)) <==> RatioApproved(ratio, maximum, p)
  {
    var findings := MetricFindings(code, ratio, maximum, p);
    if findings != [] {
      assert AllClear(findings) <==> findings[0].consequence == NoConsequence;
    }
  }

  lemma ClearSimple(c: ChangeCase, p: Policy)
    ensures AllClear(SimpleFindings(c, p)) <==>
              && c.requirement == Clear && (p.requireIndependentOracle ==> c.oracleIndependent)
              && EnoughAndHighEnough(TrialTally(c.reproduction), p.minReproductionTrials, p.minReproductionRate)
  {
    hide Count, Rate;
    var findings := SimpleFindings(c, p);
    assert AllClear(findings) <==> findings[0].consequence == NoConsequence && findings[1].consequence == NoConsequence
                                   && findings[2].consequence == NoConsequence;
  }

  lemma ClearControls(c: ChangeCase, p: Policy)
    ensures AllClear(ControlFindings(c, p)) <==>
              c.evidenceAgainst > 0 && c.changedSurfaces <= p.maxChangedSurfaces && ControlsApproved(c.cases, p)
  {
    hide Count, Rate, ControlTally;
    var findings := ControlFindings(c, p);
    assert AllClear(findings) <==> findings[0].consequence == NoConsequence && findings[1].consequence == NoConsequence
                                   && findings[2].consequence == NoConsequence && findings[3].consequence == NoConsequence
                                   && findings[4].consequence == NoConsequence;
  }

  /** The gate approves exactly the approvable cases. */
  lemma {:induction false} ApprovalIsExact(c: ChangeCase, p: Policy)
    ensures ReviewOf(c, p).decision == Approve <==> Approvable(c, p)
  {
    hide SimpleFindings, AttributionFindings, ControlFindings, CostAndLatencyFindings, AllClear, Among,
      AttributionApproved, ControlsApproved, MetricsApproved, EnoughAndHighEnough, DecisionFor;
    var simple, attribution := SimpleFindings(c, p), AttributionFindings(c, p);
    var controls, metrics := ControlFindings(c, p), CostAndLatencyFindings(c, p);
    ApproveMeansClear(Findings(c, p));
    ClearParts(simple + attribution + controls, metrics);
    ClearParts(simple + attribution, controls);
    ClearParts(simple, attribution);
    ClearSimple(c, p);
    ClearAttribution(c, p);
    ClearControls(c, p);
    ClearMetrics(c, p);
  }

  // ---------------------------------------------------------------- when a case is refused

  predicate RateRejects(t: Tally, minimum: int, minRate: real) {
    t.total >= minimum && BelowRate(t, minRate)
  }

  /** The evidence speaks against the change if this hypothesis leads. */
  predicate LeaderRejects(h: Hypothesis, c: ChangeCase, p: Policy) {
    || h.component != c.component
    || (h.intervention.Some? && RateRejects(TrialTally(h.intervention.value.trials), p.minInterventionTrials, p.minInterventionRate))
  }

  predicate AttributionRejects(c: ChangeCase, p: Policy) {
    var ranked := Ranked(c.hypotheses);
    ranked != [] && LeaderRejects(ranked[0], c, p)
  }

  predicate ControlsReject(cases: seq<ValidationCase>, p: Policy) {
    || (Count(cases, IsFix) > 0 && RateRejects(ControlTally(cases, Positive), p.minPositive, p.minPositiveRate))
    || RateRejects(ControlTally(cases, Negative), p.minNegative, p.minNegativeRate)
    || RateRejects(ControlTally(cases, Regression), p.minRegression, p.minRegressionRate)
    || (ControlTally(cases, Regression).total >= p.minRegression && Count(cases, IsCriticalFailure) > 0 && !p.allowCritical)
  }

  predicate Exceeds(ratio: Option<real>, maximum: real) { ratio.Some? && ratio.value > maximum }

  predicate MetricsExceed(metrics: Option<Metrics>, p: Policy) {
    metrics.Some? && (|| Exceeds(ChangeRatio(metrics.value.baseline.cost, metrics.value.candidate.cost), p.maxCostIncrease)
                      || Exceeds(ChangeRatio(metrics.value.baseline.latency, metrics.value.candidate.latency), p.maxLatencyIncrease))
  }

  /** Evidence other than the attribution speaks against the change. */
  predicate FirmlyContradicted(c: ChangeCase, p: Policy) {
    || RateRejects(TrialTally(c.reproduction), p.minReproductionTrials, p.minReproductionRate)
    || c.changedSurfaces > p.maxChangedSurfaces || ControlsReject(c.cases, p)
    || (p.blockOnMetrics && MetricsExceed(c.metrics, p))
  }

  /** The evidence speaks against the change. */
  predicate Contradicted(c: ChangeCase, p: Policy) {
    FirmlyContradicted(c, p) || AttributionRejects(c, p)
  }

  predicate AttributionLacks(c: ChangeCase, p: Policy) {
    var ranked := Ranked(c.hypotheses);
    || ranked == [] || ranked[0].confidence < p.minConfidence || Margin(ranked) < p.minMargin
    || ranked[0].intervention.None? || (p.requireIsolated && !ranked[0].intervention.value.isolated)
    || |ranked[0].intervention.value.trials| < p.minInterventionTrials
  }

  /** There is too little evidence, of some kind. */
  predicate Insufficient(c: ChangeCase, p: Policy) {
    || c.requirement == Unknown || (p.requireIndependentOracle && !c.oracleIndependent)
    || |c.reproduction| < p.minReproductionTrials || AttributionLacks(c, p) || c.evidenceAgainst == 0
    || ControlTally(c.cases, Positive).total < p.minPositive || Count(c.cases, IsFix) == 0
    || ControlTally(c.cases, Negative).total < p.minNegative || ControlTally(c.cases, Regression).total < p.minRegression
  }

  lemma AmongParts(x: Consequence, a: seq<Finding>, b: seq<Finding>)
    ensures Among(x, a + b) <==> Among(x, a) || Among(x, b)
  {
    var all := a + b;
    if Among(x, a) {
      var i :| 0 <= i < |a| && a[i].consequence == x;
      assert all[i].consequence == x;
    }
    if Among(x, b) {
      var i :| 0 <= i < |b| && b[i].consequence == x;
      assert all[|a| + i].consequence == x;
    }
  }

  lemma AmongAll(x: Consequence, c: ChangeCase, p: Policy)
    ensures Among(x, Findings(c, p)) <==>
              Among(x, SimpleFindings(c, p)) || Among(x, AttributionFindings(c, p))
              || Among(x, ControlFindings(c, p)) || Among(x, CostAndLatencyFindings(c, p))
  {
    hide SimpleFindings, AttributionFindings, ControlFindings, CostAndLatencyFindings, Among;
    AmongParts(x, SimpleFindings(c, p) + AttributionFindings(c, p) + ControlFindings(c, p), CostAndLatencyFindings(c, p));
    AmongParts(x, SimpleFindings(c, p) + AttributionFindings(c, p), ControlFindings(c, p));
    AmongParts(x, SimpleFindings(c, p), AttributionFindings(c, p));
  }

  lemma AmongThree(x: Consequence, s: seq<Finding>)
    requires |s| == 3
    ensures Among(x, s) <==> s[0].consequence == x || s[1].consequence == x || s[2].consequence == x
  {
  }

  lemma AmongFive(x: Consequence, s: seq<Finding>)
    requires |s| == 5
    ensures Among(x, s) <==> s[0].consequence == x || s[1].consequence == x || s[2].consequence == x
                             || s[3].consequence == x || s[4].consequence == x
  {
  }

  lemma AmongSimple(c: ChangeCase, p: Policy)
    ensures var s := SimpleFindings(c, p); var t := TrialTally(c.reproduction);
            && (Among(HumanReviewNeeded, s) <==> c.requirement in {Ambiguous, Conflicting})
            && (Among(Rejection, s) <==> RateRejects(t, p.minReproductionTrials, p.minReproductionRate))
            && (Among(EvidenceNeeded, s) <==> c.requirement == Unknown || (p.requireIndependentOracle && !c.oracleIndependent)
                                              || t.total < p.minReproductionTrials)
            && !Among(Conditional, s)
  {
    hide Among, BelowRate, Count;
    AmongThree(HumanReviewNeeded, SimpleFindings(c, p));
    AmongThree(Rejection, SimpleFindings(c, p));
    AmongThree(EvidenceNeeded, SimpleFindings(c, p));
    AmongThree(Conditional, SimpleFindings(c, p));
  }

  lemma AmongControls(c: ChangeCase, p: Policy)
    ensures var s := ControlFindings(c, p);
            && !Among(HumanReviewNeeded, s) && !Among(Conditional, s)
            && (Among(Rejection, s) <==> c.changedSurfaces > p.maxChangedSurfaces || ControlsReject(c.cases, p))
            && (Among(EvidenceNeeded, s) <==>
                  || c.evidenceAgainst == 0 || ControlTally(c.cases, Positive).total < p.minPositive || Count(c.cases, IsFix) == 0
                  || ControlTally(c.cases, Negative).total < p.minNegative || ControlTally(c.cases, Regression).total < p.minRegression)
  {
    hide Among, BelowRate, Count, ControlTally;
    var s := ControlFindings(c, p);
    AmongFive(HumanReviewNeeded, s);
    AmongFive(Rejection, s);
    AmongFive(EvidenceNeeded, s);
    AmongFive(Conditional, s);
  }

  lemma AmongAttribution(c: ChangeCase, p: Policy)
    ensures var s := AttributionFindings(c, p);
            && !Among(HumanReviewNeeded, s) && !Among(Conditional, s)
            && (Among(Rejection, s) <==> AttributionRejects(c, p))
            && (Among(EvidenceNeeded, s) <==> AttributionLacks(c, p))
  {
    hide BelowRate, Count, Sort, RoundTo;
    var s, ranked := AttributionFindings(c, p), Ranked(c.hypotheses);
    if ranked != [] {
      var intervention := ranked[0].intervention;
      var first, rest := s[..3], InterventionFindings(intervention, p);
      assert s == first + rest;
      forall x ensures Among(x, s) <==> Among(x, first) || Among(x, rest) { AmongParts(x, first, rest); }
      forall x ensures Among(x, first) <==> s[0].consequence == x || s[1].consequence == x || s[2].consequence == x {
        AmongThree(x, first);
      }
      forall x ensures Among(x, rest) <==> rest[0].consequence == x || (|rest| > 1 && rest[1].consequence == x) {
        if |rest| > 1 && rest[1].consequence == x { assert Among(x, rest); }
      }
      hide Among;
    } else {
      assert s[0].consequence == EvidenceNeeded;
    }
  }

  lemma AmongMetrics(c: ChangeCase, p: Policy)
    ensures var s := CostAndLatencyFindings(c, p);
            && !Among(HumanReviewNeeded, s) && !Among(EvidenceNeeded, s)
            && (Among(Rejection, s) <==> p.blockOnMetrics && MetricsExceed(c.metrics, p))
            && (Among(Rejection, s) || Among(Conditional, s) <==> !MetricsApproved(c.metrics, p))
  {
    hide ChangeRatio;
    match c.metrics
    case None =>
      if p.requireMetrics { assert CostAndLatencyFindings(c, p)[0].consequence == Conditional; }
    case Some(m) =>
      var cost := ChangeRatio(m.baseline.cost, m.candidate.cost);
      var latency := ChangeRatio(m.baseline.latency, m.candidate.latency);
      forall x ensures Among(x, CostAndLatencyFindings(c, p)) <==>
                         Among(x, MetricFindings(MET001, cost, p.maxCostIncrease, p))
                         || Among(x, MetricFindings(MET002, latency, p.maxLatencyIncrease, p)) {
        AmongParts(x, MetricFindings(MET001, cost, p.maxCostIncrease, p), MetricFindings(MET002, latency, p.maxLatencyIncrease, p));
      }
      AmongRatio(MET001, cost, p.maxCostIncrease, p);
      AmongRatio(MET002, latency, p.maxLatencyIncrease, p);
  }

  lemma AmongRatio(code: Code, ratio: Option<real>, maximum: real, p: Policy)
    ensures var s := MetricFindings(code, ratio, maximum, p);
            && !Among(HumanReviewNeeded, s) && !Among(EvidenceNeeded, s)
            && (Among(Rejection, s) <==> p.blockOnMetrics && Exceeds(ratio, maximum))
            && (Among(Rejection, s) || Among(Conditional, s) <==> !RatioApproved(ratio, maximum, p))
  {
    var s := MetricFindings(code, ratio, maximum, p);
    if s != [] { assert Among(s[0].consequence, s); }
  }

  /** The decision, in terms of the evidence alone: a doubtful requirement goes
      to a human, contradicting evidence rejects, missing evidence asks for
      more, and only metrics can make a pass conditional. */
  lemma {:induction false} DecisionIsExact(c: ChangeCase, p: Policy)
    ensures ReviewOf(c, p).decision ==
              if c.requirement in {Ambiguous, Conflicting} then HumanReview
              else if Contradicted(c, p) then Reject
              else if Insufficient(c, p) then NeedsEvidence
              else if !MetricsApproved(c.metrics, p) then ConditionalPass
              else Approve
  {
    hide Findings, SimpleFindings, AttributionFindings, ControlFindings, CostAndLatencyFindings, Among, RateRejects, AttributionRejects,
      AttributionLacks, ControlsReject, MetricsExceed, MetricsApproved, Count, ControlTally;
    AmongAll(HumanReviewNeeded, c, p);
    AmongAll(Rejection, c, p);
    AmongAll(EvidenceNeeded, c, p);
    AmongAll(Conditional, c, p);
    AmongSimple(c, p);
    AmongAttribution(c, p);
    AmongControls(c, p);
    AmongMetrics(c, p);
  }

  // ---------------------------------------------------------------- looser policies

  /** Every threshold of q is at most as demanding as p's. */
  predicate Looser(q: Policy, p: Policy) {
    && q.minReproductionTrials <= p.minReproductionTrials && q.minReproductionRate <= p.minReproductionRate
    && (q.requireIndependentOracle ==> p.requireIndependentOracle)
    && q.minConfidence <= p.minConfidence && q.minMargin <= p.minMargin
    && q.minInterventionTrials <= p.minInterventionTrials && q.minInterventionRate <= p.minInterventionRate
    && (q.requireIsolated ==> p.requireIsolated) && q.maxChangedSurfaces >= p.maxChangedSurfaces
    && q.minPositive <= p.minPositive && q.minPositiveRate <= p.minPositiveRate
    && q.minNegative <= p.minNegative && q.minNegativeRate <= p.minNegativeRate
    && q.minRegression <= p.minRegression && q.minRegressionRate <= p.minRegressionRate
    && (p.allowCritical ==> q.allowCritical) && (q.requireMetrics ==> p.requireMetrics)
    && q.maxCostIncrease >= p.maxCostIncrease && q.maxLatencyIncrease >= p.maxLatencyIncrease
  }

  /** A case approved under a stricter policy is approved under every looser one. */
  lemma LooserPolicyKeepsApproval(c: ChangeCase, p: Policy, q: Policy)
    requires Looser(q, p) && ReviewOf(c, p).decision == Approve
    ensures ReviewOf(c, q).decision == Approve
  {
    hide ReviewOf, Ranked, Margin, ControlTally, TrialTally, ChangeRatio, Rate, Count;
    ApprovalIsExact(c, p);
    ApprovalIsExact(c, q);
  }

  // ---------------------------------------------------------------- better evidence

  /** At least as many in all, and no more failures. */
  predicate NoWorse(t: Tally, u: Tally) {
    u.total >= t.total && u.total - u.passed <= t.total - t.passed
  }

  predicate ValidTally(t: Tally) { t.passed <= t.total }

  lemma RatesAreOrdered(a: real, n: real, b: real, m: real)
    requires 0.0 < n <= m && 0.0 <= a <= n && m - b <= n - a
    ensures a / n <= b / m
  {
    var lost, lost' := n - a, m - b;
    assert a / n == 1.0 - lost / n by { Complement(a, n); }
    assert b / m == 1.0 - lost' / m by { Complement(b, m); }
    QuotientMonotone(lost', lost, m);
    SmallerShare(lost, n, m);
  }

  lemma Complement(a: real, n: real)
    requires n > 0.0
    ensures a / n == 1.0 - (n - a) / n
  {
    assert (n - a) / n == n / n - a / n;
  }

  lemma SmallerShare(x: real, n: real, m: real)
    requires 0.0 <= x && 0.0 < n <= m
    ensures x / m <= x / n
  {
    var q := x / m;
    assert q >= 0.0;
    ProductMonotone(n, m, q);
    assert q * m == x;
    assert n * q <= x;
    QuotientMonotone(n * q, x, n);
    assert n * q / n == q;
  }

  lemma NoWorseRate(t: Tally, u: Tally, minRate: real)
    requires ValidTally(t) && ValidTally(u) && NoWorse(t, u) && !BelowRate(t, minRate) && t.total > 0
    ensures !BelowRate(u, minRate)
  {
    RatesAreOrdered(t.passed as real, t.total as real, u.passed as real, u.total as real);
    RoundToMonotone(t.passed as real / t.total as real, u.passed as real / u.total as real, SIX_DIGITS);
  }

  lemma NoWorseStays(t: Tally, u: Tally, minimum: int, minRate: real)
    requires ValidTally(t) && ValidTally(u) && NoWorse(t, u) && minimum >= 1 && EnoughAndHighEnough(t, minimum, minRate)
    ensures EnoughAndHighEnough(u, minimum, minRate)
  {
    hide BelowRate;
    NoWorseRate(t, u, minRate);
  }

  /** The same hypothesis with no worse intervention evidence. */
  predicate Improved(a: Hypothesis, b: Hypothesis) {
    && b.component == a.component && b.confidence == a.confidence
    && (a.intervention.Some? ==> && b.intervention.Some? && b.intervention.value.isolated == a.intervention.value.isolated
                                 && NoWorse(TrialTally(a.intervention.value.trials), TrialTally(b.intervention.value.trials)))
  }

  ghost predicate AllImproved(s: seq<Hypothesis>, t: seq<Hypothesis>) {
    |t| == |s| && forall i :: 0 <= i < |s| ==> Improved(s[i], t[i])
  }

  lemma SameConfidence(a: Hypothesis, b: Hypothesis)
    requires Improved(a, b)
    ensures a.confidence == b.confidence
  {
  }

  lemma ImprovedSnoc(s: seq<Hypothesis>, t: seq<Hypothesis>, x: Hypothesis, y: Hypothesis)
    ensures |s| == |t| ==> (AllImproved(s + [x], t + [y]) <==> AllImproved(s, t) && Improved(x, y))
  {
    hide Improved;
    if |s| == |t| && AllImproved(s + [x], t + [y]) {
      assert Improved((s + [x])[|s|], (t + [y])[|s|]);
      assert forall i :: 0 <= i < |s| ==> s[i] == (s + [x])[i] && t[i] == (t + [y])[i];
    }
  }

  lemma {:induction false} InsertImproved(s: seq<Hypothesis>, t: seq<Hypothesis>, x: Hypothesis, y: Hypothesis)
    requires AllImproved(s, t) && Improved(x, y)
    ensures AllImproved(Insert(s, x, MoreConfident), Insert(t, y, MoreConfident))
  {
    SameConfidence(x, y);
    if s != [] {
      var n := |s| - 1;
      var front, front' := s[..n], t[..n];
      assert s == front + [s[n]] && t == front' + [t[n]];
      SameConfidence(s[n], t[n]);
      hide Improved, AllImproved, Insert;
      ImprovedSnoc(front, front', s[n], t[n]);
      InsertImproved(front, front', x, y);
      InsertSnoc(front, s[n], x, MoreConfident);
      InsertSnoc(front', t[n], y, MoreConfident);
      ImprovedSnoc(s, t, x, y);
      ImprovedSnoc(Insert(front, x, MoreConfident), Insert(front', y, MoreConfident), s[n], t[n]);
    }
  }

  lemma {:induction false} RankedImproved(s: seq<Hypothesis>, t: seq<Hypothesis>)
    requires AllImproved(s, t)
    ensures AllImproved(Ranked(s), Ranked(t))
  {
    hide TrialTally;
    if s != [] {
      RankedImproved(s[..|s| - 1], t[..|t| - 1]);
      InsertImproved(Ranked(s[..|s| - 1]), Ranked(t[..|t| - 1]), s[|s| - 1], t[|t| - 1]);
    }
  }

  ghost predicate NoWorseControls(s: seq<ValidationCase>, t: seq<ValidationCase>) {
    && NoWorse(ControlTally(s, Positive), ControlTally(t, Positive))
    && NoWorse(ControlTally(s, Negative), ControlTally(t, Negative))
    && NoWorse(ControlTally(s, Regression), ControlTally(t, Regression))
    && Count(t, IsFix) >= Count(s, IsFix) && Count(t, IsCriticalFailure) <= Count(s, IsCriticalFailure)
  }

  /** d is c with no worse evidence. */
  ghost predicate NoWorseCase(c: ChangeCase, d: ChangeCase) {
    && d == c.(reproduction := d.reproduction, hypotheses := d.hypotheses, cases := d.cases)
    && NoWorse(TrialTally(c.reproduction), TrialTally(d.reproduction))
    && AllImproved(c.hypotheses, d.hypotheses) && NoWorseControls(c.cases, d.cases)
  }

  /** The minimums that parse_policy accepts. */
  predicate ParsedMinimums(p: Policy) {
    && p.minReproductionTrials >= 1 && p.minInterventionTrials >= 1 && p.maxChangedSurfaces >= 1
    && p.minPositive >= 1 && p.minNegative >= 1 && p.minRegression >= 1
  }

  lemma {:induction false} FewerThan<T>(s: seq<T>, p: T -> bool, q: T -> bool)
    requires forall x :: p(x) ==> q(x)
    ensures Count(s, p) <= Count(s, q)
  {
    if s != [] { FewerThan(s[..|s| - 1], p, q); }
  }

  lemma ControlTallyValid(s: seq<ValidationCase>, kind: ValidationKind)
    ensures ValidTally(ControlTally(s, kind))
  {
    FewerThan(s, PassedEligible(kind), Eligible(kind));
  }

  lemma NoWorseIsApproved(c: ChangeCase, d: ChangeCase, p: Policy)
    requires ParsedMinimums(p) && NoWorseCase(c, d) && Approvable(c, p)
    ensures Approvable(d, p)
  {
    hide Count, Rate, Ranked, RoundTo, ChangeRatio, BelowRate;
    RankedImproved(c.hypotheses, d.hypotheses);
    var top, top' := Ranked(c.hypotheses)[0], Ranked(d.hypotheses)[0];
    NoWorseStays(TrialTally(c.reproduction), TrialTally(d.reproduction), p.minReproductionTrials, p.minReproductionRate);
    NoWorseStays(TrialTally(top.intervention.value.trials), TrialTally(top'.intervention.value.trials),
                 p.minInterventionTrials, p.minInterventionRate);
    NoWorseControlsApproved(c.cases, d.cases, p);
  }

  lemma NoWorseControlsApproved(s: seq<ValidationCase>, t: seq<ValidationCase>, p: Policy)
    requires ParsedMinimums(p) && NoWorseControls(s, t) && ControlsApproved(s, p)
    ensures ControlsApproved(t, p)
  {
    hide Count, Rate, ControlTally, EnoughAndHighEnough;
    ControlTallyValid(s, Positive);
    ControlTallyValid(t, Positive);
    ControlTallyValid(s, Negative);
    ControlTallyValid(t, Negative);
    ControlTallyValid(s, Regression);
    ControlTallyValid(t, Regression);
    NoWorseStays(ControlTally(s, Positive), ControlTally(t, Positive), p.minPositive, p.minPositiveRate);
    NoWorseStays(ControlTally(s, Negative), ControlTally(t, Negative), p.minNegative, p.minNegativeRate);
    NoWorseStays(ControlTally(s, Regression), ControlTally(t, Regression), p.minRegression, p.minRegressionRate);
  }

  /** One improvement of the evidence: a failed trial or candidate result becomes
      a pass, or a passing trial or eligible passing control is added anywhere. */
  datatype Improvement =
    | PassTrial(i: nat)
    | AddTrial(at: nat, id: string)
    | PassInterventionTrial(h: nat, i: nat)
    | AddInterventionTrial(h: nat, at: nat, id: string)
    | PassCandidate(i: nat)
    | AddControl(at: nat, control: ValidationCase)

  predicate Applies(c: ChangeCase, change: Improvement) {
    match change
    case PassTrial(i) => i < |c.reproduction|
    case AddTrial(at, _) => at <= |c.reproduction|
    case PassInterventionTrial(h, i) =>
      h < |c.hypotheses| && c.hypotheses[h].intervention.Some? && i < |c.hypotheses[h].intervention.value.trials|
    case AddInterventionTrial(h, at, _) =>
      h < |c.hypotheses| && c.hypotheses[h].intervention.Some? && at <= |c.hypotheses[h].intervention.value.trials|
    case PassCandidate(i) => i < |c.cases|
    case AddControl(at, control) => at <= |c.cases| && control.candidatePassed && Eligible(control.kind)(control)
  }

  function Passed(trials: seq<Trial>, i: nat): seq<Trial>
    requires i < |trials|
  {
    trials[i := trials[i].(passed := true)]
  }

  function Added<T>(s: seq<T>, at: nat, x: T): seq<T>
    requires at <= |s|
  {
    s[..at] + [x] + s[at..]
  }

  function WithTrials(hypotheses: seq<Hypothesis>, h: nat, trials: seq<Trial>): seq<Hypothesis>
    requires h < |hypotheses| && hypotheses[h].intervention.Some?
  {
    hypotheses[h := hypotheses[h].(intervention := Some(hypotheses[h].intervention.value.(trials := trials)))]
  }

  function Apply(c: ChangeCase, change: Improvement): ChangeCase
    requires Applies(c, change)
  {
    match change
    case PassTrial(i) => c.(reproduction := Passed(c.reproduction, i))
    case AddTrial(at, id) => c.(reproduction := Added(c.reproduction, at, Trial(id, true)))
    case PassInterventionTrial(h, i) =>
      c.(hypotheses := WithTrials(c.hypotheses, h, Passed(c.hypotheses[h].intervention.value.trials, i)))
    case AddInterventionTrial(h, at, id) =>
      c.(hypotheses := WithTrials(c.hypotheses, h, Added(c.hypotheses[h].intervention.value.trials, at, Trial(id, true))))
    case PassCandidate(i) => c.(cases := c.cases[i := c.cases[i].(candidatePassed := true)])
    case AddControl(at, control) => c.(cases := Added(c.cases, at, control))
  }

  lemma PassedIsNoWorse(trials: seq<Trial>, i: nat)
    requires i < |trials|
    ensures NoWorse(TrialTally(trials), TrialTally(Passed(trials, i)))
  {
    CountUpdate(trials, i, trials[i].(passed := true), TrialPassed);
  }

  lemma AddedIsNoWorse(trials: seq<Trial>, at: nat, id: string)
    requires at <= |trials|
    ensures NoWorse(TrialTally(trials), TrialTally(Added(trials, at, Trial(id, true))))
  {
    CountInsert(trials, at, Trial(id, true), TrialPassed);
  }

  lemma PassedControl(cases: seq<ValidationCase>, i: nat)
    requires i < |cases|
    ensures NoWorseControls(cases, cases[i := cases[i].(candidatePassed := true)])
  {
    hide Count;
    var x := cases[i].(candidatePassed := true);
    forall kind ensures NoWorse(ControlTally(cases, kind), ControlTally(cases[i := x], kind)) {
      CountUpdate(cases, i, x, PassedEligible(kind));
      CountUpdate(cases, i, x, Eligible(kind));
    }
    CountUpdate(cases, i, x, IsFix);
    CountUpdate(cases, i, x, IsCriticalFailure);
  }

  lemma AddedControl(cases: seq<ValidationCase>, at: nat, control: ValidationCase)
    requires at <= |cases| && control.candidatePassed && Eligible(control.kind)(control)
    ensures NoWorseControls(cases, Added(cases, at, control))
  {
    hide Count;
    forall kind ensures NoWorse(ControlTally(cases, kind), ControlTally(Added(cases, at, control), kind)) {
      CountInsert(cases, at, control, PassedEligible(kind));
      CountInsert(cases, at, control, Eligible(kind));
    }
    CountInsert(cases, at, control, IsFix);
    CountInsert(cases, at, control, IsCriticalFailure);
  }

  lemma ImprovementIsNoWorse(c: ChangeCase, change: Improvement)
    requires Applies(c, change)
    ensures NoWorseCase(c, Apply(c, change))
  {
    hide TrialTally, NoWorseControls, Passed, Added;
    SameIsNoWorse(c);
    match change
    case PassTrial(i) => PassedIsNoWorse(c.reproduction, i);
    case AddTrial(at, id) => AddedIsNoWorse(c.reproduction, at, id);
    case PassInterventionTrial(h, i) => PassedIsNoWorse(c.hypotheses[h].intervention.value.trials, i);
    case AddInterventionTrial(h, at, id) => AddedIsNoWorse(c.hypotheses[h].intervention.value.trials, at, id);
    case PassCandidate(i) => PassedControl(c.cases, i);
    case AddControl(at, control) => AddedControl(c.cases, at, control); assert Apply(c, change).cases == Added(c.cases, at, control);
  }

  lemma SameIsNoWorse(c: ChangeCase)
    ensures NoWorseCase(c, c)
  {
    hide Count;
  }

  /** No improvement of the evidence ever loses an approval. */
  lemma ImprovementKeepsApproval(c: ChangeCase, change: Improvement, p: Policy)
    requires ParsedMinimums(p) && Applies(c, change) && ReviewOf(c, p).decision == Approve
    ensures ReviewOf(Apply(c, change), p).decision == Approve
  {
    hide ReviewOf, Approvable, NoWorseCase, Applies;
    ApprovalIsExact(c, p);
    ImprovementIsNoWorse(c, change);
    NoWorseIsApproved(c, Apply(c, change), p);
    ApprovalIsExact(Apply(c, change), p);
  }

  // ---------------------------------------------------------------- order does not matter

  function ConfidenceOf(h: Hypothesis): real { h.confidence }

  predicate Descending(a: real, b: real) { a >= b }

  lemma ConfidenceOrder()
    ensures Preorder(MoreConfident)
  {
  }

  lemma {:induction false} InsertConfidences(s: seq<Hypothesis>, x: Hypothesis)
    ensures Map(Insert(s, x, MoreConfident), ConfidenceOf) == Insert(Map(s, ConfidenceOf), x.confidence, Descending)
  {
    if s == [] {
      assert Map([x], ConfidenceOf) == [x.confidence];
    } else {
      var front, y := s[..|s| - 1], s[|s| - 1];
      assert s == front + [y];
      hide Insert, Map;
      InsertConfidences(front, x);
      InsertSnoc(front, y, x, MoreConfident);
      InsertSnoc(Map(front, ConfidenceOf), y.confidence, x.confidence, Descending);
      MapSnoc(front, y, ConfidenceOf);
      MapSnoc(s, x, ConfidenceOf);
      MapSnoc(Insert(front, x, MoreConfident), y, ConfidenceOf);
    }
  }

  lemma {:induction false} RankedConfidences(s: seq<Hypothesis>)
    ensures Map(Ranked(s), ConfidenceOf) == Sort(Map(s, ConfidenceOf), Descending)
  {
    if s != [] {
      var front, x := s[..|s| - 1], s[|s| - 1];
      assert s == front + [x];
      hide Insert, Map, Sort;
      RankedConfidences(front);
      SortSnoc(front, x, MoreConfident);
      MapSnoc(front, x, ConfidenceOf);
      SortSnoc(Map(front, ConfidenceOf), x.confidence, Descending);
      InsertConfidences(Ranked(front), x);
    }
  }

  /** The ranking's confidences do not depend on the order of the hypotheses. */
  lemma SameConfidences(s: seq<Hypothesis>, t: seq<Hypothesis>)
    requires multiset(s) == multiset(t)
    ensures Map(Ranked(s), ConfidenceOf) == Map(Ranked(t), ConfidenceOf)
  {
    hide Sort, Ranked;
    RankedConfidences(s);
    RankedConfidences(t);
    MapPermutes(s, t, ConfidenceOf);
    SortCanonical(Map(s, ConfidenceOf), Map(t, ConfidenceOf), Descending);
  }

  /** A leader ahead of the runner-up leads in every order. */
  lemma SameLeader(s: seq<Hypothesis>, t: seq<Hypothesis>)
    requires multiset(s) == multiset(t) && s != []
    requires |s| == 1 || Ranked(s)[0].confidence > Ranked(s)[1].confidence
    ensures t != [] && Ranked(t)[0] == Ranked(s)[0]
  {
    var a, b := Ranked(s), Ranked(t);
    SameConfidences(s, t);
    SameElements(a, b);
    ConfidenceOrder();
    SortSorts(s, MoreConfident);
    forall j | 0 < j < |a| ensures a[j].confidence < a[0].confidence {
      assert j > 1 ==> MoreConfident(a[1], a[j]);
    }
    assert b[0] in a;
    var i :| 0 <= i < |a| && a[i] == b[0];
    assert Map(a, ConfidenceOf)[0] == Map(b, ConfidenceOf)[0];
  }

  lemma PositiveMarginLeads(ranked: seq<Hypothesis>)
    requires |ranked| > 1 && Margin(ranked) > 0.0
    ensures ranked[0].confidence > ranked[1].confidence
  {
    var gap := ranked[0].confidence - ranked[1].confidence;
    if gap <= 0.0 {
      RoundToMonotone(gap, 0.0, SIX_DIGITS);
      RoundToFixes(0, 0.0, SIX_DIGITS);
    }
  }

  /** The same evidence in any order. */
  ghost predicate SameEvidence(c: ChangeCase, d: ChangeCase) {
    && d == c.(reproduction := d.reproduction, hypotheses := d.hypotheses, cases := d.cases)
    && multiset(d.reproduction) == multiset(c.reproduction)
    && multiset(d.hypotheses) == multiset(c.hypotheses)
    && multiset(d.cases) == multiset(c.cases)
  }

  lemma SameAttribution(c: ChangeCase, d: ChangeCase, p: Policy)
    requires SameEvidence(c, d) && p.minMargin > 0.0 && AttributionApproved(c, p)
    ensures AttributionApproved(d, p)
  {
    hide RoundTo, Sort, InterventionApproved;
    var a, b := Ranked(c.hypotheses), Ranked(d.hypotheses);
    SameLength(c.hypotheses, d.hypotheses);
    if |a| > 1 {
      PositiveMarginLeads(a);
    }
    SameLeader(c.hypotheses, d.hypotheses);
    SameConfidences(c.hypotheses, d.hypotheses);
    if |a| > 1 {
      assert Map(a, ConfidenceOf)[1] == Map(b, ConfidenceOf)[1];
    }
  }

  lemma SameTallies(c: ChangeCase, d: ChangeCase)
    requires SameEvidence(c, d)
    ensures TrialTally(c.reproduction) == TrialTally(d.reproduction)
    ensures forall kind :: ControlTally(c.cases, kind) == ControlTally(d.cases, kind)
    ensures Count(c.cases, IsFix) == Count(d.cases, IsFix) && Count(c.cases, IsCriticalFailure) == Count(d.cases, IsCriticalFailure)
  {
    hide Count;
    CountPermutes(c.reproduction, d.reproduction, TrialPassed);
    SameLength(c.reproduction, d.reproduction);
    forall kind ensures ControlTally(c.cases, kind) == ControlTally(d.cases, kind) {
      CountPermutes(c.cases, d.cases, PassedEligible(kind));
      CountPermutes(c.cases, d.cases, Eligible(kind));
    }
    CountPermutes(c.cases, d.cases, IsFix);
    CountPermutes(c.cases, d.cases, IsCriticalFailure);
  }

  lemma SameEvidenceApproved(c: ChangeCase, d: ChangeCase, p: Policy)
    requires SameEvidence(c, d) && p.minMargin > 0.0 && Approvable(c, p)
    ensures Approvable(d, p)
  {
    hide AttributionApproved, Count, ControlTally, Rate, MetricsApproved;
    SameAttribution(c, d, p);
    SameTallies(c, d);
  }

  /** With a positive margin the order of trials, hypotheses and controls does
      not decide approval. */
  lemma ApprovalIgnoresOrder(c: ChangeCase, d: ChangeCase, p: Policy)
    requires SameEvidence(c, d) && p.minMargin > 0.0
    ensures ReviewOf(c, p).decision == Approve <==> ReviewOf(d, p).decision == Approve
  {
    hide ReviewOf, Approvable;
    ApprovalIsExact(c, p);
    ApprovalIsExact(d, p);
    if Approvable(c, p) { SameEvidenceApproved(c, d, p); }
    if Approvable(d, p) { SameEvidenceApproved(d, c, p); }
  }

  // ---------------------------------------------------------------- codes

  function CodeRank(code: Code): nat {
    match code
    case REQ001 => 0
    case VER001 => 1
    case VER002 => 2
    case ATT001 => 3
    case ATT002 => 4
    case ATT003 => 5
    case ATT004 => 6
    case ATT005 => 7
    case NULL001 => 8
    case MIN001 => 9
    case VAL001 => 10
    case VAL002 => 11
    case VAL003 => 12
    case MET001 => 13
    case MET002 => 14
  }

  /** Codes in reporting order, all from first on and before last. */
  ghost predicate Ordered(findings: seq<Finding>, first: nat, last: nat) {
    && (forall i :: 0 <= i < |findings| ==> first <= CodeRank(findings[i].code) < last)
    && (forall i, j :: 0 <= i < j < |findings| ==> CodeRank(findings[i].code) < CodeRank(findings[j].code))
    && |findings| <= last - first
  }

  lemma OrderedParts(a: seq<Finding>, b: seq<Finding>, first: nat, middle: nat, last: nat)
    requires first <= middle <= last && Ordered(a, first, middle) && Ordered(b, middle, last)
    ensures Ordered(a + b, first, last)
  {
  }

  lemma PartsOrdered(c: ChangeCase, p: Policy)
    ensures Ordered(SimpleFindings(c, p), 0, 3) && Ordered(ControlFindings(c, p), 8, 13)
  {
    hide Count, Rate, ControlTally, TrialTally;
  }

  lemma AttributionOrdered(c: ChangeCase, p: Policy)
    ensures Ordered(AttributionFindings(c, p), 3, 8)
  {
    hide Count, Rate, TrialTally, Sort, RoundTo;
  }

  lemma MetricsOrdered(c: ChangeCase, p: Policy)
    ensures Ordered(CostAndLatencyFindings(c, p), 13, 15)
  {
    hide ChangeRatio;
  }

  /** At most fifteen findings, no two with the same code, and a finding affects
      the decision exactly when its check did not pass. */
  lemma FindingsAreOrdered(c: ChangeCase, p: Policy)
    ensures Ordered(Findings(c, p), 0, 15)
  {
    hide SimpleFindings, AttributionFindings, ControlFindings, CostAndLatencyFindings, Ordered;
    var simple, attribution := SimpleFindings(c, p), AttributionFindings(c, p);
    PartsOrdered(c, p);
    AttributionOrdered(c, p);
    MetricsOrdered(c, p);
    OrderedParts(simple, attribution, 0, 3, 8);
    OrderedParts(simple + attribution, ControlFindings(c, p), 0, 8, 13);
    OrderedParts(simple + attribution + ControlFindings(c, p), CostAndLatencyFindings(c, p), 0, 13, 15);
  }
}
