/** What the numbers of the gate measure: approval by src/causure/engine.py in
    terms of the evidence as it was submitted, up to the rounding to six digits. */
module GateEvidence {
  import opened Vocabulary
  import opened Reals
  import opened Rounding
  import opened Sequences
  import opened Sorting
  import opened Engine
  import opened GateLimits

  /** Half a unit of the sixth digit. */
  const HALF_DIGIT: real := 0.0000005

  // ---------------------------------------------------------------- rates

  /** A share of passed among total meets a rate with some slack. */
  predicate ShareMeets(passed: nat, total: nat, rate: real, slack: real) {
    passed as real >= (rate + slack) * total as real
  }

  lemma ShareOf(passed: real, total: real, rate: real)
    requires 0.0 < total
    ensures passed >= rate * total <==> passed / total >= rate
  {
    QuotientTimes(passed, total);
    var share := passed / total;
    assert share * total == passed;
    if share >= rate {
      ProductMonotone(rate, share, total);
    } else {
      ProductIsPositive(rate - share, total, rate * total - share * total);
    }
  }

  lemma RateIsShare(t: Tally, rate: real)
    ensures ShareMeets(t.passed, t.total, rate, HALF_DIGIT) ==> !BelowRate(t, rate)
    ensures !BelowRate(t, rate) ==> ShareMeets(t.passed, t.total, rate, -HALF_DIGIT)
  {
    if t.total > 0 {
      RoundToNear(t.passed as real / t.total as real, SIX_DIGITS);
      ShareOf(t.passed as real, t.total as real, rate + HALF_DIGIT);
      ShareOf(t.passed as real, t.total as real, rate + -HALF_DIGIT);
      hide RoundTo;
    }
  }

  // ---------------------------------------------------------------- ratios

  /** The candidate's cost or latency stays within the bound, with some slack.
      Without a comparison it is within iff no metrics are required. */
  predicate StaysWithin(baseline: Option<real>, candidate: Option<real>, maximum: real, slack: real, required: bool) {
    if baseline.None? || candidate.None? then !required
    else if baseline.value == 0.0 then (if candidate.value == 0.0 then true else !required)
    else candidate.value <= baseline.value * (1.0 + maximum - slack)
  }

  lemma ShareAtMost(x: real, total: real, rate: real)
    requires 0.0 < total
    ensures x <= rate * total <==> x / total <= rate
  {
    ShareOf(-x, total, -rate);
    assert -x / total == -(x / total);
    assert -rate * total == -(rate * total);
  }

  lemma BoundAsIncrease(b: real, k: real, increase: real)
    ensures k <= b * (1.0 + increase) <==> k - b <= increase * b
  {
    assert b * (1.0 + increase) == b + increase * b;
  }

  lemma RatioIsRelative(b: real, k: real, maximum: real)
    requires b > 0.0
    ensures ChangeRatio(Some(b), Some(k)).Some?
    ensures k <= b * (1.0 + maximum - HALF_DIGIT) ==> ChangeRatio(Some(b), Some(k)).value <= maximum
    ensures ChangeRatio(Some(b), Some(k)).value <= maximum ==> k <= b * (1.0 + maximum + HALF_DIGIT)
  {
    hide RoundTo;
    var lower, upper := maximum - HALF_DIGIT, maximum + HALF_DIGIT;
    RoundToNear((k - b) / b, SIX_DIGITS);
    ShareAtMost(k - b, b, lower);
    ShareAtMost(k - b, b, upper);
    BoundAsIncrease(b, k, lower);
    BoundAsIncrease(b, k, upper);
    assert 1.0 + lower == 1.0 + maximum - HALF_DIGIT && 1.0 + upper == 1.0 + maximum + HALF_DIGIT;
  }

  lemma MetricsStayWithin(m: Metrics, p: Policy)
    requires ParsedPolicy(p) && ParsedSnapshot(m.baseline) && ParsedSnapshot(m.candidate)
    ensures RatioBetween(m.baseline.cost, m.candidate.cost, p.maxCostIncrease, p)
    ensures RatioBetween(m.baseline.latency, m.candidate.latency, p.maxLatencyIncrease, p)
  {
    RatioHolds(m.baseline.cost, m.candidate.cost, p.maxCostIncrease, p);
    RatioHolds(m.baseline.latency, m.candidate.latency, p.maxLatencyIncrease, p);
  }

  /** The check of one ratio lies between its two readings with slack. */
  predicate RatioBetween(baseline: Option<real>, candidate: Option<real>, maximum: real, p: Policy) {
    && (StaysWithin(baseline, candidate, maximum, HALF_DIGIT, p.requireMetrics) ==>
          RatioApproved(ChangeRatio(baseline, candidate), maximum, p))
    && (RatioApproved(ChangeRatio(baseline, candidate), maximum, p) ==>
          StaysWithin(baseline, candidate, maximum, -HALF_DIGIT, p.requireMetrics))
  }

  lemma RatioHolds(baseline: Option<real>, candidate: Option<real>, maximum: real, p: Policy)
    requires maximum >= 0.0 && (baseline.Some? ==> baseline.value >= 0.0)
    ensures RatioBetween(baseline, candidate, maximum, p)
  {
    if baseline.Some? && candidate.Some? && baseline.value > 0.0 {
      RatioIsRelative(baseline.value, candidate.value, maximum);
      hide ChangeRatio;
    }
  }

  // ---------------------------------------------------------------- the leading hypothesis

  /** The hypothesis at j is ahead of all others by the margin, with some slack,
      or alone and itself that confident; of equals the first one leads. */
  ghost predicate LeadsBy(hypotheses: seq<Hypothesis>, j: int, margin: real, slack: real) {
    && 0 <= j < |hypotheses|
    && (forall i :: 0 <= i < |hypotheses| ==> hypotheses[i].confidence <= hypotheses[j].confidence)
    && (forall i :: 0 <= i < j ==> hypotheses[i].confidence < hypotheses[j].confidence)
    && (forall i :: 0 <= i < |hypotheses| && i != j ==> hypotheses[j].confidence - hypotheses[i].confidence >= margin + slack)
    && (|hypotheses| == 1 ==> hypotheses[j].confidence >= margin + slack)
  }

  /** Position j holds the first of the most confident hypotheses. */
  ghost predicate IsFirstMost(s: seq<Hypothesis>, j: int) {
    && 0 <= j < |s| && (forall i :: 0 <= i < |s| ==> s[i].confidence <= s[j].confidence)
    && forall i :: 0 <= i < j ==> s[i].confidence < s[j].confidence
  }

  lemma InsertFirst(s: seq<Hypothesis>, x: Hypothesis)
    ensures Insert(s, x, MoreConfident) != []
    ensures s == [] ==> Insert(s, x, MoreConfident)[0] == x
    ensures s != [] && SortedBy(s, MoreConfident) ==>
              Insert(s, x, MoreConfident)[0] == if x.confidence <= s[0].confidence then s[0] else x
  {
    if s != [] {
      var n := |s| - 1;
      if !MoreConfident(s[n], x) {
        assert SortedBy(s, MoreConfident) ==> SortedBy(s[..n], MoreConfident);
        InsertFirst(s[..n], x);
      } else if n > 0 {
        assert SortedBy(s, MoreConfident) ==> MoreConfident(s[0], s[n]);
      }
    }
  }

  lemma RankedLength(s: seq<Hypothesis>)
    ensures |Ranked(s)| == |s|
  {
    hide Sort;
  }

  lemma RankedSnoc(front: seq<Hypothesis>, x: Hypothesis)
    ensures Ranked(front + [x]) != []
    ensures Ranked(front + [x])[0] == if front == [] || x.confidence > Ranked(front)[0].confidence then x else Ranked(front)[0]
  {
    hide Sort, Insert;
    RankedLength(front);
    ConfidenceOrder();
    SortSnoc(front, x, MoreConfident);
    SortSorts(front, MoreConfident);
    InsertFirst(Ranked(front), x);
  }

  lemma LaterIsFirstMost(s: seq<Hypothesis>, n: nat, k: nat)
    requires |s| == n + 1 && IsFirstMost(s[..n], k)
    ensures IsFirstMost(s, if s[n].confidence <= s[k].confidence then k else n)
  {
    var front := s[..n];
    assert forall i :: 0 <= i < n ==> s[i] == front[i];
  }

  /** The ranking is led by the first of the most confident hypotheses. */
  lemma {:induction false} RankingLeader(s: seq<Hypothesis>) returns (j: nat)
    requires s != []
    ensures IsFirstMost(s, j) && Ranked(s) != [] && Ranked(s)[0] == s[j]
  {
    hide Ranked;
    var n := |s| - 1;
    assert s == s[..n] + [s[n]];
    RankedSnoc(s[..n], s[n]);
    if n == 0 {
      j := 0;
    } else {
      var k := RankingLeader(s[..n]);
      LaterIsFirstMost(s, n, k);
      j := if s[n].confidence <= s[k].confidence then k else n;
    }
  }

  lemma RankedRest(s: seq<Hypothesis>, j: nat)
    requires j < |s| && Ranked(s) != [] && Ranked(s)[0] == s[j]
    ensures multiset(Ranked(s)[1..]) == multiset(Drop(s, j))
  {
    DropMultiset(s, j);
    assert multiset(Ranked(s)) == multiset(s);
    hide Sort, Ranked;
    assert Ranked(s) == [s[j]] + Ranked(s)[1..];
  }

  lemma RankedDescends(s: seq<Hypothesis>)
    ensures forall i, k :: 0 <= i < k < |Ranked(s)| ==> Ranked(s)[i].confidence >= Ranked(s)[k].confidence
  {
    ConfidenceOrder();
    SortSorts(s, MoreConfident);
    hide Sort;
    forall i, k | 0 <= i < k < |Ranked(s)| ensures Ranked(s)[i].confidence >= Ranked(s)[k].confidence {
      assert MoreConfident(Ranked(s)[i], Ranked(s)[k]);
    }
  }

  lemma DropKeeps<T>(s: seq<T>, j: nat, i: nat)
    requires j < |s| && i < |s| && i != j
    ensures s[i] in Drop(s, j)
  {
    assert Drop(s, j)[if i < j then i else i - 1] == s[i];
  }

  lemma DroppedFrom<T>(s: seq<T>, j: nat, x: T) returns (i: nat)
    requires j < |s| && x in Drop(s, j)
    ensures i < |s| && i != j && s[i] == x
  {
    var k :| 0 <= k < |Drop(s, j)| && Drop(s, j)[k] == x;
    i := if k < j then k else k + 1;
  }

  /** The runner-up is as confident as the best of the others. */
  lemma RankingRunnerUp(s: seq<Hypothesis>, j: nat)
    requires j < |s| && |s| > 1 && |Ranked(s)| == |s| && Ranked(s)[0] == s[j]
    ensures forall i :: 0 <= i < |s| && i != j ==> s[i].confidence <= Ranked(s)[1].confidence
    ensures exists i :: 0 <= i < |s| && i != j && s[i].confidence == Ranked(s)[1].confidence
  {
    hide Ranked, Drop;
    var others := Ranked(s)[1..];
    RankedRest(s, j);
    RankedDescends(s);
    SameElements(others, Drop(s, j));
    forall i | 0 <= i < |s| && i != j ensures s[i].confidence <= Ranked(s)[1].confidence {
      DropKeeps(s, j, i);
      var k :| 0 <= k < |others| && others[k] == s[i];
      assert Ranked(s)[k + 1] == s[i];
    }
    assert others[0] in others;
    var i := DroppedFrom(s, j, others[0]);
  }

  lemma MarginIsGap(s: seq<Hypothesis>, j: nat, margin: real)
    requires IsFirstMost(s, j) && Ranked(s) != [] && Ranked(s)[0] == s[j]
    ensures LeadsBy(s, j, margin, HALF_DIGIT) ==> Margin(Ranked(s)) >= margin
    ensures Margin(Ranked(s)) >= margin ==> LeadsBy(s, j, margin, -HALF_DIGIT)
  {
    hide Sort, Ranked, RoundTo;
    RoundToNear(s[j].confidence - RunnerUp(Ranked(s)), SIX_DIGITS);
    RankedLength(s);
    if |s| > 1 { RankingRunnerUp(s, j); }
  }

  // ---------------------------------------------------------------- approval in the open

  ghost predicate TrialsSuffice(trials: seq<Trial>, minimum: int, rate: real, slack: real) {
    |trials| >= minimum && ShareMeets(|set i | 0 <= i < |trials| && trials[i].passed|, |trials|, rate, slack)
  }

  /** Of the controls that count, enough, and enough of them pass with the candidate. */
  ghost predicate ControlsSuffice(cases: seq<ValidationCase>, kind: ValidationKind, minimum: int, rate: real, slack: real) {
    var counting := set i | 0 <= i < |cases| && cases[i].kind == kind && (kind == Positive || cases[i].baselinePassed);
    var passing := set i | 0 <= i < |cases| && cases[i].kind == kind
      && (kind == Positive || cases[i].baselinePassed) && cases[i].candidatePassed;
    |counting| >= minimum && ShareMeets(|passing|, |counting|, rate, slack)
  }

  ghost predicate AttributionSupports(c: ChangeCase, p: Policy, slack: real) {
    exists j :: LeadsBy(c.hypotheses, j, p.minMargin, slack) && LeaderSupports(c.hypotheses[j], c, p, slack)
  }

  ghost predicate LeaderSupports(h: Hypothesis, c: ChangeCase, p: Policy, slack: real) {
    && h.confidence >= p.minConfidence && h.component == c.component
    && h.intervention.Some? && (p.requireIsolated ==> h.intervention.value.isolated)
    && TrialsSuffice(h.intervention.value.trials, p.minInterventionTrials, p.minInterventionRate, slack)
  }

  ghost predicate ControlsSupport(cases: seq<ValidationCase>, p: Policy, slack: real) {
    && ControlsSuffice(cases, Positive, p.minPositive, p.minPositiveRate, slack)
    && (exists v :: v in cases && v.kind == Positive && !v.baselinePassed && v.candidatePassed)
    && ControlsSuffice(cases, Negative, p.minNegative, p.minNegativeRate, slack)
    && ControlsSuffice(cases, Regression, p.minRegression, p.minRegressionRate, slack)
    && (p.allowCritical || forall v :: v in cases && v.kind == Regression && v.critical && v.baselinePassed ==> v.candidatePassed)
  }

  ghost predicate MetricsSupport(metrics: Option<Metrics>, p: Policy, slack: real) {
    match metrics
    case None => !p.requireMetrics
    case Some(m) =>
      && StaysWithin(m.baseline.cost, m.candidate.cost, p.maxCostIncrease, slack, p.requireMetrics)
      && StaysWithin(m.baseline.latency, m.candidate.latency, p.maxLatencyIncrease, slack, p.requireMetrics)
  }

  /** Everything the policy asks of the evidence, with some slack on shares,
      margin and ratios. */
  ghost predicate Supported(c: ChangeCase, p: Policy, slack: real) {
    && c.requirement == Clear && (p.requireIndependentOracle ==> c.oracleIndependent)
    && TrialsSuffice(c.reproduction, p.minReproductionTrials, p.minReproductionRate, slack)
    && AttributionSupports(c, p, slack)
    && c.evidenceAgainst >= 1 && c.changedSurfaces <= p.maxChangedSurfaces
    && ControlsSupport(c.cases, p, slack) && MetricsSupport(c.metrics, p, slack)
  }

  lemma TrialsAgree(trials: seq<Trial>, minimum: int, rate: real)
    ensures TrialsSuffice(trials, minimum, rate, HALF_DIGIT) ==> EnoughAndHighEnough(TrialTally(trials), minimum, rate)
    ensures EnoughAndHighEnough(TrialTally(trials), minimum, rate) ==> TrialsSuffice(trials, minimum, rate, -HALF_DIGIT)
  {
    hide BelowRate, Count, ShareMeets;
    CountIsCardinality(trials, TrialPassed);
    assert Indices(trials, TrialPassed) == set i | 0 <= i < |trials| && trials[i].passed;
    RateIsShare(TrialTally(trials), rate);
  }

  lemma ControlsAgree(cases: seq<ValidationCase>, kind: ValidationKind, minimum: int, rate: real)
    ensures ControlsSuffice(cases, kind, minimum, rate, HALF_DIGIT) ==> EnoughAndHighEnough(ControlTally(cases, kind), minimum, rate)
    ensures EnoughAndHighEnough(ControlTally(cases, kind), minimum, rate) ==> ControlsSuffice(cases, kind, minimum, rate, -HALF_DIGIT)
  {
    hide BelowRate, Count, ShareMeets;
    CountIsCardinality(cases, Eligible(kind));
    CountIsCardinality(cases, PassedEligible(kind));
    assert Indices(cases, Eligible(kind))
           == set i | 0 <= i < |cases| && cases[i].kind == kind
                && (kind == Positive || cases[i].baselinePassed);
    assert Indices(cases, PassedEligible(kind))
           == set i | 0 <= i < |cases| && cases[i].kind == kind
                && (kind == Positive || cases[i].baselinePassed) && cases[i].candidatePassed;
    RateIsShare(ControlTally(cases, kind), rate);
  }

  lemma SomeCounted<T>(s: seq<T>, p: T -> bool)
    ensures Count(s, p) > 0 <==> exists x :: x in s && p(x)
  {
    CountIsFilterLength(s, p);
    NoneKept(s, p);
    if x :| x in s && p(x) {
      var i :| 0 <= i < |s| && s[i] == x;
    }
  }

  lemma SupportAgrees(cases: seq<ValidationCase>, p: Policy)
    ensures ControlsSupport(cases, p, HALF_DIGIT) ==> ControlsApproved(cases, p)
    ensures ControlsApproved(cases, p) ==> ControlsSupport(cases, p, -HALF_DIGIT)
  {
    hide EnoughAndHighEnough, ControlsSuffice, Count, ControlTally;
    ControlsAgree(cases, Positive, p.minPositive, p.minPositiveRate);
    ControlsAgree(cases, Negative, p.minNegative, p.minNegativeRate);
    ControlsAgree(cases, Regression, p.minRegression, p.minRegressionRate);
    SomeCounted(cases, IsFix);
    SomeCounted(cases, IsCriticalFailure);
  }

  lemma FirstMostIsUnique(s: seq<Hypothesis>, j: nat, k: nat)
    requires IsFirstMost(s, j) && IsFirstMost(s, k)
    ensures j == k
  {
    assert s[j].confidence <= s[k].confidence && s[k].confidence <= s[j].confidence;
  }

  lemma AttributionAgrees(c: ChangeCase, p: Policy)
    ensures AttributionSupports(c, p, HALF_DIGIT) ==> AttributionApproved(c, p)
    ensures AttributionApproved(c, p) ==> AttributionSupports(c, p, -HALF_DIGIT)
  {
    hide Ranked, Margin, TrialsSuffice, EnoughAndHighEnough, TrialTally;
    var s := c.hypotheses;
    RankedLength(s);
    if s != [] {
      var j := RankingLeader(s);
      MarginIsGap(s, j, p.minMargin);
      if s[j].intervention.Some? {
        TrialsAgree(s[j].intervention.value.trials, p.minInterventionTrials, p.minInterventionRate);
      }
      if k :| LeadsBy(s, k, p.minMargin, HALF_DIGIT) && LeaderSupports(s[k], c, p, HALF_DIGIT) {
        FirstMostIsUnique(s, j, k);
      }
      if AttributionApproved(c, p) {
        assert LeadsBy(s, j, p.minMargin, -HALF_DIGIT) && LeaderSupports(s[j], c, p, -HALF_DIGIT);
      }
    }
  }

  /** The gate approves every parsed case that meets the policy with half a unit
      of the sixth digit to spare, and none that misses it by more. */
  lemma ApprovalMeasuresEvidence(c: ChangeCase, p: Policy)
    requires ParsedPolicy(p) && ParsedCase(c)
    ensures Supported(c, p, 0.0000005) ==> ReviewOf(c, p).decision == Approve
    ensures ReviewOf(c, p).decision == Approve ==> Supported(c, p, -0.0000005)
  {
    hide ReviewOf, TrialsSuffice, AttributionSupports, ControlsSupport, AttributionApproved, ControlsApproved, ChangeRatio, TrialTally,
      EnoughAndHighEnough, StaysWithin, ParsedTrials, ParsedHypotheses, ParsedControls;
    ApprovalIsExact(c, p);
    TrialsAgree(c.reproduction, p.minReproductionTrials, p.minReproductionRate);
    AttributionAgrees(c, p);
    SupportAgrees(c.cases, p);
    if c.metrics.Some? { MetricsStayWithin(c.metrics.value, p); }
  }

  // ---------------------------------------------------------------- the metrics

  function Times(x: Option<real>, k: real): Option<real> {
    if x.None? then None else Some(x.value * k)
  }

  /** The case with cost and latency in other units. */
  function Rescaled(c: ChangeCase, k: real, l: real): ChangeCase {
    match c.metrics
    case None => c
    case Some(m) =>
      c.(metrics := Some(Metrics(Snapshot(Times(m.baseline.latency, l), Times(m.baseline.cost, k)),
                                 Snapshot(Times(m.candidate.latency, l), Times(m.candidate.cost, k)))))
  }

  lemma RatioScales(b: real, c: real, k: real)
    requires b != 0.0 && k > 0.0
    ensures b * k != 0.0 && (c * k - b * k) / (b * k) == (c - b) / b
  {
    if b > 0.0 { ProductIsPositive(b, k, b * k); } else { ProductIsPositive(-b, k, -b * k); }
    var q := (c - b) / b;
    QuotientTimes(c - b, b);
    assert q * b == c - b;
    assert q * (b * k) == q * b * k;
    assert q * b * k == c * k - b * k;
    QuotientTimes(q, b * k);
  }

  lemma ChangeOf(b: real, c: real)
    requires b != 0.0
    ensures ChangeRatio(Some(b), Some(c)) == Some(RoundTo((c - b) / b, SIX_DIGITS))
  {
  }

  lemma NonzeroScales(b: real, c: real, k: real, b': real, c': real)
    requires b != 0.0 && k > 0.0 && b' == b * k && c' == c * k
    ensures ChangeRatio(Some(b'), Some(c')) == ChangeRatio(Some(b), Some(c))
  {
    hide ChangeRatio, RoundTo;
    RatioScales(b, c, k);
    ChangeOf(b, c);
    ChangeOf(b', c');
  }

  lemma ZeroScales(c: real, k: real)
    requires k > 0.0
    ensures c * k == 0.0 <==> c == 0.0
  {
    if c > 0.0 { ProductIsPositive(c, k, c * k); }
    if c < 0.0 { ProductIsPositive(-c, k, -c * k); }
  }

  lemma ChangeScales(b: Option<real>, c: Option<real>, k: real)
    requires k > 0.0
    ensures ChangeRatio(Times(b, k), Times(c, k)) == ChangeRatio(b, c)
  {
    if b.Some? && c.Some? {
      if b.value != 0.0 {
        hide ChangeRatio;
        NonzeroScales(b.value, c.value, k, Times(b, k).value, Times(c, k).value);
      } else {
        hide RoundTo;
        ZeroScales(c.value, k);
        assert 0.0 * k == 0.0;
      }
    }
  }

  lemma OnlyMetricsDiffer(c: ChangeCase, metrics: Option<Metrics>, p: Policy)
    ensures var d := c.(metrics := metrics);
            SimpleFindings(d, p) == SimpleFindings(c, p) && AttributionFindings(d, p) == AttributionFindings(c, p)
            && ControlFindings(d, p) == ControlFindings(c, p)
  {
    hide Count, BelowRate, Sort, RoundTo;
  }

  /** The review does not depend on the units of cost and latency. */
  lemma UnitsDoNotMatter(c: ChangeCase, p: Policy, k: real, l: real)
    requires k > 0.0 && l > 0.0
    ensures ReviewOf(Rescaled(c, k, l), p) == ReviewOf(c, p)
  {
    hide ChangeRatio, Times, DecisionFor, SimpleFindings, AttributionFindings, ControlFindings, MetricFindings;
    if c.metrics.Some? {
      var m := c.metrics.value;
      ChangeScales(m.baseline.cost, m.candidate.cost, k);
      ChangeScales(m.baseline.latency, m.candidate.latency, l);
      OnlyMetricsDiffer(c, Rescaled(c, k, l).metrics, p);
      assert Findings(Rescaled(c, k, l), p) == Findings(c, p);
    }
  }

  ghost predicate Raises(c: ChangeCase, p: Policy, code: Code) {
    exists f :: f in Findings(c, p) && f.code == code && f.consequence != NoConsequence
  }

  /** What a metric's figures say: nothing to compare, clearly within the bound,
      or clearly beyond it. */
  ghost predicate MetricSays(c: ChangeCase, p: Policy, code: Code, baseline: Option<real>, candidate: Option<real>, maximum: real) {
    var comparable := baseline.Some? && candidate.Some? && (baseline.value != 0.0 || candidate.value == 0.0);
    && (!comparable ==> (Raises(c, p, code) <==> p.requireMetrics))
    && (comparable && baseline.value == 0.0 && maximum >= 0.0 ==> !Raises(c, p, code))
    && (comparable && baseline.value > 0.0 && candidate.value <= baseline.value * (1.0 + maximum - 0.0000005) ==> !Raises(c, p, code))
    && (comparable && baseline.value > 0.0 && candidate.value > baseline.value * (1.0 + maximum + 0.0000005) ==>
          Raises(c, p, code) && ReviewOf(c, p).decision != Approve
          && (p.blockOnMetrics && c.requirement in {Clear, Unknown} ==> ReviewOf(c, p).decision == Reject))
  }

  lemma RaisedAmong(c: ChangeCase, p: Policy, code: Code)
    requires code in {MET001, MET002}
    ensures Raises(c, p, code) <==>
              exists f :: f in CostAndLatencyFindings(c, p) && f.code == code && f.consequence != NoConsequence
  {
    hide CodeRank, CostAndLatencyFindings;
    PartsOrdered(c, p);
    AttributionOrdered(c, p);
    hide SimpleFindings, AttributionFindings, ControlFindings;
    LateCodes(code);
    forall f | f in SimpleFindings(c, p) || f in AttributionFindings(c, p) || f in ControlFindings(c, p) ensures f.code != code {
    }
  }

  lemma LateCodes(code: Code)
    ensures CodeRank(code) >= 13 <==> code in {MET001, MET002}
  {
  }

  lemma RaisedByRatio(code: Code, ratio: Option<real>, maximum: real, p: Policy)
    ensures var findings := MetricFindings(code, ratio, maximum, p);
            (exists f :: f in findings && f.consequence != NoConsequence) <==> !RatioApproved(ratio, maximum, p)
    ensures forall f :: f in MetricFindings(code, ratio, maximum, p) ==> f.code == code
  {
    var findings := MetricFindings(code, ratio, maximum, p);
    if findings != [] { assert findings[0] in findings; }
  }

  lemma RaisedExactly(c: ChangeCase, p: Policy)
    requires c.metrics.Some?
    ensures var m := c.metrics.value;
            && (Raises(c, p, MET001) <==> !RatioApproved(ChangeRatio(m.baseline.cost, m.candidate.cost), p.maxCostIncrease, p))
            && (Raises(c, p, MET002) <==> !RatioApproved(ChangeRatio(m.baseline.latency, m.candidate.latency), p.maxLatencyIncrease, p))
  {
    hide Findings, MetricFindings, Raises, ChangeRatio, RatioApproved;
    var m := c.metrics.value;
    RaisedAmong(c, p, MET001);
    RaisedAmong(c, p, MET002);
    RaisedByRatio(MET001, ChangeRatio(m.baseline.cost, m.candidate.cost), p.maxCostIncrease, p);
    RaisedByRatio(MET002, ChangeRatio(m.baseline.latency, m.candidate.latency), p.maxLatencyIncrease, p);
  }

  /** Both metrics are judged by their relative increase. */
  lemma MetricsAreRelative(c: ChangeCase, p: Policy)
    requires c.metrics.Some?
    ensures var m := c.metrics.value;
            && MetricSays(c, p, MET001, m.baseline.cost, m.candidate.cost, p.maxCostIncrease)
            && MetricSays(c, p, MET002, m.baseline.latency, m.candidate.latency, p.maxLatencyIncrease)
  {
    hide ReviewOf, Raises, ChangeRatio;
    var m := c.metrics.value;
    RaisedExactly(c, p);
    MetricJudged(c, p, m.baseline.cost, m.candidate.cost, p.maxCostIncrease);
    MetricJudged(c, p, m.baseline.latency, m.candidate.latency, p.maxLatencyIncrease);
  }

  lemma MetricJudged(c: ChangeCase, p: Policy, baseline: Option<real>, candidate: Option<real>, maximum: real)
    requires c.metrics.Some?
    requires var m := c.metrics.value;
             || (baseline == m.baseline.cost && candidate == m.candidate.cost && maximum == p.maxCostIncrease)
             || (baseline == m.baseline.latency && candidate == m.candidate.latency && maximum == p.maxLatencyIncrease)
    ensures var ratio := ChangeRatio(baseline, candidate);
            var comparable := baseline.Some? && candidate.Some? && (baseline.value != 0.0 || candidate.value == 0.0);
            && (ratio.Some? <==> comparable)
            && (comparable && baseline.value == 0.0 ==> ratio.value == 0.0)
            && (comparable && baseline.value > 0.0 && candidate.value <= baseline.value * (1.0 + maximum - 0.0000005) ==>
                  ratio.value <= maximum)
            && (comparable && baseline.value > 0.0 && candidate.value > baseline.value * (1.0 + maximum + 0.0000005) ==>
                  ratio.value > maximum && ReviewOf(c, p).decision != Approve
                  && (p.blockOnMetrics && c.requirement in {Clear, Unknown} ==> ReviewOf(c, p).decision == Reject))
  {
    hide ReviewOf, RoundTo, FirmlyContradicted, Insufficient, AttributionRejects;
    DecisionIsExact(c, p);
    if baseline.Some? && candidate.Some? && baseline.value > 0.0 {
      RatioIsRelative(baseline.value, candidate.value, maximum);
      if ChangeRatio(baseline, candidate).value > maximum {
        ExceedingIsContradicted(c, p);
      }
    }
  }

  lemma ExceedingIsContradicted(c: ChangeCase, p: Policy)
    requires c.metrics.Some? && MetricsExceed(c.metrics, p)
    ensures !MetricsApproved(c.metrics, p) && (p.blockOnMetrics ==> FirmlyContradicted(c, p))
  {
    hide ChangeRatio, ControlsReject;
  }

  /** Without metrics only their absence can be raised, under the first code. */
  lemma AbsentMetrics(c: ChangeCase, p: Policy)
    requires c.metrics.None?
    ensures (Raises(c, p, MET001) <==> p.requireMetrics) && !Raises(c, p, MET002)
  {
    hide Findings, Raises;
    RaisedAmong(c, p, MET001);
    RaisedAmong(c, p, MET002);
    if p.requireMetrics { assert CostAndLatencyFindings(c, p)[0] in CostAndLatencyFindings(c, p); }
  }

  // ---------------------------------------------------------------- which check a code reports

  /** The check that goes by this code is not met. */
  predicate CheckFails(c: ChangeCase, p: Policy, code: Code) {
    var ranked := Ranked(c.hypotheses);
    match code
    case REQ001 => c.requirement != Clear
    case VER001 => p.requireIndependentOracle && !c.oracleIndependent
    case VER002 => !EnoughAndHighEnough(TrialTally(c.reproduction), p.minReproductionTrials, p.minReproductionRate)
    case ATT001 => ranked == [] || ranked[0].confidence < p.minConfidence
    case ATT002 => ranked != [] && Margin(ranked) < p.minMargin
    case ATT003 => ranked != [] && ranked[0].component != c.component
    case ATT004 => ranked != [] && (ranked[0].intervention.None? || (p.requireIsolated && !ranked[0].intervention.value.isolated))
    case ATT005 => ranked != [] && ranked[0].intervention.Some?
      && !EnoughAndHighEnough(TrialTally(ranked[0].intervention.value.trials), p.minInterventionTrials, p.minInterventionRate)
    case NULL001 => c.evidenceAgainst == 0
    case MIN001 => c.changedSurfaces > p.maxChangedSurfaces
    case VAL001 => Count(c.cases, IsFix) == 0 || !EnoughAndHighEnough(ControlTally(c.cases, Positive), p.minPositive, p.minPositiveRate)
    case VAL002 => !EnoughAndHighEnough(ControlTally(c.cases, Negative), p.minNegative, p.minNegativeRate)
    case VAL003 =>
      || (Count(c.cases, IsCriticalFailure) > 0 && !p.allowCritical)
      || !EnoughAndHighEnough(ControlTally(c.cases, Regression), p.minRegression, p.minRegressionRate)
    case MET001 => if c.metrics.None? then p.requireMetrics else
      !RatioApproved(ChangeRatio(c.metrics.value.baseline.cost, c.metrics.value.candidate.cost), p.maxCostIncrease, p)
    case MET002 => if c.metrics.None? then false else
      !RatioApproved(ChangeRatio(c.metrics.value.baseline.latency, c.metrics.value.candidate.latency), p.maxLatencyIncrease, p)
  }

  ghost predicate Honest(c: ChangeCase, p: Policy, findings: seq<Finding>) {
    forall f :: f in findings ==>
      && (f.consequence != NoConsequence <==> CheckFails(c, p, f.code)) && (f.status == Pass <==> f.consequence == NoConsequence)
  }

  lemma SimpleAreHonest(c: ChangeCase, p: Policy)
    ensures Honest(c, p, SimpleFindings(c, p))
  {
    hide Count, BelowRate, Ranked, ChangeRatio;
  }

  lemma ControlsAreHonest(c: ChangeCase, p: Policy)
    ensures Honest(c, p, ControlFindings(c, p))
  {
    hide Count, BelowRate, Ranked, ChangeRatio, ControlTally, CheckFails;
    var s := ControlFindings(c, p);
    assert s == [s[0], s[1], s[2], s[3], s[4]];
    JudgedControlsAreHonest(c, p);
    CodesMean(c, p);
  }

  lemma CodesMean(c: ChangeCase, p: Policy)
    ensures CheckFails(c, p, NULL001) <==> c.evidenceAgainst == 0
    ensures CheckFails(c, p, MIN001) <==> c.changedSurfaces > p.maxChangedSurfaces
    ensures CheckFails(c, p, VAL002) <==> !EnoughAndHighEnough(ControlTally(c.cases, Negative), p.minNegative, p.minNegativeRate)
  {
  }

  lemma JudgedControlsAreHonest(c: ChangeCase, p: Policy)
    ensures Honest(c, p, [PositiveFinding(c, p)]) && Honest(c, p, [RegressionFinding(c, p)])
  {
    hide Count, BelowRate, Ranked, ChangeRatio, ControlTally;
  }

  lemma AttributionIsHonest(c: ChangeCase, p: Policy)
    ensures Honest(c, p, AttributionFindings(c, p))
  {
    hide Count, BelowRate, Ranked, ChangeRatio, Margin, ControlTally;
  }

  lemma MetricsAreHonest(c: ChangeCase, p: Policy)
    ensures Honest(c, p, CostAndLatencyFindings(c, p))
  {
    hide Count, BelowRate, Ranked, ChangeRatio, EnoughAndHighEnough;
  }

  /** Each finding reports the check that its code stands for: it has a
      consequence, and has not passed, exactly when that check is not met; and
      every check that is not met is reported. */
  lemma FindingsNameTheirChecks(c: ChangeCase, p: Policy)
    ensures forall f :: f in Findings(c, p) ==>
              && (f.consequence != NoConsequence <==> CheckFails(c, p, f.code)) && (f.status == Pass <==> f.consequence == NoConsequence)
    ensures forall code :: CheckFails(c, p, code) ==> Raises(c, p, code)
  {
    hide CheckFails, SimpleFindings, AttributionFindings, ControlFindings, CostAndLatencyFindings;
    SimpleAreHonest(c, p);
    ControlsAreHonest(c, p);
    AttributionIsHonest(c, p);
    MetricsAreHonest(c, p);
    forall code | CheckFails(c, p, code) ensures Raises(c, p, code) {
      FailedCheckIsListed(c, p, code);
    }
  }

  lemma FailedCheckIsListed(c: ChangeCase, p: Policy, code: Code)
    requires CheckFails(c, p, code)
    ensures exists f :: f in Findings(c, p) && f.code == code
  {
    hide Count, BelowRate, Ranked, ChangeRatio, Margin, EnoughAndHighEnough, ControlTally, TrialTally;
    if code in {REQ001, VER001, VER002} {
      var s := SimpleFindings(c, p);
      assert s[if code == REQ001 then 0 else if code == VER001 then 1 else 2] in Findings(c, p);
    } else if code in {NULL001, MIN001, VAL001, VAL002, VAL003} {
      ControlIsListed(c, p, code);
    } else if code in {ATT001, ATT002, ATT003, ATT004, ATT005} {
      AttributionIsListed(c, p, code);
    } else {
      MetricIsListed(c, p, code);
    }
  }

  lemma ControlIsListed(c: ChangeCase, p: Policy, code: Code)
    requires code in {NULL001, MIN001, VAL001, VAL002, VAL003}
    ensures exists f :: f in Findings(c, p) && f.code == code
  {
    hide Count, BelowRate, ControlTally, SimpleFindings, AttributionFindings, CostAndLatencyFindings;
    var s := ControlFindings(c, p);
    var i := if code == NULL001 then 0 else if code == MIN001 then 1 else if code == VAL001 then 2 else if code == VAL002 then 3 else 4;
    assert s[i].code == code;
    assert s[i] in Findings(c, p);
  }

  lemma AttributionIsListed(c: ChangeCase, p: Policy, code: Code)
    requires code in {ATT001, ATT002, ATT003, ATT004, ATT005} && CheckFails(c, p, code)
    ensures exists f :: f in Findings(c, p) && f.code == code
  {
    hide BelowRate, Ranked, Margin, TrialTally, SimpleFindings, ControlFindings, CostAndLatencyFindings;
    var s := AttributionFindings(c, p);
    var i := if code == ATT001 then 0 else if code == ATT002 then 1 else if code == ATT003 then 2 else if code == ATT004 then 3 else 4;
    assert s[i].code == code;
    assert s[i] in Findings(c, p);
  }

  lemma MetricIsListed(c: ChangeCase, p: Policy, code: Code)
    requires code in {MET001, MET002} && CheckFails(c, p, code)
    ensures exists f :: f in Findings(c, p) && f.code == code
  {
    hide ChangeRatio, SimpleFindings, AttributionFindings, ControlFindings;
    var s := CostAndLatencyFindings(c, p);
    assert s != [];
    assert if code == MET001 then s[0].code == code else s[|s| - 1].code == code;
    assert s[0] in Findings(c, p) && s[|s| - 1] in Findings(c, p);
  }
}
