/** Exactly when the decision of the gate respects a looser policy, and when it
    respects the order of the evidence, over the policies that parse_policy
    (src/causure/policy.py) and the cases that parse_change_case
    (src/causure/models.py) accept. */
module GateLimits {
  import opened Vocabulary
  import opened Reals
  import opened Rounding
  import opened Sequences
  import opened Sorting
  import opened Engine
  import Paths

  // ---------------------------------------------------------------- parsed policies and cases

  predicate IsRate(r: real) { 0.0 <= r <= 1.0 }

  /** The policies that parse_policy accepts. */
  predicate ParsedPolicy(p: Policy) {
    && ParsedMinimums(p)
    && IsRate(p.minReproductionRate) && IsRate(p.minConfidence) && IsRate(p.minMargin) && IsRate(p.minInterventionRate)
    && IsRate(p.minPositiveRate) && IsRate(p.minNegativeRate) && IsRate(p.minRegressionRate)
    && p.maxCostIncrease >= 0.0 && p.maxLatencyIncrease >= 0.0
  }

  predicate IsId(s: string) { s != "" && Paths.Strip(s) == s }

  function TrialId(t: Trial): string { t.id }

  function ControlId(v: ValidationCase): string { v.id }

  function ComponentOf(h: Hypothesis): HarnessComponent { h.component }

  ghost predicate ParsedTrials(trials: seq<Trial>) {
    Distinct(Map(trials, TrialId)) && forall i :: 0 <= i < |trials| ==> IsId(trials[i].id)
  }

  ghost predicate ParsedHypotheses(hypotheses: seq<Hypothesis>) {
    && Distinct(Map(hypotheses, ComponentOf))
    && forall i :: 0 <= i < |hypotheses| ==>
         && IsRate(hypotheses[i].confidence)
         && (hypotheses[i].intervention.Some? ==> ParsedTrials(hypotheses[i].intervention.value.trials))
  }

  ghost predicate ParsedControls(cases: seq<ValidationCase>) {
    Distinct(Map(cases, ControlId)) && forall i :: 0 <= i < |cases| ==> IsId(cases[i].id)
  }

  predicate ParsedSnapshot(s: Snapshot) {
    (s.latency.Some? ==> s.latency.value >= 0.0) && (s.cost.Some? ==> s.cost.value >= 0.0)
  }

  /** The cases that parse_change_case accepts, as far as the gate reads them. */
  ghost predicate ParsedCase(c: ChangeCase) {
    && ParsedTrials(c.reproduction) && ParsedHypotheses(c.hypotheses) && c.changedSurfaces >= 1 && ParsedControls(c.cases)
    && (c.metrics.Some? ==> ParsedSnapshot(c.metrics.value.baseline) && ParsedSnapshot(c.metrics.value.candidate))
  }

  // ---------------------------------------------------------------- a looser policy

  /** From the least to the most favourable decision. */
  function DecisionRank(decision: Decision): nat {
    match decision
    case HumanReview => 0
    case Reject => 1
    case NeedsEvidence => 2
    case ConditionalPass => 3
    case Approve => 4
  }

  predicate Lowers(c: ChangeCase, p: Policy, q: Policy) {
    DecisionRank(ReviewOf(c, q).decision) < DecisionRank(ReviewOf(c, p).decision)
  }

  /** No relaxed minimum of q lets it judge a rate that p would not judge yet,
      and q blocks on metrics only if p does. A failing positive group still
      holds the one fix without which it is not judged at all. */
  predicate KeepsDecisions(p: Policy, q: Policy)
    requires ParsedMinimums(p)
  {
    && (q.minReproductionTrials < p.minReproductionTrials ==> q.minReproductionRate == 0.0)
    && (q.minInterventionTrials < p.minInterventionTrials ==> q.minInterventionRate == 0.0)
    && (q.minPositive < p.minPositive ==> !BelowRate(Tally(1, p.minPositive - 1), q.minPositiveRate))
    && (q.minNegative < p.minNegative ==> q.minNegativeRate == 0.0)
    && (q.minRegression < p.minRegression ==> q.minRegressionRate == 0.0 && q.allowCritical)
    && (q.blockOnMetrics ==> p.blockOnMetrics)
  }

  lemma NonNegativeRates(t: Tally)
    ensures !BelowRate(t, 0.0)
  {
    if t.total > 0 {
      QuotientMonotone(0.0, t.passed as real, t.total as real);
      RoundToMonotone(0.0, t.passed as real / t.total as real, SIX_DIGITS);
      RoundToFixes(0, 0.0, SIX_DIGITS);
    }
  }

  lemma FailedRate(total: nat, minRate: real)
    requires total > 0 && minRate > 0.0
    ensures BelowRate(Tally(0, total), minRate)
  {
    RoundToFixes(0, 0.0, SIX_DIGITS);
  }

  lemma FullRate(total: nat, minRate: real)
    requires minRate <= 1.0
    ensures !BelowRate(Tally(total, total), minRate)
  {
    if total > 0 {
      assert total as real / total as real == 1.0;
      RoundToFixes(1000000, 1.0, SIX_DIGITS);
    }
  }

  lemma Judged(t: Tally, minimum: int, minRate: real, lower: int, lowerRate: real)
    requires RateRejects(t, lower, lowerRate) && lowerRate <= minRate && (lower < minimum ==> lowerRate == 0.0)
    ensures RateRejects(t, minimum, minRate)
  {
    hide Rate;
    NonNegativeRates(t);
  }

  /** One pass among at most n is no lower a rate than one among n. */
  lemma LowestRate(t: Tally, n: nat, minRate: real)
    requires 1 <= t.passed && 1 <= t.total <= n && !BelowRate(Tally(1, n), minRate)
    ensures !BelowRate(t, minRate)
  {
    var passed, total := t.passed as real, t.total as real;
    SmallerShare(1.0, total, n as real);
    QuotientMonotone(1.0, passed, total);
    RoundToMonotone(1.0 / n as real, passed / total, SIX_DIGITS);
  }

  lemma PositivesJudged(cases: seq<ValidationCase>, p: Policy, q: Policy)
    requires Count(cases, IsFix) > 0 && RateRejects(ControlTally(cases, Positive), q.minPositive, q.minPositiveRate)
    requires p.minPositive >= 1
    requires q.minPositive < p.minPositive ==> !BelowRate(Tally(1, p.minPositive - 1), q.minPositiveRate)
    requires q.minPositiveRate <= p.minPositiveRate && q.minPositive >= 1
    ensures RateRejects(ControlTally(cases, Positive), p.minPositive, p.minPositiveRate)
  {
    hide Count, Rate;
    FewerThan(cases, IsFix, PassedEligible(Positive));
    var t := ControlTally(cases, Positive);
    if t.total < p.minPositive {
      LowestRate(t, p.minPositive - 1, q.minPositiveRate);
    }
  }

  lemma ControlsJudged(cases: seq<ValidationCase>, p: Policy, q: Policy)
    requires Looser(q, p) && ParsedMinimums(p) && ParsedMinimums(q) && KeepsDecisions(p, q) && ControlsReject(cases, q)
    ensures ControlsReject(cases, p)
  {
    hide Count, Rate, ControlTally, BelowRate;
    var negative, regression := ControlTally(cases, Negative), ControlTally(cases, Regression);
    if Count(cases, IsFix) > 0 && RateRejects(ControlTally(cases, Positive), q.minPositive, q.minPositiveRate) {
      PositivesJudged(cases, p, q);
    } else if RateRejects(negative, q.minNegative, q.minNegativeRate) {
      Judged(negative, p.minNegative, p.minNegativeRate, q.minNegative, q.minNegativeRate);
    } else if RateRejects(regression, q.minRegression, q.minRegressionRate) {
      Judged(regression, p.minRegression, p.minRegressionRate, q.minRegression, q.minRegressionRate);
    }
  }

  lemma StillContradicted(c: ChangeCase, p: Policy, q: Policy)
    requires Looser(q, p) && ParsedMinimums(p) && ParsedMinimums(q) && KeepsDecisions(p, q) && Contradicted(c, q)
    ensures Contradicted(c, p)
  {
    hide Count, Rate, ControlTally, BelowRate, ControlsReject, TrialTally, Ranked, ChangeRatio;
    var t, ranked := TrialTally(c.reproduction), Ranked(c.hypotheses);
    if RateRejects(t, q.minReproductionTrials, q.minReproductionRate) {
      Judged(t, p.minReproductionTrials, p.minReproductionRate, q.minReproductionTrials, q.minReproductionRate);
    } else if ControlsReject(c.cases, q) {
      ControlsJudged(c.cases, p, q);
    } else if ranked != [] && ranked[0].intervention.Some? {
      var i := TrialTally(ranked[0].intervention.value.trials);
      if RateRejects(i, q.minInterventionTrials, q.minInterventionRate) {
        Judged(i, p.minInterventionTrials, p.minInterventionRate, q.minInterventionTrials, q.minInterventionRate);
      }
    }
  }

  /** A looser policy lowers a decision only by finding the evidence contradicted
      where the stricter one did not. */
  lemma LoweredMeansContradicted(c: ChangeCase, p: Policy, q: Policy)
    requires Looser(q, p)
    ensures Lowers(c, p, q) <==> c.requirement !in {Ambiguous, Conflicting} && Contradicted(c, q) && !Contradicted(c, p)
  {
    hide ReviewOf, Contradicted, Count, ControlTally, Ranked, Margin, ChangeRatio;
    DecisionIsExact(c, p);
    DecisionIsExact(c, q);
  }

  /** For every case, parsed or not. */
  lemma LooserKeepsDecision(c: ChangeCase, p: Policy, q: Policy)
    requires Looser(q, p) && ParsedMinimums(p) && ParsedMinimums(q) && KeepsDecisions(p, q)
    ensures !Lowers(c, p, q)
  {
    hide Lowers, Contradicted, KeepsDecisions, Looser;
    LoweredMeansContradicted(c, p, q);
    if Contradicted(c, q) { StillContradicted(c, p, q); }
  }

  // -- cases that are lowered otherwise

  function Name(i: nat): string { seq(i + 1, _ => 't') }

  lemma NamesAreIds(i: nat)
    ensures IsId(Name(i))
  {
    var name := Name(i);
    assert name[0] == 't' && name[|name| - 1] == 't';
    Paths.Unstripped(name);
  }

  lemma NamesDiffer(i: nat, j: nat)
    requires i != j
    ensures Name(i) != Name(j)
  {
    assert |Name(i)| == i + 1 && |Name(j)| == j + 1;
  }

  function Trials(n: nat, passed: bool): seq<Trial> {
    seq(n, (i: nat) => Trial(Name(i), passed))
  }

  lemma UniformTrials(n: nat, passed: bool)
    ensures ParsedTrials(Trials(n, passed)) && TrialTally(Trials(n, passed)) == Tally(if passed then n else 0, n)
  {
    hide IsId, Name;
    var trials := Trials(n, passed);
    CountUniform(trials, TrialPassed, passed);
    forall i | 0 <= i < n ensures IsId(trials[i].id) { NamesAreIds(i); }
    forall i, j | 0 <= i < j < n ensures trials[i].id != trials[j].id { NamesDiffer(i, j); }
  }

  /** n controls of one kind and outcome, named from first on. */
  function Controls(first: nat, n: nat, kind: ValidationKind, baseline: bool, candidate: bool): seq<ValidationCase> {
    seq(n, (i: nat) => ValidationCase(Name(first + i), kind, true, baseline, candidate))
  }

  ghost predicate NamedFrom(cases: seq<ValidationCase>, first: nat) {
    forall i :: 0 <= i < |cases| ==> cases[i].id == Name(first + i)
  }

  lemma NamedControls(cases: seq<ValidationCase>)
    requires NamedFrom(cases, 0)
    ensures ParsedControls(cases)
  {
    hide IsId, Name;
    forall i | 0 <= i < |cases| ensures IsId(cases[i].id) { NamesAreIds(i); }
    forall i, j | 0 <= i < j < |cases| ensures cases[i].id != cases[j].id { NamesDiffer(i, j); }
  }

  /** What the checks count of a group of controls. */
  datatype Counts = Counts(positive: Tally, negative: Tally, regression: Tally, fixes: nat, critical: nat)

  function CountsOf(cases: seq<ValidationCase>): Counts {
    Counts(ControlTally(cases, Positive), ControlTally(cases, Negative), ControlTally(cases, Regression),
           Count(cases, IsFix), Count(cases, IsCriticalFailure))
  }

  const NONE := Tally(0, 0)

  function Plus(t: Tally, u: Tally): Tally { Tally(t.passed + u.passed, t.total + u.total) }

  lemma PlusTallies(a: nat, b: nat, c: nat, d: nat)
    ensures Plus(Tally(a, b), Tally(c, d)) == Tally(a + c, b + d)
  {
  }

  function PlusCounts(a: Counts, b: Counts): Counts {
    Counts(Plus(a.positive, b.positive), Plus(a.negative, b.negative), Plus(a.regression, b.regression), a.fixes + b.fixes,
           a.critical + b.critical)
  }

  lemma CountsAdd(a: seq<ValidationCase>, b: seq<ValidationCase>)
    ensures CountsOf(a + b) == PlusCounts(CountsOf(a), CountsOf(b))
  {
    hide Count;
    forall kind: ValidationKind ensures ControlTally(a + b, kind) == Plus(ControlTally(a, kind), ControlTally(b, kind)) {
      CountConcat(a, b, Eligible(kind));
      CountConcat(a, b, PassedEligible(kind));
    }
    CountConcat(a, b, IsFix);
    CountConcat(a, b, IsCriticalFailure);
  }

  function GroupTally(n: nat, kind: ValidationKind, k: ValidationKind, baseline: bool, candidate: bool): Tally {
    if k != kind || (kind != Positive && !baseline) then NONE else Tally(if candidate then n else 0, n)
  }

  lemma UniformControls(first: nat, n: nat, kind: ValidationKind, baseline: bool, candidate: bool)
    ensures var group := Controls(first, n, kind, baseline, candidate);
            && |group| == n && NamedFrom(group, first)
            && CountsOf(group) == Counts(
                 GroupTally(n, kind, Positive, baseline, candidate), GroupTally(n, kind, Negative, baseline, candidate),
                 GroupTally(n, kind, Regression, baseline, candidate),
                 if kind == Positive && !baseline && candidate then n else 0,
                 if kind == Regression && baseline && !candidate then n else 0)
  {
    hide Count, Name;
    var group := Controls(first, n, kind, baseline, candidate);
    forall k: ValidationKind ensures ControlTally(group, k) == GroupTally(n, kind, k, baseline, candidate) {
      CountUniform(group, Eligible(k), k == kind && (kind == Positive || baseline));
      CountUniform(group, PassedEligible(k), k == kind && (kind == Positive || baseline) && candidate);
    }
    CountUniform(group, IsFix, kind == Positive && !baseline && candidate);
    CountUniform(group, IsCriticalFailure, kind == Regression && baseline && !candidate);
  }

  /** A clear requirement and nothing else. */
  function BareCase(): ChangeCase {
    ChangeCase(Clear, true, [], [], SystemPrompt, 1, 0, [], None)
  }

  lemma BareCounts()
    ensures TrialTally([]) == NONE && Ranked([]) == []
    ensures CountsOf([]) == Counts(NONE, NONE, NONE, 0, 0)
    ensures ParsedCase(BareCase())
  {
  }

  lemma FewerReproductions(p: Policy, q: Policy) returns (c: ChangeCase)
    requires ParsedPolicy(p) && ParsedPolicy(q) && Looser(q, p)
    requires q.minReproductionTrials < p.minReproductionTrials && q.minReproductionRate > 0.0
    ensures ParsedCase(c) && Lowers(c, p, q)
  {
    hide Trials, Rate, Count, Ranked, Lowers;
    var n := q.minReproductionTrials;
    c := BareCase().(reproduction := Trials(n, false));
    BareCounts();
    UniformTrials(n, false);
    FailedRate(n, q.minReproductionRate);
    assert CountsOf(c.cases) == CountsOf([]);
    LoweredMeansContradicted(c, p, q);
  }

  function Suspect(trials: seq<Trial>): Hypothesis {
    Hypothesis(SystemPrompt, 1.0, Some(Intervention(true, trials)))
  }

  lemma OneRanked(h: Hypothesis)
    ensures Ranked([h]) == [h]
  {
    assert [h][..0] == [];
    assert Sort([h][..0], MoreConfident) == [];
  }

  lemma FewerInterventions(p: Policy, q: Policy) returns (c: ChangeCase)
    requires ParsedPolicy(p) && ParsedPolicy(q) && Looser(q, p)
    requires q.minInterventionTrials < p.minInterventionTrials && q.minInterventionRate > 0.0
    ensures ParsedCase(c) && Lowers(c, p, q)
  {
    hide Trials, Rate, Count, Ranked, Lowers;
    var n := q.minInterventionTrials;
    var suspect := Suspect(Trials(n, false));
    c := BareCase().(hypotheses := [suspect]);
    BareCounts();
    OneRanked(suspect);
    UniformTrials(n, false);
    FailedRate(n, q.minInterventionRate);
    assert CountsOf(c.cases) == CountsOf([]);
    LoweredMeansContradicted(c, p, q);
  }

  lemma LoweredByControls(cases: seq<ValidationCase>, p: Policy, q: Policy)
    requires Looser(q, p) && ParsedPolicy(p) && NamedFrom(cases, 0)
    requires ControlsReject(cases, q) && !ControlsReject(cases, p)
    ensures var c := BareCase().(cases := cases); ParsedCase(c) && Lowers(c, p, q)
  {
    hide Rate, Count, Ranked, Lowers, ControlsReject, NamedFrom, ParsedControls;
    var c := BareCase().(cases := cases);
    BareCounts();
    NamedControls(cases);
    LoweredMeansContradicted(c, p, q);
  }

  /** Some fixes, and some positive controls that still fail. */
  function Positives(fixes: nat, failures: nat): seq<ValidationCase> {
    Controls(0, fixes, Positive, false, true) + Controls(fixes, failures, Positive, false, false)
  }

  lemma PositivesNamed(fixes: nat, failures: nat)
    ensures NamedFrom(Positives(fixes, failures), 0)
  {
    hide Controls, CountsOf, NamedFrom;
    UniformControls(0, fixes, Positive, false, true);
    UniformControls(fixes, failures, Positive, false, false);
    NamedConcat(Controls(0, fixes, Positive, false, true), Controls(fixes, failures, Positive, false, false), 0);
  }

  lemma SumOfPositives(fixes: nat, failures: nat)
    ensures PlusCounts(Counts(Tally(fixes, fixes), NONE, NONE, fixes, 0), Counts(Tally(0, failures), NONE, NONE, 0, 0))
            == Counts(Tally(fixes, fixes + failures), NONE, NONE, fixes, 0)
  {
    hide Plus;
    PlusTallies(fixes, fixes, 0, failures);
    PlusTallies(0, 0, 0, 0);
  }

  lemma PositiveCounts(fixes: nat, failures: nat)
    ensures CountsOf(Positives(fixes, failures)) == Counts(Tally(fixes, fixes + failures), NONE, NONE, fixes, 0)
  {
    hide PlusCounts, Controls, CountsOf, NamedFrom;
    var fixed, failed := Controls(0, fixes, Positive, false, true), Controls(fixes, failures, Positive, false, false);
    assert CountsOf(fixed) == Counts(Tally(fixes, fixes), NONE, NONE, fixes, 0) by {
      UniformControls(0, fixes, Positive, false, true);
    }
    assert CountsOf(failed) == Counts(Tally(0, failures), NONE, NONE, 0, 0) by {
      UniformControls(fixes, failures, Positive, false, false);
    }
    CountsAdd(fixed, failed);
    SumOfPositives(fixes, failures);
  }

  lemma FewerPositives(p: Policy, q: Policy) returns (c: ChangeCase)
    requires ParsedPolicy(p) && ParsedPolicy(q) && Looser(q, p)
    requires q.minPositive < p.minPositive && BelowRate(Tally(1, p.minPositive - 1), q.minPositiveRate)
    ensures ParsedCase(c) && Lowers(c, p, q)
  {
    hide Lowers, Positives, ControlTally, Count, BelowRate, NamedFrom, ParsedCase;
    var cases := Positives(1, p.minPositive - 2);
    c := BareCase().(cases := cases);
    PositivesNamed(1, p.minPositive - 2);
    PositiveCounts(1, p.minPositive - 2);
    LoweredByControls(cases, p, q);
  }

  lemma FewerNegatives(p: Policy, q: Policy) returns (c: ChangeCase)
    requires ParsedPolicy(p) && ParsedPolicy(q) && Looser(q, p)
    requires q.minNegative < p.minNegative && q.minNegativeRate > 0.0
    ensures ParsedCase(c) && Lowers(c, p, q)
  {
    hide Rate, Count, Lowers, Controls, Name, ControlTally, BelowRate;
    var cases := Controls(0, q.minNegative, Negative, true, false);
    c := BareCase().(cases := cases);
    UniformControls(0, q.minNegative, Negative, true, false);
    FailedRate(q.minNegative, q.minNegativeRate);
    LoweredByControls(cases, p, q);
  }

  lemma FewerRegressions(p: Policy, q: Policy) returns (c: ChangeCase)
    requires ParsedPolicy(p) && ParsedPolicy(q) && Looser(q, p)
    requires q.minRegression < p.minRegression && (q.minRegressionRate > 0.0 || !q.allowCritical)
    ensures ParsedCase(c) && Lowers(c, p, q)
  {
    hide Rate, Count, Lowers, Controls, Name, ControlTally, BelowRate;
    var cases := Controls(0, q.minRegression, Regression, true, false);
    c := BareCase().(cases := cases);
    UniformControls(0, q.minRegression, Regression, true, false);
    if q.minRegressionRate > 0.0 { FailedRate(q.minRegression, q.minRegressionRate); }
    LoweredByControls(cases, p, q);
  }

  lemma CostExceeds(maximum: real)
    ensures Exceeds(ChangeRatio(Some(1.0), Some(maximum + 2.0)), maximum)
  {
    hide RoundTo;
    RoundToNear((maximum + 2.0 - 1.0) / 1.0, SIX_DIGITS);
    assert (maximum + 2.0 - 1.0) / 1.0 == maximum + 1.0;
  }

  /** The cost more than doubles, by more than q allows. */
  lemma BlockedMetrics(p: Policy, q: Policy) returns (c: ChangeCase)
    requires ParsedPolicy(p) && ParsedPolicy(q) && Looser(q, p)
    requires q.blockOnMetrics && !p.blockOnMetrics
    ensures ParsedCase(c) && Lowers(c, p, q)
  {
    hide Rate, Count, Lowers, Ranked, ChangeRatio;
    c := BareCase().(metrics := Some(Metrics(Snapshot(None, Some(1.0)), Snapshot(None, Some(q.maxCostIncrease + 2.0)))));
    BareCounts();
    assert CountsOf(c.cases) == CountsOf([]);
    CostExceeds(q.maxCostIncrease);
    LoweredMeansContradicted(c, p, q);
  }

  lemma LoweredOtherwise(p: Policy, q: Policy) returns (c: ChangeCase)
    requires ParsedPolicy(p) && ParsedPolicy(q) && Looser(q, p) && !KeepsDecisions(p, q)
    ensures ParsedCase(c) && Lowers(c, p, q)
  {
    hide ParsedCase, Lowers, Looser, BelowRate;
    if q.minReproductionTrials < p.minReproductionTrials && q.minReproductionRate > 0.0 {
      c := FewerReproductions(p, q);
    } else if q.minInterventionTrials < p.minInterventionTrials && q.minInterventionRate > 0.0 {
      c := FewerInterventions(p, q);
    } else if q.minPositive < p.minPositive && BelowRate(Tally(1, p.minPositive - 1), q.minPositiveRate) {
      c := FewerPositives(p, q);
    } else if q.minNegative < p.minNegative && q.minNegativeRate > 0.0 {
      c := FewerNegatives(p, q);
    } else if q.minRegression < p.minRegression && (q.minRegressionRate > 0.0 || !q.allowCritical) {
      c := FewerRegressions(p, q);
    } else {
      c := BlockedMetrics(p, q);
    }
  }

  /** A looser policy never lowers the decision of any case, exactly when no
      relaxed minimum opens a rate to judgement and blocking is not added. */
  lemma LooserPolicyKeepsDecisionsExactly(p: Policy, q: Policy)
    requires ParsedPolicy(p) && ParsedPolicy(q) && Looser(q, p)
    ensures KeepsDecisions(p, q) <==>
              forall c :: ParsedCase(c) ==> DecisionRank(ReviewOf(c, p).decision) <= DecisionRank(ReviewOf(c, q).decision)
  {
    hide ParsedCase, ReviewOf, DecisionRank, KeepsDecisions, Looser;
    if KeepsDecisions(p, q) {
      forall c ensures !Lowers(c, p, q) { LooserKeepsDecision(c, p, q); }
      assert forall c :: !Lowers(c, p, q) ==> DecisionRank(ReviewOf(c, p).decision) <= DecisionRank(ReviewOf(c, q).decision);
    } else {
      var c := LoweredOtherwise(p, q);
    }
  }

  // ---------------------------------------------------------------- the order of the evidence

  /** The leader is ahead of every other hypothesis. */
  predicate Untied(c: ChangeCase) {
    var ranked := Ranked(c.hypotheses);
    |ranked| > 1 ==> ranked[0].confidence > ranked[1].confidence
  }

  /** Without a tie for the lead, no decision depends on the order of trials,
      hypotheses or controls. */
  lemma UntiedDecisionIgnoresOrder(c: ChangeCase, d: ChangeCase, p: Policy)
    requires SameEvidence(c, d) && Untied(c)
    ensures ReviewOf(c, p).decision == ReviewOf(d, p).decision
  {
    hide ReviewOf, Count, ControlTally, Ranked, RoundTo, ChangeRatio, Rate;
    SameTallies(c, d);
    SameLength(c.hypotheses, d.hypotheses);
    SameLength(c.reproduction, d.reproduction);
    if c.hypotheses != [] {
      SameLeader(c.hypotheses, d.hypotheses);
      SameConfidences(c.hypotheses, d.hypotheses);
      SameMargin(c.hypotheses, d.hypotheses);
    }
    DecisionIsExact(c, p);
    DecisionIsExact(d, p);
  }

  /** No hypothesis of the case is more confident than h. */
  predicate Leads(h: Hypothesis, c: ChangeCase) {
    h in c.hypotheses && forall g :: g in c.hypotheses ==> g.confidence <= h.confidence
  }

  lemma FirstLeads(c: ChangeCase)
    requires c.hypotheses != []
    ensures Leads(Ranked(c.hypotheses)[0], c)
  {
    var ranked := Ranked(c.hypotheses);
    ConfidenceOrder();
    SortSorts(c.hypotheses, MoreConfident);
    SameElements(ranked, c.hypotheses);
    assert ranked[0] in ranked;
    forall g | g in c.hypotheses ensures g.confidence <= ranked[0].confidence {
      var i :| 0 <= i < |ranked| && ranked[i] == g;
      assert i > 0 ==> MoreConfident(ranked[0], ranked[i]);
    }
  }

  lemma {:induction false} InsertStaysBehind(s: seq<Hypothesis>, x: Hypothesis)
    requires s != [] && x.confidence <= s[0].confidence
    ensures Insert(s, x, MoreConfident)[0] == s[0]
  {
    var n := |s| - 1;
    if !MoreConfident(s[n], x) {
      InsertStaysBehind(s[..n], x);
    }
  }

  /** A leader listed first stays first: the sort is stable. */
  lemma {:induction false} ListedFirstLeads(h: Hypothesis, rest: seq<Hypothesis>)
    requires forall i :: 0 <= i < |rest| ==> rest[i].confidence <= h.confidence
    ensures Ranked([h] + rest)[0] == h
  {
    if rest == [] {
      assert [h] + rest == [h];
      OneRanked(h);
    } else {
      var front, x := rest[..|rest| - 1], rest[|rest| - 1];
      assert [h] + rest == [h] + front + [x];
      hide Sort, Insert;
      ListedFirstLeads(h, front);
      SortSnoc([h] + front, x, MoreConfident);
      InsertStaysBehind(Ranked([h] + front), x);
    }
  }

  lemma MovedToFront<T>(s: seq<T>, j: nat) returns (rest: seq<T>)
    requires j < |s|
    ensures multiset([s[j]] + rest) == multiset(s) && forall i :: 0 <= i < |rest| ==> rest[i] in s
  {
    rest := Drop(s, j);
    DropMultiset(s, j);
    assert multiset([s[j]] + rest) == multiset{s[j]} + multiset(rest);
  }

  /** The same evidence with a leader of one's choice listed first. */
  lemma PutFirst(c: ChangeCase, h: Hypothesis) returns (d: ChangeCase)
    requires Leads(h, c)
    ensures SameEvidence(c, d) && Ranked(d.hypotheses) != [] && Ranked(d.hypotheses)[0] == h
  {
    hide Ranked;
    var j :| 0 <= j < |c.hypotheses| && c.hypotheses[j] == h;
    var rest := MovedToFront(c.hypotheses, j);
    d := c.(hypotheses := [h] + rest);
    assert |Ranked(d.hypotheses)| == 1 + |rest|;
    ListedFirstLeads(h, rest);
  }

  lemma SameFirmness(c: ChangeCase, d: ChangeCase, p: Policy)
    requires SameEvidence(c, d)
    ensures FirmlyContradicted(c, p) <==> FirmlyContradicted(d, p)
  {
    hide Count, ControlTally, ChangeRatio, Rate, TrialTally;
    SameTallies(c, d);
  }

  lemma SameLeads(c: ChangeCase, d: ChangeCase, h: Hypothesis)
    requires SameEvidence(c, d) && Leads(h, d)
    ensures Leads(h, c)
  {
    SameElements(c.hypotheses, d.hypotheses);
  }

  /** Whatever the order, a human decides or the change is rejected. */
  ghost predicate Foregone(c: ChangeCase, p: Policy) {
    || c.requirement in {Ambiguous, Conflicting} || FirmlyContradicted(c, p)
    || (c.hypotheses != [] && forall h :: Leads(h, c) ==> LeaderRejects(h, c, p))
  }

  lemma ForegoneIgnoresOrder(c: ChangeCase, d: ChangeCase, p: Policy)
    requires SameEvidence(c, d) && Foregone(c, p)
    ensures ReviewOf(d, p).decision == if c.requirement in {Ambiguous, Conflicting} then HumanReview else Reject
  {
    hide ReviewOf, Ranked, FirmlyContradicted, LeaderRejects, Leads, Insufficient;
    DecisionIsExact(d, p);
    SameFirmness(c, d, p);
    if c.requirement !in {Ambiguous, Conflicting} && !FirmlyContradicted(c, p) {
      SameLength(c.hypotheses, d.hypotheses);
      FirstLeads(d);
      var h := Ranked(d.hypotheses)[0];
      SameLeads(c, d, h);
      SameRejection(h, c, d, p);
    }
  }

  lemma LeadsIsMember(h: Hypothesis, c: ChangeCase)
    requires Leads(h, c)
    ensures h in c.hypotheses
  {
  }

  lemma SameRejection(h: Hypothesis, c: ChangeCase, d: ChangeCase, p: Policy)
    requires SameEvidence(c, d)
    ensures LeaderRejects(h, c, p) <==> LeaderRejects(h, d, p)
  {
    hide RateRejects;
  }

  /** Of two tied leaders with different components one rejects the change. */
  lemma OtherLeader(c: ChangeCase) returns (h: Hypothesis)
    requires ParsedCase(c) && !Untied(c)
    ensures Leads(h, c) && h.component != c.component
  {
    hide Sort, ParsedTrials, ParsedControls;
    var ranked := Ranked(c.hypotheses);
    FirstLeads(c);
    MapPermutes(ranked, c.hypotheses, ComponentOf);
    DistinctStays(Map(c.hypotheses, ComponentOf), Map(ranked, ComponentOf));
    assert Map(ranked, ComponentOf)[0] != Map(ranked, ComponentOf)[1];
    SameElements(ranked, c.hypotheses);
    assert ranked[1] in ranked;
    h := if ranked[0].component != c.component then ranked[0] else ranked[1];
  }

  lemma OpenDependsOnOrder(c: ChangeCase, p: Policy) returns (d: ChangeCase, d': ChangeCase)
    requires ParsedCase(c) && !Untied(c) && !Foregone(c, p)
    ensures SameEvidence(c, d) && SameEvidence(c, d')
    ensures ReviewOf(d, p).decision == Reject && ReviewOf(d', p).decision != Reject
  {
    hide ReviewOf, Ranked, FirmlyContradicted, LeaderRejects, Leads, ParsedCase, Untied, Insufficient;
    var h := OtherLeader(c);
    d := PutFirst(c, h);
    assert c.hypotheses != [] by { LeadsIsMember(h, c); }
    var h' :| Leads(h', c) && !LeaderRejects(h', c, p);
    d' := PutFirst(c, h');
    assert LeaderRejects(h, c, p) by { OtherComponentRejects(h, c, p); }
    SameRejection(h, c, d, p);
    SameRejection(h', c, d', p);
    SameFirmness(c, d, p);
    SameFirmness(c, d', p);
    DecisionIsExact(d, p);
    DecisionIsExact(d', p);
  }

  lemma OtherComponentRejects(h: Hypothesis, c: ChangeCase, p: Policy)
    requires h.component != c.component
    ensures LeaderRejects(h, c, p)
  {
  }

  /** Exactly which decisions do not depend on the order of the evidence, under
      any policy: those without a tie for the lead, those that a doubtful
      requirement or other evidence settles, and those that every tied leader
      would turn into a rejection. */
  lemma DecisionIgnoresOrderExactly(c: ChangeCase, p: Policy)
    requires ParsedCase(c)
    ensures (forall d :: SameEvidence(c, d) ==> ReviewOf(d, p).decision == ReviewOf(c, p).decision) <==>
              || Untied(c) || c.requirement in {Ambiguous, Conflicting} || FirmlyContradicted(c, p)
              || forall h :: Leads(h, c) ==> LeaderRejects(h, c, p)
  {
    hide ReviewOf, FirmlyContradicted, LeaderRejects, Leads, ParsedCase, SameEvidence;
    TiedHasHypotheses(c);
    if Untied(c) {
      forall d | SameEvidence(c, d) ensures ReviewOf(d, p).decision == ReviewOf(c, p).decision {
        UntiedDecisionIgnoresOrder(c, d, p);
      }
    } else if Foregone(c, p) {
      ItselfIsSame(c);
      ForegoneIgnoresOrder(c, c, p);
      forall d | SameEvidence(c, d) ensures ReviewOf(d, p).decision == ReviewOf(c, p).decision {
        ForegoneIgnoresOrder(c, d, p);
      }
    } else {
      var d, d' := OpenDependsOnOrder(c, p);
    }
  }

  lemma TiedHasHypotheses(c: ChangeCase)
    ensures !Untied(c) ==> c.hypotheses != []
  {
    hide Sort;
  }

  lemma ItselfIsSame(c: ChangeCase)
    ensures SameEvidence(c, c)
  {
  }

  lemma SameMargin(s: seq<Hypothesis>, t: seq<Hypothesis>)
    requires multiset(s) == multiset(t) && s != [] && t != []
    ensures Margin(Ranked(s)) == Margin(Ranked(t))
  {
    hide Ranked, RoundTo;
    SameConfidences(s, t);
    var a, b := Ranked(s), Ranked(t);
    SameLength(s, t);
    assert Map(a, ConfidenceOf)[0] == Map(b, ConfidenceOf)[0];
    if |a| > 1 { assert Map(a, ConfidenceOf)[1] == Map(b, ConfidenceOf)[1]; }
  }

  function Tied(component: HarnessComponent, trials: seq<Trial>): Hypothesis {
    Hypothesis(component, 1.0, Some(Intervention(true, trials)))
  }

  lemma TiedRanking(a: Hypothesis, b: Hypothesis)
    requires a.confidence == b.confidence
    ensures Ranked([a, b]) == [a, b]
  {
    assert [a, b][..1] == [a] && [a][..0] == [];
    assert Sort([a], MoreConfident) == [a];
  }

  /** No policy makes the whole decision independent of the order: with two tied
      hypotheses, the one listed first may be the one that contradicts. */
  lemma SomeDecisionDependsOnOrder(p: Policy)
    requires ParsedPolicy(p)
    ensures exists c, d :: ParsedCase(c) && ParsedCase(d) && SameEvidence(c, d)
                           && ReviewOf(c, p).decision != Reject && ReviewOf(d, p).decision == Reject
  {
    hide ReviewOf, Ranked, Count, Rate, RoundTo;
    var prompt, schema := Hypothesis(SystemPrompt, 1.0, None), Hypothesis(ToolSchema, 1.0, None);
    var c, d := BareCase().(hypotheses := [prompt, schema]), BareCase().(hypotheses := [schema, prompt]);
    BareCounts();
    assert CountsOf(c.cases) == CountsOf([]);
    TiedRanking(prompt, schema);
    TiedRanking(schema, prompt);
    TiedAreParsed(prompt, schema);
    TiedAreParsed(schema, prompt);
    DecisionIsExact(c, p);
    DecisionIsExact(d, p);
    assert SameEvidence(c, d);
  }

  lemma TiedAreParsed(a: Hypothesis, b: Hypothesis)
    requires a.confidence == b.confidence == 1.0 && a.component != b.component
    requires a.intervention.Some? ==> ParsedTrials(a.intervention.value.trials)
    requires b.intervention.Some? ==> ParsedTrials(b.intervention.value.trials)
    ensures ParsedHypotheses([a, b])
  {
    assert Map([a, b], ComponentOf) == [a.component, b.component];
  }

  /** As much passing evidence as p asks for. */
  function PassingControls(p: Policy): seq<ValidationCase>
    requires ParsedMinimums(p)
  {
    Controls(0, p.minPositive, Positive, false, true)
    + Controls(p.minPositive, p.minNegative, Negative, true, true)
    + Controls(p.minPositive + p.minNegative, p.minRegression, Regression, true, true)
  }

  lemma PassingControlsApproved(p: Policy)
    requires ParsedPolicy(p)
    ensures ParsedControls(PassingControls(p)) && ControlsApproved(PassingControls(p), p)
  {
    hide Count, ControlTally, Rate, ParsedControls, PassingControls, NamedFrom;
    PassingNamed(p);
    PassingCounts(p);
    FullRate(p.minPositive, p.minPositiveRate);
    FullRate(p.minNegative, p.minNegativeRate);
    FullRate(p.minRegression, p.minRegressionRate);
    NamedControls(PassingControls(p));
  }

  lemma PassingNamed(p: Policy)
    requires ParsedMinimums(p)
    ensures NamedFrom(PassingControls(p), 0)
  {
    hide Controls, CountsOf, NamedFrom;
    var n, m := p.minPositive, p.minNegative;
    var positive, negative := Controls(0, n, Positive, false, true), Controls(n, m, Negative, true, true);
    UniformControls(0, n, Positive, false, true);
    UniformControls(n, m, Negative, true, true);
    UniformControls(n + m, p.minRegression, Regression, true, true);
    NamedConcat(positive, negative, 0);
    NamedConcat(positive + negative, Controls(n + m, p.minRegression, Regression, true, true), 0);
  }

  lemma SumOfPassing(n: nat, m: nat, k: nat)
    ensures PlusCounts(PlusCounts(Counts(Tally(n, n), NONE, NONE, n, 0), Counts(NONE, Tally(m, m), NONE, 0, 0)),
                       Counts(NONE, NONE, Tally(k, k), 0, 0))
            == Counts(Tally(n, n), Tally(m, m), Tally(k, k), n, 0)
  {
    hide Plus;
    PlusTallies(n, n, 0, 0);
    PlusTallies(0, 0, m, m);
    PlusTallies(m, m, 0, 0);
    PlusTallies(0, 0, k, k);
    PlusTallies(0, 0, 0, 0);
  }

  lemma PassingCounts(p: Policy)
    requires ParsedMinimums(p)
    ensures CountsOf(PassingControls(p)) == Counts(
              Tally(p.minPositive, p.minPositive), Tally(p.minNegative, p.minNegative), Tally(p.minRegression, p.minRegression),
              p.minPositive, 0)
  {
    hide Controls, CountsOf, NamedFrom, PlusCounts;
    var n, m, k := p.minPositive, p.minNegative, p.minRegression;
    var positive, negative := Controls(0, n, Positive, false, true), Controls(n, m, Negative, true, true);
    var regression := Controls(n + m, k, Regression, true, true);
    assert CountsOf(positive) == Counts(Tally(n, n), NONE, NONE, n, 0) by { UniformControls(0, n, Positive, false, true); }
    assert CountsOf(negative) == Counts(NONE, Tally(m, m), NONE, 0, 0) by { UniformControls(n, m, Negative, true, true); }
    assert CountsOf(regression) == Counts(NONE, NONE, Tally(k, k), 0, 0) by { UniformControls(n + m, k, Regression, true, true); }
    CountsAdd(positive, negative);
    CountsAdd(positive + negative, regression);
    SumOfPassing(n, m, k);
  }

  lemma NamedConcat(a: seq<ValidationCase>, b: seq<ValidationCase>, first: nat)
    requires NamedFrom(a, first) && NamedFrom(b, first + |a|)
    ensures NamedFrom(a + b, first)
  {
    hide Name;
    forall i | 0 <= i < |a + b| ensures (a + b)[i].id == Name(first + i) {
      if i >= |a| { assert b[i - |a|].id == Name(first + |a| + (i - |a|)); }
    }
  }

  function TiedCase(p: Policy, hypotheses: seq<Hypothesis>): ChangeCase
    requires ParsedMinimums(p)
  {
    var free := Snapshot(Some(0.0), Some(0.0));
    ChangeCase(Clear, true, Trials(p.minReproductionTrials, true), hypotheses, SystemPrompt, 1, 1, PassingControls(p),
               Some(Metrics(free, free)))
  }

  lemma TiedCaseApproved(p: Policy, hypotheses: seq<Hypothesis>)
    requires ParsedPolicy(p) && ParsedHypotheses(hypotheses)
    ensures ParsedCase(TiedCase(p, hypotheses))
    ensures Approvable(TiedCase(p, hypotheses), p) <==> AttributionApproved(TiedCase(p, hypotheses), p)
  {
    hide ParsedHypotheses, ParsedControls, PassingControls, Trials, AttributionApproved, ControlsApproved, Rate;
    PassingControlsApproved(p);
    UniformTrials(p.minReproductionTrials, true);
    FullRate(p.minReproductionTrials, p.minReproductionRate);
  }

  lemma TiesDecide(p: Policy) returns (c: ChangeCase, d: ChangeCase)
    requires ParsedPolicy(p) && p.minMargin == 0.0
    ensures ParsedCase(c) && ParsedCase(d) && SameEvidence(c, d)
    ensures ReviewOf(c, p).decision == Approve && ReviewOf(d, p).decision != Approve
  {
    hide ReviewOf, Approvable, Trials, Ranked, RoundTo, ParsedHypotheses, ParsedTrials, ParsedCase, PassingControls, Rate;
    var trials := Trials(p.minInterventionTrials, true);
    var prompt, schema := Tied(SystemPrompt, trials), Tied(ToolSchema, trials);
    c, d := TiedCase(p, [prompt, schema]), TiedCase(p, [schema, prompt]);
    UniformTrials(p.minInterventionTrials, true);
    FullRate(p.minInterventionTrials, p.minInterventionRate);
    TiedAreParsed(prompt, schema);
    TiedAreParsed(schema, prompt);
    TiedCaseApproved(p, [prompt, schema]);
    TiedCaseApproved(p, [schema, prompt]);
    TiedRanking(prompt, schema);
    TiedRanking(schema, prompt);
    RoundToFixes(0, 0.0, SIX_DIGITS);
    ApprovalIsExact(c, p);
    ApprovalIsExact(d, p);
  }

  /** Approval is independent of the order of the evidence, for every case,
      exactly under the policies that ask for a positive margin. */
  lemma OrderFreeApprovalNeedsMargin(p: Policy)
    requires ParsedPolicy(p)
    ensures p.minMargin > 0.0 <==>
              forall c, d :: ParsedCase(c) && ParsedCase(d) && SameEvidence(c, d) ==>
                               (ReviewOf(c, p).decision == Approve <==> ReviewOf(d, p).decision == Approve)
  {
    hide ReviewOf, ParsedCase, SameEvidence;
    if p.minMargin > 0.0 {
      forall c, d | SameEvidence(c, d) ensures ReviewOf(c, p).decision == Approve <==> ReviewOf(d, p).decision == Approve {
        ApprovalIgnoresOrder(c, d, p);
      }
    } else {
      var c, d := TiesDecide(p);
    }
  }
}
