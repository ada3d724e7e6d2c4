/** The canary comparison of src/causure/canary.py, from parsed documents on. */
module Canary {
  import opened Reals
  import opened Rounding
  import opened Vocabulary
  import opened Wilson

  const PICO: real := 1000000000000.0
  const MAX_METRICS := 50
  const MAX_SAMPLES := 1_000_000_000
  const MAX_WINDOW_SECONDS := 2_592_000
  const DIFFERENCE_TOLERANCE: real := 0.00000000001

  datatype Direction = Higher | Lower
  datatype MetricStatus = Noninferior | Regression | Inconclusive
  datatype CanaryDecision = Promote | Continue | Rollback | MoreEvidence

  datatype MetricPolicy = MetricPolicy(metricId: string, direction: Direction, maximumDegradation: real)
  datatype Policy = Policy(
    declaredAt: int, confidence: real, maximumLooks: int, minimumSeconds: int, minimumSamples: int,
    requireSticky: bool, metrics: seq<MetricPolicy>)

  datatype MetricObservation = MetricObservation(metricId: string, events: int)
  datatype Cohort = Cohort(deploymentRef: string, samples: int, metrics: seq<MetricObservation>)
  datatype Observation = Observation(
    look: int, startedAt: int, endedAt: int, observedAt: int, sticky: bool, contaminated: bool,
    baseline: Cohort, candidate: Cohort)

  datatype MetricResult = MetricResult(
    metricId: string, direction: Direction, maximumDegradation: real, baselineRate: real, candidateRate: real,
    difference: real, lower: real, upper: real, status: MetricStatus)
  datatype Check = Check(code: string, status: CheckStatus)
  datatype Comparison = Comparison(
    look: int, maximumLooks: int, comparedAt: int, startedAt: int, endedAt: int, seconds: int,
    baselineRef: string, candidateRef: string, baselineSamples: int, candidateSamples: int,
    confidence: real, decision: CanaryDecision, checks: seq<Check>, metrics: seq<MetricResult>)

  datatype CanaryError =
    | LookBeyondPlan | PolicyAfterWindow | ReviewAfterWindow | ObservedAfterComparison
    | MetricIdsDiffer(cohort: string)
    | Invalid(path: string)

  // ---------------------------------------------------------------- numerics

  /** The two library functions: a square root, and a normal quantile that is
      monotone and positive above one half. */
  datatype Numerics = Numerics(sqrt: real -> real, quantile: real -> real) {
    ghost predicate Valid() {
      && IsSquareRoot(sqrt)
      && (forall p: real :: 0.5 < p < 1.0 ==> 0.0 < quantile(p))
      && (forall p: real, q: real :: 0.0 < p <= q < 1.0 ==> quantile(p) <= quantile(q))
    }
  }

  function Tail(confidence: real, comparisons: int): real
    requires 1 <= comparisons
  {
    1.0 - (1.0 - confidence) / (4.0 * comparisons as real)
  }

  lemma TailBounds(confidence: real, comparisons: int, more: int)
    requires 0.0 < confidence < 1.0 && 1 <= comparisons <= more
    ensures 0.5 < Tail(confidence, comparisons) <= Tail(confidence, more) < 1.0
  {
    TailOrder(1.0 - confidence, comparisons as real, more as real);
  }

  lemma TailOrder(alpha: real, m: real, m': real)
    requires 0.0 < alpha < 1.0 && 1.0 <= m <= m'
    ensures 0.0 < alpha / (4.0 * m') <= alpha / (4.0 * m) < 0.5
  {
    QuotientPositive(alpha, 4.0 * m');
    QuotientTimes(alpha, 4.0 * m);
    QuotientTimes(alpha, 4.0 * m');
    var q, q' := alpha / (4.0 * m), alpha / (4.0 * m');
    if q < q' {
      ProductIsPositive(q' - q, 4.0 * m, (q' - q) * (4.0 * m));
      ProductMonotone(4.0 * m, 4.0 * m', q');
      assert false;
    }
    if 0.5 <= q {
      ProductMonotone(0.5, q, 4.0 * m);
      assert false;
    }
  }

  function CriticalValue(numerics: Numerics, confidence: real, comparisons: int): real
    requires 1 <= comparisons
  {
    numerics.quantile(Tail(confidence, comparisons))
  }

  lemma CriticalValueGrows(numerics: Numerics, confidence: real, comparisons: int, more: int)
    requires numerics.Valid() && 0.0 < confidence < 1.0 && 1 <= comparisons <= more
    ensures 0.0 < CriticalValue(numerics, confidence, comparisons) <= CriticalValue(numerics, confidence, more)
  {
    TailBounds(confidence, comparisons, more);
  }

  // ---------------------------------------------------------------- one metric

  function Status(direction: Direction, bound: real, lower: real, upper: real): MetricStatus {
    match direction
    case Higher =>
      if lower >= -bound then Noninferior else if upper < -bound then Regression else Inconclusive
    case Lower =>
      if upper <= bound then Noninferior else if lower > bound then Regression else Inconclusive
  }

  /** Counts of one metric in the two cohorts. */
  datatype Counts = Counts(baseline: int, baselineSamples: int, candidate: int, candidateSamples: int) {
    predicate Valid() {
      0 <= baseline <= baselineSamples && 1 <= baselineSamples && 0 <= candidate <= candidateSamples && 1 <= candidateSamples
    }

    function Complement(): Counts {
      Counts(baselineSamples - baseline, baselineSamples, candidateSamples - candidate, candidateSamples)
    }
  }

  /** Interval of candidate rate minus baseline rate. */
  function DifferenceInterval(counts: Counts, z: real, sqrt: real -> real): Interval
    requires counts.Valid() && 0.0 < z
  {
    var b := WilsonInterval(counts.baseline, counts.baselineSamples, z, sqrt);
    var c := WilsonInterval(counts.candidate, counts.candidateSamples, z, sqrt);
    Interval(c.lo - b.hi, c.hi - b.lo)
  }

  function MetricStatusAt(direction: Direction, bound: real, counts: Counts, z: real, sqrt: real -> real): MetricStatus
    requires counts.Valid() && 0.0 < z
  {
    var d := DifferenceInterval(counts, z, sqrt);
    Status(direction, bound, d.lo, d.hi)
  }

  function Rounded(x: real): real {
    RoundTo(x, PICO)
  }

  function ResultFor(policy: MetricPolicy, counts: Counts, z: real, sqrt: real -> real): MetricResult
    requires counts.Valid() && 0.0 < z
  {
    var d := DifferenceInterval(counts, z, sqrt);
    var baselineRate := Rate(counts.baseline, counts.baselineSamples);
    var candidateRate := Rate(counts.candidate, counts.candidateSamples);
    MetricResult(
      policy.metricId, policy.direction, Rounded(policy.maximumDegradation),
      Rounded(baselineRate), Rounded(candidateRate), Rounded(candidateRate - baselineRate),
      Rounded(d.lo), Rounded(d.hi),
      Status(policy.direction, policy.maximumDegradation, d.lo, d.hi))
  }

  /** How much worse the candidate is when the true rates are b and c. */
  function Degradation(direction: Direction, b: real, c: real): real {
    if direction == Higher then b - c else c - b
  }

  ghost predicate Plausible(counts: Counts, z: real, b: real, c: real)
    requires counts.Valid()
  {
    && Unrejected(counts.baseline, counts.baselineSamples, z, b)
    && Unrejected(counts.candidate, counts.candidateSamples, z, c)
  }

  ghost predicate AlwaysWithin(direction: Direction, bound: real, counts: Counts, z: real)
    requires counts.Valid()
  {
    forall b: real, c: real :: Plausible(counts, z, b, c) ==> Degradation(direction, b, c) <= bound
  }

  ghost predicate AlwaysBeyond(direction: Direction, bound: real, counts: Counts, z: real)
    requires counts.Valid()
  {
    forall b: real, c: real :: Plausible(counts, z, b, c) ==> bound < Degradation(direction, b, c)
  }

  /** The three-way status says exactly what holds of every pair of true rates
      that the two score tests leave plausible. */
  lemma StatusIsExact(direction: Direction, bound: real, counts: Counts, z: real, sqrt: real -> real)
    requires counts.Valid() && 0.0 < z && IsSquareRoot(sqrt)
    ensures MetricStatusAt(direction, bound, counts, z, sqrt) == Noninferior <==> AlwaysWithin(direction, bound, counts, z)
    ensures MetricStatusAt(direction, bound, counts, z, sqrt) == Regression <==> AlwaysBeyond(direction, bound, counts, z)
  {
    var b := WilsonInterval(counts.baseline, counts.baselineSamples, z, sqrt);
    var c := WilsonInterval(counts.candidate, counts.candidateSamples, z, sqrt);
    EndsArePlausible(counts, z, sqrt);
    assert Plausible(counts, z, b.hi, c.lo) && Plausible(counts, z, b.lo, c.hi);
    forall p, q | Plausible(counts, z, p, q) ensures b.lo <= p <= b.hi && c.lo <= q <= c.hi {
      WilsonIsScoreRegion(counts.baseline, counts.baselineSamples, z, sqrt, p);
      WilsonIsScoreRegion(counts.candidate, counts.candidateSamples, z, sqrt, q);
    }
  }

  lemma EndsArePlausible(counts: Counts, z: real, sqrt: real -> real)
    requires counts.Valid() && 0.0 < z && IsSquareRoot(sqrt)
    ensures var b, c := WilsonInterval(counts.baseline, counts.baselineSamples, z, sqrt),
                        WilsonInterval(counts.candidate, counts.candidateSamples, z, sqrt);
            && Plausible(counts, z, b.hi, c.lo) && Plausible(counts, z, b.lo, c.hi)
            && 0.0 <= b.lo <= b.hi <= 1.0 && 0.0 <= c.lo <= c.hi <= 1.0
  {
    var b := WilsonInterval(counts.baseline, counts.baselineSamples, z, sqrt);
    var c := WilsonInterval(counts.candidate, counts.candidateSamples, z, sqrt);
    ClampsAreIdle(counts.baseline, counts.baselineSamples, z, sqrt);
    ClampsAreIdle(counts.candidate, counts.candidateSamples, z, sqrt);
    WilsonIsScoreRegion(counts.baseline, counts.baselineSamples, z, sqrt, b.hi);
    WilsonIsScoreRegion(counts.baseline, counts.baselineSamples, z, sqrt, b.lo);
    WilsonIsScoreRegion(counts.candidate, counts.candidateSamples, z, sqrt, c.hi);
    WilsonIsScoreRegion(counts.candidate, counts.candidateSamples, z, sqrt, c.lo);
  }

  function StatusRank(status: MetricStatus): int {
    match status
    case Regression => 0
    case Inconclusive => 1
    case Noninferior => 2
  }

  /** At least as good for the candidate: same samples, candidate count no worse, baseline count no better. */
  predicate NoWorse(direction: Direction, from: Counts, to: Counts) {
    && from.baselineSamples == to.baselineSamples && from.candidateSamples == to.candidateSamples
    && (if direction == Higher then from.candidate <= to.candidate && to.baseline <= from.baseline
        else to.candidate <= from.candidate && from.baseline <= to.baseline)
  }

  lemma BetterCountsNeverLowerStatus(direction: Direction, bound: real, from: Counts, to: Counts, z: real, sqrt: real -> real)
    requires from.Valid() && to.Valid() && NoWorse(direction, from, to) && 0.0 < z && IsSquareRoot(sqrt)
    ensures StatusRank(MetricStatusAt(direction, bound, from, z, sqrt)) <= StatusRank(MetricStatusAt(direction, bound, to, z, sqrt))
  {
    if direction == Higher {
      BoundsGrowWithEvents(from.candidate, to.candidate, from.candidateSamples, z, sqrt);
      BoundsGrowWithEvents(to.baseline, from.baseline, from.baselineSamples, z, sqrt);
    } else {
      BoundsGrowWithEvents(to.candidate, from.candidate, from.candidateSamples, z, sqrt);
      BoundsGrowWithEvents(from.baseline, to.baseline, from.baselineSamples, z, sqrt);
    }
  }

  /** More comparisons keep a status or turn it Inconclusive; they never flip one. */
  lemma MoreComparisonsOnlyBlur(
    direction: Direction, bound: real, counts: Counts, numerics: Numerics, confidence: real, comparisons: int, more: int)
    requires counts.Valid() && numerics.Valid() && 0.0 < confidence < 1.0 && 1 <= comparisons <= more
    ensures 0.0 < CriticalValue(numerics, confidence, comparisons) && 0.0 < CriticalValue(numerics, confidence, more)
    ensures var s := MetricStatusAt(direction, bound, counts, CriticalValue(numerics, confidence, comparisons), numerics.sqrt);
            var s' := MetricStatusAt(direction, bound, counts, CriticalValue(numerics, confidence, more), numerics.sqrt);
            s' == s || s' == Inconclusive
  {
    CriticalValueGrows(numerics, confidence, comparisons, comparisons);
    CriticalValueGrows(numerics, confidence, comparisons, more);
    var z, z' := CriticalValue(numerics, confidence, comparisons), CriticalValue(numerics, confidence, more);
    IntervalsNestInZ(counts.baseline, counts.baselineSamples, z, z', numerics.sqrt);
    IntervalsNestInZ(counts.candidate, counts.candidateSamples, z, z', numerics.sqrt);
    EndsArePlausible(counts, z, numerics.sqrt);
  }

  /** A HIGHER metric is decided exactly as the LOWER metric on the complementary counts. */
  lemma HigherMirrorsLower(bound: real, counts: Counts, z: real, sqrt: real -> real)
    requires counts.Valid() && 0.0 < z && IsSquareRoot(sqrt)
    ensures MetricStatusAt(Higher, bound, counts, z, sqrt) == MetricStatusAt(Lower, bound, counts.Complement(), z, sqrt)
  {
    ComplementMirrors(counts.baseline, counts.baselineSamples, z, sqrt);
    ComplementMirrors(counts.candidate, counts.candidateSamples, z, sqrt);
  }

  // ---------------------------------------------------------------- the comparison


  /** What parse_canary_policy guarantees. */
  ghost predicate PolicyParsed(policy: Policy) {
    && 0.90 <= policy.confidence <= 0.999
    && 1 <= policy.maximumLooks <= 100
    && 60 <= policy.minimumSeconds <= MAX_WINDOW_SECONDS
    && 30 <= policy.minimumSamples <= MAX_SAMPLES
    && 1 <= |policy.metrics| <= MAX_METRICS
    && (forall i, j :: 0 <= i < j < |policy.metrics| ==> policy.metrics[i].metricId != policy.metrics[j].metricId)
    && (forall m :: m in policy.metrics ==> 0.0 <= m.maximumDegradation <= 1.0)
  }

  ghost predicate CohortParsed(cohort: Cohort) {
    && 1 <= cohort.samples <= MAX_SAMPLES
    && 1 <= |cohort.metrics| <= MAX_METRICS
    && (forall i, j :: 0 <= i < j < |cohort.metrics| ==> cohort.metrics[i].metricId != cohort.metrics[j].metricId)
    && (forall m :: m in cohort.metrics ==> 0 <= m.events <= cohort.samples)
  }

  /** What parse_canary_observation guarantees. */
  ghost predicate ObservationParsed(o: Observation) {
    && 1 <= o.look <= 100
    && o.startedAt < o.endedAt <= o.observedAt
    && o.endedAt - o.startedAt <= MAX_WINDOW_SECONDS
    && CohortParsed(o.baseline) && CohortParsed(o.candidate)
    && o.baseline.deploymentRef != o.candidate.deploymentRef
  }

  function PolicyIds(policy: Policy): set<string> {
    set m | m in policy.metrics :: m.metricId
  }

  function ObservedIds(cohort: Cohort): set<string> {
    set m | m in cohort.metrics :: m.metricId
  }

  /** The cohort's counts by metric id; a later entry overwrites an earlier one. */
  function EventsById(metrics: seq<MetricObservation>): (events: map<string, int>)
    ensures events.Keys == set m | m in metrics :: m.metricId
    ensures forall id :: id in events ==> MetricObservation(id, events[id]) in metrics
  {
    if metrics == [] then map[]
    else EventsById(metrics[..|metrics| - 1])[metrics[|metrics| - 1].metricId := metrics[|metrics| - 1].events]
  }

  function CountsFor(o: Observation, id: string): Counts
    requires id in ObservedIds(o.baseline) && id in ObservedIds(o.candidate)
  {
    Counts(EventsById(o.baseline.metrics)[id], o.baseline.samples, EventsById(o.candidate.metrics)[id], o.candidate.samples)
  }

  predicate DesignReady(policy: Policy, o: Observation) {
    && o.endedAt - o.startedAt >= policy.minimumSeconds
    && (!policy.requireSticky || o.sticky) && !o.contaminated
    && o.baseline.samples >= policy.minimumSamples && o.candidate.samples >= policy.minimumSamples
  }

  predicate Has(results: seq<MetricResult>, status: MetricStatus) {
    exists i :: 0 <= i < |results| && results[i].status == status
  }

  function Decide(ready: bool, look: int, maximumLooks: int, results: seq<MetricResult>): CanaryDecision {
    var finalLookInconclusive := look == maximumLooks && Has(results, Inconclusive);
    if !ready then MoreEvidence
    else if Has(results, Regression) then Rollback
    else if finalLookInconclusive then MoreEvidence
    else if Has(results, Inconclusive) then Continue
    else Promote
  }

  function Flag(ok: bool): CheckStatus {
    if ok then Pass else Warning
  }

  function ChecksFor(policy: Policy, o: Observation, results: seq<MetricResult>): seq<Check> {
    [ Check("predeclared_policy", Pass),
      Check("planned_look", Pass),
      Check("observation_window", Flag(o.endedAt - o.startedAt >= policy.minimumSeconds)),
      Check("assignment_integrity", Flag((!policy.requireSticky || o.sticky) && !o.contaminated)),
      Check("cohort_sample_size",
            Flag(o.baseline.samples >= policy.minimumSamples && o.candidate.samples >= policy.minimumSamples)),
      Check("metric_outcomes",
            if Has(results, Regression) then Fail else if Has(results, Inconclusive) then Warning else Pass) ]
  }

  function Comparisons(policy: Policy): int {
    |policy.metrics| * policy.maximumLooks
  }

  ghost predicate Usable(policy: Policy, numerics: Numerics) {
    PolicyParsed(policy) && numerics.Valid()
  }

  lemma CriticalValuePositive(policy: Policy, numerics: Numerics)
    requires Usable(policy, numerics)
    ensures 1 <= Comparisons(policy) && 0.0 < CriticalValue(numerics, policy.confidence, Comparisons(policy))
  {
    assert 1 * 1 <= |policy.metrics| * policy.maximumLooks;
    CriticalValueGrows(numerics, policy.confidence, Comparisons(policy), Comparisons(policy));
  }

  function Z(policy: Policy, numerics: Numerics): (z: real)
    requires Usable(policy, numerics)
    ensures 0.0 < z
  {
    CriticalValuePositive(policy, numerics);
    CriticalValue(numerics, policy.confidence, Comparisons(policy))
  }

  lemma CountsValid(o: Observation, id: string)
    requires ObservationParsed(o) && id in ObservedIds(o.baseline) && id in ObservedIds(o.candidate)
    ensures CountsFor(o, id).Valid()
  {
    assert MetricObservation(id, EventsById(o.baseline.metrics)[id]) in o.baseline.metrics;
    assert MetricObservation(id, EventsById(o.candidate.metrics)[id]) in o.candidate.metrics;
  }

  function MetricResults(policy: Policy, o: Observation, numerics: Numerics): (results: seq<MetricResult>)
    requires Usable(policy, numerics) && ObservationParsed(o)
    requires ObservedIds(o.baseline) == ObservedIds(o.candidate) == PolicyIds(policy)
    ensures |results| == |policy.metrics|
  {
    seq(|policy.metrics|, i requires 0 <= i < |policy.metrics| =>
      assert policy.metrics[i].metricId in PolicyIds(policy);
      CountsValid(o, policy.metrics[i].metricId);
      ResultFor(policy.metrics[i], CountsFor(o, policy.metrics[i].metricId), Z(policy, numerics), numerics.sqrt))
  }

  function Compare(policy: Policy, o: Observation, reviewedAt: real, comparedAt: int, numerics: Numerics)
    : Result<Comparison, CanaryError>
    requires Usable(policy, numerics) && ObservationParsed(o)
  {
    if o.look > policy.maximumLooks then Err(LookBeyondPlan)
    else if policy.declaredAt > o.startedAt then Err(PolicyAfterWindow)
    else if reviewedAt > o.startedAt as real then Err(ReviewAfterWindow)
    else if comparedAt < o.observedAt then Err(ObservedAfterComparison)
    else if ObservedIds(o.baseline) != PolicyIds(policy) then Err(MetricIdsDiffer("baseline"))
    else if ObservedIds(o.candidate) != PolicyIds(policy) then Err(MetricIdsDiffer("candidate"))
    else
      var results := MetricResults(policy, o, numerics);
      Ok(Comparison(
        o.look, policy.maximumLooks, comparedAt, o.startedAt, o.endedAt, o.endedAt - o.startedAt,
        o.baseline.deploymentRef, o.candidate.deploymentRef, o.baseline.samples, o.candidate.samples,
        policy.confidence, Decide(DesignReady(policy, o), o.look, policy.maximumLooks, results),
        ChecksFor(policy, o, results), results))
  }

  // ---------------------------------------------------------------- what a decision means

  /** The observation counts exactly the policy's metrics in both cohorts. */
  ghost predicate SameMetrics(policy: Policy, o: Observation) {
    ObservedIds(o.baseline) == ObservedIds(o.candidate) == PolicyIds(policy)
  }

  ghost predicate MetricWithin(policy: Policy, o: Observation, z: real, i: int)
    requires ObservationParsed(o) && SameMetrics(policy, o) && 0 <= i < |policy.metrics|
  {
    var m := policy.metrics[i];
    assert m.metricId in PolicyIds(policy);
    CountsValid(o, m.metricId);
    AlwaysWithin(m.direction, m.maximumDegradation, CountsFor(o, m.metricId), z)
  }

  ghost predicate MetricBeyond(policy: Policy, o: Observation, z: real, i: int)
    requires ObservationParsed(o) && SameMetrics(policy, o) && 0 <= i < |policy.metrics|
  {
    var m := policy.metrics[i];
    assert m.metricId in PolicyIds(policy);
    CountsValid(o, m.metricId);
    AlwaysBeyond(m.direction, m.maximumDegradation, CountsFor(o, m.metricId), z)
  }

  ghost predicate EveryMetricWithin(policy: Policy, o: Observation, z: real)
    requires ObservationParsed(o) && SameMetrics(policy, o)
  {
    forall i :: 0 <= i < |policy.metrics| ==> MetricWithin(policy, o, z, i)
  }

  ghost predicate SomeMetricBeyond(policy: Policy, o: Observation, z: real)
    requires ObservationParsed(o) && SameMetrics(policy, o)
  {
    exists i :: 0 <= i < |policy.metrics| && MetricBeyond(policy, o, z, i)
  }

  lemma StatusAt(policy: Policy, o: Observation, numerics: Numerics, i: nat)
    requires Usable(policy, numerics) && ObservationParsed(o)
    requires SameMetrics(policy, o) && i < |policy.metrics|
    ensures policy.metrics[i].metricId in PolicyIds(policy) && CountsFor(o, policy.metrics[i].metricId).Valid()
    ensures var m := policy.metrics[i];
            MetricResults(policy, o, numerics)[i].status
            == MetricStatusAt(m.direction, m.maximumDegradation, CountsFor(o, m.metricId), Z(policy, numerics), numerics.sqrt)
  {
    var m := policy.metrics[i];
    assert m.metricId in PolicyIds(policy);
    CountsValid(o, m.metricId);
  }

  lemma MetricMeaning(policy: Policy, o: Observation, numerics: Numerics, i: nat)
    requires Usable(policy, numerics) && ObservationParsed(o) && SameMetrics(policy, o) && i < |policy.metrics|
    ensures var s := MetricResults(policy, o, numerics)[i].status;
            && (s == Noninferior <==> MetricWithin(policy, o, Z(policy, numerics), i))
            && (s == Regression <==> MetricBeyond(policy, o, Z(policy, numerics), i))
  {
    StatusAt(policy, o, numerics, i);
    var m := policy.metrics[i];
    StatusIsExact(m.direction, m.maximumDegradation, CountsFor(o, m.metricId), Z(policy, numerics), numerics.sqrt);
  }

  /** Statuses against score regions, over all metrics at once. */
  lemma ResultsMeaning(policy: Policy, o: Observation, numerics: Numerics)
    requires Usable(policy, numerics) && ObservationParsed(o) && SameMetrics(policy, o)
    ensures var results := MetricResults(policy, o, numerics);
            && (Has(results, Regression) <==> SomeMetricBeyond(policy, o, Z(policy, numerics)))
            && (!Has(results, Regression) && !Has(results, Inconclusive) <==> EveryMetricWithin(policy, o, Z(policy, numerics)))
  {
    var results, z := MetricResults(policy, o, numerics), Z(policy, numerics);
    forall i | 0 <= i < |results|
      ensures results[i].status == Noninferior <==> MetricWithin(policy, o, z, i)
      ensures results[i].status == Regression <==> MetricBeyond(policy, o, z, i)
    {
      MetricMeaning(policy, o, numerics, i);
    }
    StatusesSplit(policy, o, z, results);
  }

  lemma StatusesSplit(policy: Policy, o: Observation, z: real, results: seq<MetricResult>)
    requires ObservationParsed(o) && SameMetrics(policy, o) && |results| == |policy.metrics|
    requires forall i :: 0 <= i < |results| ==> (results[i].status == Noninferior <==> MetricWithin(policy, o, z, i))
    requires forall i :: 0 <= i < |results| ==> (results[i].status == Regression <==> MetricBeyond(policy, o, z, i))
    ensures Has(results, Regression) <==> SomeMetricBeyond(policy, o, z)
    ensures !Has(results, Regression) && !Has(results, Inconclusive) <==> EveryMetricWithin(policy, o, z)
  {
    forall i | 0 <= i < |results| && !Has(results, Regression) && !Has(results, Inconclusive)
      ensures results[i].status == Noninferior
    {
    }
  }

  /** PROMOTE exactly when the design is ready and every plausible pair of true
      rates is within every bound; ROLLBACK exactly when it is ready and some
      metric exceeds its bound on every plausible pair; CONTINUE only before
      the last planned look. */
  lemma DecisionIsSound(policy: Policy, o: Observation, reviewedAt: real, comparedAt: int, numerics: Numerics)
    requires Usable(policy, numerics) && ObservationParsed(o)
    requires Compare(policy, o, reviewedAt, comparedAt, numerics).Ok?
    ensures SameMetrics(policy, o)
    ensures var decision := Compare(policy, o, reviewedAt, comparedAt, numerics).value.decision;
            && (decision == Promote <==> DesignReady(policy, o) && EveryMetricWithin(policy, o, Z(policy, numerics)))
            && (decision == Rollback <==> DesignReady(policy, o) && SomeMetricBeyond(policy, o, Z(policy, numerics)))
            && (decision == Continue <==>
                  && DesignReady(policy, o) && o.look != policy.maximumLooks
                  && !SomeMetricBeyond(policy, o, Z(policy, numerics)) && !EveryMetricWithin(policy, o, Z(policy, numerics)))
            && (decision == Continue ==> o.look < policy.maximumLooks)
  {
    ResultsMeaning(policy, o, numerics);
  }

  // -- over the fields of the policy and the observation alone

  lemma {:induction false} ProductAsReal(a: nat, b: nat)
    ensures (a * b) as real == a as real * b as real
  {
    if b > 0 {
      ProductAsReal(a, b - 1);
      assert a * b == a * (b - 1) + a;
    }
  }

  /** The error left by the confidence is shared among both ends of the intervals
      of both cohorts, for every metric and every planned look. */
  ghost predicate FamilyWise(policy: Policy, p: real) {
    4.0 * |policy.metrics| as real * policy.maximumLooks as real * (1.0 - p) == 1.0 - policy.confidence
  }

  lemma OneSolution(n: real, alpha: real, p: real)
    requires 0.0 < n
    ensures n * (1.0 - p) == alpha <==> p == 1.0 - alpha / n
  {
    var q := 1.0 - p;
    QuotientTimes(alpha, n);
    QuotientTimes(q, n);
    assert n * q == q * n;
    if q == alpha / n {
      assert q * n == alpha;
    }
  }

  /** The critical value is the quantile of that share, and of nothing else. */
  lemma CriticalValueIsFamilyWise(policy: Policy, numerics: Numerics)
    requires Usable(policy, numerics)
    ensures exists p: real :: FamilyWise(policy, p) && Z(policy, numerics) == numerics.quantile(p)
    ensures forall p: real :: FamilyWise(policy, p) ==> 0.5 < p < 1.0 && Z(policy, numerics) == numerics.quantile(p)
  {
    CriticalValuePositive(policy, numerics);
    ProductAsReal(|policy.metrics|, policy.maximumLooks);
    var n := Comparisons(policy) as real;
    TailBounds(policy.confidence, Comparisons(policy), Comparisons(policy));
    forall p: real ensures FamilyWise(policy, p) <==> p == Tail(policy.confidence, Comparisons(policy)) {
      assert 4.0 * |policy.metrics| as real * policy.maximumLooks as real == 4.0 * n;
      OneSolution(4.0 * n, 1.0 - policy.confidence, p);
    }
  }

  /** A plan with as many or more looks and metrics at the same confidence keeps a
      status or makes it Inconclusive, at the quantiles of the two shares. */
  lemma LargerPlanOnlyBlurs(direction: Direction, bound: real, counts: Counts, numerics: Numerics,
                            policy: Policy, p: real, larger: Policy, q: real)
    requires counts.Valid() && Usable(policy, numerics) && Usable(larger, numerics) && FamilyWise(policy, p) && FamilyWise(larger, q)
    requires larger.confidence == policy.confidence
    requires |policy.metrics| <= |larger.metrics| && policy.maximumLooks <= larger.maximumLooks
    ensures 0.0 < numerics.quantile(p) && 0.0 < numerics.quantile(q)
    ensures var s := MetricStatusAt(direction, bound, counts, numerics.quantile(p), numerics.sqrt);
            var s' := MetricStatusAt(direction, bound, counts, numerics.quantile(q), numerics.sqrt);
            s' == s || s' == Inconclusive
  {
    hide MetricStatusAt, FamilyWise;
    CriticalValueIsFamilyWise(policy, numerics);
    CriticalValueIsFamilyWise(larger, numerics);
    MorePlanned(|policy.metrics|, policy.maximumLooks, |larger.metrics|, larger.maximumLooks);
    MoreComparisonsOnlyBlur(direction, bound, counts, numerics, policy.confidence, Comparisons(policy), Comparisons(larger));
  }

  lemma MorePlanned(a: nat, b: nat, a': nat, b': nat)
    requires 1 <= a <= a' && 1 <= b <= b'
    ensures 1 <= a * b <= a' * b'
  {
    assert a * b <= a' * b;
    assert a' * b <= a' * b';
  }

  /** Entries of the two cohorts that count this metric of the policy. */
  ghost predicate Observed(policy: Policy, o: Observation, m: MetricPolicy, e: MetricObservation, f: MetricObservation) {
    && m in policy.metrics && e in o.baseline.metrics && f in o.candidate.metrics
    && e.metricId == m.metricId && f.metricId == m.metricId
  }

  function PairCounts(o: Observation, e: MetricObservation, f: MetricObservation): Counts {
    Counts(e.events, o.baseline.samples, f.events, o.candidate.samples)
  }

  /** Every metric stays within its bound at all plausible rates. */
  ghost predicate AllWithin(policy: Policy, o: Observation, z: real)
    requires ObservationParsed(o)
  {
    forall m, e, f :: Observed(policy, o, m, e, f) ==> AlwaysWithin(m.direction, m.maximumDegradation, PairCounts(o, e, f), z)
  }

  ghost predicate SomeBeyond(policy: Policy, o: Observation, z: real)
    requires ObservationParsed(o)
  {
    exists m, e, f :: Observed(policy, o, m, e, f) && AlwaysBeyond(m.direction, m.maximumDegradation, PairCounts(o, e, f), z)
  }

  /** Both cohorts count the metrics of the policy and no others. */
  ghost predicate CountsTheMetrics(policy: Policy, cohort: Cohort) {
    && (forall m :: m in policy.metrics ==> exists e :: e in cohort.metrics && e.metricId == m.metricId)
    && (forall e :: e in cohort.metrics ==> exists m :: m in policy.metrics && m.metricId == e.metricId)
  }

  lemma SameIdsMean(policy: Policy, cohort: Cohort)
    ensures ObservedIds(cohort) == PolicyIds(policy) <==> CountsTheMetrics(policy, cohort)
  {
    forall e | e in cohort.metrics ensures e.metricId in ObservedIds(cohort) {
    }
    forall m | m in policy.metrics ensures m.metricId in PolicyIds(policy) {
    }
    if CountsTheMetrics(policy, cohort) {
      forall id ensures id in ObservedIds(cohort) <==> id in PolicyIds(policy) {
      }
    }
  }

  lemma OneEntry(cohort: Cohort, e: MetricObservation, e': MetricObservation)
    requires CohortParsed(cohort) && e in cohort.metrics && e' in cohort.metrics && e.metricId == e'.metricId
    ensures e == e'
  {
    var i :| 0 <= i < |cohort.metrics| && cohort.metrics[i] == e;
    var j :| 0 <= j < |cohort.metrics| && cohort.metrics[j] == e';
  }

  lemma CountsAreObserved(policy: Policy, o: Observation, m: MetricPolicy, e: MetricObservation, f: MetricObservation)
    requires ObservationParsed(o) && SameMetrics(policy, o) && Observed(policy, o, m, e, f)
    ensures m.metricId in PolicyIds(policy) && CountsFor(o, m.metricId) == PairCounts(o, e, f)
  {
    assert m.metricId in PolicyIds(policy);
    OneEntry(o.baseline, e, MetricObservation(m.metricId, EventsById(o.baseline.metrics)[m.metricId]));
    OneEntry(o.candidate, f, MetricObservation(m.metricId, EventsById(o.candidate.metrics)[m.metricId]));
  }

  lemma EntriesOf(policy: Policy, o: Observation, i: nat) returns (e: MetricObservation, f: MetricObservation)
    requires SameMetrics(policy, o) && i < |policy.metrics|
    ensures Observed(policy, o, policy.metrics[i], e, f)
  {
    assert policy.metrics[i].metricId in PolicyIds(policy);
    e :| e in o.baseline.metrics && e.metricId == policy.metrics[i].metricId;
    f :| f in o.candidate.metrics && f.metricId == policy.metrics[i].metricId;
  }

  lemma MetricAgrees(policy: Policy, o: Observation, z: real, i: nat, e: MetricObservation, f: MetricObservation)
    requires ObservationParsed(o) && SameMetrics(policy, o) && i < |policy.metrics| && Observed(policy, o, policy.metrics[i], e, f)
    ensures var m := policy.metrics[i];
            && (MetricWithin(policy, o, z, i) <==> AlwaysWithin(m.direction, m.maximumDegradation, PairCounts(o, e, f), z))
            && (MetricBeyond(policy, o, z, i) <==> AlwaysBeyond(m.direction, m.maximumDegradation, PairCounts(o, e, f), z))
  {
    hide AlwaysWithin, AlwaysBeyond, EventsById;
    CountsAreObserved(policy, o, policy.metrics[i], e, f);
  }

  lemma WithinAgree(policy: Policy, o: Observation, z: real)
    requires ObservationParsed(o) && SameMetrics(policy, o)
    ensures EveryMetricWithin(policy, o, z) <==> AllWithin(policy, o, z)
    ensures SomeMetricBeyond(policy, o, z) <==> SomeBeyond(policy, o, z)
  {
    hide AlwaysWithin, AlwaysBeyond, MetricWithin, MetricBeyond, SameMetrics;
    forall m, e, f | Observed(policy, o, m, e, f)
      ensures EveryMetricWithin(policy, o, z) ==> AlwaysWithin(m.direction, m.maximumDegradation, PairCounts(o, e, f), z)
      ensures AlwaysBeyond(m.direction, m.maximumDegradation, PairCounts(o, e, f), z) ==> SomeMetricBeyond(policy, o, z)
    {
      var i :| 0 <= i < |policy.metrics| && policy.metrics[i] == m;
      MetricAgrees(policy, o, z, i, e, f);
    }
    forall i | 0 <= i < |policy.metrics|
      ensures AllWithin(policy, o, z) ==> MetricWithin(policy, o, z, i)
      ensures MetricBeyond(policy, o, z, i) ==> SomeBeyond(policy, o, z)
    {
      var e, f := EntriesOf(policy, o, i);
      MetricAgrees(policy, o, z, i, e, f);
    }
  }

  /** The comparison in the open: which inputs it accepts, and which decision it
      makes at the critical value of the shared error. */
  lemma CompareIsExact(policy: Policy, o: Observation, reviewedAt: real, comparedAt: int, numerics: Numerics, p: real)
    requires Usable(policy, numerics) && ObservationParsed(o) && FamilyWise(policy, p)
    ensures Compare(policy, o, reviewedAt, comparedAt, numerics).Ok? <==>
              && o.look <= policy.maximumLooks && policy.declaredAt <= o.startedAt && reviewedAt <= o.startedAt as real
              && o.observedAt <= comparedAt && CountsTheMetrics(policy, o.baseline) && CountsTheMetrics(policy, o.candidate)
    ensures Compare(policy, o, reviewedAt, comparedAt, numerics).Ok? ==>
              var decision, z := Compare(policy, o, reviewedAt, comparedAt, numerics).value.decision, numerics.quantile(p);
              var ready := && o.endedAt - o.startedAt >= policy.minimumSeconds
                           && (policy.requireSticky ==> o.sticky) && !o.contaminated
                           && o.baseline.samples >= policy.minimumSamples && o.candidate.samples >= policy.minimumSamples;
              && (decision == Promote <==> ready && AllWithin(policy, o, z))
              && (decision == Rollback <==> ready && SomeBeyond(policy, o, z))
              && (decision == Continue <==>
                    ready && !AllWithin(policy, o, z) && !SomeBeyond(policy, o, z) && o.look < policy.maximumLooks)
  {
    hide Z, MetricResults, EveryMetricWithin, SomeMetricBeyond, AllWithin, SomeBeyond, CountsTheMetrics, PolicyIds, ObservedIds,
      Decide, ChecksFor, FamilyWise, Has;
    SameIdsMean(policy, o.baseline);
    SameIdsMean(policy, o.candidate);
    CriticalValueIsFamilyWise(policy, numerics);
    if Compare(policy, o, reviewedAt, comparedAt, numerics).Ok? {
      DecisionIsSound(policy, o, reviewedAt, comparedAt, numerics);
      WithinAgree(policy, o, Z(policy, numerics));
    }
  }

  /** The rest of an accepted comparison: what it copies from the policy and the
      observation, and its six checks, of which only the last can fail. */
  lemma ChecksAreExact(policy: Policy, o: Observation, reviewedAt: real, comparedAt: int, numerics: Numerics, p: real)
    requires Usable(policy, numerics) && ObservationParsed(o) && FamilyWise(policy, p)
    requires Compare(policy, o, reviewedAt, comparedAt, numerics).Ok?
    ensures var c, z := Compare(policy, o, reviewedAt, comparedAt, numerics).value, numerics.quantile(p);
            && c.look == o.look && c.maximumLooks == policy.maximumLooks && c.confidence == policy.confidence
            && c.comparedAt == comparedAt && c.startedAt == o.startedAt && c.endedAt == o.endedAt && c.startedAt + c.seconds == c.endedAt
            && c.baselineRef == o.baseline.deploymentRef && c.candidateRef == o.candidate.deploymentRef
            && c.baselineSamples == o.baseline.samples && c.candidateSamples == o.candidate.samples
            && |c.checks| == 6
            && c.checks[0] == Check("predeclared_policy", Pass) && c.checks[1] == Check("planned_look", Pass)
            && c.checks[2] == Check("observation_window", if c.seconds < policy.minimumSeconds then Warning else Pass)
            && c.checks[3] == Check("assignment_integrity",
                                    if o.contaminated || (policy.requireSticky && !o.sticky) then Warning else Pass)
            && c.checks[4] == Check("cohort_sample_size",
                                    if o.baseline.samples < policy.minimumSamples || o.candidate.samples < policy.minimumSamples
                                    then Warning else Pass)
            && c.checks[5] == Check("metric_outcomes", if SomeBeyond(policy, o, z) then Fail
                                                       else if AllWithin(policy, o, z) then Pass else Warning)
  {
    hide Z, MetricResults, AllWithin, SomeBeyond, EveryMetricWithin, SomeMetricBeyond, PolicyIds, ObservedIds, FamilyWise, Has, Decide;
    CriticalValueIsFamilyWise(policy, numerics);
    DecisionIsSound(policy, o, reviewedAt, comparedAt, numerics);
    ResultsMeaning(policy, o, numerics);
    WithinAgree(policy, o, Z(policy, numerics));
  }

  // -- what the result reports

  ghost predicate Near(x: real, y: real) {
    -0.0000000000005 <= x - y <= 0.0000000000005
  }

  /** The reported interval is that of all plausible differences, up to rounding. */
  ghost predicate ReportsDifferences(r: MetricResult, counts: Counts, z: real)
    requires counts.Valid()
  {
    && (forall b: real, c: real :: Plausible(counts, z, b, c) ==> r.lower - 0.0000000000005 <= c - b <= r.upper + 0.0000000000005)
    && (exists b: real, c: real :: Plausible(counts, z, b, c) && Near(r.lower, c - b))
    && (exists b: real, c: real :: Plausible(counts, z, b, c) && Near(r.upper, c - b))
  }

  lemma RoundedIsNear(x: real)
    ensures Near(Rounded(x), x)
  {
    RoundToNear(x, PICO);
  }

  lemma ReportedInterval(policy: MetricPolicy, counts: Counts, z: real, sqrt: real -> real)
    requires counts.Valid() && 0.0 < z && IsSquareRoot(sqrt)
    ensures ReportsDifferences(ResultFor(policy, counts, z, sqrt), counts, z)
  {
    var b := WilsonInterval(counts.baseline, counts.baselineSamples, z, sqrt);
    var c := WilsonInterval(counts.candidate, counts.candidateSamples, z, sqrt);
    var r := ResultFor(policy, counts, z, sqrt);
    EndsArePlausible(counts, z, sqrt);
    RoundedIsNear(c.lo - b.hi);
    RoundedIsNear(c.hi - b.lo);
    hide WilsonInterval, Rounded, Unrejected, IsSquareRoot;
    assert Plausible(counts, z, b.hi, c.lo) && Near(r.lower, c.lo - b.hi);
    assert Plausible(counts, z, b.lo, c.hi) && Near(r.upper, c.hi - b.lo);
    forall p, q | Plausible(counts, z, p, q) ensures b.lo <= p <= b.hi && c.lo <= q <= c.hi {
      WilsonIsScoreRegion(counts.baseline, counts.baselineSamples, z, sqrt, p);
      WilsonIsScoreRegion(counts.candidate, counts.candidateSamples, z, sqrt, q);
    }
  }

  /** Every metric of the policy is reported in its place: identifier, direction,
      bound, shares of events, their difference and the plausible differences. */
  lemma ResultsAreReported(policy: Policy, o: Observation, reviewedAt: real, comparedAt: int, numerics: Numerics, p: real,
                           i: nat, e: MetricObservation, f: MetricObservation)
    requires Usable(policy, numerics) && ObservationParsed(o) && FamilyWise(policy, p)
    requires Compare(policy, o, reviewedAt, comparedAt, numerics).Ok?
    requires i < |policy.metrics| && Observed(policy, o, policy.metrics[i], e, f)
    ensures var m, all := policy.metrics[i], Compare(policy, o, reviewedAt, comparedAt, numerics).value.metrics;
            && |all| == |policy.metrics|
            && all[i].metricId == m.metricId && all[i].direction == m.direction && Near(all[i].maximumDegradation, m.maximumDegradation)
            && Near(all[i].baselineRate, e.events as real / o.baseline.samples as real)
            && Near(all[i].candidateRate, f.events as real / o.candidate.samples as real)
            && Near(all[i].difference, f.events as real / o.candidate.samples as real - e.events as real / o.baseline.samples as real)
            && ReportsDifferences(all[i], PairCounts(o, e, f), numerics.quantile(p))
            && (all[i].status == Noninferior <==>
                  AlwaysWithin(m.direction, m.maximumDegradation, PairCounts(o, e, f), numerics.quantile(p)))
            && (all[i].status == Regression <==>
                  AlwaysBeyond(m.direction, m.maximumDegradation, PairCounts(o, e, f), numerics.quantile(p)))
  {
    var m, z := policy.metrics[i], Z(policy, numerics);
    CriticalValueIsFamilyWise(policy, numerics);
    CountsAreObserved(policy, o, m, e, f);
    CountsValid(o, m.metricId);
    var counts := CountsFor(o, m.metricId);
    hide Z, FamilyWise, EventsById, PolicyIds, ObservedIds, Rounded, AlwaysWithin, AlwaysBeyond, Decide, ChecksFor, DifferenceInterval;
    StatusIsExact(m.direction, m.maximumDegradation, counts, z, numerics.sqrt);
    hide IsSquareRoot;
    ReportedInterval(m, counts, z, numerics.sqrt);
    RoundedIsNear(m.maximumDegradation);
    RoundedIsNear(Rate(counts.baseline, counts.baselineSamples));
    RoundedIsNear(Rate(counts.candidate, counts.candidateSamples));
    RoundedIsNear(Rate(counts.candidate, counts.candidateSamples) - Rate(counts.baseline, counts.baselineSamples));
  }

  function DecisionRank(decision: CanaryDecision): int {
    match decision
    case Rollback => 0
    case Continue => 1
    case MoreEvidence => 1
    case Promote => 2
  }

  /** The same observation with candidate counts that are no worse on any metric. */
  ghost predicate CandidateNoWorse(policy: Policy, from: Observation, to: Observation)
    requires SameMetrics(policy, from) && SameMetrics(policy, to)
  {
    && to.look == from.look && to.sticky == from.sticky && to.contaminated == from.contaminated
    && to.startedAt == from.startedAt && to.endedAt == from.endedAt
    && to.baseline.samples == from.baseline.samples && to.candidate.samples == from.candidate.samples
    && forall i :: 0 <= i < |policy.metrics| ==> MetricNoWorse(policy, from, to, i)
  }

  ghost predicate MetricNoWorse(policy: Policy, from: Observation, to: Observation, i: int)
    requires SameMetrics(policy, from) && SameMetrics(policy, to) && 0 <= i < |policy.metrics|
  {
    var m := policy.metrics[i];
    assert m.metricId in PolicyIds(policy);
    NoWorse(m.direction, CountsFor(from, m.metricId), CountsFor(to, m.metricId))
  }

  lemma BetterCandidateNeverLowersStatus(policy: Policy, from: Observation, to: Observation, numerics: Numerics, i: nat)
    requires Usable(policy, numerics) && ObservationParsed(from) && ObservationParsed(to)
    requires SameMetrics(policy, from) && SameMetrics(policy, to)
    requires i < |policy.metrics| && MetricNoWorse(policy, from, to, i)
    ensures StatusRank(MetricResults(policy, from, numerics)[i].status) <= StatusRank(MetricResults(policy, to, numerics)[i].status)
  {
    StatusAt(policy, from, numerics, i);
    StatusAt(policy, to, numerics, i);
    var m := policy.metrics[i];
    BetterCountsNeverLowerStatus(m.direction, m.maximumDegradation, CountsFor(from, m.metricId), CountsFor(to, m.metricId),
                                 Z(policy, numerics), numerics.sqrt);
  }

  /** Improving the candidate (or worsening the baseline) never lowers the decision. */
  lemma BetterCandidateNeverLowersDecision(
    policy: Policy, from: Observation, to: Observation, reviewedAt: real, comparedAt: int, numerics: Numerics)
    requires Usable(policy, numerics) && ObservationParsed(from) && ObservationParsed(to)
    requires SameMetrics(policy, from) && SameMetrics(policy, to)
    requires CandidateNoWorse(policy, from, to)
    requires Compare(policy, from, reviewedAt, comparedAt, numerics).Ok?
    requires Compare(policy, to, reviewedAt, comparedAt, numerics).Ok?
    ensures DecisionRank(Compare(policy, from, reviewedAt, comparedAt, numerics).value.decision)
            <= DecisionRank(Compare(policy, to, reviewedAt, comparedAt, numerics).value.decision)
  {
    BetterCandidateNeverLowersAnyStatus(policy, from, to, numerics);
    BetterStatusesNeverLowerDecision(DesignReady(policy, from), from.look, policy.maximumLooks,
                                     MetricResults(policy, from, numerics), MetricResults(policy, to, numerics));
    assert DesignReady(policy, from) == DesignReady(policy, to);
  }

  ghost predicate RanksRise(results: seq<MetricResult>, results': seq<MetricResult>) {
    && |results| == |results'|
    && forall i :: 0 <= i < |results| ==> StatusRank(results[i].status) <= StatusRank(results'[i].status)
  }

  lemma BetterCandidateNeverLowersAnyStatus(policy: Policy, from: Observation, to: Observation, numerics: Numerics)
    requires Usable(policy, numerics) && ObservationParsed(from) && ObservationParsed(to)
    requires SameMetrics(policy, from) && SameMetrics(policy, to) && CandidateNoWorse(policy, from, to)
    ensures RanksRise(MetricResults(policy, from, numerics), MetricResults(policy, to, numerics))
  {
    forall i | 0 <= i < |policy.metrics|
      ensures StatusRank(MetricResults(policy, from, numerics)[i].status) <= StatusRank(MetricResults(policy, to, numerics)[i].status)
    {
      BetterCandidateNeverLowersStatus(policy, from, to, numerics, i);
    }
  }

  lemma BetterStatusesNeverLowerDecision(
    ready: bool, look: int, maximumLooks: int, results: seq<MetricResult>, results': seq<MetricResult>)
    requires RanksRise(results, results')
    ensures DecisionRank(Decide(ready, look, maximumLooks, results)) <= DecisionRank(Decide(ready, look, maximumLooks, results'))
  {
    RanksLift(results, results');
  }

  lemma RanksLift(results: seq<MetricResult>, results': seq<MetricResult>)
    requires RanksRise(results, results')
    ensures Has(results', Regression) ==> Has(results, Regression)
    ensures Has(results', Inconclusive) ==> Has(results, Regression) || Has(results, Inconclusive)
  {
    if Has(results', Regression) {
      var i :| 0 <= i < |results'| && results'[i].status == Regression;
      assert results[i].status == Regression;
    }
    if Has(results', Inconclusive) {
      var i :| 0 <= i < |results'| && results'[i].status == Inconclusive;
      assert results[i].status == Regression || results[i].status == Inconclusive;
    }
  }

  datatype Look = Look(observation: Observation, reviewedAt: real, comparedAt: int)

  ghost predicate LookDecides(policy: Policy, look: Look, numerics: Numerics, decision: CanaryDecision)
    requires Usable(policy, numerics)
  {
    && ObservationParsed(look.observation)
    && var r := Compare(policy, look.observation, look.reviewedAt, look.comparedAt, numerics);
       r.Ok? && r.value.decision == decision
  }

  /** A sequential plan: looks in increasing number, each but the last deciding CONTINUE. */
  ghost predicate PlanRun(policy: Policy, looks: seq<Look>, last: CanaryDecision, numerics: Numerics)
    requires Usable(policy, numerics)
  {
    && (forall i, j :: 0 <= i < j < |looks| ==> looks[i].observation.look < looks[j].observation.look)
    && (forall i :: 0 <= i < |looks| ==> LookDecides(policy, looks[i], numerics, if i == |looks| - 1 then last else Continue))
  }

  /** Every plan ends: a run has at most the planned number of looks, and one
      that uses them all does not end in CONTINUE. */
  lemma PlanEnds(policy: Policy, looks: seq<Look>, last: CanaryDecision, numerics: Numerics)
    requires Usable(policy, numerics) && PlanRun(policy, looks, last, numerics)
    ensures |looks| <= policy.maximumLooks
    ensures 0 < |looks| == policy.maximumLooks ==> last != Continue
  {
    if looks != [] {
      LooksCount(looks);
      var final := looks[|looks| - 1];
      assert LookDecides(policy, final, numerics, last);
      DecisionIsSound(policy, final.observation, final.reviewedAt, final.comparedAt, numerics);
    }
  }

  lemma {:induction false} LooksCount(looks: seq<Look>)
    requires looks != [] && forall i :: 0 <= i < |looks| ==> 1 <= looks[i].observation.look
    requires forall i, j :: 0 <= i < j < |looks| ==> looks[i].observation.look < looks[j].observation.look
    ensures |looks| <= looks[|looks| - 1].observation.look
  {
    if |looks| > 1 {
      LooksCount(looks[..|looks| - 1]);
      assert looks[|looks| - 2].observation.look < looks[|looks| - 1].observation.look;
    }
  }

  // ---------------------------------------------------------------- the strict result parser

  ghost predicate MetricAccepted(m: MetricResult) {
    && 0.0 <= m.baselineRate <= 1.0 && 0.0 <= m.candidateRate <= 1.0
    && -1.0 <= m.difference <= 1.0
    && -0.00000000001 <= m.difference - Rounded(m.candidateRate - m.baselineRate) <= 0.00000000001
    && -1.0 <= m.lower <= m.upper <= 1.0
    && 0.0 <= m.maximumDegradation <= 1.0
  }

  /** The consistency rules a result document has to meet. */
  ghost predicate ResultAccepted(r: Comparison) {
    && 1 <= r.look <= r.maximumLooks <= 100
    && r.startedAt < r.endedAt <= r.comparedAt
    && 1 <= r.seconds <= 2_592_000 && r.seconds == r.endedAt - r.startedAt
    && |r.checks| == 6
    && (forall i, j :: 0 <= i < j < |r.checks| ==> r.checks[i].code != r.checks[j].code)
    && 1 <= |r.metrics| <= 50
    && (forall i, j :: 0 <= i < j < |r.metrics| ==> r.metrics[i].metricId != r.metrics[j].metricId)
    && (forall i :: 0 <= i < |r.metrics| ==> MetricAccepted(r.metrics[i]))
    && r.baselineRef != r.candidateRef
    && 1 <= r.baselineSamples <= 1_000_000_000 && 1 <= r.candidateSamples <= 1_000_000_000
    && 0.90 <= r.confidence <= 0.999
  }

  method ParseMetric(m: MetricResult) returns (ok: bool)
    ensures ok <==> MetricAccepted(m)
  {
    if !(0.0 <= m.baselineRate <= 1.0 && 0.0 <= m.candidateRate <= 1.0 && -1.0 <= m.difference <= 1.0) { return false; }
    var gap := m.difference - Rounded(m.candidateRate - m.baselineRate);
    if (if gap < 0.0 then -gap else gap) > DIFFERENCE_TOLERANCE { return false; }
    if !(-1.0 <= m.lower <= 1.0 && -1.0 <= m.upper <= 1.0) { return false; }
    if m.lower > m.upper { return false; }
    return 0.0 <= m.maximumDegradation <= 1.0;
  }

  /** parse_canary_result: the checks in the order they are made, the two loops
      collecting codes and ids already seen. */
  method ParseResult(r: Comparison) returns (parsed: Result<Comparison, CanaryError>)
    ensures parsed.Ok? <==> ResultAccepted(r)
    ensures parsed.Ok? ==> parsed.value == r
  {
    if !(1 <= r.look <= 100) { return Err(Invalid("$.look_number")); }
    if !(1 <= r.maximumLooks <= 100) { return Err(Invalid("$.maximum_looks")); }
    if r.look > r.maximumLooks { return Err(Invalid("$.look_number")); }
    if !(r.startedAt < r.endedAt) { return Err(Invalid("$.window_ended_at")); }
    if r.comparedAt < r.endedAt { return Err(Invalid("$.compared_at")); }
    if !(1 <= r.seconds <= MAX_WINDOW_SECONDS) { return Err(Invalid("$.observation_seconds")); }
    if r.seconds != r.endedAt - r.startedAt { return Err(Invalid("$.observation_seconds")); }
    if |r.checks| != 6 { return Err(Invalid("$.checks")); }
    var codes: set<string> := {};
    for i := 0 to |r.checks|
      invariant codes == set k | 0 <= k < i :: r.checks[k].code
      invariant forall a, b :: 0 <= a < b < i ==> r.checks[a].code != r.checks[b].code
    {
      if r.checks[i].code in codes { return Err(Invalid("$.checks")); }
      codes := codes + {r.checks[i].code};
    }
    if !(1 <= |r.metrics| <= MAX_METRICS) { return Err(Invalid("$.metrics")); }
    var ids: set<string> := {};
    for i := 0 to |r.metrics|
      invariant ids == set k | 0 <= k < i :: r.metrics[k].metricId
      invariant forall a, b :: 0 <= a < b < i ==> r.metrics[a].metricId != r.metrics[b].metricId
      invariant forall k :: 0 <= k < i ==> MetricAccepted(r.metrics[k])
    {
      if r.metrics[i].metricId in ids { return Err(Invalid("$.metrics")); }
      ids := ids + {r.metrics[i].metricId};
      var ok := ParseMetric(r.metrics[i]);
      if !ok { return Err(Invalid("$.metrics[]")); }
    }
    if r.baselineRef == r.candidateRef { return Err(Invalid("$.candidate_deployment_ref")); }
    if !(1 <= r.baselineSamples <= MAX_SAMPLES) { return Err(Invalid("$.baseline_sample_count")); }
    if !(1 <= r.candidateSamples <= MAX_SAMPLES) { return Err(Invalid("$.candidate_sample_count")); }
    if !(0.90 <= r.confidence <= 0.999) { return Err(Invalid("$.confidence_level")); }
    return Ok(r);
  }

  lemma RoundedStaysWithin(x: real, bound: int)
    requires -(bound as real) <= x <= bound as real
    ensures -(bound as real) <= Rounded(x) <= bound as real
  {
    RoundToFixes(bound * 1_000_000_000_000, bound as real, PICO);
    RoundToFixes(-bound * 1_000_000_000_000, -(bound as real), PICO);
    RoundToMonotone(x, bound as real, PICO);
    RoundToMonotone(-(bound as real), x, PICO);
  }

  /** Rounding the difference or differencing the rounded rates: at most 1.5e-12 apart. */
  lemma RoundingsAgree(b: real, c: real)
    ensures var gap := Rounded(c - b) - Rounded(Rounded(c) - Rounded(b));
            -1.5 / PICO <= gap <= 1.5 / PICO
  {
    RoundToNear(b, PICO);
    RoundToNear(c, PICO);
    RoundToNear(c - b, PICO);
    var i, j := RoundHalfEven(c * PICO), RoundHalfEven(b * PICO);
    RoundToFixes(i - j, Rounded(c) - Rounded(b), PICO);
  }

  lemma RoundedStaysRate(x: real)
    requires 0.0 <= x <= 1.0
    ensures 0.0 <= Rounded(x) <= 1.0
  {
    RoundedStaysWithin(x, 1);
    RoundToFixes(0, 0.0, PICO);
    RoundToMonotone(0.0, x, PICO);
  }

  lemma ResultForAccepted(policy: MetricPolicy, counts: Counts, z: real, sqrt: real -> real)
    requires counts.Valid() && 0.0 < z && IsSquareRoot(sqrt) && 0.0 <= policy.maximumDegradation <= 1.0
    ensures MetricAccepted(ResultFor(policy, counts, z, sqrt))
  {
    var b, c := Rate(counts.baseline, counts.baselineSamples), Rate(counts.candidate, counts.candidateSamples);
    var d := DifferenceInterval(counts, z, sqrt);
    assert -1.0 <= d.lo <= d.hi <= 1.0 by { EndsArePlausible(counts, z, sqrt); }
    FieldsAccepted(policy.metricId, policy.direction, policy.maximumDegradation, b, c, d,
                   Status(policy.direction, policy.maximumDegradation, d.lo, d.hi));
  }

  lemma FieldsAccepted(id: string, direction: Direction, bound: real, b: real, c: real, d: Interval, status: MetricStatus)
    requires 0.0 <= bound <= 1.0 && 0.0 <= b <= 1.0 && 0.0 <= c <= 1.0 && -1.0 <= d.lo <= d.hi <= 1.0
    ensures MetricAccepted(MetricResult(id, direction, Rounded(bound), Rounded(b), Rounded(c), Rounded(c - b),
                                        Rounded(d.lo), Rounded(d.hi), status))
  {
    RoundedStaysRate(b);
    RoundedStaysRate(c);
    RoundedStaysRate(bound);
    RoundedStaysWithin(c - b, 1);
    RoundedStaysWithin(d.lo, 1);
    RoundedStaysWithin(d.hi, 1);
    RoundToMonotone(d.lo, d.hi, PICO);
    RoundingsAgree(b, c);
  }

  lemma MetricResultAccepted(policy: Policy, o: Observation, numerics: Numerics, i: nat)
    requires Usable(policy, numerics) && ObservationParsed(o) && SameMetrics(policy, o) && i < |policy.metrics|
    ensures MetricAccepted(MetricResults(policy, o, numerics)[i])
    ensures MetricResults(policy, o, numerics)[i].metricId == policy.metrics[i].metricId
  {
    var m := policy.metrics[i];
    assert m.metricId in PolicyIds(policy);
    CountsValid(o, m.metricId);
    ResultForAccepted(m, CountsFor(o, m.metricId), Z(policy, numerics), numerics.sqrt);
  }

  /** Every comparison result satisfies the strict result parser. */
  lemma ComparisonIsAccepted(policy: Policy, o: Observation, reviewedAt: real, comparedAt: int, numerics: Numerics)
    requires Usable(policy, numerics) && ObservationParsed(o)
    requires Compare(policy, o, reviewedAt, comparedAt, numerics).Ok?
    ensures ResultAccepted(Compare(policy, o, reviewedAt, comparedAt, numerics).value)
  {
    var r := Compare(policy, o, reviewedAt, comparedAt, numerics).value;
    forall i | 0 <= i < |r.metrics| ensures MetricAccepted(r.metrics[i]) && r.metrics[i].metricId == policy.metrics[i].metricId {
      MetricResultAccepted(policy, o, numerics, i);
    }
  }
}
