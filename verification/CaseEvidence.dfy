/** What the gate reads of a change-case document, field by field: from the JSON
    that src/causure/models.py accepts to the evidence of src/causure/engine.py. */
module CaseEvidence {
  import opened Vocabulary
  import opened Sequences
  import opened JsonTree
  import Paths
  import Doc = CaseDocument
  import opened Engine
  import opened CaseView
  import StrictParsers

  // ---------------------------------------------------------------- looking into a document

  /** The value under a key; null when there is none. */
  function At(value: Json, key: string): Json {
    if value.JObject? && key in value.fields then value.fields[key] else JNull
  }

  predicate IsNumber(value: Json, r: real) {
    if value.JInt? then value.n as real == r else value.JReal? && value.r == r
  }

  predicate IsText(value: Json, s: string) {
    value.JString? && Paths.Strip(value.s) == s
  }

  ghost predicate ReadsTrials(value: Json, outcome: string, trials: seq<Trial>) {
    && value.JArray? && |value.items| == |trials|
    && forall i :: 0 <= i < |trials| ==>
         IsText(At(value.items[i], "id"), trials[i].id) && At(value.items[i], outcome) == JBool(trials[i].passed)
  }

  ghost predicate ReadsIntervention(value: Json, i: Intervention) {
    At(value, "isolated") == JBool(i.isolated) && ReadsTrials(At(value, "trials"), "failure_resolved", i.trials)
  }

  ghost predicate ReadsHypothesis(value: Json, h: Hypothesis) {
    && At(value, "component") == JString(ComponentName(h.component)) && IsNumber(At(value, "confidence"), h.confidence)
    && (h.intervention.None? <==> At(value, "intervention") == JNull)
    && (h.intervention.Some? ==> ReadsIntervention(At(value, "intervention"), h.intervention.value))
  }

  ghost predicate ReadsControl(value: Json, v: ValidationCase) {
    && IsText(At(value, "id"), v.id)
    && At(value, "kind") == JString(match v.kind case Positive => "positive" case Negative => "negative" case Regression => "regression")
    && At(value, "critical") == JBool(v.critical)
    && At(value, "baseline_passed") == JBool(v.baselinePassed) && At(value, "candidate_passed") == JBool(v.candidatePassed)
  }

  /** The number is there exactly when its key is. */
  ghost predicate ReadsNumber(value: Json, key: string, number: Option<real>) {
    && value.JObject? && (number.Some? <==> key in value.fields)
    && (number.Some? ==> IsNumber(value.fields[key], number.value))
  }

  ghost predicate ReadsSnapshot(value: Json, s: Snapshot) {
    ReadsNumber(value, "p95_latency_ms", s.latency) && ReadsNumber(value, "mean_cost_usd", s.cost)
  }

  ghost predicate ReadsMetrics(value: Json, m: Option<Metrics>) {
    && (m.None? <==> value == JNull)
    && (m.Some? ==> ReadsSnapshot(At(value, "baseline"), m.value.baseline) && ReadsSnapshot(At(value, "candidate"), m.value.candidate))
  }

  ghost predicate ReadsHypotheses(value: Json, hypotheses: seq<Hypothesis>) {
    && value.JArray? && |value.items| == |hypotheses|
    && forall i :: 0 <= i < |hypotheses| ==> ReadsHypothesis(value.items[i], hypotheses[i])
  }

  ghost predicate ReadsControls(value: Json, cases: seq<ValidationCase>) {
    && value.JArray? && |value.items| == |cases|
    && forall i :: 0 <= i < |cases| ==> ReadsControl(value.items[i], cases[i])
  }

  /** The evidence of the case, at its places in the document. */
  ghost predicate ReadsCase(document: Json, c: ChangeCase) {
    && At(At(document, "incident"), "requirement_status")
       == JString(match c.requirement
                  case Clear => "clear" case Ambiguous => "ambiguous" case Conflicting => "conflicting" case Unknown => "unknown")
    && At(At(At(document, "verification"), "oracle"), "independent") == JBool(c.oracleIndependent)
    && ReadsTrials(At(At(document, "verification"), "reproduction_trials"), "reproduced", c.reproduction)
    && ReadsHypotheses(At(At(document, "attribution"), "hypotheses"), c.hypotheses)
    && At(At(document, "proposed_change"), "component") == JString(ComponentName(c.component))
    && At(At(document, "proposed_change"), "changed_surface_count") == JInt(c.changedSurfaces)
    && At(At(document, "null_hypothesis"), "evidence_against").JArray?
    && |At(At(document, "null_hypothesis"), "evidence_against").items| == c.evidenceAgainst
    && ReadsControls(At(At(document, "validation"), "cases"), c.cases)
    && ReadsMetrics(At(At(document, "validation"), "metrics"), c.metrics)
  }

  // ---------------------------------------------------------------- section by section

  lemma TrialReads(value: Json, outcome: string)
    requires Doc.TrialIn(value, outcome).issues == []
    ensures var t := Doc.TrialIn(value, outcome).value; IsText(At(value, "id"), t.id) && At(value, outcome) == JBool(t.passed)
  {
    hide Paths.Strip;
  }

  lemma TrialsRead(value: Json, outcome: string)
    requires Doc.RowsIn(value, Doc.ParseTrial(outcome), Doc.TrialId).issues == []
    ensures ReadsTrials(value, outcome, Map(Doc.RowsIn(value, Doc.ParseTrial(outcome), Doc.TrialId).value, TrialView))
  {
    hide Doc.TrialIn, IsText, At, Doc.AllIn;
    Doc.AllClean(value.items, Doc.ParseTrial(outcome));
    forall i | 0 <= i < |value.items|
      ensures var t := Doc.AllIn(value.items, Doc.ParseTrial(outcome)).value[i];
              IsText(At(value.items[i], "id"), t.id) && At(value.items[i], outcome) == JBool(t.passed)
    {
      TrialReads(value.items[i], outcome);
    }
  }

  lemma InterventionReads(value: Json)
    requires Doc.ParseIntervention(value).issues == []
    ensures ReadsIntervention(value, InterventionView(Doc.ParseIntervention(value).value))
  {
    hide Doc.RowsIn, Doc.StringIn, Doc.StringsIn, ReadsTrials, Map;
    TrialsRead(At(value, "trials"), "failure_resolved");
  }

  lemma NameRead(value: Json)
    requires Doc.EnumIn(value, ComponentNames()).issues == []
    ensures value == JString(ComponentName(ComponentNamed(Doc.EnumIn(value, ComponentNames()).value)))
  {
    hide ComponentName, ComponentNamed;
    ComponentNamesAgree(value.s);
  }

  lemma HypothesisReads(value: Json)
    requires Doc.ParseHypothesis(value).issues == []
    ensures ReadsHypothesis(value, HypothesisView(Doc.ParseHypothesis(value).value))
  {
    hide Doc.EnumIn, Doc.StringsIn, Doc.ParseIntervention, ReadsIntervention, InterventionView, ComponentName, ComponentNamed,
      ComponentNames;
    Doc.EnumsExist();
    NameRead(At(value, "component"));
    if At(value, "intervention") != JNull { InterventionReads(At(value, "intervention")); }
  }

  lemma HypothesesRead(value: Json)
    requires Doc.ParseAttribution(value).issues == []
    ensures ReadsHypotheses(At(value, "hypotheses"), Map(Doc.ParseAttribution(value).value.hypotheses, HypothesisView))
  {
    hide Doc.ParseHypothesis, ReadsHypothesis, HypothesisView, Doc.AllIn;
    var rows := At(value, "hypotheses");
    assert rows.JArray?;
    Doc.AllClean(rows.items, Doc.ParseHypothesis);
    forall i | 0 <= i < |rows.items|
      ensures ReadsHypothesis(rows.items[i], HypothesisView(Doc.AllIn(rows.items, Doc.ParseHypothesis).value[i]))
    {
      HypothesisReads(rows.items[i]);
    }
  }

  lemma ControlReads(value: Json)
    requires Doc.ParseControl(value).issues == []
    ensures ReadsControl(value, ControlView(Doc.ParseControl(value).value))
  {
    hide Paths.Strip;
  }

  lemma ControlsRead(value: Json)
    requires Doc.RowsIn(value, Doc.ParseControl, Doc.ControlId).issues == []
    ensures ReadsControls(value, Map(Doc.RowsIn(value, Doc.ParseControl, Doc.ControlId).value, ControlView))
  {
    hide Doc.ParseControl, ReadsControl, ControlView, Doc.AllIn;
    Doc.AllClean(value.items, Doc.ParseControl);
    forall i | 0 <= i < |value.items|
      ensures ReadsControl(value.items[i], ControlView(Doc.AllIn(value.items, Doc.ParseControl).value[i]))
    {
      ControlReads(value.items[i]);
    }
  }

  lemma SnapshotReads(value: Json)
    requires Doc.ParseSnapshot(value).issues == []
    ensures ReadsSnapshot(value, SnapshotView(Doc.ParseSnapshot(value).value))
  {
  }

  lemma MetricsRead(value: Json)
    requires Doc.OptionalIn(value, Doc.ParseMetrics).issues == []
    ensures var metrics := Doc.OptionalIn(value, Doc.ParseMetrics).value;
            ReadsMetrics(value, if metrics.None? then None else Some(MetricsView(metrics.value)))
  {
    hide Doc.ParseSnapshot, ReadsSnapshot, SnapshotView;
    if value != JNull {
      SnapshotReads(At(value, "baseline"));
      SnapshotReads(At(value, "candidate"));
    }
  }

  lemma ValidationReads(value: Json)
    requires Doc.ParseValidation(value).issues == []
    ensures var v := Doc.ParseValidation(value).value;
            && ReadsControls(At(value, "cases"), Map(v.cases, ControlView))
            && ReadsMetrics(At(value, "metrics"), if v.metrics.None? then None else Some(MetricsView(v.metrics.value)))
  {
    hide Doc.RowsIn, Doc.OptionalIn, ReadsControls, ReadsMetrics, MetricsView, Map;
    ControlsRead(At(value, "cases"));
    MetricsRead(At(value, "metrics"));
  }

  lemma IncidentReads(value: Json)
    requires Doc.ParseIncident(value).issues == []
    ensures At(value, "requirement_status")
            == JString(match RequirementNamed(Doc.ParseIncident(value).value.requirement)
                       case Clear => "clear" case Ambiguous => "ambiguous" case Conflicting => "conflicting" case Unknown => "unknown")
  {
    hide Doc.StringIn, Doc.StringsIn;
  }

  lemma VerificationReads(value: Json)
    requires Doc.ParseVerification(value).issues == []
    ensures var v := Doc.ParseVerification(value).value;
            && At(At(value, "oracle"), "independent") == JBool(v.oracle.independent)
            && ReadsTrials(At(value, "reproduction_trials"), "reproduced", Map(v.trials, TrialView))
  {
    hide Doc.RowsIn, Doc.StringIn, Doc.StringsIn, Doc.EnumIn, ReadsTrials, Map;
    Doc.EnumsExist();
    TrialsRead(At(value, "reproduction_trials"), "reproduced");
  }

  lemma ProposalReads(value: Json)
    requires Doc.ParseProposal(value).issues == []
    ensures var r := Doc.ParseProposal(value).value;
            && At(value, "component") == JString(ComponentName(ComponentNamed(r.component)))
            && At(value, "changed_surface_count") == JInt(r.surfaces)
  {
    hide Doc.StringIn, Doc.StringsIn, Doc.EnumIn, ComponentName, ComponentNamed, ComponentNames;
    Doc.EnumsExist();
    NameRead(At(value, "component"));
  }

  lemma NullHypothesisReads(value: Json)
    requires Doc.ParseNullHypothesis(value).issues == []
    ensures At(value, "evidence_against").JArray?
    ensures |At(value, "evidence_against").items| == |Doc.ParseNullHypothesis(value).value.against|
  {
    hide Doc.StringIn, Doc.AllIn;
    var strings := At(value, "evidence_against");
    assert Doc.StringsIn(strings, 0).issues == [];
    Doc.AllClean(strings.items, Doc.StringIn);
  }

  /** Which texts are case identifiers. */
  lemma CaseIdIsExact(value: Json)
    ensures Doc.RuledIn(value, Doc.IsId, Doc.BadCaseId).issues == [] <==> value.JString? && StrictParsers.SafeId(Paths.Strip(value.s))
  {
    hide Paths.Strip;
  }

  /** What the gate reviews of an accepted document is what the document says,
      place by place. */
  lemma GateReadsDocument(isTimestamp: string -> bool, document: Json)
    requires Doc.ParseCase(isTimestamp, document).issues == []
    ensures ReadsCase(document, GateView(Doc.ParseCase(isTimestamp, document).value))
  {
    hide Doc.ParseIncident, Doc.ParseVerification, Doc.ParseAttribution, Doc.ParseProposal, Doc.ParseNullHypothesis,
      Doc.ParseValidation, Doc.HeaderFrom, ReadsTrials, ReadsHypotheses, ReadsControls, ReadsMetrics, Map, RequirementNamed,
      ComponentName, ComponentNamed, MetricsView;
    IncidentReads(At(document, "incident"));
    VerificationReads(At(document, "verification"));
    HypothesesRead(At(document, "attribution"));
    ProposalReads(At(document, "proposed_change"));
    NullHypothesisReads(At(document, "null_hypothesis"));
    ValidationReads(At(document, "validation"));
  }
}
