/** The parts of a parsed change case that the gate reads: from the records of
    src/causure/models.py to the evidence that src/causure/engine.py reviews. */
module CaseView {
  import opened Vocabulary
  import opened Sequences
  import opened JsonTree
  import Paths
  import Doc = CaseDocument
  import opened Engine
  import opened GateLimits

  // ---------------------------------------------------------------- names of enumeration members

  function ComponentNamed(name: string): HarnessComponent {
    if name == "system_prompt" then SystemPrompt
    else if name == "tool_description" then ToolDescription
    else if name == "tool_schema" then ToolSchema
    else if name == "model_routing" then ModelRouting
    else if name == "retrieval_configuration" then RetrievalConfiguration
    else if name == "reviewer" then Reviewer
    else if name == "verification_step" then VerificationStep
    else if name == "retry_policy" then RetryPolicy
    else if name == "stopping_policy" then StoppingPolicy
    else if name == "memory_policy" then MemoryPolicy
    else if name == "tool_implementation" then ToolImplementation
    else if name == "evaluator" then Evaluator
    else if name == "environment" then Environment
    else if name == "model_reasoning" then ModelReasoning
    else if name == "requirement" then Requirement
    else Other
  }

  function ComponentName(component: HarnessComponent): string {
    match component
    case SystemPrompt => "system_prompt"
    case ToolDescription => "tool_description"
    case ToolSchema => "tool_schema"
    case ModelRouting => "model_routing"
    case RetrievalConfiguration => "retrieval_configuration"
    case Reviewer => "reviewer"
    case VerificationStep => "verification_step"
    case RetryPolicy => "retry_policy"
    case StoppingPolicy => "stopping_policy"
    case MemoryPolicy => "memory_policy"
    case ToolImplementation => "tool_implementation"
    case Evaluator => "evaluator"
    case Environment => "environment"
    case ModelReasoning => "model_reasoning"
    case Requirement => "requirement"
    case Other => "other"
  }

  function RequirementNamed(name: string): RequirementStatus {
    if name == "clear" then Clear
    else if name == "ambiguous" then Ambiguous
    else if name == "conflicting" then Conflicting
    else Unknown
  }

  function KindNamed(name: string): ValidationKind {
    if name == "positive" then Positive else if name == "negative" then Negative else Regression
  }

  /** Each name stands for one component, and each component for one name. */
  lemma ComponentNamesAgree(name: string)
    requires name in ComponentNames()
    ensures ComponentName(ComponentNamed(name)) == name
  {
    var i :| 0 <= i < 16 && ComponentNames()[i] == name;
    hide ComponentName, ComponentNamed;
    NamedAt(i);
  }

  lemma NamedAt(i: nat)
    requires i < 16
    ensures ComponentName(ComponentNamed(ComponentNames()[i])) == ComponentNames()[i]
  {
  }

  // ---------------------------------------------------------------- the view

  function TrialView(t: Doc.Trial): Trial { Trial(t.id, t.passed) }

  function InterventionView(i: Doc.Intervention): Intervention {
    Intervention(i.isolated, Map(i.trials, TrialView))
  }

  function HypothesisView(h: Doc.Hypothesis): Hypothesis {
    Hypothesis(ComponentNamed(h.component), h.confidence,
               if h.intervention.None? then None else Some(InterventionView(h.intervention.value)))
  }

  function ControlView(c: Doc.Control): ValidationCase {
    ValidationCase(c.id, KindNamed(c.kind), c.critical, c.baseline, c.candidate)
  }

  function SnapshotView(s: Doc.Snapshot): Snapshot { Snapshot(s.latency, s.cost) }

  function MetricsView(m: Doc.Metrics): Metrics {
    Metrics(SnapshotView(m.baseline), SnapshotView(m.candidate))
  }

  function GateView(c: Doc.CaseRecord): ChangeCase {
    ChangeCase(
      RequirementNamed(c.incident.requirement), c.verification.oracle.independent,
      Map(c.verification.trials, TrialView), Map(c.hypotheses, HypothesisView),
      ComponentNamed(c.proposal.component), c.proposal.surfaces, |c.nullHypothesis.against|,
      Map(c.validation.cases, ControlView),
      if c.validation.metrics.None? then None else Some(MetricsView(c.validation.metrics.value)))
  }

  // ---------------------------------------------------------------- a parsed case

  lemma TrialsView(trials: seq<Doc.Trial>)
    requires Doc.CleanRows(trials, Doc.CleanTrial, Doc.TrialId)
    ensures ParsedTrials(Map(trials, TrialView))
  {
    hide Paths.Strip;
    var ids := Map(Map(trials, TrialView), TrialId);
    assert ids == Map(trials, Doc.TrialId);
  }

  lemma HypothesesView(hypotheses: seq<Doc.Hypothesis>)
    requires Doc.CleanRows(hypotheses, Doc.CleanHypothesis, Doc.HypothesisComponent)
    ensures ParsedHypotheses(Map(hypotheses, HypothesisView))
  {
    hide ComponentNamed, ComponentNames, Doc.CleanStrings, Doc.CleanRows, ParsedTrials, TrialView;
    var names, view := Map(hypotheses, Doc.HypothesisComponent), Map(hypotheses, HypothesisView);
    forall i | 0 <= i < |view|
      ensures IsRate(view[i].confidence) && (view[i].intervention.Some? ==> ParsedTrials(view[i].intervention.value.trials))
    {
      RowIsClean(hypotheses, i);
      if hypotheses[i].intervention.Some? {
        TrialsView(hypotheses[i].intervention.value.trials);
      }
    }
    forall i, j | 0 <= i < j < |view| ensures view[i].component != view[j].component {
      RowIsClean(hypotheses, i);
      RowIsClean(hypotheses, j);
      RowsDiffer(hypotheses, i, j);
      ComponentNamesAgree(names[i]);
      ComponentNamesAgree(names[j]);
    }
    assert forall i :: 0 <= i < |view| ==> Map(view, ComponentOf)[i] == view[i].component;
  }

  lemma RowIsClean(hypotheses: seq<Doc.Hypothesis>, i: nat)
    requires Doc.CleanRows(hypotheses, Doc.CleanHypothesis, Doc.HypothesisComponent) && i < |hypotheses|
    ensures Doc.CleanHypothesis(hypotheses[i])
  {
  }

  lemma RowsDiffer(hypotheses: seq<Doc.Hypothesis>, i: nat, j: nat)
    requires Doc.CleanRows(hypotheses, Doc.CleanHypothesis, Doc.HypothesisComponent) && i < j < |hypotheses|
    ensures hypotheses[i].component != hypotheses[j].component
  {
    hide Doc.CleanHypothesis;
    var names := Map(hypotheses, Doc.HypothesisComponent);
    assert names[i] != names[j];
  }

  lemma ControlsView(cases: seq<Doc.Control>)
    requires Doc.CleanRows(cases, Doc.CleanControl, Doc.ControlId)
    ensures ParsedControls(Map(cases, ControlView))
  {
    hide Paths.Strip, KindNamed, Doc.ControlKinds;
    var ids := Map(Map(cases, ControlView), ControlId);
    assert ids == Map(cases, Doc.ControlId);
  }

  /** What the gate reads of an accepted document is a case that the theorems on
      parsed cases are about. */
  lemma AcceptedCaseIsParsed(isTimestamp: string -> bool, value: Json)
    requires Doc.ParseCase(isTimestamp, value).issues == []
    ensures ParsedCase(GateView(Doc.ParseCase(isTimestamp, value).value))
  {
    hide Doc.ParseCase, Doc.CleanRows, Doc.CleanString, Doc.CleanStrings, ParsedTrials, ParsedHypotheses, ParsedControls;
    var c := Doc.ParseCase(isTimestamp, value).value;
    Doc.ParsedCaseIsClean(isTimestamp, value);
    TrialsView(c.verification.trials);
    HypothesesView(c.hypotheses);
    ControlsView(c.validation.cases);
  }

  // ---------------------------------------------------------------- every parsed case has a document

  function RequirementName(status: RequirementStatus): string {
    match status
    case Clear => "clear"
    case Ambiguous => "ambiguous"
    case Conflicting => "conflicting"
    case Unknown => "unknown"
  }

  function KindName(kind: ValidationKind): string {
    match kind
    case Positive => "positive"
    case Negative => "negative"
    case Regression => "regression"
  }

  const TEXT := "text"

  function TrialRecord(t: Trial): Doc.Trial { Doc.Trial(t.id, t.passed, TEXT) }

  function InterventionRecord(i: Intervention): Doc.Intervention {
    Doc.Intervention(TEXT, i.isolated, [TEXT], Map(i.trials, TrialRecord))
  }

  function HypothesisRecord(h: Hypothesis): Doc.Hypothesis {
    Doc.Hypothesis(ComponentName(h.component), h.confidence, [TEXT],
                   if h.intervention.None? then None else Some(InterventionRecord(h.intervention.value)))
  }

  function ControlRecord(v: ValidationCase): Doc.Control {
    Doc.Control(v.id, KindName(v.kind), v.critical, v.baselinePassed, v.candidatePassed, TEXT)
  }

  function SnapshotRecord(s: Snapshot): Doc.Snapshot { Doc.Snapshot(s.latency, s.cost, None) }

  function MetricsRecord(m: Metrics): Doc.Metrics {
    Doc.Metrics(SnapshotRecord(m.baseline), SnapshotRecord(m.candidate))
  }

  /** A record with this evidence and filler text elsewhere. */
  function RecordOf(c: ChangeCase, createdAt: string): Doc.CaseRecord {
    Doc.CaseRecord(
      "1.0", TEXT, TEXT, createdAt,
      Doc.Incident(TEXT, TEXT, TEXT, "low", RequirementName(c.requirement), [TEXT]),
      Doc.Verification(Doc.Oracle("custom", TEXT, c.oracleIndependent, [TEXT]), Map(c.reproduction, TrialRecord)),
      Map(c.hypotheses, HypothesisRecord),
      Doc.Proposal(ComponentName(c.component), TEXT, TEXT, [TEXT], [], c.changedSurfaces, TEXT),
      Doc.NullHypothesis(TEXT, seq(c.evidenceAgainst, (i: nat) => Name(i))),
      Doc.Validation(Map(c.cases, ControlRecord), if c.metrics.None? then None else Some(MetricsRecord(c.metrics.value))))
  }

  lemma ComponentsAgree(component: HarnessComponent)
    ensures ComponentNamed(ComponentName(component)) == component && ComponentName(component) in ComponentNames()
  {
    var names := ComponentNames();
    match component
    case SystemPrompt => assert names[0] == ComponentName(component);
    case ToolDescription => assert names[1] == ComponentName(component);
    case ToolSchema => assert names[2] == ComponentName(component);
    case ModelRouting => assert names[3] == ComponentName(component);
    case RetrievalConfiguration => assert names[4] == ComponentName(component);
    case Reviewer => assert names[5] == ComponentName(component);
    case VerificationStep => assert names[6] == ComponentName(component);
    case RetryPolicy => assert names[7] == ComponentName(component);
    case StoppingPolicy => assert names[8] == ComponentName(component);
    case MemoryPolicy => assert names[9] == ComponentName(component);
    case ToolImplementation => assert names[10] == ComponentName(component);
    case Evaluator => assert names[11] == ComponentName(component);
    case Environment => assert names[12] == ComponentName(component);
    case ModelReasoning => assert names[13] == ComponentName(component);
    case Requirement => assert names[14] == ComponentName(component);
    case Other => assert names[15] == ComponentName(component);
  }

  lemma KindsAgree(kind: ValidationKind)
    ensures KindNamed(KindName(kind)) == kind && KindName(kind) in Doc.ControlKinds()
  {
    var kinds := Doc.ControlKinds();
    assert kinds[0] == "positive" && kinds[1] == "negative" && kinds[2] == "regression";
  }

  lemma RequirementsAgree(status: RequirementStatus)
    ensures RequirementNamed(RequirementName(status)) == status && RequirementName(status) in Doc.Requirements()
  {
    var names := Doc.Requirements();
    assert names[0] == "clear" && names[1] == "ambiguous" && names[2] == "conflicting" && names[3] == "unknown";
  }

  lemma TextIsClean()
    ensures Doc.CleanString(TEXT) && Doc.CleanStrings([TEXT], 1) && Doc.CleanStrings([], 0)
  {
    hide Paths.Strip, Paths.StripLeft, Paths.StripRight;
    assert !Paths.IsSpace('t');
    Paths.Unstripped(TEXT);
  }

  lemma TrialRecords(trials: seq<Trial>)
    requires ParsedTrials(trials)
    ensures var records := Map(trials, TrialRecord);
            Doc.CleanRows(records, Doc.CleanTrial, Doc.TrialId) && Map(records, TrialView) == trials
  {
    hide Paths.Strip;
    TextIsClean();
    var records := Map(trials, TrialRecord);
    assert Map(records, Doc.TrialId) == Map(trials, TrialId);
  }

  lemma ControlRecords(cases: seq<ValidationCase>)
    requires ParsedControls(cases)
    ensures var records := Map(cases, ControlRecord);
            Doc.CleanRows(records, Doc.CleanControl, Doc.ControlId) && Map(records, ControlView) == cases
  {
    hide Paths.Strip, KindName, KindNamed, Doc.ControlKinds;
    TextIsClean();
    var records := Map(cases, ControlRecord);
    forall i | 0 <= i < |cases| ensures Doc.CleanControl(records[i]) && ControlView(records[i]) == cases[i] {
      KindsAgree(cases[i].kind);
    }
    assert Map(records, Doc.ControlId) == Map(cases, ControlId);
  }

  lemma HypothesisAgrees(h: Hypothesis)
    requires IsRate(h.confidence) && (h.intervention.Some? ==> ParsedTrials(h.intervention.value.trials))
    ensures Doc.CleanHypothesis(HypothesisRecord(h)) && HypothesisView(HypothesisRecord(h)) == h
  {
    hide ParsedTrials, ComponentName, ComponentNamed, ComponentNames, Doc.CleanRows, Doc.CleanString, Doc.CleanStrings, Map;
    TextIsClean();
    ComponentsAgree(h.component);
    if h.intervention.Some? { TrialRecords(h.intervention.value.trials); }
  }

  lemma HypothesisRecords(hypotheses: seq<Hypothesis>)
    requires ParsedHypotheses(hypotheses)
    ensures var records := Map(hypotheses, HypothesisRecord);
            Doc.CleanRows(records, Doc.CleanHypothesis, Doc.HypothesisComponent) && Map(records, HypothesisView) == hypotheses
  {
    hide ParsedTrials, ComponentName, ComponentNamed, Doc.CleanHypothesis, InterventionRecord, InterventionView;
    var records := Map(hypotheses, HypothesisRecord);
    forall i | 0 <= i < |hypotheses| ensures Doc.CleanHypothesis(records[i]) && HypothesisView(records[i]) == hypotheses[i] {
      HypothesisAgrees(hypotheses[i]);
    }
    forall i, j | 0 <= i < j < |records| ensures records[i].component != records[j].component {
      assert Map(hypotheses, ComponentOf)[i] != Map(hypotheses, ComponentOf)[j];
      ComponentsAgree(hypotheses[i].component);
      ComponentsAgree(hypotheses[j].component);
    }
  }

  lemma NamesAreClean(n: nat)
    ensures Doc.CleanStrings(seq(n, (i: nat) => Name(i)), 0)
  {
    hide Name, Paths.Strip;
    forall i | 0 <= i < n ensures Doc.CleanString(Name(i)) { NamesAreIds(i); }
    forall i, j | 0 <= i < j < n ensures Name(i) != Name(j) { NamesDiffer(i, j); }
  }

  lemma RecordIsClean(isTimestamp: string -> bool, c: ChangeCase, createdAt: string)
    requires ParsedCase(c) && Doc.CleanRuled(createdAt, isTimestamp)
    ensures Doc.CleanCase(isTimestamp, RecordOf(c, createdAt))
  {
    hide Doc.CleanRows, Doc.CleanString, Doc.CleanStrings, ParsedTrials, ParsedHypotheses, ParsedControls, Map, ComponentName,
      ComponentNames, RequirementName, Doc.Requirements, Name;
    TextIsClean();
    TrialRecords(c.reproduction);
    HypothesisRecords(c.hypotheses);
    ControlRecords(c.cases);
    NamesAreClean(c.evidenceAgainst);
    ComponentsAgree(c.component);
    RequirementsAgree(c.requirement);
    HeaderIsClean(isTimestamp, c, createdAt);
    assert Doc.Severities()[0] == "low" && Doc.OracleKinds()[5] == "custom";
  }

  lemma HeaderIsClean(isTimestamp: string -> bool, c: ChangeCase, createdAt: string)
    requires Doc.CleanRuled(createdAt, isTimestamp)
    ensures Doc.CleanHeader(isTimestamp, RecordOf(c, createdAt))
  {
    hide Paths.Strip, Paths.StripLeft, Paths.StripRight;
    TextIsClean();
    assert !Paths.IsSpace('1') && !Paths.IsSpace('0');
    Paths.Unstripped("1.0");
  }

  lemma RecordIsSeen(c: ChangeCase, createdAt: string)
    requires ParsedCase(c)
    ensures GateView(RecordOf(c, createdAt)) == c
  {
    hide Doc.CleanRows, ParsedTrials, ParsedHypotheses, ParsedControls, Map, ComponentName, ComponentNamed, RequirementName,
      RequirementNamed, Name;
    TrialRecords(c.reproduction);
    HypothesisRecords(c.hypotheses);
    ControlRecords(c.cases);
    ComponentsAgree(c.component);
    RequirementsAgree(c.requirement);
  }

  /** The parsed cases are exactly what the gate reads of accepted documents. */
  lemma ParsedCasesAreAccepted(isTimestamp: string -> bool, createdAt: string, c: ChangeCase)
    requires Doc.CleanRuled(createdAt, isTimestamp)
    ensures ParsedCase(c) <==>
              exists document :: Doc.ParseCase(isTimestamp, document).issues == []
                                 && GateView(Doc.ParseCase(isTimestamp, document).value) == c
  {
    hide ParsedCase, Doc.ParseCase, Doc.CleanCase, GateView, RecordOf, Doc.PrintCase, Doc.CleanRuled;
    if ParsedCase(c) {
      RecordIsClean(isTimestamp, c, createdAt);
      Doc.PrintedCase(isTimestamp, RecordOf(c, createdAt));
      RecordIsSeen(c, createdAt);
      assert Doc.ParseCase(isTimestamp, Doc.PrintCase(RecordOf(c, createdAt))).issues == [];
    }
    if document :| Doc.ParseCase(isTimestamp, document).issues == [] && GateView(Doc.ParseCase(isTimestamp, document).value) == c {
      AcceptedCaseIsParsed(isTimestamp, document);
    }
  }
}
